/** Room-name clean-up: `sanitize` is `str::trim`, `sanitize_for_search` trims and lower-cases. */
module Utils {

  /** The Unicode White_Space property, which `str::trim` strips from both ends. */
  predicate IsWhitespace(c: char)
  {
    || ('\U{9}' <= c <= '\U{D}')
    || c == ' ' || c == '\U{85}' || c == '\U{A0}' || c == '\U{1680}'
    || ('\U{2000}' <= c <= '\U{200A}')
    || c == '\U{2028}' || c == '\U{2029}' || c == '\U{202F}' || c == '\U{205F}' || c == '\U{3000}'
  }

  predicate AllWhitespace(s: string)
  {
    forall i :: 0 <= i < |s| ==> IsWhitespace(s[i])
  }

  /** Neither end of `s` is whitespace (vacuously so for the empty string). */
  predicate Trimmed(s: string)
  {
    s == [] || (!IsWhitespace(s[0]) && !IsWhitespace(s[|s| - 1]))
  }

  /** The index of the first character at or after `i` that is not whitespace, or `|s|`
      when there is none: where the kept part of `s` starts. */
  function FirstKept(s: string, i: nat): (k: nat)
    requires i <= |s|
    ensures i <= k <= |s|
    ensures forall j :: i <= j < k ==> IsWhitespace(s[j])
    ensures k == |s| || !IsWhitespace(s[k])
    decreases |s| - i
  {
    if i < |s| && IsWhitespace(s[i]) then FirstKept(s, i + 1) else i
  }

  /** The index just past the last character before `j`, and not before `lo`, that is
      not whitespace (`lo` when there is none): where the kept part of `s` ends. */
  function EndOfKept(s: string, lo: nat, j: nat): (e: nat)
    requires lo <= j <= |s|
    ensures lo <= e <= j
    ensures forall x :: e <= x < j ==> IsWhitespace(s[x])
    ensures e == lo || !IsWhitespace(s[e - 1])
    decreases j
  {
    if lo < j && IsWhitespace(s[j - 1]) then EndOfKept(s, lo, j - 1) else j
  }

  /** How many whitespace characters `s` starts with. */
  function LeadingWhitespace(s: string): nat
  {
    FirstKept(s, 0)
  }

  /** `sanitize`: the contiguous slice of `s` left after stripping whitespace from both
      ends; everything between the first and last non-whitespace characters is kept. */
  function Sanitize(s: string): (r: string)
    ensures Trimmed(r)
    ensures LeadingWhitespace(s) + |r| <= |s|
    ensures r == s[LeadingWhitespace(s)..LeadingWhitespace(s) + |r|]
    ensures AllWhitespace(s[..LeadingWhitespace(s)])
    ensures AllWhitespace(s[LeadingWhitespace(s) + |r|..])
  {
    var k := FirstKept(s, 0);
    s[k..EndOfKept(s, k, |s|)]
  }

  /** ASCII lower-casing of one character. */
  function LowerChar(c: char): char
  {
    if 'A' <= c <= 'Z' then (c as int - 'A' as int + 'a' as int) as char else c
  }

  /** Lower-casing, modelled as ASCII case folding character by character. */
  function ToLower(s: string): (r: string)
    ensures |r| == |s|
    ensures forall i :: 0 <= i < |s| ==> r[i] == LowerChar(s[i])
  {
    seq(|s|, i requires 0 <= i < |s| => LowerChar(s[i]))
  }

  /** `sanitize_for_search`: the key a name is looked up by. Trimming first and
      lower-casing second gives the same key as the other way round, and the key has no
      whitespace at either end. */
  function SanitizeForSearch(s: string): (r: string)
    ensures r == Sanitize(ToLower(s))
    ensures |r| == |Sanitize(s)|
    ensures forall i :: 0 <= i < |r| ==> r[i] == LowerChar(Sanitize(s)[i])
    ensures Trimmed(r)
  {
    SanitizeToLowerCommute(s);
    ToLowerKeepsWhitespace(Sanitize(s));
    ToLower(Sanitize(s))
  }

  // ---------------------------------------------------------------------------
  // Trimming is characterised by its result: whitespace, then a trimmed core, then
  // whitespace. Everything below follows from that.
  // ---------------------------------------------------------------------------

  /** `sanitize` of whitespace, a trimmed core and whitespace is exactly that core:
      the result of `sanitize` is the only such core of its input. */
  lemma SanitizeOfPadded(left: string, core: string, right: string)
    requires AllWhitespace(left) && AllWhitespace(right)
    requires Trimmed(core)
    ensures Sanitize(left + core + right) == core
  {
    var s := left + core + right;
    var a, b := |left|, |left| + |core|;
    assert forall j :: 0 <= j < a ==> s[j] == left[j];
    assert forall j :: a <= j < b ==> s[j] == core[j - a];
    assert forall j :: b <= j < |s| ==> s[j] == right[j - b];
    var k := FirstKept(s, 0);
    if core == [] {
      assert k == |s|;
    } else {
      assert !IsWhitespace(s[a]) by { assert s[a] == core[0]; }
      assert !IsWhitespace(s[b - 1]) by { assert s[b - 1] == core[|core| - 1]; }
      assert s[a..b] == core;
    }
  }

  /** Every string splits into the whitespace `sanitize` strips, the core it keeps, and
      the whitespace after the core. */
  lemma SanitizeSplits(s: string)
    ensures s == s[..LeadingWhitespace(s)] + Sanitize(s) + s[LeadingWhitespace(s) + |Sanitize(s)|..]
  {
  }

  lemma AllWhitespaceConcat(a: string, b: string)
    requires AllWhitespace(a) && AllWhitespace(b)
    ensures AllWhitespace(a + b)
  {
  }

  /** `sanitize` is idempotent. */
  lemma SanitizeIdempotent(s: string)
    ensures Sanitize(Sanitize(s)) == Sanitize(s)
  {
    var r := Sanitize(s);
    assert [] + r + [] == r;
    SanitizeOfPadded([], r, []);
  }

  /** Whitespace around a name does not change what `sanitize` makes of it. */
  lemma SanitizeIgnoresPadding(left: string, s: string, right: string)
    requires AllWhitespace(left) && AllWhitespace(right)
    ensures Sanitize(left + s + right) == Sanitize(s)
  {
    var core := Sanitize(s);
    var i := LeadingWhitespace(s);
    var l, r := s[..i], s[i + |core|..];
    SanitizeSplits(s);
    Regroup(left, l, core, r, right);
    AllWhitespaceConcat(left, l);
    AllWhitespaceConcat(r, right);
    SanitizeOfPadded(left + l, core, r + right);
  }

  lemma Regroup(a: string, b: string, c: string, d: string, e: string)
    ensures a + (b + c + d) + e == (a + b) + c + (d + e)
  {
  }

  // ---------------------------------------------------------------------------
  // Lower-casing
  // ---------------------------------------------------------------------------

  lemma ToLowerIdempotent(s: string)
    ensures ToLower(ToLower(s)) == ToLower(s)
  {
  }

  lemma ToLowerConcat(a: string, b: string)
    ensures ToLower(a + b) == ToLower(a) + ToLower(b)
  {
  }

  /** Lower-casing neither creates nor removes whitespace at the ends. */
  lemma ToLowerKeepsWhitespace(s: string)
    ensures AllWhitespace(s) ==> AllWhitespace(ToLower(s))
    ensures Trimmed(s) ==> Trimmed(ToLower(s))
  {
  }

  /** Trimming and lower-casing commute. */
  lemma SanitizeToLowerCommute(s: string)
    ensures Sanitize(ToLower(s)) == ToLower(Sanitize(s))
  {
    var core := Sanitize(s);
    var i := LeadingWhitespace(s);
    var l, r := s[..i], s[i + |core|..];
    SanitizeSplits(s);
    ToLowerConcat(l + core, r);
    ToLowerConcat(l, core);
    ToLowerKeepsWhitespace(l);
    ToLowerKeepsWhitespace(r);
    ToLowerKeepsWhitespace(core);
    SanitizeOfPadded(ToLower(l), ToLower(core), ToLower(r));
  }

  /** A search key is its own search key. */
  lemma SearchKeyIdempotent(s: string)
    ensures SanitizeForSearch(SanitizeForSearch(s)) == SanitizeForSearch(s)
  {
    var k := SanitizeForSearch(s);
    assert [] + k + [] == k;
    SanitizeOfPadded([], k, []);
    ToLowerIdempotent(Sanitize(s));
  }

  /** Two names that differ only in letter case and in the whitespace around them
      have the same search key. */
  lemma SearchKeyIgnoresCaseAndPadding(left: string, a: string, right: string, b: string)
    requires AllWhitespace(left) && AllWhitespace(right)
    requires ToLower(a) == ToLower(b)
    ensures SanitizeForSearch(left + a + right) == SanitizeForSearch(b)
  {
    SanitizeIgnoresPadding(left, a, right);
    SanitizeToLowerCommute(a);
    SanitizeToLowerCommute(b);
  }
}
