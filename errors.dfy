/** The user-facing error kinds, their display strings and their HTTP status codes. */
module Errors {

  datatype Error = RoomNotFound | RoomAlreadyExist | RoomNameTooShort | UsernameTooShort

  /** The `Display` text of each variant: the three room errors speak of the room, the
      last one of the username. */
  function Message(e: Error): (m: string)
    ensures |m| > 9
    ensures m[..5] == "Room " <==> !e.UsernameTooShort?
    ensures m[..9] == "Username " <==> e.UsernameTooShort?
  {
    var m := match e
      case RoomNotFound => "Room not found"
      case RoomAlreadyExist => "Room already exists"
      case RoomNameTooShort => "Room name too short"
      case UsernameTooShort => "Username name too short";
    // The two prefixes already differ in their first letter.
    assert m[..5] == "Room " ==> m[..9][0] == 'R' != "Username "[0];
    assert m[..9] == "Username " ==> m[..5][0] == 'U' != "Room "[0];
    m
  }

  /** An HTTP status code in the 4xx class: the request, not the server, is at fault. */
  predicate IsClientError(code: nat)
  {
    400 <= code <= 499
  }

  /** `From<Error> for StatusCode`. */
  function StatusCode(e: Error): (code: nat)
    ensures IsClientError(code)
    ensures code == 404 <==> e == RoomNotFound
    ensures code == 409 <==> e == RoomAlreadyExist
    ensures code == 400 <==> e == RoomNameTooShort || e == UsernameTooShort
  {
    match e
    case RoomNotFound => 404
    case RoomAlreadyExist => 409
    case RoomNameTooShort => 400
    case UsernameTooShort => 400
  }

  /** Each variant displays its own text: no two variants share a message. */
  lemma MessagesDistinct(a: Error, b: Error)
    ensures Message(a) == Message(b) <==> a == b
  {
    if a != b {
      // The four texts differ in length, or else at index 5 ('a' against 'n').
      var ma, mb := Message(a), Message(b);
      if |ma| == |mb| {
        assert ma[5] != mb[5];
      }
    }
  }

  /** Only the two "too short" validation errors share a status code. */
  lemma StatusCodeSharedOnlyByValidation(a: Error, b: Error)
    requires a != b
    ensures StatusCode(a) == StatusCode(b) <==> {a, b} == {RoomNameTooShort, UsernameTooShort}
  {
  }
}
