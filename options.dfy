/** The command-line options, reduced to the verbosity count and its log level. */
module Options {

  /** Rust's `u8`. */
  newtype u8 = x: int | 0 <= x < 256

  /** `log::LevelFilter`. */
  datatype LevelFilter = Off | Error | Warn | Info | Debug | Trace

  /** How much a level lets through: `Off` nothing, `Trace` everything
      (the order of the filter's discriminants). */
  function Verbosity(level: LevelFilter): (v: nat)
    ensures v <= 5
    ensures v == 0 <==> level == Off
    ensures v == 5 <==> level == Trace
  {
    match level
    case Off => 0
    case Error => 1
    case Warn => 2
    case Info => 3
    case Debug => 4
    case Trace => 5
  }

  /** The order is strict: distinct levels have distinct ranks. */
  lemma VerbosityInjective(a: LevelFilter, b: LevelFilter)
    ensures Verbosity(a) == Verbosity(b) <==> a == b
  {
  }

  /** The parsed options; `logLevel` counts the `-v` flags. */
  datatype Options = Options(logLevel: u8)

  /** `Options::log_level`: each `-v` raises the level by one step from `Error`,
      up to `Trace`. */
  function LogLevel(options: Options): (level: LevelFilter)
    ensures level != Off
    ensures Verbosity(level) == (if options.logLevel < 4 then options.logLevel as nat else 4) + 1
  {
    match options.logLevel
    case 0 => Error
    case 1 => Warn
    case 2 => Info
    case 3 => Debug
    case _ => Trace
  }

  /** Every count from four up gives `Trace`: the mapping saturates. */
  lemma LogLevelSaturates(options: Options)
    ensures options.logLevel >= 4 <==> LogLevel(options) == Trace
  {
  }

  /** More `-v` flags never make the log less verbose. */
  lemma LogLevelMonotone(fewer: Options, more: Options)
    requires fewer.logLevel <= more.logLevel
    ensures Verbosity(LogLevel(fewer)) <= Verbosity(LogLevel(more))
  {
  }
}
