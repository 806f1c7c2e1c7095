/**
 * The logger: a verbosity level and one output channel per message level;
 * a channel writes to the console exactly when the verbosity is at least
 * its level.
 */
module Logging {
  import opened Wrappers

  datatype Level = QUIET | FATAL | ERROR | WARNING | INFO | DEBUG0 | DEBUG1

  /** The level's numeric value, 0 for QUIET up to 6 for DEBUG1. */
  function Ord(l: Level): nat
  {
    match l
    case QUIET => 0
    case FATAL => 1
    case ERROR => 2
    case WARNING => 3
    case INFO => 4
    case DEBUG0 => 5
    case DEBUG1 => 6
  }

  /** The level with numeric value n, for n in 0..6. */
  function LevelOf(n: int): (l: Level)
    requires 0 <= n <= 6
    ensures Ord(l) == n
  {
    if n == 0 then QUIET
    else if n == 1 then FATAL
    else if n == 2 then ERROR
    else if n == 3 then WARNING
    else if n == 4 then INFO
    else if n == 5 then DEBUG0
    else DEBUG1
  }

  /** LevelOf and Ord are inverse: the mapping of 0..6 onto the levels is one-to-one. */
  lemma LevelOfOrd(l: Level)
    ensures LevelOf(Ord(l)) == l
  {
  }

  /** The six output channels. */
  datatype Channel = FatalChannel | ErrorChannel | WarningChannel | InfoChannel | Debug0Channel | Debug1Channel

  /** The level of the messages a channel carries. */
  function ChannelLevel(c: Channel): Level
  {
    match c
    case FatalChannel => FATAL
    case ErrorChannel => ERROR
    case WarningChannel => WARNING
    case InfoChannel => INFO
    case Debug0Channel => DEBUG0
    case Debug1Channel => DEBUG1
  }

  /** Whether c writes at verbosity v. */
  predicate Open(v: Level, c: Channel)
  {
    Ord(v) >= Ord(ChannelLevel(c))
  }

  /** The channel fatal() returns as written: the ERROR level's. */
  function FatalAsWritten(): Channel
  {
    ErrorChannel
  }

  /** As written, fatal messages are dropped at verbosity FATAL, the level meant to show them. */
  lemma FatalAsWrittenSilentAtFatal()
    ensures !Open(FATAL, FatalAsWritten())
    ensures forall v :: Open(v, FatalAsWritten()) <==> Ord(v) >= Ord(ERROR)
  {
  }

  class Logger {
    var verbosity: Level
    var fatalOn: bool
    var errorOn: bool
    var warningOn: bool
    var infoOn: bool
    var debugOn: bool
    var debug1On: bool

    /** Whether channel c writes to the console. */
    function Enabled(c: Channel): bool
      reads this
    {
      match c
      case FatalChannel => fatalOn
      case ErrorChannel => errorOn
      case WarningChannel => warningOn
      case InfoChannel => infoOn
      case Debug0Channel => debugOn
      case Debug1Channel => debug1On
    }

    /** Every channel is open exactly when the verbosity reaches its level. */
    ghost predicate Valid()
      reads this
    {
      forall c :: Enabled(c) == Open(verbosity, c)
    }

    /** The logger starts at INFO. */
    constructor ()
      ensures Valid() && verbosity == INFO
      ensures forall c :: Enabled(c) <==> c != Debug0Channel && c != Debug1Channel
    {
      verbosity := INFO;
      fatalOn, errorOn, warningOn, infoOn, debugOn, debug1On := true, true, true, true, false, false;
    }

    method SetVerbosity(v: Level)
      modifies this
      ensures Valid() && verbosity == v
      ensures forall c :: Enabled(c) <==> Ord(v) >= Ord(ChannelLevel(c))
    {
      verbosity := v;
      fatalOn := Ord(v) >= Ord(FATAL);
      errorOn := Ord(v) >= Ord(ERROR);
      warningOn := Ord(v) >= Ord(WARNING);
      infoOn := Ord(v) >= Ord(INFO);
      debugOn := Ord(v) >= Ord(DEBUG0);
      debug1On := Ord(v) >= Ord(DEBUG1);
    }

    /** The numeric form: any other value than 0..6 leaves the level undefined in the C++ code. */
    method SetVerbosityInt(n: int)
      requires 0 <= n <= 6
      modifies this
      ensures Valid() && Ord(verbosity) == n
      ensures forall c :: Enabled(c) <==> n >= Ord(ChannelLevel(c))
    {
      var level := LevelOf(n);
      SetVerbosity(level);
    }

    function GetVerbosity(): (v: Level)
      reads this
      ensures v == verbosity
    {
      verbosity
    }

    /** The channel for fatal messages: the FATAL level's one. */
    function Fatal(): (c: Channel)
      reads this
      requires Valid()
      ensures ChannelLevel(c) == FATAL && (Enabled(c) <==> Ord(verbosity) >= 1)
    {
      FatalChannel
    }

    function Error(): (c: Channel)
      reads this
      requires Valid()
      ensures ChannelLevel(c) == ERROR && (Enabled(c) <==> Ord(verbosity) >= 2)
    {
      ErrorChannel
    }

    function Warning(): (c: Channel)
      reads this
      requires Valid()
      ensures ChannelLevel(c) == WARNING && (Enabled(c) <==> Ord(verbosity) >= 3)
    {
      WarningChannel
    }

    function Info(): (c: Channel)
      reads this
      requires Valid()
      ensures ChannelLevel(c) == INFO && (Enabled(c) <==> Ord(verbosity) >= 4)
    {
      InfoChannel
    }

    /** debug(0) and debug(1) are the two debug channels; any other level throws. */
    function Debug(debugLevel: int): (r: Result<Channel>)
      reads this
      requires Valid()
      ensures r.Ok? <==> debugLevel == 0 || debugLevel == 1
      ensures r.Ok? ==> Ord(ChannelLevel(r.value)) == 5 + debugLevel
                        && (Enabled(r.value) <==> Ord(verbosity) >= 5 + debugLevel)
    {
      if debugLevel == 0 then Ok(Debug0Channel)
      else if debugLevel == 1 then Ok(Debug1Channel)
      else Failure("Logger::debug() - invalid debug_level")
    }
  }
}
