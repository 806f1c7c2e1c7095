/**
 * The command line: `service [-p port]` puts the caster in service mode,
 * `play {file ip port} ...` creates one stream per triple, and `-v level`
 * sets the logger's verbosity. The option parser itself (boost's) is not
 * modelled: the command, its remaining arguments, the service port and the
 * verbosity reach Parse already separated.
 */
module Console {
  import opened Wrappers
  import opened Numerals
  import opened JsonValues
  import opened CasterStreams
  import opened Caster
  import opened Logging
  import DatagramsMuxing

  const DEFAULT_SERVICE_PORT: nat := 8080

  /** A path is accepted as it is. */
  function CheckPath(path: string): (r: string)
    ensures r == path
  {
    path
  }

  /** An address is accepted as it is. */
  function CheckIP(ipAddress: string): (r: string)
    ensures r == ipAddress
  {
    ipAddress
  }

  /** atoi's value, cast to 16 bits: no leading integer reads as 0. */
  function CheckPort(port: string): (r: nat)
    ensures r < U16
    ensures LeadingInteger(port).None? ==> r == 0
    ensures LeadingInteger(port).Some? ==> r == LeadingInteger(port).value % U16
  {
    Atoi(port) % U16
  }

  /** A port above 16 bits wraps: 70000 is 4464. */
  lemma CheckPortWraps()
    ensures CheckPort("70000") == 4464
  {
    AtoiOverPortRange();
  }

  /** A port that is not a number is 0. */
  lemma CheckPortOfText()
    ensures CheckPort("abc") == 0
  {
    AtoiWithoutDigits();
  }

  /** A 16-bit port written in decimal reads back as itself. */
  lemma CheckPortOfDecimal(port: nat)
    requires port < U16
    ensures CheckPort(DecimalString(port)) == port
  {
    LeadingIntegerOfDecimal(port, []);
    assert DecimalString(port) + [] == DecimalString(port);
  }

  /** The description of one play triple. */
  function PlayStream(file: string, ip: string, port: string): Json
  {
    JObject(map["source" := JString(CheckPath(file)),
                "endpoint" := JObject(map["ip" := JString(CheckIP(ip)), "port" := JInt(CheckPort(port))])])
  }

  /** The registry reads a play description back as the triple's file, address and truncated port. */
  lemma PlayStreamReadBack(file: string, ip: string, port: string)
    ensures SourceOf(PlayStream(file, ip, port)) == Ok(file)
    ensures EndpointOf(PlayStream(file, ip, port)) == Ok(DatagramsMuxing.Endpoint(ip, CheckPort(port)))
  {
    var j := PlayStream(file, ip, port);
    assert Member2(j, "endpoint", "ip") == Ok(JString(ip));
    assert Member2(j, "endpoint", "port") == Ok(JInt(CheckPort(port)));
  }

  const INCOMPLETE: string := "incomplete stream declaration: "

  /** Whether the registry accepts a description and its source opens. */
  predicate Creatable(request: Json, openError: Option<string>)
  {
    EndpointOf(request).Ok? && SourceOf(request).Ok? && openError.None?
  }

  /** How many creations succeeded. */
  function Successes(results: seq<Result<Json>>): (n: nat)
    ensures n <= |results|
  {
    if results == [] then 0 else Successes(results[..|results| - 1]) + (if results[|results| - 1].Ok? then 1 else 0)
  }

  /** What the command line ended in: a configured caster, an exit, or an exception. */
  datatype Outcome = Configured | Exited(message: string) | Threw(message: string)

  /** The command-line front end of a caster and the process's logger. */
  class ConsoleOptions {
    const caster: IPCaster
    const logger: Logger

    constructor (caster: IPCaster, logger: Logger)
      ensures this.caster == caster && this.logger == logger
    {
      this.caster := caster;
      this.logger := logger;
    }

    /**
     * One description per whole triple of arguments, in order; a trailing
     * group of one or two arguments gives none, and the error naming its
     * first argument instead.
     */
    method ParsePlay(args: seq<string>) returns (streams: seq<Json>, errors: seq<string>)
      ensures |streams| == |args| / 3
      ensures forall k :: 0 <= k < |streams| ==> streams[k] == PlayStream(args[3 * k], args[3 * k + 1], args[3 * k + 2])
      ensures |args| % 3 == 0 ==> errors == []
      ensures |args| % 3 != 0 ==> errors == [INCOMPLETE + args[|args| - |args| % 3]]
    {
      streams, errors := [], [];
      var i := 0;
      while i < |args|
        invariant i % 3 == 0 && i <= |args| + 2
        invariant i <= |args| ==> |streams| == i / 3 && errors == []
        invariant i > |args| ==> |streams| == |args| / 3 && i == |args| - |args| % 3 + 3
                                 && errors == [INCOMPLETE + args[|args| - |args| % 3]]
        invariant forall k :: 0 <= k < |streams| ==> streams[k] == PlayStream(args[3 * k], args[3 * k + 1], args[3 * k + 2])
        decreases |args| - i
      {
        if i + 3 <= |args| {
          streams := streams + [PlayStream(args[i], args[i + 1], args[i + 2])];
        } else {
          errors := errors + [INCOMPLETE + args[i]];
        }
        i := i + 3;
      }
    }

    /** Tries to create every stream, in order; a failure is logged and the others are still tried. */
    method SetupStreams(streams: seq<Json>, openErrors: seq<Option<string>>) returns (results: seq<Result<Json>>)
      requires caster.Valid() && |openErrors| == |streams|
      modifies caster, caster.ids
      ensures caster.Valid()
      ensures |results| == |streams|
      ensures forall k :: 0 <= k < |streams| ==> (results[k].Ok? <==> Creatable(streams[k], openErrors[k]))
      ensures |caster.streams| == |old(caster.streams)| + Successes(results)
      ensures caster.streams[..|old(caster.streams)|] == old(caster.streams)
      ensures caster.serviceMode == old(caster.serviceMode) && caster.mainLoopTimeoutMs == old(caster.mainLoopTimeoutMs)
    {
      results := [];
      var i := 0;
      while i < |streams|
        invariant 0 <= i <= |streams| && |results| == i && caster.Valid()
        invariant forall k :: 0 <= k < i ==> (results[k].Ok? <==> Creatable(streams[k], openErrors[k]))
        invariant |caster.streams| == |old(caster.streams)| + Successes(results)
        invariant caster.streams[..|old(caster.streams)|] == old(caster.streams)
        invariant caster.serviceMode == old(caster.serviceMode) && caster.mainLoopTimeoutMs == old(caster.mainLoopTimeoutMs)
      {
        ghost var before := caster.streams;
        var r, s := caster.CreateStream(streams[i], openErrors[i]);
        assert caster.streams[..|old(caster.streams)|] == before[..|old(caster.streams)|];
        assert r.Ok? <==> Creatable(streams[i], openErrors[i]);
        assert (results + [r])[..i] == results;
        assert Successes(results + [r]) == Successes(results) + (if r.Ok? then 1 else 0);
        results := results + [r];
        i := i + 1;
      }
    }

    /**
     * Applies a command line: `service` enters service mode on the given
     * port or 8080, `play` creates the streams of its arguments, any other
     * command does nothing; then a verbosity outside 0..6 exits and one
     * inside sets the logger. Without a command, reading it throws.
     */
    method Parse(command: Option<string>, args: seq<string>, port: Option<nat>, verbose: Option<int>,
                 openErrors: seq<Option<string>>) returns (outcome: Outcome, results: seq<Result<Json>>)
      requires caster.Valid() && logger.Valid()
      requires port.Some? ==> port.value < U16
      requires |openErrors| == |args| / 3
      modifies caster, caster.ids, logger
      ensures caster.Valid() && logger.Valid()
      ensures command.None? ==> outcome.Threw? && caster.streams == old(caster.streams)
                                && caster.serviceMode == old(caster.serviceMode) && logger.verbosity == old(logger.verbosity)
      ensures command == Some("service") ==>
                caster.serviceMode && caster.mainLoopTimeoutMs == 1000 && caster.streams == old(caster.streams)
                && caster.servicePort == (if port.Some? then port.value else DEFAULT_SERVICE_PORT)
      ensures command == Some("play") ==>
                && caster.serviceMode == old(caster.serviceMode) && |results| == |args| / 3
                && (forall k :: 0 <= k < |results| ==>
                      (results[k].Ok? <==> Creatable(PlayStream(args[3 * k], args[3 * k + 1], args[3 * k + 2]), openErrors[k])))
                && |caster.streams| == |old(caster.streams)| + Successes(results)
                && caster.streams[..|old(caster.streams)|] == old(caster.streams)
      ensures command != Some("play") ==> results == []
      ensures command.Some? && command.value != "service" && command.value != "play" ==>
                caster.streams == old(caster.streams) && caster.serviceMode == old(caster.serviceMode)
      ensures outcome == Configured <==> command.Some? && (verbose.None? || 0 <= verbose.value <= 6)
      ensures command.Some? && verbose.Some? && !(0 <= verbose.value <= 6) ==> outcome == Exited("Invalid verbose level")
      ensures outcome == Configured && verbose.Some? ==> Ord(logger.verbosity) == verbose.value
      ensures !(outcome == Configured && verbose.Some?) ==> logger.verbosity == old(logger.verbosity)
    {
      results := [];
      if command.None? {
        return Threw("no command"), results;
      }
      if command.value == "service" {
        var listeningPort := if port.Some? then port.value else DEFAULT_SERVICE_PORT;
        caster.SetServiceMode(true, listeningPort);
      } else if command.value == "play" {
        var streams, errors := ParsePlay(args);
        results := SetupStreams(streams, openErrors);
      }
      if verbose.Some? {
        if !(0 <= verbose.value <= 6) {
          return Exited("Invalid verbose level"), results;
        }
        logger.SetVerbosityInt(verbose.value);
      }
      outcome := Configured;
    }
  }
}
