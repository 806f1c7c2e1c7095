/**
 * The older, jsoncpp-based stream registry. It keeps the same ordered list
 * as the cpprest one, but reads the description with jsoncpp's lenient
 * conversions (a missing ip is "", a missing port is 0), returns nothing
 * from a creation, and treats deleting an unknown id as a broken
 * precondition rather than an error.
 */
module CasterLegacy {
  import opened Wrappers
  import opened JsonValues
  import opened Observers
  import opened CasterStreams
  import opened Caster
  import DatagramsMuxing

  /** The destination of a description, read as jsoncpp does; the port is cast to 16 bits. */
  function LegacyEndpointOf(request: Json): (r: Result<DatagramsMuxing.Endpoint>)
    ensures r.Ok? ==> (request.JObject? || request.JNull?) && 0 <= r.value.port < U16
    ensures r.Ok? <==> (&& Member2(request, "endpoint", "ip").Ok?
                        && JsonCppAsString(Member2(request, "endpoint", "ip").value).Ok?
                        && Member2(request, "endpoint", "port").Ok?
                        && JsonCppAsUInt(Member2(request, "endpoint", "port").value).Ok?)
    ensures r.Ok? ==> r.value == DatagramsMuxing.Endpoint(JsonCppAsString(Member2(request, "endpoint", "ip").value).value,
                                                        JsonCppAsUInt(Member2(request, "endpoint", "port").value).value % U16)
    ensures request == JNull ==> r == Ok(DatagramsMuxing.Endpoint("", 0))
  {
    match Member2(request, "endpoint", "ip")
    case Failure(e) => Failure(e)
    case Ok(ipValue) =>
      match JsonCppAsString(ipValue)
      case Failure(e) => Failure(e)
      case Ok(ip) =>
        match Member2(request, "endpoint", "port")
        case Failure(e) => Failure(e)
        case Ok(portValue) =>
          match JsonCppAsUInt(portValue)
          case Failure(e) => Failure(e)
          case Ok(port) => Ok(DatagramsMuxing.Endpoint(ip, port % U16))
  }

  /** The source file of a description, read as jsoncpp does: a missing one is "". */
  function LegacySourceOf(request: Json): (r: Result<string>)
    ensures r.Ok? <==> Member(request, "source").Ok? && JsonCppAsString(Member(request, "source").value).Ok?
    ensures r.Ok? ==> r.value == JsonCppAsString(Member(request, "source").value).value
    ensures request == JNull ==> r == Ok("")
  {
    match Member(request, "source")
    case Failure(e) => Failure(e)
    case Ok(v) => JsonCppAsString(v)
  }

  class LegacyIPCaster {
    /** The streams, in creation order. */
    var streams: seq<Stream>
    var serverMode: bool
    var mainLoopTimeoutMs: nat
    /** The destinations of the streams opened in the muxer, in order. */
    var muxerStreams: seq<DatagramsMuxing.Endpoint>
    const ids: IDSingleton

    ghost predicate Valid()
      reads this, ids
    {
      ids.Valid() && AllValid(streams) && DistinctSources(streams)
    }

    /** A caster starts out of server mode with a 100 ms loop period. */
    constructor (ids: IDSingleton)
      requires ids.Valid()
      ensures Valid() && this.ids == ids && streams == [] && muxerStreams == []
      ensures !serverMode && mainLoopTimeoutMs == 100
    {
      this.ids := ids;
      streams := [];
      muxerStreams := [];
      serverMode := false;
      mainLoopTimeoutMs := 100;
    }

    /**
     * Creates and starts a stream. Past a readable destination the muxer
     * stream stays even when the source cannot be read or opened; on
     * success the new stream is last in the list, observed and started.
     */
    method CreateStream(request: Json, sourceError: Option<string>) returns (r: Result<()>, ghost s: Stream?)
      requires Valid()
      modifies this, ids
      ensures Valid()
      ensures LegacyEndpointOf(request).Failure? ==>
                r.Failure? && streams == old(streams) && muxerStreams == old(muxerStreams) && ids.uid == old(ids.uid)
      ensures LegacyEndpointOf(request).Ok? ==> muxerStreams == old(muxerStreams) + [LegacyEndpointOf(request).value]
      ensures LegacyEndpointOf(request).Ok? && (LegacySourceOf(request).Failure? || sourceError.Some?) ==>
                r.Failure? && streams == old(streams) && ids.uid == old(ids.uid)
      ensures r.Ok? <==> LegacyEndpointOf(request).Ok? && LegacySourceOf(request).Ok? && sourceError.None?
      ensures r.Ok? ==> (&& s != null && streams == old(streams) + [s]
                         && s.id == old(ids.uid) && ids.uid == (old(ids.uid) + 1) % U32
                         && s.json == Described(request, s.id)
                         && s.source.path == LegacySourceOf(request).value
                         && s.source.calls == [ObserverAttached(s.id), Started]
                         && s.subject.observers == [Entry(s.id, true)])
      ensures serverMode == old(serverMode) && mainLoopTimeoutMs == old(mainLoopTimeoutMs)
      ensures old(IdsIncreasing(streams, ids.uid)) && old(ids.uid) + 1 < U32 ==> IdsIncreasing(streams, ids.uid)
    {
      s := null;
      var endpoint := LegacyEndpointOf(request);
      if endpoint.Failure? {
        return Failure(endpoint.message), s;
      }
      muxerStreams := muxerStreams + [endpoint.value];
      var path := LegacySourceOf(request);
      if path.Failure? {
        return Failure(path.message), s;
      }
      if sourceError.Some? {
        return Failure(sourceError.value), s;
      }
      var stream := AddStream(request, path.value);
      r, s := Ok(()), stream;
    }

    /** The part of a creation past the parsing: the stream is made, wired up, listed and started. */
    method AddStream(request: Json, path: string) returns (stream: Stream)
      requires Valid() && (request.JObject? || request.JNull?)
      modifies this, ids
      ensures Valid() && fresh(stream) && fresh(stream.source) && fresh(stream.subject)
      ensures streams == old(streams) + [stream]
      ensures stream.id == old(ids.uid) && ids.uid == (old(ids.uid) + 1) % U32
      ensures stream.json == Described(request, stream.id) && stream.source.path == path
      ensures stream.source.calls == [ObserverAttached(stream.id), Started]
      ensures stream.subject.observers == [Entry(stream.id, true)]
      ensures muxerStreams == old(muxerStreams) && serverMode == old(serverMode)
      ensures mainLoopTimeoutMs == old(mainLoopTimeoutMs)
      ensures old(IdsIncreasing(streams, ids.uid)) && old(ids.uid) + 1 < U32 ==> IdsIncreasing(streams, ids.uid)
    {
      var source := new Source(path);
      stream := new Stream(request, source, ids);
      source.AttachObserver(stream.id);
      stream.subject.AttachObserverStrong(stream.id);
      if IdsIncreasing(streams, old(ids.uid)) && old(ids.uid) + 1 < U32 {
        IdsIncreasingAppend(streams, stream, old(ids.uid));
      }
      AppendKeepsValid(streams, stream);
      streams := streams + [stream];
      stream.Start();
    }

    /** Stops and removes the first stream with that id, which must be listed; the others keep their order. */
    method DeleteStream(id: nat, flush: bool)
      requires Valid() && FindStream(streams, id).Some?
      modifies this, set k | 0 <= k < |streams| :: streams[k].source
      ensures Valid()
      ensures var i := FindStream(old(streams), id).value;
              && streams == old(streams)[..i] + old(streams)[i + 1..]
              && old(streams)[i].source.calls == old(streams[i].source.calls) + [Stopped(flush)]
      ensures forall k :: 0 <= k < |old(streams)| && old(streams)[k].id != id ==>
                old(streams)[k].source.calls == old(streams[k].source.calls)
      ensures muxerStreams == old(muxerStreams) && serverMode == old(serverMode)
      ensures mainLoopTimeoutMs == old(mainLoopTimeoutMs)
      ensures old(IdsIncreasing(streams, ids.uid)) ==> IdsIncreasing(streams, ids.uid)
    {
      var i := FindStream(streams, id).value;
      streams[i].Stop(flush);
      if IdsIncreasing(streams, ids.uid) {
        IdsIncreasingRemove(streams, ids.uid, i);
      }
      RemoveKeepsValid(streams, i);
      streams := streams[..i] + streams[i + 1..];
    }

    /** Server mode refreshes once a second; otherwise ten times a second. */
    method SetServerMode(enable: bool)
      modifies this
      ensures serverMode == enable && mainLoopTimeoutMs == if enable then 1000 else 100
      ensures streams == old(streams) && muxerStreams == old(muxerStreams)
    {
      serverMode := enable;
      mainLoopTimeoutMs := if serverMode then 1000 else 100;
    }

    /**
     * The main loop. Other threads add and remove streams while it sleeps,
     * so the stream counts it sees at its successive wake-ups are given; it
     * leaves at the first wake-up, when out of server mode, that sees no
     * stream, and runs on for as long as the counts given when it never does.
     */
    method Run(observedCounts: seq<nat>) returns (exitAt: Option<nat>)
      ensures exitAt.Some? <==> !serverMode && exists k :: 0 <= k < |observedCounts| && observedCounts[k] == 0
      ensures exitAt.Some? ==> exitAt.value < |observedCounts| && observedCounts[exitAt.value] == 0
                               && forall k :: 0 <= k < exitAt.value ==> observedCounts[k] != 0
    {
      var wakeUp := 0;
      while wakeUp < |observedCounts|
        invariant 0 <= wakeUp <= |observedCounts|
        invariant !serverMode ==> forall k :: 0 <= k < wakeUp ==> observedCounts[k] != 0
      {
        if !serverMode && observedCounts[wakeUp] == 0 {
          return Some(wakeUp);
        }
        wakeUp := wakeUp + 1;
      }
      return None;
    }
  }
}
