/**
 * The caster's stream registry (the cpprest-based IPCaster): streams are
 * created from a JSON description, kept in creation order, listed, and
 * deleted by id. Creating a stream first opens a muxer stream for its
 * destination; the muxer here records those destinations. Opening the
 * source is a call into code outside this model: its failure is a parameter.
 */
module Caster {
  import opened Wrappers
  import opened Numerals
  import opened JsonValues
  import opened Observers
  import opened CasterStreams
  import DatagramsMuxing

  /** The destination of a description, read as cpprest does; the port is cast to 16 bits. */
  function EndpointOf(request: Json): (r: Result<DatagramsMuxing.Endpoint>)
    ensures r.Ok? ==> request.JObject? && 0 <= r.value.port < U16
    ensures r.Ok? <==> (&& Member2(request, "endpoint", "ip").Ok? && Member2(request, "endpoint", "ip").value.JString?
                        && Member2(request, "endpoint", "port").Ok? && Member2(request, "endpoint", "port").value.JInt?)
    ensures r.Ok? ==> r.value == DatagramsMuxing.Endpoint(Member2(request, "endpoint", "ip").value.s,
                                                        Member2(request, "endpoint", "port").value.i % U16)
  {
    match Member2(request, "endpoint", "ip")
    case Failure(e) => Failure(e)
    case Ok(ipValue) =>
      match RestAsString(ipValue)
      case Failure(e) => Failure(e)
      case Ok(ip) =>
        match Member2(request, "endpoint", "port")
        case Failure(e) => Failure(e)
        case Ok(portValue) =>
          match RestAsInteger(portValue)
          case Failure(e) => Failure(e)
          case Ok(port) => Ok(DatagramsMuxing.Endpoint(ip, port % U16))
  }

  /** The source file of a description. */
  function SourceOf(request: Json): (r: Result<string>)
    ensures r.Ok? <==> Member(request, "source").Ok? && Member(request, "source").value.JString?
    ensures r.Ok? ==> r.value == Member(request, "source").value.s
  {
    match Member(request, "source")
    case Failure(e) => Failure(e)
    case Ok(v) => RestAsString(v)
  }

  /** The message of a delete that finds nothing. */
  function NotFound(id: nat): string
  {
    "Stream with streamId " + DecimalString(id) + " not found"
  }

  ghost predicate AllValid(l: seq<Stream>)
  {
    forall k :: 0 <= k < |l| ==> l[k].Valid()
  }

  /** No two streams share a source object. */
  ghost predicate DistinctSources(l: seq<Stream>)
  {
    forall j, k :: 0 <= j < k < |l| ==> l[j].source != l[k].source
  }

  /** Removing a stream keeps the others valid and their sources distinct. */
  lemma RemoveKeepsValid(l: seq<Stream>, i: nat)
    requires AllValid(l) && DistinctSources(l) && i < |l|
    ensures AllValid(l[..i] + l[i + 1..]) && DistinctSources(l[..i] + l[i + 1..])
  {
    var r := l[..i] + l[i + 1..];
    forall j, k | 0 <= j < k < |r|
      ensures r[j].source != r[k].source
    {
      var j' := if j < i then j else j + 1;
      var k' := if k < i then k else k + 1;
      assert r[j] == l[j'] && r[k] == l[k'];
    }
    forall k | 0 <= k < |r|
      ensures r[k].Valid()
    {
      assert r[k] == l[if k < i then k else k + 1];
    }
  }

  /** A stream with a new source can be appended. */
  lemma AppendKeepsValid(l: seq<Stream>, s: Stream)
    requires AllValid(l) && DistinctSources(l) && s.Valid()
    requires forall k :: 0 <= k < |l| ==> l[k].source != s.source
    ensures AllValid(l + [s]) && DistinctSources(l + [s])
  {
  }

  class IPCaster {
    /** The streams, in creation order. */
    var streams: seq<Stream>
    var serviceMode: bool
    var servicePort: nat
    var mainLoopTimeoutMs: nat
    /** The destinations of the streams opened in the muxer, in order. */
    var muxerStreams: seq<DatagramsMuxing.Endpoint>
    /** The process-wide id counter. */
    const ids: IDSingleton

    /** Every stream carries its id in its description, and no two share a source. */
    ghost predicate Valid()
      reads this, ids
    {
      && ids.Valid()
      && AllValid(streams)
      && DistinctSources(streams)
    }

    /** A caster starts in command-line mode with a 100 ms loop period. */
    constructor (ids: IDSingleton)
      requires ids.Valid()
      ensures Valid() && this.ids == ids && streams == [] && muxerStreams == []
      ensures !serviceMode && mainLoopTimeoutMs == 100
    {
      this.ids := ids;
      streams := [];
      muxerStreams := [];
      serviceMode := false;
      mainLoopTimeoutMs := 100;
    }

    /**
     * Creates and starts a stream. A description without a string ip and
     * an integer port changes nothing; past that, the muxer stream stays
     * even when the source description is not a string or the source
     * cannot be opened. On success the new stream is last in the list, its
     * source is observed by it and started, its listener (named by the
     * stream's id) is held among its observers, and its description is
     * returned.
     */
    method CreateStream(request: Json, sourceError: Option<string>) returns (r: Result<Json>, ghost s: Stream?)
      requires Valid()
      modifies this, ids
      ensures Valid()
      ensures EndpointOf(request).Failure? ==>
                r.Failure? && streams == old(streams) && muxerStreams == old(muxerStreams) && ids.uid == old(ids.uid)
      ensures EndpointOf(request).Ok? ==> muxerStreams == old(muxerStreams) + [EndpointOf(request).value]
      ensures EndpointOf(request).Ok? && (SourceOf(request).Failure? || sourceError.Some?) ==>
                r.Failure? && streams == old(streams) && ids.uid == old(ids.uid)
      ensures r.Ok? <==> EndpointOf(request).Ok? && SourceOf(request).Ok? && sourceError.None?
      ensures r.Ok? ==> s != null && fresh(s.source) && Added(request, s, old(streams), old(ids.uid)) && r.value == s.json
      ensures serviceMode == old(serviceMode) && servicePort == old(servicePort)
      ensures mainLoopTimeoutMs == old(mainLoopTimeoutMs)
      ensures old(IdsIncreasing(streams, ids.uid)) && old(ids.uid) + 1 < U32 ==> IdsIncreasing(streams, ids.uid)
    {
      s := null;
      var endpoint := EndpointOf(request);
      if endpoint.Failure? {
        return Failure(endpoint.message), s;
      }
      muxerStreams := muxerStreams + [endpoint.value];
      var path := SourceOf(request);
      if path.Failure? {
        return Failure(path.message), s;
      }
      if sourceError.Some? {
        return Failure(sourceError.value), s;
      }
      var stream := AddStream(request, path.value);
      r, s := Ok(stream.Json()), stream;
    }

    /** What a successful creation did: the stream s, made from request, was added last. */
    ghost predicate Added(request: Json, s: Stream, before: seq<Stream>, uid: nat)
      reads this, s, s.source, s.subject
    {
      && streams == before + [s]
      && request.JObject? && s.id == uid && s.json == Described(request, s.id)
      && SourceOf(request).Ok? && s.source.path == SourceOf(request).value
      && s.source.calls == [ObserverAttached(s.id), Started]
      && s.subject.observers == [Entry(s.id, true)]
    }

    /** The part of a creation past the parsing: the stream is made, wired up, listed and started. */
    method AddStream(request: Json, path: string) returns (stream: Stream)
      requires Valid() && request.JObject? && SourceOf(request) == Ok(path)
      modifies this, ids
      ensures Valid() && fresh(stream) && fresh(stream.source) && fresh(stream.subject)
      ensures Added(request, stream, old(streams), old(ids.uid)) && ids.uid == (old(ids.uid) + 1) % U32
      ensures muxerStreams == old(muxerStreams) && serviceMode == old(serviceMode)
      ensures servicePort == old(servicePort) && mainLoopTimeoutMs == old(mainLoopTimeoutMs)
      ensures old(IdsIncreasing(streams, ids.uid)) && old(ids.uid) + 1 < U32 ==> IdsIncreasing(streams, ids.uid)
    {
      var source := new Source(path);
      stream := new Stream(request, source, ids);
      source.AttachObserver(stream.id);
      stream.subject.AttachObserverStrong(stream.id);
      if IdsIncreasing(streams, old(ids.uid)) && old(ids.uid) + 1 < U32 {
        IdsIncreasingAppend(streams, stream, old(ids.uid));
      }
      AppendKeepsValid(streams, stream);
      streams := streams + [stream];
      stream.Start();
    }

    /**
     * Stops and removes the first stream with that id, the others keeping
     * their order; an unknown id throws and changes nothing.
     */
    method DeleteStream(id: nat, flush: bool) returns (r: Result<()>)
      requires Valid()
      modifies this, set k | 0 <= k < |streams| :: streams[k].source
      ensures Valid()
      ensures FindStream(old(streams), id).None? ==> r == Failure(NotFound(id)) && streams == old(streams)
      ensures FindStream(old(streams), id).Some? ==>
                var i := FindStream(old(streams), id).value;
                && r.Ok? && streams == old(streams)[..i] + old(streams)[i + 1..]
                && old(streams)[i].source.calls == old(streams[i].source.calls) + [Stopped(flush)]
      ensures forall k :: 0 <= k < |old(streams)| && old(streams)[k].id != id ==>
                old(streams)[k].source.calls == old(streams[k].source.calls)
      ensures muxerStreams == old(muxerStreams) && serviceMode == old(serviceMode)
      ensures servicePort == old(servicePort) && mainLoopTimeoutMs == old(mainLoopTimeoutMs)
      ensures old(IdsIncreasing(streams, ids.uid)) ==> IdsIncreasing(streams, ids.uid)
    {
      var found := FindStream(streams, id);
      if found.None? {
        return Failure(NotFound(id));
      }
      var i := found.value;
      streams[i].Stop(flush);
      if IdsIncreasing(streams, ids.uid) {
        IdsIncreasingRemove(streams, ids.uid, i);
      }
      RemoveKeepsValid(streams, i);
      streams := streams[..i] + streams[i + 1..];
      r := Ok(());
    }

    /** The descriptions of the streams in list order; null when there are none. */
    method ListStreams() returns (r: Json)
      requires Valid()
      ensures streams == [] ==> r == JNull
      ensures streams != [] ==> r == JArray(JsonsOf(streams))
    {
      r := JNull;
      var index := 0;
      while index < |streams|
        invariant 0 <= index <= |streams|
        invariant index == 0 ==> r == JNull
        invariant index > 0 ==> (r.JArray? && |r.items| == index
                                 && forall k :: 0 <= k < index ==> r.items[k] == streams[k].json)
      {
        var items := if r.JArray? then r.items else [];
        r := JArray(items + [streams[index].Json()]);
        index := index + 1;
      }
      if streams != [] {
        assert r.items == JsonsOf(streams);
      }
    }

    /** Service mode refreshes once a second; command-line mode ten times a second. */
    method SetServiceMode(enable: bool, listeningPort: nat)
      requires listeningPort < U16
      modifies this
      ensures serviceMode == enable && servicePort == listeningPort
      ensures mainLoopTimeoutMs == if enable then 1000 else 100
      ensures streams == old(streams) && muxerStreams == old(muxerStreams)
    {
      serviceMode := enable;
      servicePort := listeningPort;
      mainLoopTimeoutMs := if serviceMode then 1000 else 100;
    }

    /**
     * The main loop. Other threads add and remove streams while it sleeps,
     * so the stream counts it sees at its successive wake-ups are given; it
     * leaves at the first wake-up, when out of service mode, that sees no
     * stream, and runs on for as long as the counts given when it never does.
     */
    method Run(observedCounts: seq<nat>) returns (exitAt: Option<nat>)
      ensures exitAt.Some? <==> !serviceMode && exists k :: 0 <= k < |observedCounts| && observedCounts[k] == 0
      ensures exitAt.Some? ==> exitAt.value < |observedCounts| && observedCounts[exitAt.value] == 0
                               && forall k :: 0 <= k < exitAt.value ==> observedCounts[k] != 0
    {
      var wakeUp := 0;
      while wakeUp < |observedCounts|
        invariant 0 <= wakeUp <= |observedCounts|
        invariant !serviceMode ==> forall k :: 0 <= k < wakeUp ==> observedCounts[k] != 0
      {
        if !serviceMode && observedCounts[wakeUp] == 0 {
          return Some(wakeUp);
        }
        wakeUp := wakeUp + 1;
      }
      return None;
    }
  }
}
