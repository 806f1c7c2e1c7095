/**
 * A caster stream: a numbered, described pairing of a source with its
 * observers. Ids come from a process-wide 32-bit counter; the description
 * is the JSON the stream was created from, with its id added. Starting and
 * stopping are forwarded to the source, whose own work is not part of this
 * model: the source here records the calls it receives.
 */
module CasterStreams {
  import opened Wrappers
  import opened Numerals
  import opened JsonValues
  import opened Observers

  /** The unique-id counter: an unsigned 32-bit value that starts at 0. */
  class IDSingleton {
    var uid: nat

    ghost predicate Valid()
      reads this
    {
      uid < U32
    }

    constructor ()
      ensures Valid() && uid == 0
    {
      uid := 0;
    }

    /** Returns the counter and advances it by one, wrapping at 2^32. */
    method Next() returns (id: nat)
      requires Valid()
      modifies this
      ensures Valid() && id == old(uid) && uid == (old(uid) + 1) % U32
    {
      id := uid;
      uid := (uid + 1) % U32;
    }
  }

  /** The id the k-th of a run of calls to Next returns, the counter starting at u. */
  function IssuedId(u: nat, k: nat): nat
  {
    (u + k) % U32
  }

  lemma IssuedIdStep(u: nat, k: nat)
    requires u < U32
    ensures IssuedId(u, 0) == u
    ensures IssuedId(u, k + 1) == (IssuedId(u, k) + 1) % U32
  {
    var q := (u + k) / U32;
    var r := (u + k) % U32;
    if r + 1 < U32 {
      DivModUnique(u + k + 1, U32, q, r + 1);
    } else {
      DivModUnique(u + k + 1, U32, q + 1, 0);
    }
  }

  /** Up to 2^32 successive ids are pairwise distinct. */
  lemma IssuedIdsDistinct(u: nat, j: nat, k: nat)
    requires j < k < U32
    ensures IssuedId(u, j) != IssuedId(u, k)
  {
  }

  /** What a source is asked to do. */
  datatype SourceCall = ObserverAttached(stream: nat) | Started | Stopped(flush: bool)

  /** A source reading the file at path, seen through the calls it receives. */
  class Source {
    const path: string
    var calls: seq<SourceCall>

    constructor (path: string)
      ensures this.path == path && calls == []
    {
      this.path := path;
      calls := [];
    }

    method AttachObserver(stream: nat)
      modifies this
      ensures calls == old(calls) + [ObserverAttached(stream)]
    {
      calls := calls + [ObserverAttached(stream)];
    }

    method Start()
      modifies this
      ensures calls == old(calls) + [Started]
    {
      calls := calls + [Started];
    }

    method Stop(flush: bool)
      modifies this
      ensures calls == old(calls) + [Stopped(flush)]
    {
      calls := calls + [Stopped(flush)];
    }
  }

  /** An event delivered to a stream observer. */
  datatype ObserverCall = StreamEnd(observer: nat) | StreamException(observer: nat, message: string)

  /** The description a stream keeps: the one given, with "id" set to its id. */
  function Described(streamJson: Json, id: nat): (r: Json)
    requires streamJson.JObject? || streamJson.JNull?
    ensures r.JObject? && "id" in r.members && r.members["id"] == JInt(id)
    ensures streamJson.JObject? ==> forall k :: k in streamJson.members && k != "id" ==>
              k in r.members && r.members[k] == streamJson.members[k]
  {
    WithMember(streamJson, "id", JInt(id)).value
  }

  class Stream {
    const id: nat
    const json: Json
    const source: Source
    /** The stream's observers. */
    const subject: Subject

    /** The description carries the stream's id. */
    ghost predicate Valid()
    {
      json.JObject? && "id" in json.members && json.members["id"] == JInt(id)
    }

    /**
     * Takes the next id and stamps it into the description. Setting a
     * member needs an object (or null, which becomes one); jsoncpp throws
     * on anything else.
     */
    constructor (streamJson: Json, source: Source, ids: IDSingleton)
      requires ids.Valid() && (streamJson.JObject? || streamJson.JNull?)
      modifies ids
      ensures ids.Valid() && id == old(ids.uid) && ids.uid == (old(ids.uid) + 1) % U32
      ensures Valid() && json == Described(streamJson, id) && this.source == source
      ensures fresh(subject) && subject.observers == []
    {
      subject := new Subject();
      this.source := source;
      var n := ids.Next();
      id := n;
      json := Described(streamJson, n);
    }

    function Json(): (j: Json)
      requires Valid()
      ensures j.JObject? && "id" in j.members && j.members["id"] == JInt(id)
      ensures j == json
    {
      json
    }

    method Start()
      modifies source
      ensures source.calls == old(source.calls) + [Started]
    {
      source.Start();
    }

    method Stop(flush: bool)
      modifies source
      ensures source.calls == old(source.calls) + [Stopped(flush)]
    {
      source.Stop(flush);
    }

    /**
     * "ip:port" from the description's endpoint, each part converted as
     * jsoncpp's asString does; a non-object on the way, or an array or
     * object part, throws.
     */
    function GetTargetName(): (r: Result<string>)
      ensures forall ip: string, port: int ::
                Member2(json, "endpoint", "ip") == Ok(JString(ip)) && Member2(json, "endpoint", "port") == Ok(JInt(port))
                ==> r == Ok(ip + ":" + DecimalString(port))
      ensures Member2(json, "endpoint", "ip").Failure? ==> r.Failure?
    {
      match Member2(json, "endpoint", "ip")
      case Failure(e) => Failure(e)
      case Ok(ipValue) =>
        match JsonCppAsString(ipValue)
        case Failure(e) => Failure(e)
        case Ok(ip) =>
          match Member2(json, "endpoint", "port")
          case Failure(e) => Failure(e)
          case Ok(portValue) =>
            match JsonCppAsString(portValue)
            case Failure(e) => Failure(e)
            case Ok(port) => Ok(ip + ":" + port)
    }

    /** Tells every live observer, in order, that the stream has ended. */
    method NotifyEOF(alive: set<nat>) returns (calls: seq<ObserverCall>)
      ensures var live := subject.LiveObservers(alive);
              |calls| == |live| && forall k :: 0 <= k < |live| ==> calls[k] == StreamEnd(live[k])
    {
      calls := Notify(alive, None);
    }

    /** Tells every live observer, in order, that the stream failed with message. */
    method NotifyException(message: string, alive: set<nat>) returns (calls: seq<ObserverCall>)
      ensures var live := subject.LiveObservers(alive);
              |calls| == |live| && forall k :: 0 <= k < |live| ==> calls[k] == StreamException(live[k], message)
    {
      calls := Notify(alive, Some(message));
    }

    /** The loop both notifications share: an end event, or an exception with its message. */
    method Notify(alive: set<nat>, exception: Option<string>) returns (calls: seq<ObserverCall>)
      ensures var live := subject.LiveObservers(alive);
              |calls| == |live| && forall k :: 0 <= k < |live| ==> calls[k] == Event(live[k], exception)
    {
      var observers := subject.observers;
      calls := [];
      ghost var live: seq<Entry> := [];
      var i := 0;
      while i < |observers|
        invariant 0 <= i <= |observers| && live == LiveEntries(observers[..i], alive)
        invariant |calls| == |live| && forall k :: 0 <= k < |live| ==> calls[k] == Event(live[k].observer, exception)
      {
        LiveEntriesAppend(observers[..i], observers[i], alive);
        assert observers[..i + 1] == observers[..i] + [observers[i]];
        if Live(observers[i], alive) {
          calls := calls + [Event(observers[i].observer, exception)];
          live := live + [observers[i]];
        }
        i := i + 1;
      }
      assert observers[..i] == observers;
    }
  }

  function Event(observer: nat, exception: Option<string>): ObserverCall
  {
    match exception
    case None => StreamEnd(observer)
    case Some(m) => StreamException(observer, m)
  }

  lemma {:induction false} LiveEntriesAppend(l: seq<Entry>, e: Entry, alive: set<nat>)
    ensures LiveEntries(l + [e], alive) == LiveEntries(l, alive) + (if Live(e, alive) then [e] else [])
    decreases |l|
  {
    if l == [] {
      assert [e][1..] == [];
    } else {
      assert (l + [e])[1..] == l[1..] + [e];
      LiveEntriesAppend(l[1..], e, alive);
    }
  }

  /** The position of the first stream with that id, as std::find_if finds it. */
  function FindStream(l: seq<Stream>, id: nat): (r: Option<nat>)
    ensures r.None? <==> forall k :: 0 <= k < |l| ==> l[k].id != id
    ensures r.Some? ==> r.value < |l| && l[r.value].id == id && forall k :: 0 <= k < r.value ==> l[k].id != id
  {
    if l == [] then None
    else if l[0].id == id then Some(0)
    else match FindStream(l[1..], id)
      case None => None
      case Some(i) => Some(i + 1)
  }

  /** The descriptions of the streams, in list order. */
  function JsonsOf(l: seq<Stream>): (r: seq<Json>)
    ensures |r| == |l| && forall k :: 0 <= k < |l| ==> r[k] == l[k].json
  {
    if l == [] then [] else [l[0].json] + JsonsOf(l[1..])
  }

  /** Ids increase along the list and are all below the counter. */
  ghost predicate IdsIncreasing(l: seq<Stream>, next: nat)
  {
    (forall j, k :: 0 <= j < k < |l| ==> l[j].id < l[k].id) && (forall k :: 0 <= k < |l| ==> l[k].id < next)
  }

  /** With increasing ids, the stream FindStream finds is the only one with its id. */
  lemma FindStreamUnique(l: seq<Stream>, next: nat, id: nat)
    requires IdsIncreasing(l, next) && FindStream(l, id).Some?
    ensures forall k :: 0 <= k < |l| && l[k].id == id ==> k == FindStream(l, id).value
  {
  }

  /** Appending a stream that takes the counter keeps the ids increasing, as long as the counter does not wrap. */
  lemma IdsIncreasingAppend(l: seq<Stream>, s: Stream, next: nat)
    requires IdsIncreasing(l, next) && s.id == next
    ensures IdsIncreasing(l + [s], next + 1)
  {
  }

  /** Removing any stream keeps the ids increasing. */
  lemma IdsIncreasingRemove(l: seq<Stream>, next: nat, i: nat)
    requires IdsIncreasing(l, next) && i < |l|
    ensures IdsIncreasing(l[..i] + l[i + 1..], next)
  {
    var r := l[..i] + l[i + 1..];
    forall j, k | 0 <= j < k < |r|
      ensures r[j].id < r[k].id
    {
      var j' := if j < i then j else j + 1;
      var k' := if k < i then k else k + 1;
      assert r[j] == l[j'] && r[k] == l[k'];
    }
  }
}
