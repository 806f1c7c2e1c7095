/**
 * The REST API over the stream registry: the streams service (list,
 * create, delete by textual id) and the streams controller, which maps the
 * service's outcomes to HTTP status codes and reply bodies. The HTTP
 * framework itself is not modelled: a request reaches a handler as its
 * already extracted body or path.
 */
module Api {
  import opened Wrappers
  import opened Numerals
  import opened JsonValues
  import opened CasterStreams
  import opened Caster

  const OK: nat := 200
  const BAD_REQUEST: nat := 400

  /** A reply: its status code and its JSON body, if any. */
  datatype Reply = Reply(status: nat, body: Option<Json>)

  /** The error body {"error": {"code": code, "message": message}}. */
  function ErrorJson(code: nat, message: string): (j: Json)
    ensures j.JObject? && j.members.Keys == {"error"}
    ensures j.members["error"] == JObject(map["code" := JInt(code), "message" := JString(message)])
  {
    JObject(map["error" := JObject(map["code" := JInt(code), "message" := JString(message)])])
  }

  /** The body the list service returns: the streams' descriptions as an array, empty when there are none. */
  function ListBody(l: seq<Stream>): (j: Json)
    ensures j.JObject? && j.members.Keys == {"streams"}
    ensures j.members["streams"].JArray? && |j.members["streams"].items| == |l|
    ensures forall k :: 0 <= k < |l| ==> j.members["streams"].items[k] == l[k].json
  {
    JObject(map["streams" := JArray(JsonsOf(l))])
  }

  /** The registry id a textual id designates: stoi's value, converted to an unsigned 32-bit id. */
  function ParsedId(streamId: string): (r: Result<nat>)
    ensures r.Ok? <==> Stoi(streamId).Ok?
    ensures r.Ok? ==> r.value < U32 && r.value == Stoi(streamId).value % U32
    ensures r.Ok? && Stoi(streamId).value >= 0 ==> r.value == Stoi(streamId).value
  {
    match Stoi(streamId)
    case Failure(e) => Failure(e)
    case Ok(n) => Ok(n % U32)
  }

  /** An id written in decimal, as a client puts it in the path, designates that id up to INT_MAX. */
  lemma ParsedIdOfDecimal(id: nat)
    requires id <= INT_MAX
    ensures ParsedId(DecimalString(id)) == Ok(id)
  {
    LeadingIntegerOfDecimal(id, []);
    assert DecimalString(id) + [] == DecimalString(id);
  }

  /** The list service: a null list from the registry becomes an empty array. */
  method ServiceList(caster: IPCaster) returns (body: Json)
    requires caster.Valid()
    ensures body == ListBody(caster.streams)
  {
    var streams := caster.ListStreams();
    if streams.JNull? {
      body := JObject(map["streams" := JArray([])]);
    } else {
      body := JObject(map["streams" := streams]);
    }
  }

  /** The create service: the registry's answer, unchanged. */
  method ServiceCreate(request: Json, sourceError: Option<string>, caster: IPCaster) returns (r: Result<Json>, ghost s: Stream?)
    requires caster.Valid()
    modifies caster, caster.ids
    ensures caster.Valid()
    ensures r.Ok? <==> EndpointOf(request).Ok? && SourceOf(request).Ok? && sourceError.None?
    ensures r.Ok? ==> s != null && fresh(s.source) && caster.Added(request, s, old(caster.streams), old(caster.ids.uid)) && r.value == s.json
    ensures r.Failure? ==> caster.streams == old(caster.streams) && caster.ids.uid == old(caster.ids.uid)
  {
    r, s := caster.CreateStream(request, sourceError);
  }

  /** The delete service: a text without a leading int throws before the registry is reached. */
  method ServiceDel(streamId: string, caster: IPCaster) returns (r: Result<()>)
    requires caster.Valid()
    modifies caster, set k | 0 <= k < |caster.streams| :: caster.streams[k].source
    ensures caster.Valid()
    ensures ParsedId(streamId).Failure? ==> r.Failure? && caster.streams == old(caster.streams)
    ensures ParsedId(streamId).Ok? ==>
              var found := FindStream(old(caster.streams), ParsedId(streamId).value);
              && (r.Ok? <==> found.Some?)
              && (found.None? ==> caster.streams == old(caster.streams))
              && (found.Some? ==> caster.streams == old(caster.streams)[..found.value] + old(caster.streams)[found.value + 1..])
  {
    var id := ParsedId(streamId);
    if id.Failure? {
      return Failure(id.message);
    }
    r := caster.DeleteStream(id.value, false);
  }

  /** GET: 200 with the list; listing cannot fail here, so the 500 reply is never chosen. */
  method ControllerGet(caster: IPCaster) returns (reply: Reply)
    requires caster.Valid()
    ensures reply == Reply(OK, Some(ListBody(caster.streams)))
  {
    var body := ServiceList(caster);
    reply := Reply(OK, Some(body));
  }

  /**
   * POST: 200 with the created stream's description; a body that is not
   * JSON, or any failure of the creation, replies 400 with the error.
   */
  method ControllerPost(body: Result<Json>, sourceError: Option<string>, caster: IPCaster) returns (reply: Reply, ghost s: Stream?)
    requires caster.Valid()
    modifies caster, caster.ids
    ensures caster.Valid()
    ensures reply.status == OK <==> body.Ok? && EndpointOf(body.value).Ok? && SourceOf(body.value).Ok? && sourceError.None?
    ensures reply.status == OK || reply.status == BAD_REQUEST
    ensures reply.status == OK ==> s != null && fresh(s.source) && caster.Added(body.value, s, old(caster.streams), old(caster.ids.uid))
                                   && reply.body == Some(s.json)
    ensures reply.status == BAD_REQUEST ==> caster.streams == old(caster.streams)
                                            && exists m :: reply.body == Some(ErrorJson(BAD_REQUEST, m))
  {
    s := null;
    if body.Failure? {
      return Reply(BAD_REQUEST, Some(ErrorJson(BAD_REQUEST, body.message))), s;
    }
    var r;
    r, s := ServiceCreate(body.value, sourceError, caster);
    if r.Failure? {
      return Reply(BAD_REQUEST, Some(ErrorJson(BAD_REQUEST, r.message))), s;
    }
    reply := Reply(OK, Some(r.value));
  }

  /**
   * DELETE: the first path segment is the stream id; 200 without a body
   * once that stream is removed, 400 for an empty path, a non-numeric id
   * or an unknown one.
   */
  method ControllerDel(path: seq<string>, caster: IPCaster) returns (reply: Reply)
    requires caster.Valid()
    modifies caster, set k | 0 <= k < |caster.streams| :: caster.streams[k].source
    ensures caster.Valid()
    ensures path == [] ==> reply == Reply(BAD_REQUEST, Some(ErrorJson(BAD_REQUEST, "Bad request")))
                           && caster.streams == old(caster.streams)
    ensures reply.status == OK || reply.status == BAD_REQUEST
    ensures reply.status == OK <==> (&& path != [] && ParsedId(path[0]).Ok?
                                     && FindStream(old(caster.streams), ParsedId(path[0]).value).Some?)
    ensures reply.status == OK ==> reply.body.None?
    ensures reply.status == OK ==> var i := FindStream(old(caster.streams), ParsedId(path[0]).value).value;
                                   caster.streams == old(caster.streams)[..i] + old(caster.streams)[i + 1..]
    ensures reply.status == BAD_REQUEST ==> caster.streams == old(caster.streams)
                                            && exists m :: reply.body == Some(ErrorJson(BAD_REQUEST, m))
  {
    if path == [] {
      return Reply(BAD_REQUEST, Some(ErrorJson(BAD_REQUEST, "Bad request")));
    }
    var r := ServiceDel(path[0], caster);
    if r.Failure? {
      return Reply(BAD_REQUEST, Some(ErrorJson(BAD_REQUEST, r.message)));
    }
    reply := Reply(OK, None);
  }

  datatype HttpMethod = GET | POST | DEL

  /** The HTTP listener, seen through the methods it is told to support. */
  class Listener {
    var supported: seq<HttpMethod>

    constructor ()
      ensures supported == []
    {
      supported := [];
    }

    method Support(m: HttpMethod)
      modifies this
      ensures supported == old(supported) + [m]
    {
      supported := supported + [m];
    }
  }

  /** The streams controller supports GET, POST and DELETE, in that order. */
  method RegisterMethods(listener: Listener)
    modifies listener
    ensures listener.supported == old(listener.supported) + [GET, POST, DEL]
  {
    listener.Support(GET);
    listener.Support(POST);
    listener.Support(DEL);
  }

  /**
   * The REST client scenario: a stream created on a fresh service is
   * listed under the id it was given, deleting it by that id succeeds, and
   * deleting id 666 afterwards is a bad request.
   */
  method ClientScenario() returns (created: Reply, listed: Reply, deleted: Reply, missing: Reply)
    ensures created.status == OK && listed.status == OK && deleted.status == OK && missing.status == BAD_REQUEST
    ensures exists j :: && created.body == Some(j) && j.JObject? && "id" in j.members && j.members["id"] == JInt(0)
                        && listed.body == Some(JObject(map["streams" := JArray([j])]))
  {
    var ids := new IDSingleton();
    var caster := new IPCaster(ids);
    var endpoint := JObject(map["ip" := JString("172.17.0.1"), "port" := JInt(50000)]);
    var request := JObject(map["source" := JString("../tsfiles/test.ts"), "endpoint" := endpoint]);
    assert Member2(request, "endpoint", "ip") == Ok(JString("172.17.0.1"));
    assert Member2(request, "endpoint", "port") == Ok(JInt(50000));
    ghost var s;
    created, s := ControllerPost(Ok(request), None, caster);
    assert caster.streams == [s];
    listed := ControllerGet(caster);
    assert JsonsOf([s]) == [s.json];
    ParsedIdOfDecimal(0);
    deleted := ControllerDel([DecimalString(0)], caster);
    assert caster.streams == [s][..0] + [s][1..] == [];
    ParsedIdOfDecimal(666);
    missing := ControllerDel([DecimalString(666)], caster);
  }
}
