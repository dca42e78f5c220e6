/**
 What the fixture server answers, said on the JSON of the messages received: sections 4.1 and 5 of
 the JSON-RPC 2.0 specification, and the outcome of each method before and after the handshake.
 */
module McpReplies {
  import opened Common
  import opened JsonText
  import opened McpSessions

  /** The object has the key, and its last occurrence has the value. */
  ghost predicate Holds(fields: seq<Field>, key: string, v: Json) {
    exists i :: 0 <= i < |fields| && fields[i] == Field(key, v) && forall j :: i < j < |fields| ==> fields[j].key != key
  }

  ghost predicate Lacks(fields: seq<Field>, key: string) {
    forall i :: 0 <= i < |fields| ==> fields[i].key != key
  }

  lemma {:induction false} LookupMeans(fields: seq<Field>, key: string)
    ensures Lookup(fields, key).None? <==> Lacks(fields, key)
    ensures forall v :: Lookup(fields, key) == Some(v) <==> Holds(fields, key, v)
  {
    if fields != [] {
      var n := |fields| - 1;
      var front := fields[..n];
      LookupMeans(front, key);
      if fields[n].key == key {
        assert Holds(fields, key, fields[n].value);
        LookupIsOne(fields, key);
      } else {
        forall v ensures Holds(fields, key, v) <==> Holds(front, key, v) { HoldsBefore(fields, key, v); }
      }
    }
  }

  lemma LookupIsOne(fields: seq<Field>, key: string)
    requires fields != [] && fields[|fields| - 1].key == key
    ensures forall v :: Holds(fields, key, v) ==> v == fields[|fields| - 1].value
  {
    forall v | Holds(fields, key, v) ensures v == fields[|fields| - 1].value {
      var i :| 0 <= i < |fields| && fields[i] == Field(key, v) && forall j :: i < j < |fields| ==> fields[j].key != key;
      assert i == |fields| - 1;
    }
  }

  lemma HoldsBefore(fields: seq<Field>, key: string, v: Json)
    requires fields != [] && fields[|fields| - 1].key != key
    ensures Holds(fields, key, v) <==> Holds(fields[..|fields| - 1], key, v)
  {
    var n := |fields| - 1;
    if Holds(fields, key, v) {
      var i :| 0 <= i < |fields| && fields[i] == Field(key, v) && forall j :: i < j < |fields| ==> fields[j].key != key;
      assert fields[..n][i] == fields[i];
    }
    if Holds(fields[..n], key, v) {
      var i :| 0 <= i < n && fields[..n][i] == Field(key, v) && forall j :: i < j < n ==> fields[..n][j].key != key;
      assert fields[i] == Field(key, v);
      forall j | i < j < |fields| ensures fields[j].key != key { if j < n { assert fields[..n][j] == fields[j]; } }
    }
  }

  // ----- which messages are answered, and with which id -----

  ghost predicate IsObject(input: Option<Json>, fields: seq<Field>) {
    input == Some(JObject(fields))
  }

  /** A JSON-RPC 2.0 message with this method. */
  ghost predicate Names(fields: seq<Field>, name: string) {
    Holds(fields, "jsonrpc", JStr("2.0")) && Holds(fields, "method", JStr(name))
  }

  ghost predicate IsJsonRpc(fields: seq<Field>) {
    exists name :: Names(fields, name)
  }

  /** The one response to a message: none to a JSON-RPC message without an id, and otherwise one that
      carries the id of the message, or null if there is none to carry. */
  ghost predicate AnswersTo(input: Option<Json>, response: Option<Reply>) {
    && (response.None? <==> exists fields :: IsObject(input, fields) && IsJsonRpc(fields) && Lacks(fields, "id"))
    && (forall fields, id :: IsObject(input, fields) && Holds(fields, "id", id) ==> response.Some? && response.value.id == id)
    && ((forall fields :: IsObject(input, fields) ==> Lacks(fields, "id")) && response.Some? ==> response.value.id == JNull)
  }

  lemma WellFormedMeans(fields: seq<Field>)
    ensures WellFormedCall(fields) <==> IsJsonRpc(fields)
    ensures WellFormedCall(fields) ==> Names(fields, Method(fields).s)
  {
    LookupMeans(fields, "jsonrpc");
    LookupMeans(fields, "method");
    if name :| Names(fields, name) { assert Lookup(fields, "method") == Some(JStr(name)); }
    if WellFormedCall(fields) { assert Names(fields, Method(fields).s); }
  }

  lemma IdOfReply(fx: Fixture, input: Option<Json>, st: ConnectionState)
    ensures var response := Handle(fx, input, st).0.response;
            && (response.None? <==> input.Some? && input.value.JObject? && WellFormedCall(input.value.fields) && !HasId(input.value.fields))
            && (response.Some? ==> response.value.id == if input.Some? && input.value.JObject? then Id(input.value.fields) else JNull)
  {
  }

  /** Whatever the state, every message is answered as JSON-RPC asks. */
  lemma EveryAnswerFits(fx: Fixture, input: Option<Json>, st: ConnectionState)
    ensures AnswersTo(input, Handle(fx, input, st).0.response)
  {
    IdOfReply(fx, input, st);
    if input.Some? && input.value.JObject? {
      var fields := input.value.fields;
      assert IsObject(input, fields);
      LookupMeans(fields, "id");
      WellFormedMeans(fields);
    }
  }

  // ----- the outcome of each method -----

  /** The params of a call: an object, empty if there are none. */
  ghost predicate Given(fields: seq<Field>, params: seq<Field>) {
    Holds(fields, "params", JObject(params)) || (Lacks(fields, "params") && params == [])
  }

  /** A request: a JSON-RPC message with an id and with params that are an object or missing. */
  ghost predicate Requests(input: Option<Json>, name: string, params: seq<Field>) {
    exists fields, id :: IsObject(input, fields) && Names(fields, name) && Holds(fields, "id", id) && Given(fields, params)
  }

  ghost predicate Succeeded(plan: Plan, result: Json) {
    plan.status == 200 && plan.response.Some? && plan.response.value.outcome == Success(result)
  }

  ghost predicate Refused(plan: Plan, code: int, status: int) {
    plan.status == status && plan.response.Some? && plan.response.value.outcome.Error? && plan.response.value.outcome.code == code
  }

  /** What initialize is answered with: the protocol version of the server. */
  ghost predicate Welcomes(plan: Plan, mode: string) {
    exists fields :: Succeeded(plan, JObject(fields)) && Holds(fields, "protocolVersion", JStr(mode))
  }

  const LISTED := ["tools/list", "tools/call", "resources/list", "resources/templates/list", "resources/read", "prompts/list", "prompts/get"]

  /** The answer to a request, given whether the handshake is complete. */
  ghost predicate Fits(fx: Fixture, name: string, params: seq<Field>, ready: bool, plan: Plan) {
    if name == "initialize" then
      if exists version :: Holds(params, "protocolVersion", JStr(version)) then Welcomes(plan, fx.mode) else Refused(plan, -32602, 200)
    else if name == "server/discover" then Refused(plan, -32601, 404)
    else if !ready then Refused(plan, -32600, 200)
    else if name in ["ping", "logging/setLevel"] then Succeeded(plan, JObject([]))
    else if name in LISTED then
      plan.response.Some? && (plan.response.value.outcome, plan.status) == fx.feature(name, params)
    else Refused(plan, -32601, 404)
  }

  lemma VersionMeans(params: seq<Field>)
    ensures GetOr(params, "protocolVersion", JNull).JStr? <==> exists version :: Holds(params, "protocolVersion", JStr(version))
  {
    LookupMeans(params, "protocolVersion");
    if GetOr(params, "protocolVersion", JNull).JStr? {
      assert Holds(params, "protocolVersion", JStr(GetOr(params, "protocolVersion", JNull).s));
    }
  }

  lemma InitializeWelcomes(mode: string, id: Json)
    ensures Welcomes(Plan(Some(Reply(id, Success(InitializeResult(mode)))), 200), mode)
  {
    var fields := InitializeResult(mode).fields;
    assert fields[0] == Field("protocolVersion", JStr(mode));
    assert fields[1].key == "capabilities" && fields[2].key == "serverInfo" && fields[3].key == "instructions";
    assert "capabilities"[0] != 'p' && "serverInfo"[0] != 'p' && "instructions"[0] != 'p' && "protocolVersion"[0] == 'p';
    assert Holds(fields, "protocolVersion", JStr(mode));
    assert Succeeded(Plan(Some(Reply(id, Success(InitializeResult(mode)))), 200), JObject(fields));
  }

  lemma LegacyFits(fx: Fixture, id: Json, name: string, params: seq<Field>, st: ConnectionState)
    ensures Fits(fx, name, params, st.initialized, HandleLegacy(fx, id, name, params, st).0)
  {
    VersionMeans(params);
    InitializeWelcomes(fx.mode, id);
    assert name in LISTED <==> name in Features;
  }

  lemma RequestIsHandled(fx: Fixture, input: Option<Json>, name: string, params: seq<Field>, st: ConnectionState)
    requires Requests(input, name, params)
    ensures exists id :: Handle(fx, input, st) == HandleLegacy(fx, id, name, params, st)
  {
    var fields, id :| IsObject(input, fields) && Names(fields, name) && Holds(fields, "id", id) && Given(fields, params);
    LookupMeans(fields, "jsonrpc");
    LookupMeans(fields, "method");
    LookupMeans(fields, "id");
    LookupMeans(fields, "params");
    assert Lookup(fields, "method") == Some(JStr(name));
    assert Handle(fx, input, st) == HandleLegacy(fx, id, name, params, st);
  }

  lemma EveryRequestFits(fx: Fixture, input: Option<Json>, name: string, params: seq<Field>, st: ConnectionState)
    requires Requests(input, name, params)
    ensures Fits(fx, name, params, st.initialized, Handle(fx, input, st).0)
  {
    RequestIsHandled(fx, input, name, params, st);
    var id :| Handle(fx, input, st) == HandleLegacy(fx, id, name, params, st);
    LegacyFits(fx, id, name, params, st);
  }

  /** What is not a request gets the error of the first thing wrong with it, and a notification is only acknowledged. */
  ghost predicate RestFits(input: Option<Json>, plan: Plan) {
    && (input.None? ==> Refused(plan, -32700, 400))
    && ((forall fields :: !IsObject(input, fields)) && input.Some? ==> Refused(plan, -32600, 400))
    && (forall fields :: IsObject(input, fields) && !IsJsonRpc(fields) ==> Refused(plan, -32600, 400))
    && (forall fields, id :: IsObject(input, fields) && IsJsonRpc(fields) && Holds(fields, "id", id) && BadParams(fields) ==> Refused(plan, -32602, 400))
    && (forall fields :: IsObject(input, fields) && IsJsonRpc(fields) && Lacks(fields, "id") ==> plan.status == if BadParams(fields) then 400 else 202)
  }

  ghost predicate BadParams(fields: seq<Field>) {
    exists v: Json :: Holds(fields, "params", v) && !v.JObject?
  }

  lemma ParamsMean(fields: seq<Field>)
    ensures !Params(fields).JObject? <==> BadParams(fields)
  {
    LookupMeans(fields, "params");
    if !Params(fields).JObject? { assert Holds(fields, "params", Params(fields)); }
    if v: Json :| Holds(fields, "params", v) && !v.JObject? { assert Lookup(fields, "params") == Some(v); }
  }

  lemma EveryRestFits(fx: Fixture, input: Option<Json>, st: ConnectionState)
    ensures RestFits(input, Handle(fx, input, st).0)
  {
    if input.Some? && input.value.JObject? {
      var fields := input.value.fields;
      assert IsObject(input, fields);
      LookupMeans(fields, "id");
      ParamsMean(fields);
      WellFormedMeans(fields);
    }
  }

  // ----- on a connection, and in a session -----

  function PlanAt(fx: Fixture, inputs: seq<Option<Json>>, i: nat): Plan
    requires i < |inputs|
  {
    Handle(fx, inputs[i], StdioState(fx, inputs[..i])).0
  }

  /** On a connection every message is answered as JSON-RPC asks, and every request by its own method and params and by
      whether the messages before it completed the handshake. */
  lemma ConnectionAnswers(fx: Fixture, inputs: seq<Option<Json>>, i: nat)
    requires i < |inputs|
    ensures StdioReplies(fx, inputs)[i] == PlanAt(fx, inputs, i).response && AnswersTo(inputs[i], StdioReplies(fx, inputs)[i])
    ensures forall name, params :: Requests(inputs[i], name, params) ==> Fits(fx, name, params, HandshakeDone(inputs[..i]), PlanAt(fx, inputs, i))
    ensures RestFits(inputs[i], PlanAt(fx, inputs, i))
  {
    var st := StdioState(fx, inputs[..i]);
    EveryAnswerFits(fx, inputs[i], st);
    EveryRestFits(fx, inputs[i], st);
    StateMeaning(fx, inputs[..i]);
    forall name, params | Requests(inputs[i], name, params) ensures Fits(fx, name, params, HandshakeDone(inputs[..i]), PlanAt(fx, inputs, i)) {
      EveryRequestFits(fx, inputs[i], name, params, st);
    }
  }

  // ----- over HTTP -----

  ghost predicate Denied(reply: HttpReply, status: int, id: Json, code: int) {
    && reply.status == status && reply.session.None? && reply.response.Some?
    && reply.response.value.id == id && reply.response.value.outcome.Error? && reply.response.value.outcome.code == code
  }

  ghost predicate Carries(reply: HttpReply, plan: Plan) {
    reply.status == plan.status && reply.response == plan.response
  }

  ghost predicate HasMethod(body: Option<Json>, name: string) {
    exists fields :: IsObject(body, fields) && Holds(fields, "method", JStr(name))
  }

  /** The id to answer a message with: its own, or null. */
  ghost predicate AnswerId(body: Option<Json>, id: Json) {
    exists fields :: IsObject(body, fields) && (Holds(fields, "id", id) || (Lacks(fields, "id") && id == JNull))
  }

  /** The answer to a POST after other requests: a refusal by the transport, or what a lone connection would answer, fed the
      messages of the session so far; an initialize opens a session, and discovery needs none. */
  ghost predicate PostFits(fx: Fixture, before: seq<Request>, req: Request, reply: HttpReply)
    requires req.Post?
  {
    if !req.endpointOk then Denied(reply, 404, JNull, -32601)
    else if !req.originOk then Denied(reply, 403, JNull, -32600)
    else if !req.jsonContent then Denied(reply, 415, JNull, -32600)
    else if req.contentLength < 0 || req.contentLength > 1048576 then Denied(reply, 400, JNull, -32600)
    else if HasMethod(req.body, "initialize") then Carries(reply, PlanAt(fx, [req.body], 0)) && reply.session == Some(req.newId)
    else if (forall fields :: !IsObject(req.body, fields)) || HasMethod(req.body, "server/discover") then
      Carries(reply, PlanAt(fx, [req.body], 0)) && reply.session.None?
    else if req.session.None? || !Live(before, req.session.value) then exists id :: AnswerId(req.body, id) && Denied(reply, 400, id, -32600)
    else
      var heard := Transcript(before, req.session.value);
      Carries(reply, PlanAt(fx, heard + [req.body], |heard|)) && reply.session == req.session
  }

  lemma MethodMeans(body: Option<Json>, name: string)
    ensures IsMethod(body, name) <==> HasMethod(body, name)
  {
    if body.Some? && body.value.JObject? {
      var fields := body.value.fields;
      LookupMeans(fields, "method");
      assert IsObject(body, fields);
    }
  }

  lemma AnswerIdIs(body: Option<Json>)
    requires body.Some? && body.value.JObject?
    ensures AnswerId(body, Id(body.value.fields))
  {
    var fields := body.value.fields;
    LookupMeans(fields, "id");
    assert IsObject(body, fields);
  }

  lemma FirstPlan(fx: Fixture, body: Option<Json>)
    ensures PlanAt(fx, [body], 0) == Handle(fx, body, Fresh).0
    ensures body.None? || !body.value.JObject? ==> PlanAt(fx, [body], 0).status == 400
  {
    assert [body][..0] == [];
  }

  lemma NextPlan(fx: Fixture, heard: seq<Option<Json>>, body: Option<Json>)
    ensures PlanAt(fx, heard + [body], |heard|) == Handle(fx, body, StdioState(fx, heard)).0
  {
    assert (heard + [body])[..|heard|] == heard;
  }

  /** In every interleaving with fresh ids, every POST is answered so. */
  lemma EveryPostFits(fx: Fixture, reqs: seq<Request>, i: nat)
    requires FreshIds(reqs) && i < |reqs| && reqs[i].Post?
    ensures PostFits(fx, reqs[..i], reqs[i], ReplyAt(fx, reqs, i))
  {
    var before, req := reqs[..i], reqs[i];
    MethodMeans(req.body, "initialize");
    MethodMeans(req.body, "server/discover");
    if req.body.None? || !req.body.value.JObject? || IsMethod(req.body, "initialize") || IsMethod(req.body, "server/discover") {
      FirstPlan(fx, req.body);
    } else {
      assert IsObject(req.body, req.body.value.fields);
      AnswerIdIs(req.body);
      if req.session.Some? {
        EverySessionTracked(fx, before, req.session.value);
        NextPlan(fx, Transcript(before, req.session.value), req.body);
      }
    }
  }

  /** A DELETE closes a live session, and says whether there was one. */
  lemma EveryDeleteFits(fx: Fixture, reqs: seq<Request>, i: nat)
    requires FreshIds(reqs) && i < |reqs| && reqs[i].Delete?
    ensures var before, req, reply := reqs[..i], reqs[i], ReplyAt(fx, reqs, i);
            && reply.response.None? && reply.session.None?
            && reply.status == if !req.endpointOk then 405 else if req.session.Some? && Live(before, req.session.value) then 200 else 404
  {
    if reqs[i].session.Some? { EverySessionTracked(fx, reqs[..i], reqs[i].session.value); }
  }
}
