/**
 The legacy handshake of the MCP fixture server: one connection over stdio, or many sessions
 over HTTP. Results of the listed features come from a parameter; everything that decides
 whether they are given is modelled.
 */
module McpSessions {
  import opened Common
  import opened JsonText

  const PARSE_ERROR := -32700
  const INVALID_REQUEST := -32600
  const METHOD_NOT_FOUND := -32601
  const INVALID_PARAMS := -32602

  datatype ConnectionState = ConnectionState(initializeSeen: bool, initialized: bool)

  const Fresh := ConnectionState(false, false)

  datatype Outcome = Success(result: Json) | Error(code: int, message: string)

  datatype Reply = Reply(id: Json, outcome: Outcome)

  /** What to answer, and the notifications to write before it. */
  datatype Plan = Plan(response: Option<Reply>, status: int, notifications: seq<Json> := [])

  /** The features answer from the method and its params alone, with an outcome and an HTTP status. */
  datatype Fixture = Fixture(mode: string, feature: (string, seq<Field>) -> (Outcome, int))

  /** `fields.get(key)`, or `None` when the key is missing; a repeated key counts once, the last one. */
  function Lookup(fields: seq<Field>, key: string): Option<Json> {
    if fields == [] then None
    else
      var n := |fields| - 1;
      if fields[n].key == key then Some(fields[n].value) else Lookup(fields[..n], key)
  }

  function GetOr(fields: seq<Field>, key: string, default: Json): Json {
    match Lookup(fields, key)
    case None => default
    case Some(v) => v
  }

  function Method(fields: seq<Field>): Json {
    GetOr(fields, "method", JNull)
  }

  predicate WellFormedCall(fields: seq<Field>) {
    Lookup(fields, "jsonrpc") == Some(JStr("2.0")) && Method(fields).JStr?
  }

  predicate HasId(fields: seq<Field>) {
    Lookup(fields, "id").Some?
  }

  function Id(fields: seq<Field>): Json {
    GetOr(fields, "id", JNull)
  }

  function Params(fields: seq<Field>): Json {
    GetOr(fields, "params", JObject([]))
  }

  const Features: set<string> := {"tools/list", "tools/call", "resources/list", "resources/templates/list", "resources/read", "prompts/list", "prompts/get"}

  function Capabilities(): Json {
    JObject([
      Field("tools", JObject([Field("listChanged", JBool(true))])),
      Field("resources", JObject([Field("subscribe", JBool(true)), Field("listChanged", JBool(true))])),
      Field("prompts", JObject([Field("listChanged", JBool(true))])),
      Field("logging", JObject([]))])
  }

  function InitializeResult(mode: string): Json {
    JObject([
      Field("protocolVersion", JStr(mode)),
      Field("capabilities", Capabilities()),
      Field("serverInfo", JObject([Field("name", JStr("openai-mcp-spec-test-server")), Field("version", JStr("0.1.0"))])),
      Field("instructions", JStr("Legacy " + mode + " compatibility fixture."))])
  }

  function Notification(name: string, params: seq<Field>): Json {
    JObject([Field("jsonrpc", JStr("2.0")), Field("method", JStr(name)), Field("params", JObject(params))])
  }

  /** The notifications of a tool call: only the progress tool has any, and it takes what to report and whether to log
      from the metadata of the request. */
  function CallNotifications(params: seq<Field>, meta: seq<Field>): seq<Json> {
    if GetOr(params, "name", JNull) != JStr("progress") then []
    else
      var token := GetOr(meta, "progressToken", JNull);
      (if token.JStr? || token.JInt? then
         [Notification("notifications/progress",
            [Field("progressToken", token), Field("progress", JInt(1)), Field("total", JInt(1)), Field("message", JStr("fixture complete"))])]
       else []) +
      if GetOr(meta, "io.modelcontextprotocol/logLevel", JNull).JStr? then
        [Notification("notifications/message",
           [Field("level", JStr("info")), Field("logger", JStr("openai-mcp-spec-test-server")), Field("data", JStr("request-scoped fixture log"))])]
      else []
  }

  /** `_handle_legacy`, which passes no metadata to a tool call. */
  function HandleLegacy(fx: Fixture, id: Json, name: string, params: seq<Field>, st: ConnectionState): (Plan, ConnectionState) {
    if name == "initialize" then
      if !GetOr(params, "protocolVersion", JNull).JStr?
      then (Plan(Some(Reply(id, Error(INVALID_PARAMS, "initialize requires protocolVersion"))), 200), st)
      else (Plan(Some(Reply(id, Success(InitializeResult(fx.mode)))), 200), st.(initializeSeen := true))
    else if name == "server/discover" then
      (Plan(Some(Reply(id, Error(METHOD_NOT_FOUND, "Unknown method: server/discover"))), 404), st)
    else if !st.initialized then
      (Plan(Some(Reply(id, Error(INVALID_REQUEST, "Server has not received notifications/initialized"))), 200), st)
    else if name == "ping" || name == "logging/setLevel" then
      (Plan(Some(Reply(id, Success(JObject([])))), 200), st)
    else if name in Features then
      var (outcome, status) := fx.feature(name, params);
      (Plan(Some(Reply(id, outcome)), status, if name == "tools/call" then CallNotifications(params, []) else []), st)
    else (Plan(Some(Reply(id, Error(METHOD_NOT_FOUND, "Unknown method: " + name))), 404), st)
  }

  function HandleNotification(name: string, st: ConnectionState): ConnectionState {
    if name == "notifications/initialized" && st.initializeSeen then st.(initialized := true) else st
  }

  /** `ProtocolServer.handle` in a legacy mode, with the parse error that both transports report
      for a text that is not JSON. */
  function Handle(fx: Fixture, input: Option<Json>, st: ConnectionState): (Plan, ConnectionState) {
    if input.None? then (Plan(Some(Reply(JNull, Error(PARSE_ERROR, "Parse error"))), 400), st)
    else if !input.value.JObject? then
      (Plan(Some(Reply(JNull, Error(INVALID_REQUEST, "Request must be a JSON object"))), 400), st)
    else
      var fields := input.value.fields;
      if !WellFormedCall(fields) then
        (Plan(Some(Reply(Id(fields), Error(INVALID_REQUEST, "Invalid JSON-RPC 2.0 request"))), 400), st)
      else if !Params(fields).JObject? then
        (Plan(if HasId(fields) then Some(Reply(Id(fields), Error(INVALID_PARAMS, "params must be an object"))) else None, 400), st)
      else if !HasId(fields) then (Plan(None, 202), HandleNotification(Method(fields).s, st))
      else HandleLegacy(fx, Id(fields), Method(fields).s, Params(fields).fields, st)
  }

  /** So in a legacy mode the response is all that is written, over either transport. */
  lemma NothingBeforeResponse(fx: Fixture, input: Option<Json>, st: ConnectionState)
    ensures Handle(fx, input, st).0.notifications == []
  {
  }

  // ----- stdio -----

  function StdioState(fx: Fixture, inputs: seq<Option<Json>>): ConnectionState {
    if inputs == [] then Fresh else Handle(fx, inputs[|inputs| - 1], StdioState(fx, inputs[..|inputs| - 1])).1
  }

  /** The response to each input of one connection; `None` for a notification. */
  function StdioReplies(fx: Fixture, inputs: seq<Option<Json>>): (replies: seq<Option<Reply>>)
    ensures |replies| == |inputs|
  {
    seq(|inputs|, i requires 0 <= i < |inputs| => Handle(fx, inputs[i], StdioState(fx, inputs[..i])).0.response)
  }

  method RunStdio(fx: Fixture, inputs: seq<Option<Json>>) returns (replies: seq<Option<Reply>>)
    ensures replies == StdioReplies(fx, inputs)
  {
    var state := Fresh;
    replies := [];
    for i := 0 to |inputs|
      invariant state == StdioState(fx, inputs[..i])
      invariant replies == StdioReplies(fx, inputs)[..i]
    {
      var (plan, next) := Handle(fx, inputs[i], state);
      replies := replies + [plan.response];
      assert inputs[..i + 1][..i] == inputs[..i];
      state := next;
    }
  }

  // ----- HTTP -----

  type Sessions = map<string, ConnectionState>

  /** A request with what the transport checks before the body is looked at. */
  datatype Request =
    | Post(endpointOk: bool, originOk: bool, jsonContent: bool, contentLength: int, body: Option<Json>, session: Option<string>, newId: string)
    | Delete(endpointOk: bool, session: Option<string>)

  datatype HttpReply = HttpReply(status: int, response: Option<Reply>, session: Option<string>)

  predicate Admitted(req: Request) {
    req.Post? && req.endpointOk && req.originOk && req.jsonContent && 0 <= req.contentLength <= 1048576
  }

  function Refusal(req: Request): HttpReply
    requires req.Post? && !Admitted(req)
  {
    if !req.endpointOk then HttpReply(404, Some(Reply(JNull, Error(METHOD_NOT_FOUND, "Unknown MCP endpoint"))), None)
    else if !req.originOk then HttpReply(403, Some(Reply(JNull, Error(INVALID_REQUEST, "Origin is not allowed"))), None)
    else if !req.jsonContent then HttpReply(415, Some(Reply(JNull, Error(INVALID_REQUEST, "Content-Type must be application/json"))), None)
    else HttpReply(400, Some(Reply(JNull, Error(INVALID_REQUEST, "Invalid Content-Length"))), None)
  }

  predicate IsMethod(body: Option<Json>, name: string) {
    body.Some? && body.value.JObject? && Method(body.value.fields) == JStr(name)
  }

  /** do_POST and do_DELETE on a server in a legacy mode. */
  function HttpStep(fx: Fixture, sessions: Sessions, req: Request): (Sessions, HttpReply) {
    match req
    case Delete(endpointOk, session) =>
      if !endpointOk then (sessions, HttpReply(405, None, None))
      else if session.Some? && session.value in sessions then (sessions - {session.value}, HttpReply(200, None, None))
      else (sessions, HttpReply(404, None, None))
    case Post(_, _, _, _, body, session, newId) =>
      if !Admitted(req) then (sessions, Refusal(req))
      else if body.None? || !body.value.JObject? then (sessions, HttpReply(400, Handle(fx, body, Fresh).0.response, None))
      else if IsMethod(body, "initialize") then
        var (plan, state) := Handle(fx, body, Fresh);
        (sessions[newId := state], HttpReply(plan.status, plan.response, Some(newId)))
      else if IsMethod(body, "server/discover") then
        var (plan, _) := Handle(fx, body, Fresh);
        (sessions, HttpReply(plan.status, plan.response, None))
      else if session.None? || session.value !in sessions then
        (sessions, HttpReply(400, Some(Reply(Id(body.value.fields), Error(INVALID_REQUEST, "Missing or unknown Mcp-Session-Id"))), None))
      else
        var (plan, state) := Handle(fx, body, sessions[session.value]);
        (sessions[session.value := state], HttpReply(plan.status, plan.response, session))
  }

  class FixtureHttpServer {
    const fixture: Fixture
    var sessions: Sessions

    constructor (fixture: Fixture)
      ensures this.fixture == fixture && sessions == map[]
    {
      this.fixture := fixture;
      sessions := map[];
    }

    method DoDelete(endpointOk: bool, session: Option<string>) returns (reply: HttpReply)
      modifies this
      ensures (sessions, reply) == HttpStep(fixture, old(sessions), Delete(endpointOk, session))
    {
      if !endpointOk {
        return HttpReply(405, None, None);
      }
      var existed := session.Some? && session.value in sessions;
      if existed {
        sessions := sessions - {session.value};
      }
      reply := HttpReply(if existed then 200 else 404, None, None);
    }

    method DoPost(req: Request) returns (reply: HttpReply)
      requires req.Post?
      modifies this
      ensures (sessions, reply) == HttpStep(fixture, old(sessions), req)
    {
      if !Admitted(req) {
        return Refusal(req);
      }
      if req.body.None? || !req.body.value.JObject? {
        return HttpReply(400, Handle(fixture, req.body, Fresh).0.response, None);
      }
      var state, header := Fresh, None;
      if IsMethod(req.body, "initialize") {
        header := Some(req.newId);
      } else if !IsMethod(req.body, "server/discover") {
        if req.session.None? || req.session.value !in sessions {
          return HttpReply(400, Some(Reply(Id(req.body.value.fields), Error(INVALID_REQUEST, "Missing or unknown Mcp-Session-Id"))), None);
        }
        state, header := sessions[req.session.value], req.session;
      }
      var (plan, next) := Handle(fixture, req.body, state);
      if header.Some? {
        sessions := sessions[header.value := next];
      }
      reply := HttpReply(plan.status, plan.response, header);
    }
  }

  // ----- runs -----

  function RunSessions(fx: Fixture, reqs: seq<Request>): Sessions {
    if reqs == [] then map[] else HttpStep(fx, RunSessions(fx, reqs[..|reqs| - 1]), reqs[|reqs| - 1]).0
  }

  function ReplyAt(fx: Fixture, reqs: seq<Request>, i: nat): HttpReply
    requires i < |reqs|
  {
    HttpStep(fx, RunSessions(fx, reqs[..i]), reqs[i]).1
  }

  predicate Creates(req: Request, s: string) {
    Admitted(req) && IsMethod(req.body, "initialize") && req.newId == s
  }

  predicate Closes(req: Request, s: string) {
    req.Delete? && req.endpointOk && req.session == Some(s)
  }

  predicate Speaks(req: Request, s: string) {
    Admitted(req) && req.session == Some(s) && !IsMethod(req.body, "initialize")
  }

  /** Session ids are not reused: a request that opens a session brings an id of its own. */
  ghost predicate FreshIds(reqs: seq<Request>) {
    forall i, j, s :: 0 <= i < j < |reqs| && Creates(reqs[i], s) ==> !Creates(reqs[j], s)
  }

  /** The session has been opened and not yet closed. */
  predicate Live(reqs: seq<Request>, s: string) {
    if reqs == [] then false
    else
      var n := |reqs| - 1;
      Creates(reqs[n], s) || (!Closes(reqs[n], s) && Live(reqs[..n], s))
  }

  /** The request belongs to the conversation of a session: it opens it, or is sent in it. */
  predicate Belongs(before: seq<Request>, req: Request, s: string) {
    Creates(req, s) || (Live(before, s) && Speaks(req, s))
  }

  /** The messages of one session, in order, up to its DELETE. */
  function Transcript(reqs: seq<Request>, s: string): seq<Option<Json>> {
    if reqs == [] then []
    else
      var n := |reqs| - 1;
      Transcript(reqs[..n], s) + if Belongs(reqs[..n], reqs[n], s) then [reqs[n].body] else []
  }

  /** The responses given to those messages. */
  function SessionReplies(fx: Fixture, reqs: seq<Request>, s: string): seq<Option<Reply>> {
    if reqs == [] then []
    else
      var n := |reqs| - 1;
      SessionReplies(fx, reqs[..n], s) + if Belongs(reqs[..n], reqs[n], s) then [HttpStep(fx, RunSessions(fx, reqs[..n]), reqs[n]).1.response] else []
  }

  // ----- a session is a connection -----

  /** Discovery is answered alike in every state and changes none. */
  lemma DiscoverIgnoresState(fx: Fixture, body: Option<Json>, st: ConnectionState)
    requires body.None? || !body.value.JObject? || IsMethod(body, "server/discover")
    ensures Handle(fx, body, st).0 == Handle(fx, body, Fresh).0 && Handle(fx, body, st).1 == st
  {
  }

  /** A live session is stored, with the state that a connection would have after its messages;
      a session that is not live is not stored. */
  ghost predicate Tracked(fx: Fixture, reqs: seq<Request>, s: string) {
    && (Live(reqs, s) <==> s in RunSessions(fx, reqs))
    && (Live(reqs, s) ==> RunSessions(fx, reqs)[s] == StdioState(fx, Transcript(reqs, s)))
    && (!Opened(reqs, s) ==> Transcript(reqs, s) == [])
    && (Live(reqs, s) ==> Opened(reqs, s))
  }

  ghost predicate Opened(reqs: seq<Request>, s: string) {
    exists i :: 0 <= i < |reqs| && Creates(reqs[i], s)
  }

  /** One more message in the conversation. */
  lemma ExtendState(fx: Fixture, inputs: seq<Option<Json>>, input: Option<Json>)
    ensures StdioState(fx, inputs + [input]) == Handle(fx, input, StdioState(fx, inputs)).1
  {
    assert (inputs + [input])[..|inputs|] == inputs;
  }

  lemma OpenedBefore(reqs: seq<Request>, s: string)
    requires reqs != [] && FreshIds(reqs) && Creates(reqs[|reqs| - 1], s)
    ensures !Opened(reqs[..|reqs| - 1], s)
  {
  }

  lemma SpeakingTracks(fx: Fixture, before: seq<Request>, req: Request, s: string)
    requires Tracked(fx, before, s) && Live(before, s) && Speaks(req, s)
    ensures var sessions := RunSessions(fx, before);
            var (after, reply) := HttpStep(fx, sessions, req);
            && s in after && after[s] == StdioState(fx, Transcript(before, s) + [req.body])
            && reply.response == Handle(fx, req.body, StdioState(fx, Transcript(before, s))).0.response
  {
    var st := StdioState(fx, Transcript(before, s));
    ExtendState(fx, Transcript(before, s), req.body);
    if req.body.None? || !req.body.value.JObject? || IsMethod(req.body, "server/discover") {
      DiscoverIgnoresState(fx, req.body, st);
    }
  }

  lemma OthersLeaveSession(fx: Fixture, sessions: Sessions, req: Request, s: string)
    requires !Creates(req, s) && !(s in sessions && Speaks(req, s))
    ensures var after := HttpStep(fx, sessions, req).0;
            && (s in after <==> s in sessions && !Closes(req, s))
            && (s in after ==> after[s] == sessions[s])
  {
  }

  /** A request that opens a session starts its transcript. */
  lemma OpeningTracks(fx: Fixture, reqs: seq<Request>, s: string)
    requires reqs != [] && FreshIds(reqs) && Creates(reqs[|reqs| - 1], s) && Tracked(fx, reqs[..|reqs| - 1], s)
    ensures Tracked(fx, reqs, s)
  {
    var n := |reqs| - 1;
    OpenedBefore(reqs, s);
    ExtendState(fx, [], reqs[n].body);
    assert [] + [reqs[n].body] == [reqs[n].body];
    assert Creates(reqs[n], s);
  }

  lemma OpenedStays(reqs: seq<Request>, s: string)
    requires reqs != []
    ensures Opened(reqs[..|reqs| - 1], s) ==> Opened(reqs, s)
  {
    var before := reqs[..|reqs| - 1];
    if Opened(before, s) {
      var i :| 0 <= i < |before| && Creates(before[i], s);
      assert Creates(reqs[i], s);
    }
  }

  lemma {:induction false} EverySessionTracked(fx: Fixture, reqs: seq<Request>, s: string)
    requires FreshIds(reqs)
    ensures Tracked(fx, reqs, s)
  {
    if reqs != [] {
      var n := |reqs| - 1;
      var before, req := reqs[..n], reqs[n];
      EverySessionTracked(fx, before, s);
      OpenedStays(reqs, s);
      if Creates(req, s) {
        OpeningTracks(fx, reqs, s);
      } else if Live(before, s) && Speaks(req, s) {
        SpeakingTracks(fx, before, req, s);
      } else {
        OthersLeaveSession(fx, RunSessions(fx, before), req, s);
        assert Transcript(reqs, s) == Transcript(before, s);
      }
    }
  }

  lemma ExtendReplies(fx: Fixture, inputs: seq<Option<Json>>, input: Option<Json>)
    ensures StdioReplies(fx, inputs + [input]) == StdioReplies(fx, inputs) + [Handle(fx, input, StdioState(fx, inputs)).0.response]
  {
    var more := inputs + [input];
    assert more[..|inputs|] == inputs;
    forall i | 0 <= i < |inputs| ensures more[..i] == inputs[..i] { }
  }

  lemma CreatorReply(fx: Fixture, before: seq<Request>, req: Request, s: string)
    requires Creates(req, s)
    ensures HttpStep(fx, RunSessions(fx, before), req).1.response == Handle(fx, req.body, Fresh).0.response
  {
  }

  /** However the requests of many sessions interleave, the responses that one session gets, up to
      its DELETE, are those of a connection of its own that is sent the same messages. */
  lemma {:induction false} SessionIsConnection(fx: Fixture, reqs: seq<Request>, s: string)
    requires FreshIds(reqs)
    ensures SessionReplies(fx, reqs, s) == StdioReplies(fx, Transcript(reqs, s))
  {
    if reqs != [] {
      var n := |reqs| - 1;
      var before, req := reqs[..n], reqs[n];
      SessionIsConnection(fx, before, s);
      EverySessionTracked(fx, before, s);
      if Creates(req, s) {
        OpenedBefore(reqs, s);
        CreatorReply(fx, before, req, s);
        ExtendReplies(fx, [], req.body);
      } else if Live(before, s) && Speaks(req, s) {
        SpeakingTracks(fx, before, req, s);
        ExtendReplies(fx, Transcript(before, s), req.body);
      } else {
        assert Transcript(reqs, s) == Transcript(before, s);
        assert SessionReplies(fx, reqs, s) == SessionReplies(fx, before, s);
      }
    }
  }

  // ----- no result before the handshake -----

  predicate Valid(input: Option<Json>) {
    input.Some? && input.value.JObject? && WellFormedCall(input.value.fields) && Params(input.value.fields).JObject?
  }

  predicate Call(input: Option<Json>, name: string) {
    Valid(input) && HasId(input.value.fields) && Method(input.value.fields).s == name
  }

  /** An initialize request that the server accepts. */
  predicate AcceptedInitialize(input: Option<Json>) {
    Call(input, "initialize") && GetOr(Params(input.value.fields).fields, "protocolVersion", JNull).JStr?
  }

  predicate InitializedNotice(input: Option<Json>) {
    Valid(input) && !HasId(input.value.fields) && Method(input.value.fields).s == "notifications/initialized"
  }

  ghost predicate Some1<A>(p: A -> bool, s: seq<A>) {
    exists j :: 0 <= j < |s| && p(s[j])
  }

  /** Something with `p`, and later something with `q`. */
  ghost predicate Then<A>(p: A -> bool, q: A -> bool, s: seq<A>) {
    exists j, k :: 0 <= j < k < |s| && p(s[j]) && q(s[k])
  }

  ghost predicate InitializeSeen(inputs: seq<Option<Json>>) {
    Some1(AcceptedInitialize, inputs)
  }

  /** An accepted initialize followed by notifications/initialized. */
  ghost predicate HandshakeDone(inputs: seq<Option<Json>>) {
    Then(AcceptedInitialize, InitializedNotice, inputs)
  }

  lemma StepMeaning(fx: Fixture, input: Option<Json>, st: ConnectionState)
    ensures var st' := Handle(fx, input, st).1;
            && (st'.initializeSeen <==> st.initializeSeen || AcceptedInitialize(input))
            && (st'.initialized <==> st.initialized || (st.initializeSeen && InitializedNotice(input)))
  {
  }

  lemma ExtendThen<A>(p: A -> bool, q: A -> bool, s: seq<A>, x: A)
    ensures Some1(p, s + [x]) <==> Some1(p, s) || p(x)
    ensures Then(p, q, s + [x]) <==> Then(p, q, s) || (Some1(p, s) && q(x))
  {
    var more := s + [x];
    assert more[|s|] == x;
    assert forall j :: 0 <= j < |s| ==> more[j] == s[j];
    if Some1(p, s) {
      var j :| 0 <= j < |s| && p(s[j]);
      assert p(more[j]);
    }
    if Then(p, q, s) {
      var j, k :| 0 <= j < k < |s| && p(s[j]) && q(s[k]);
      assert p(more[j]) && q(more[k]);
    }
  }

  /** The two flags mean exactly what has been received. */
  lemma {:induction false} StateMeaning(fx: Fixture, inputs: seq<Option<Json>>)
    ensures StdioState(fx, inputs).initializeSeen <==> InitializeSeen(inputs)
    ensures StdioState(fx, inputs).initialized <==> HandshakeDone(inputs)
  {
    if inputs != [] {
      var n := |inputs| - 1;
      StateMeaning(fx, inputs[..n]);
      StepMeaning(fx, inputs[n], StdioState(fx, inputs[..n]));
      ExtendThen(AcceptedInitialize, InitializedNotice, inputs[..n], inputs[n]);
      assert inputs[..n] + [inputs[n]] == inputs;
    }
  }

  predicate Succeeds(response: Option<Reply>) {
    response.Some? && response.value.outcome.Success?
  }

  lemma ResultNeedsInitialized(fx: Fixture, input: Option<Json>, st: ConnectionState)
    ensures Succeeds(Handle(fx, input, st).0.response) && !IsMethod(input, "initialize") ==> st.initialized
    ensures Call(input, "ping") ==> (Succeeds(Handle(fx, input, st).0.response) <==> st.initialized)
  {
    assert "ping"[0] != "initialize"[0] && "ping"[0] != "server/discover"[0];
  }

  /** On a connection, no method but initialize gets a result before the handshake is complete;
      from then on a ping always does. */
  lemma ResultsNeedHandshake(fx: Fixture, inputs: seq<Option<Json>>, i: nat)
    requires i < |inputs|
    ensures Succeeds(StdioReplies(fx, inputs)[i]) && !IsMethod(inputs[i], "initialize") ==> HandshakeDone(inputs[..i])
    ensures Call(inputs[i], "ping") ==> (Succeeds(StdioReplies(fx, inputs)[i]) <==> HandshakeDone(inputs[..i]))
  {
    StateMeaning(fx, inputs[..i]);
    ResultNeedsInitialized(fx, inputs[i], StdioState(fx, inputs[..i]));
  }

  /** Over HTTP, a result to anything but initialize is given only inside a live session whose own
      messages completed the handshake. */
  lemma HttpResultsNeedHandshake(fx: Fixture, reqs: seq<Request>, i: nat)
    requires FreshIds(reqs) && i < |reqs| && reqs[i].Post?
    requires Succeeds(ReplyAt(fx, reqs, i).response) && !IsMethod(reqs[i].body, "initialize")
    ensures reqs[i].session.Some?
    ensures var s := reqs[i].session.value; Live(reqs[..i], s) && HandshakeDone(Transcript(reqs[..i], s))
  {
    var before, req := reqs[..i], reqs[i];
    ResultNeedsInitialized(fx, req.body, Fresh);
    assert req.session.Some? && req.session.value in RunSessions(fx, before);
    var s := req.session.value;
    EverySessionTracked(fx, before, s);
    StateMeaning(fx, Transcript(before, s));
    ResultNeedsInitialized(fx, req.body, RunSessions(fx, before)[s]);
  }
}
