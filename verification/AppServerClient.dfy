/**
 The JSONL client that the compliance harness drives an app-server with: requests that wait for
 their response, waits for notifications, and answers to the server's own requests.

 Time is a parameter: a call gives up after `patience` messages, or when none is left to
 read. The server process accepts `sends` more lines before it exits.
 */
module AppServerClient {
  import opened Common
  import opened PyValues

  /** A JSON object from the server; `None` for a field that is not there, `rest` for all that decides no branch. */
  datatype Message = Message(id: Option<Value>, name: Option<Value>, params: Option<Value>, rest: string)

  datatype Line = Call(callId: int, name: string) | Notice(name: string) | Accept(id: Value) | Reject(id: Value)

  datatype Fate = Recorded | ReturnedTo(id: int)

  /** A message that was taken from the stream, and what became of it. */
  datatype Taken = Taken(message: Message, fate: Fate)

  datatype State = State(
    nextId: int,
    incoming: seq<Option<Message>>,   // what is still to be read; None is the end of the stream
    events: seq<Message>,
    elicitations: seq<Message>,         // the server requests whose params were kept
    outbox: seq<Line>,
    sends: nat,
    log: seq<Taken>)

  datatype Outcome = Returned(message: Message) | TimedOut | Closed | Exited

  predicate IsResponse(m: Message, id: int) {
    m.id.Some? && EqInt(m.id.value, id) && m.name.None?
  }

  predicate IsServerRequest(m: Message) {
    m.id.Some? && m.name.Some? && m.name.value.Str?
  }

  /** The answer to a server request: elicitations are accepted, anything else is refused. */
  function Answer(m: Message): Line
    requires m.id.Some?
  {
    if m.name == Some(Str("mcpServer/elicitation/request")) then Accept(m.id.value) else Reject(m.id.value)
  }

  predicate IsElicitation(m: Message) {
    IsServerRequest(m) && m.name == Some(Str("mcpServer/elicitation/request")) && m.params == Some(Dict)
  }

  function Record(s: State, m: Message): State {
    s.(events := s.events + [m], log := s.log + [Taken(m, Recorded)])
  }

  /** `_handle_server_request`: record it, then answer unless the server is gone. */
  function HandleServerRequest(s: State, m: Message): (State, bool)
    requires IsServerRequest(m)
  {
    var s1 := Record(s, m);
    var s2 := if IsElicitation(m) then s1.(elicitations := s1.elicitations + [m]) else s1;
    if s2.sends == 0 then (s2, false) else (s2.(sends := s2.sends - 1, outbox := s2.outbox + [Answer(m)]), true)
  }

  function Await(s: State, id: int, patience: nat): (State, Outcome)
    decreases patience
  {
    if patience == 0 || s.incoming == [] then (s, TimedOut)
    else
      var rest := s.(incoming := s.incoming[1..]);
      match s.incoming[0]
      case None => (rest, Closed)
      case Some(m) =>
        if IsResponse(m, id) then (rest.(log := rest.log + [Taken(m, ReturnedTo(id))]), Returned(m))
        else if IsServerRequest(m) then
          var (s', ok) := HandleServerRequest(rest, m);
          if ok then Await(s', id, patience - 1) else (s', Exited)
        else Await(Record(rest, m), id, patience - 1)
  }

  /** `request` */
  function Request(s: State, name: string, patience: nat): (State, Outcome) {
    var s1 := s.(nextId := s.nextId + 1);
    if s.sends == 0 then (s1, Exited)
    else Await(s1.(sends := s.sends - 1, outbox := s.outbox + [Call(s.nextId, name)]), s.nextId, patience)
  }

  predicate Wanted(m: Message, name: string, accept: Message -> bool) {
    m.name == Some(Str(name)) && m.params == Some(Dict) && accept(m)
  }

  function FirstWanted(events: seq<Message>, name: string, accept: Message -> bool): Option<Message> {
    if events == [] then None
    else if Wanted(events[0], name, accept) then Some(events[0])
    else FirstWanted(events[1..], name, accept)
  }

  function AwaitNotice(s: State, name: string, accept: Message -> bool, patience: nat): (State, Outcome)
    decreases patience
  {
    if patience == 0 || s.incoming == [] then (s, TimedOut)
    else
      var rest := s.(incoming := s.incoming[1..]);
      match s.incoming[0]
      case None => (rest, Closed)
      case Some(m) =>
        if IsServerRequest(m) then
          var (s', ok) := HandleServerRequest(rest, m);
          if ok then AwaitNotice(s', name, accept, patience - 1) else (s', Exited)
        else if Wanted(m, name, accept) then (Record(rest, m), Returned(m))
        else AwaitNotice(Record(rest, m), name, accept, patience - 1)
  }

  /** `events[after:]`, where a negative index counts from the end. */
  function Since(events: seq<Message>, after: int): seq<Message> {
    if after >= |events| then [] else if after >= 0 then events[after..]
    else if |events| + after >= 0 then events[|events| + after..] else events
  }

  /** It is a suffix: without the first `after` events, or with the last `-after`. */
  lemma SinceIsSuffix(events: seq<Message>, after: int)
    ensures exists k :: 0 <= k <= |events| && Since(events, after) == events[k..] && k == if after >= 0 then Min(after, |events|) else Max(|events| + after, 0)
  {
    var k := if after >= 0 then Min(after, |events|) else Max(|events| + after, 0);
    assert Since(events, after) == events[k..];
  }

  function Min(a: int, b: int): int {
    if a <= b then a else b
  }

  function Max(a: int, b: int): int {
    if a >= b then a else b
  }

  /** `wait_for_notification`: events already recorded come first. */
  function WaitFor(s: State, name: string, accept: Message -> bool, after: int, patience: nat): (State, Outcome) {
    var seen := Since(s.events, after);
    match FirstWanted(seen, name, accept)
    case Some(m) => (s, Returned(m))
    case None => AwaitNotice(s, name, accept, patience)
  }

  function Notify(s: State, name: string): (State, Outcome) {
    if s.sends == 0 then (s, Exited) else (s.(sends := s.sends - 1, outbox := s.outbox + [Notice(name)]), TimedOut)
  }

  // ----- the client object -----

  class Client {
    var nextId: int
    var incoming: seq<Option<Message>>
    var events: seq<Message>
    var elicitations: seq<Message>
    var outbox: seq<Line>
    var sends: nat
    ghost var log: seq<Taken>

    constructor (incoming: seq<Option<Message>>, sends: nat)
      ensures View() == Start(incoming, sends)
    {
      this.nextId, this.incoming, this.sends := 1, incoming, sends;
      events, elicitations, outbox, log := [], [], [], [];
    }

    ghost function View(): State
      reads this
    {
      State(nextId, incoming, events, elicitations, outbox, sends, log)
    }

    method Send(line: Line) returns (ok: bool)
      modifies this`sends, this`outbox
      ensures ok <==> old(sends) > 0
      ensures ok ==> sends == old(sends) - 1 && outbox == old(outbox) + [line]
      ensures !ok ==> sends == old(sends) && outbox == old(outbox)
    {
      ok := sends > 0;
      if ok {
        sends, outbox := sends - 1, outbox + [line];
      }
    }

    method HandleRequest(m: Message) returns (ok: bool)
      requires IsServerRequest(m)
      modifies this
      ensures (View(), ok) == HandleServerRequest(old(View()), m)
    {
      events, log := events + [m], log + [Taken(m, Recorded)];
      if IsElicitation(m) {
        elicitations := elicitations + [m];
      }
      ok := Send(Answer(m));
    }

    method SendRequest(name: string, patience: nat) returns (outcome: Outcome)
      modifies this
      ensures (View(), outcome) == Request(old(View()), name, patience)
    {
      var id := nextId;
      nextId := nextId + 1;
      var ok := Send(Call(id, name));
      if !ok {
        return Exited;
      }
      ghost var begun := View();
      var left: nat := patience;
      while true
        invariant left <= patience && Await(View(), id, left) == Await(begun, id, patience)
        decreases left
      {
        if left == 0 || incoming == [] {
          return TimedOut;
        }
        var arrival := incoming[0];
        incoming := incoming[1..];
        left := left - 1;
        if arrival.None? {
          return Closed;
        }
        var m := arrival.value;
        if IsResponse(m, id) {
          log := log + [Taken(m, ReturnedTo(id))];
          return Returned(m);
        }
        if IsServerRequest(m) {
          ok := HandleRequest(m);
          if !ok {
            return Exited;
          }
        } else {
          events, log := events + [m], log + [Taken(m, Recorded)];
        }
      }
    }

    method WaitForNotification(name: string, accept: Message -> bool, after: int, patience: nat) returns (outcome: Outcome)
      modifies this
      ensures (View(), outcome) == WaitFor(old(View()), name, accept, after, patience)
    {
      ghost var begun := View();
      var seen := Since(events, after);
      for k := 0 to |seen|
        invariant View() == begun
        invariant FirstWanted(seen, name, accept) == FirstWanted(seen[k..], name, accept)
      {
        if Wanted(seen[k], name, accept) {
          return Returned(seen[k]);
        }
      }
      var left: nat := patience;
      while true
        invariant left <= patience && AwaitNotice(View(), name, accept, left) == AwaitNotice(begun, name, accept, patience)
        decreases left
      {
        if left == 0 || incoming == [] {
          return TimedOut;
        }
        var arrival := incoming[0];
        incoming := incoming[1..];
        left := left - 1;
        if arrival.None? {
          return Closed;
        }
        var m := arrival.value;
        if IsServerRequest(m) {
          var ok := HandleRequest(m);
          if !ok {
            return Exited;
          }
        } else {
          events, log := events + [m], log + [Taken(m, Recorded)];
          if Wanted(m, name, accept) {
            return Returned(m);
          }
        }
      }
    }
  }

  function Start(incoming: seq<Option<Message>>, sends: nat): State {
    State(1, incoming, [], [], [], sends, [])
  }

  // ----- runs -----

  datatype Operation =
    | DoRequest(name: string, patience: nat)
    | DoWait(name: string, accept: Message -> bool, after: int, patience: nat)
    | DoNotify(name: string)

  function Do(s: State, op: Operation): (State, Outcome) {
    match op
    case DoRequest(name, patience) => Request(s, name, patience)
    case DoWait(name, accept, after, patience) => WaitFor(s, name, accept, after, patience)
    case DoNotify(name) => Notify(s, name)
  }

  function Run(s: State, ops: seq<Operation>): State {
    if ops == [] then s else Do(Run(s, ops[..|ops| - 1]), ops[|ops| - 1]).0
  }

  /** The messages that were taken, in order. */
  function Messages(log: seq<Taken>): (ms: seq<Option<Message>>)
    ensures |ms| == |log|
  {
    seq(|log|, i requires 0 <= i < |log| => Some(log[i].message))
  }

  /** Those that were recorded, in order. */
  function RecordedOnes(log: seq<Taken>): seq<Message> {
    if log == [] then []
    else
      var n := |log| - 1;
      RecordedOnes(log[..n]) + if log[n].fate.Recorded? then [log[n].message] else []
  }

  /** The answers that are due, one for each server request, in order. */
  function Answers(events: seq<Message>): seq<Line> {
    if events == [] then []
    else
      var n := |events| - 1;
      Answers(events[..n]) + if IsServerRequest(events[n]) then [Answer(events[n])] else []
  }

  function SentAnswers(outbox: seq<Line>): seq<Line> {
    if outbox == [] then []
    else
      var n := |outbox| - 1;
      SentAnswers(outbox[..n]) + if outbox[n].Accept? || outbox[n].Reject? then [outbox[n]] else []
  }

  /** The stream without its end marks. */
  function Proper(ms: seq<Option<Message>>): seq<Option<Message>> {
    if ms == [] then []
    else
      var n := |ms| - 1;
      Proper(ms[..n]) + if ms[n].Some? then [ms[n]] else []
  }

  /** The params that are kept: those of elicitation requests, in order. */
  function Elicited(events: seq<Message>): seq<Message> {
    if events == [] then []
    else
      var n := |events| - 1;
      Elicited(events[..n]) + if IsElicitation(events[n]) then [events[n]] else []
  }

  /** Each response went to the request that carries its id, and no request got two. */
  ghost predicate Routed(log: seq<Taken>, bound: int) {
    && (forall i :: 0 <= i < |log| && log[i].fate.ReturnedTo? ==> IsResponse(log[i].message, log[i].fate.id) && log[i].fate.id < bound)
    && (forall i, j :: 0 <= i < j < |log| && log[i].fate.ReturnedTo? && log[j].fate.ReturnedTo? ==> log[i].fate.id != log[j].fate.id)
  }

  /** Every recorded server request was answered once, in order, as long as the server takes input. */
  ghost predicate Answered(s: State) {
    && (if s.sends > 0 then SentAnswers(s.outbox) == Answers(s.events) else SentAnswers(s.outbox) <= Answers(s.events))
    && s.elicitations == Elicited(s.events)
  }

  /** How much of the stream has been read. */
  function Position(stream: seq<Option<Message>>, s: State): int {
    |stream| - |s.incoming|
  }

  /** What was read is in the log, in order, and what was not returned as a response is in the events. */
  ghost predicate Accounted(stream: seq<Option<Message>>, s: State) {
    && 0 <= Position(stream, s) && s.incoming == stream[Position(stream, s)..]
    && Messages(s.log) == Proper(stream[..Position(stream, s)])
    && s.events == RecordedOnes(s.log)
  }

  ghost predicate Sound(stream: seq<Option<Message>>, s: State, bound: int) {
    Accounted(stream, s) && Answered(s) && Routed(s.log, bound) && bound <= s.nextId
  }

  // ----- the atomic steps of a wait, and what every wait keeps -----

  predicate Arrives(s: State, m: Message) {
    s.incoming != [] && s.incoming[0] == Some(m)
  }

  predicate Ended(s: State) {
    s.incoming != [] && s.incoming[0] == None
  }

  function Drop(s: State): State
    requires s.incoming != []
  {
    s.(incoming := s.incoming[1..])
  }

  function TakeIn(s: State, m: Message): State
    requires Arrives(s, m)
  {
    if IsServerRequest(m) then HandleServerRequest(Drop(s), m).0 else Record(Drop(s), m)
  }

  function Return(s: State, m: Message, id: int): State
    requires Arrives(s, m)
  {
    Drop(s).(log := s.log + [Taken(m, ReturnedTo(id))])
  }

  ghost predicate Stable(inv: State -> bool) {
    && (forall s, m :: inv(s) && Arrives(s, m) ==> inv(TakeIn(s, m)))
    && (forall s :: inv(s) && Ended(s) ==> inv(Drop(s)))
  }

  /** Waiting for a response is taking in messages, then possibly returning the one that is meant. */
  lemma {:induction false} AwaitSteps(inv: State -> bool, s: State, id: int, patience: nat) returns (t: State)
    requires Stable(inv) && inv(s)
    ensures var (s', outcome) := Await(s, id, patience);
            && inv(t)
            && (outcome.Returned? ==> Arrives(t, outcome.message) && IsResponse(outcome.message, id) && s' == Return(t, outcome.message, id))
            && (!outcome.Returned? ==> s' == t)
    decreases patience
  {
    t := s;
    if patience > 0 && s.incoming != [] {
      match s.incoming[0]
      case None => t := Drop(s);
      case Some(m) =>
        assert Arrives(s, m);
        if !IsResponse(m, id) {
          t := TakeIn(s, m);
          if !IsServerRequest(m) || s.sends > 0 {
            t := AwaitSteps(inv, t, id, patience - 1);
          }
        }
    }
  }

  lemma {:induction false} AwaitNoticeSteps(inv: State -> bool, s: State, name: string, accept: Message -> bool, patience: nat)
    requires Stable(inv) && inv(s)
    ensures inv(AwaitNotice(s, name, accept, patience).0)
    decreases patience
  {
    if patience > 0 && s.incoming != [] {
      match s.incoming[0]
      case None => assert Ended(s);
      case Some(m) =>
        assert Arrives(s, m);
        if IsServerRequest(m) {
          if s.sends > 0 {
            AwaitNoticeSteps(inv, TakeIn(s, m), name, accept, patience - 1);
          }
        } else if !Wanted(m, name, accept) {
          AwaitNoticeSteps(inv, TakeIn(s, m), name, accept, patience - 1);
        }
    }
  }

  // ----- every atomic step is sound -----

  lemma DropEnd(stream: seq<Option<Message>>, s: State)
    requires Accounted(stream, s) && Ended(s)
    ensures Accounted(stream, Drop(s))
  {
    var k := Position(stream, s);
    assert stream[..k + 1][..k] == stream[..k] && stream[k] == None;
    assert Proper(stream[..k]) + [] == Proper(stream[..k]);
  }

  lemma TakeAccounted(stream: seq<Option<Message>>, s: State, m: Message, fate: Fate, s': State)
    requires Accounted(stream, s) && Arrives(s, m)
    requires s'.incoming == s.incoming[1..] && s'.log == s.log + [Taken(m, fate)]
    requires s'.events == if fate.Recorded? then s.events + [m] else s.events
    ensures Accounted(stream, s')
  {
    var k := Position(stream, s);
    assert stream[..k + 1][..k] == stream[..k] && stream[k] == Some(m);
    assert s'.log[..|s.log|] == s.log;
    assert Messages(s'.log) == Messages(s.log) + [Some(m)];
  }

  lemma AnswersSnoc(events: seq<Message>, m: Message)
    ensures Answers(events + [m]) == Answers(events) + if IsServerRequest(m) then [Answer(m)] else []
    ensures Elicited(events + [m]) == Elicited(events) + if IsElicitation(m) then [m] else []
  {
    assert (events + [m])[..|events|] == events;
  }

  lemma SentSnoc(outbox: seq<Line>, line: Line)
    ensures SentAnswers(outbox + [line]) == SentAnswers(outbox) + if line.Accept? || line.Reject? then [line] else []
  {
    assert (outbox + [line])[..|outbox|] == outbox;
  }

  lemma TakeShape(s: State, m: Message)
    requires Arrives(s, m)
    ensures var s' := TakeIn(s, m);
            s'.incoming == s.incoming[1..] && s'.log == s.log + [Taken(m, Recorded)] && s'.events == s.events + [m] && s'.nextId == s.nextId
  {
  }

  lemma TakeAnswered(s: State, m: Message)
    requires Answered(s) && Arrives(s, m)
    ensures Answered(TakeIn(s, m))
  {
    AnswersSnoc(s.events, m);
    if IsServerRequest(m) {
      SentSnoc(s.outbox, Answer(m));
    }
  }

  lemma TakeRouted(s: State, m: Message, bound: int)
    requires Routed(s.log, bound) && Arrives(s, m)
    ensures Routed(TakeIn(s, m).log, bound)
  {
    assert TakeIn(s, m).log == s.log + [Taken(m, Recorded)];
  }

  lemma TakeIsSound(stream: seq<Option<Message>>, s: State, m: Message, bound: int)
    requires Sound(stream, s, bound) && Arrives(s, m)
    ensures Sound(stream, TakeIn(s, m), bound) && TakeIn(s, m).nextId == s.nextId
  {
    var s' := TakeIn(s, m);
    TakeShape(s, m);
    TakeAnswered(s, m);
    TakeRouted(s, m, bound);
    TakeAccounted(stream, s, m, Recorded, s');
  }

  lemma SoundIsStable(stream: seq<Option<Message>>, bound: int, nextId: int) returns (inv: State -> bool)
    ensures Stable(inv)
    ensures forall s :: inv(s) <==> Sound(stream, s, bound) && s.nextId == nextId
  {
    inv := s => Sound(stream, s, bound) && s.nextId == nextId;
    forall s, m | inv(s) && Arrives(s, m) ensures inv(TakeIn(s, m)) {
      TakeIsSound(stream, s, m, bound);
    }
    forall s | inv(s) && Ended(s) ensures inv(Drop(s)) {
      DropEnd(stream, s);
    }
  }

  lemma ReturnRouted(log: seq<Taken>, m: Message, id: int)
    requires Routed(log, id) && IsResponse(m, id)
    ensures Routed(log + [Taken(m, ReturnedTo(id))], id + 1)
  {
  }

  lemma ReturnIsSound(stream: seq<Option<Message>>, s: State, m: Message, id: int)
    requires Sound(stream, s, id) && id < s.nextId && Arrives(s, m) && IsResponse(m, id)
    ensures Sound(stream, Return(s, m, id), id + 1)
  {
    TakeAccounted(stream, s, m, ReturnedTo(id), Return(s, m, id));
    ReturnRouted(s.log, m, id);
  }

  lemma SendIsSound(stream: seq<Option<Message>>, s: State, line: Line, nextId: int)
    requires Sound(stream, s, s.nextId) && s.sends > 0 && (line.Call? || line.Notice?) && s.nextId <= nextId
    ensures Sound(stream, s.(nextId := nextId, sends := s.sends - 1, outbox := s.outbox + [line]), s.nextId)
  {
    SentSnoc(s.outbox, line);
  }

  lemma RoutedBelow(log: seq<Taken>, bound: int, higher: int)
    requires Routed(log, bound) && bound <= higher
    ensures Routed(log, higher)
  {
  }

  /** Waiting for the response of the latest call. */
  lemma AwaitIsSound(stream: seq<Option<Message>>, s: State, id: int, patience: nat)
    requires Sound(stream, s, id) && s.nextId == id + 1
    ensures var (s', outcome) := Await(s, id, patience);
            && Sound(stream, s', id + 1) && s'.nextId == id + 1
            && (outcome.Returned? ==> IsResponse(outcome.message, id))
  {
    var inv := SoundIsStable(stream, id, id + 1);
    var t := AwaitSteps(inv, s, id, patience);
    var outcome := Await(s, id, patience).1;
    if outcome.Returned? {
      ReturnIsSound(stream, t, outcome.message, id);
    } else {
      RoutedBelow(t.log, id, id + 1);
    }
  }

  /** A request keeps the run sound, and what it returns carries the id of this very call. */
  lemma RequestIsSound(stream: seq<Option<Message>>, s: State, name: string, patience: nat)
    requires Sound(stream, s, s.nextId)
    ensures var (s', outcome) := Request(s, name, patience);
            && Sound(stream, s', s'.nextId) && s'.nextId == s.nextId + 1
            && (outcome.Returned? ==> IsResponse(outcome.message, s.nextId))
  {
    if s.sends > 0 {
      var id, line := s.nextId, Call(s.nextId, name);
      SendIsSound(stream, s, line, id + 1);
      AwaitIsSound(stream, s.(nextId := id + 1, sends := s.sends - 1, outbox := s.outbox + [line]), id, patience);
    } else {
      RoutedBelow(s.log, s.nextId, s.nextId + 1);
    }
  }

  lemma WaitIsSound(stream: seq<Option<Message>>, s: State, name: string, accept: Message -> bool, after: int, patience: nat)
    requires Sound(stream, s, s.nextId)
    ensures var s' := WaitFor(s, name, accept, after, patience).0; Sound(stream, s', s'.nextId)
  {
    var n := s.nextId;
    var inv := SoundIsStable(stream, n, n);
    AwaitNoticeSteps(inv, s, name, accept, patience);
  }

  lemma StartIsSound(stream: seq<Option<Message>>, sends: nat)
    ensures Sound(stream, Start(stream, sends), 1)
  {
    assert stream[..0] == [] && stream[0..] == stream;
  }

  lemma DoIsSound(stream: seq<Option<Message>>, s: State, op: Operation)
    requires Sound(stream, s, s.nextId)
    ensures Sound(stream, Do(s, op).0, Do(s, op).0.nextId)
  {
    match op
    case DoRequest(name, patience) => RequestIsSound(stream, s, name, patience);
    case DoWait(name, accept, after, patience) => WaitIsSound(stream, s, name, accept, after, patience);
    case DoNotify(name) =>
      if s.sends > 0 { SendIsSound(stream, s, Notice(name), s.nextId); }
  }

  /** Over any run of calls against any stream, with any time-outs and even if the server exits: every
      message read is, exactly once and in order, either the response returned to the
      request with its id or an event; every server request read is answered once, in order, as long as
      the server takes input; and no two calls get a response with the same id. */
  lemma {:induction false} EveryRunIsSound(stream: seq<Option<Message>>, sends: nat, ops: seq<Operation>)
    ensures Sound(stream, Run(Start(stream, sends), ops), Run(Start(stream, sends), ops).nextId)
  {
    if ops == [] {
      StartIsSound(stream, sends);
    } else {
      var n := |ops| - 1;
      EveryRunIsSound(stream, sends, ops[..n]);
      DoIsSound(stream, Run(Start(stream, sends), ops[..n]), ops[n]);
    }
  }

  /** In any run, a request that returns gets the response to itself: it carries the id of this
      very call, and no response returned before carried that id. */
  lemma ResponseIsOwn(stream: seq<Option<Message>>, sends: nat, ops: seq<Operation>, name: string, patience: nat)
    ensures var s := Run(Start(stream, sends), ops);
            var (s', outcome) := Request(s, name, patience);
            && s'.nextId == s.nextId + 1
            && (outcome.Returned? ==> IsResponse(outcome.message, s.nextId))
            && (forall i :: 0 <= i < |s.log| && s.log[i].fate.ReturnedTo? ==> s.log[i].fate.id < s.nextId)
  {
    EveryRunIsSound(stream, sends, ops);
    RequestIsSound(stream, Run(Start(stream, sends), ops), name, patience);
  }

  /** The first event that is wanted is at place i. */
  ghost predicate FirstAt(events: seq<Message>, i: int, name: string, accept: Message -> bool) {
    0 <= i < |events| && Wanted(events[i], name, accept) && forall j :: 0 <= j < i ==> !Wanted(events[j], name, accept)
  }

  lemma {:induction false} FirstWantedIsFirst(events: seq<Message>, name: string, accept: Message -> bool)
    ensures match FirstWanted(events, name, accept)
            case None => forall i :: 0 <= i < |events| ==> !Wanted(events[i], name, accept)
            case Some(m) => exists i :: FirstAt(events, i, name, accept) && events[i] == m
  {
    if events != [] {
      FirstWantedIsFirst(events[1..], name, accept);
      if Wanted(events[0], name, accept) {
        assert FirstAt(events, 0, name, accept);
      } else if i :| FirstAt(events[1..], i, name, accept) && FirstWanted(events, name, accept) == Some(events[1..][i]) {
        assert FirstAt(events, i + 1, name, accept);
      }
    }
  }

  lemma {:induction false} AwaitNoticeReturns(s: State, name: string, accept: Message -> bool, patience: nat)
    ensures var (s', outcome) := AwaitNotice(s, name, accept, patience);
            && s.events <= s'.events
            && (outcome.Returned? ==> Wanted(outcome.message, name, accept) && outcome.message in s'.events[|s.events|..])
    decreases patience
  {
    if patience > 0 && s.incoming != [] && s.incoming[0].Some? {
      var m := s.incoming[0].value;
      if !Wanted(m, name, accept) || IsServerRequest(m) {
        AwaitNoticeReturns(TakeIn(s, m), name, accept, patience - 1);
      }
    }
  }

  /** A wait for a notification returns one that is wanted: the first recorded one past the given index if there is any, and
      otherwise one that arrived during the wait and is recorded too. */
  lemma WaitReturnsWanted(s: State, name: string, accept: Message -> bool, after: int, patience: nat)
    ensures var (s', outcome) := WaitFor(s, name, accept, after, patience);
            var seen := Since(s.events, after);
            && s.events <= s'.events
            && (outcome.Returned? ==> Wanted(outcome.message, name, accept))
            && ((exists i :: 0 <= i < |seen| && Wanted(seen[i], name, accept)) ==> s' == s && exists i :: FirstAt(seen, i, name, accept) && outcome == Returned(seen[i]))
            && ((forall i :: 0 <= i < |seen| ==> !Wanted(seen[i], name, accept)) && outcome.Returned? ==> outcome.message in s'.events[|s.events|..])
  {
    var seen := Since(s.events, after);
    FirstWantedIsFirst(seen, name, accept);
    AwaitNoticeReturns(s, name, accept, patience);
  }
}
