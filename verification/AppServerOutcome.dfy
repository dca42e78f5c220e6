/**
 What a call of the JSONL client comes to, given the messages that the server sends: the place in
 the stream at which a wait stops decides the outcome, what is recorded and what is answered.
 */
module AppServerOutcome {
  import opened Common
  import opened PyValues
  import opened AppServerClient

  // ----- what the messages are -----

  /** A message that the client must answer: it has an id and a method. */
  predicate Asks(m: Message) {
    m.id.Some? && m.name.Some? && m.name.value.Str?
  }

  /** The answer to such a message: under its own id, an acceptance if it is an elicitation and a refusal otherwise. */
  ghost predicate IsAnswer(line: Line, m: Message) {
    && (line.Accept? || line.Reject?) && m.id == Some(line.id)
    && (line.Accept? <==> m.name == Some(Str("mcpServer/elicitation/request")))
  }

  /** The messages of a stretch of the stream. */
  function Said(stream: seq<Option<Message>>): seq<Message> {
    if stream == [] then [] else (if stream[0].Some? then [stream[0].value] else []) + Said(stream[1..])
  }

  /** How many of them must be answered. */
  function Asked(stream: seq<Option<Message>>): nat {
    if stream == [] then 0 else (if stream[0].Some? && Asks(stream[0].value) then 1 else 0) + Asked(stream[1..])
  }

  /** The lines answer those messages, in order and each once. */
  ghost predicate AnswersAll(lines: seq<Line>, messages: seq<Message>) {
    if messages == [] then lines == []
    else if Asks(messages[0]) then lines != [] && IsAnswer(lines[0], messages[0]) && AnswersAll(lines[1..], messages[1..])
    else AnswersAll(lines, messages[1..])
  }

  /** The elicitations with params, in order. */
  function Kept(messages: seq<Message>): seq<Message> {
    if messages == [] then []
    else
      (if Asks(messages[0]) && messages[0].name == Some(Str("mcpServer/elicitation/request")) && messages[0].params == Some(Dict)
       then [messages[0]] else []) + Kept(messages[1..])
  }

  // ----- where a wait stops -----

  /** The wait goes on after this message: it is not the one waited for, and can be answered if it must be. */
  ghost predicate Passes(stream: seq<Option<Message>>, sends: nat, stops: Message -> bool, i: nat) {
    i < |stream| && stream[i].Some? && !stops(stream[i].value) && (Asks(stream[i].value) ==> Asked(stream[..i]) < sends)
  }

  /** The wait stops before the message at place j is read, because time or messages run out, or at that message. */
  ghost predicate StopsAt(stream: seq<Option<Message>>, sends: nat, stops: Message -> bool, patience: nat, j: nat, outcome: Outcome) {
    && j <= patience && j <= |stream| && (forall i: nat :: i < j ==> Passes(stream, sends, stops, i))
    && if j == patience || j == |stream| then outcome == TimedOut
       else if stream[j].None? then outcome == Closed
       else if stops(stream[j].value) then outcome == Returned(stream[j].value)
       else outcome == Exited && Asks(stream[j].value) && Asked(stream[..j]) == sends
  }

  lemma StopDoesNotPass(stream: seq<Option<Message>>, sends: nat, stops: Message -> bool, patience: nat, j: nat, outcome: Outcome)
    requires StopsAt(stream, sends, stops, patience, j, outcome)
    ensures j < patience ==> !Passes(stream, sends, stops, j)
  {
  }

  /** There is only one such place, and so one outcome. */
  lemma StopsOnce(stream: seq<Option<Message>>, sends: nat, stops: Message -> bool, patience: nat, j: nat, outcome: Outcome, k: nat, other: Outcome)
    requires StopsAt(stream, sends, stops, patience, j, outcome) && StopsAt(stream, sends, stops, patience, k, other)
    ensures j == k && outcome == other
  {
    StopDoesNotPass(stream, sends, stops, patience, j, outcome);
    StopDoesNotPass(stream, sends, stops, patience, k, other);
  }

  /** The last message that was read and recorded: one that could not be answered, or the notification waited for. */
  function Last(stream: seq<Option<Message>>, j: nat, outcome: Outcome, records: bool): seq<Message> {
    if j < |stream| && stream[j].Some? && (outcome.Exited? || (records && outcome.Returned?)) then [stream[j].value] else []
  }

  /** What a wait that stops at place j leaves behind. */
  ghost predicate Leaves(s: State, s': State, j: nat, outcome: Outcome, records: bool)
    requires j <= |s.incoming|
  {
    var stream := s.incoming;
    var said := Said(stream[..j]);
    && s'.nextId == s.nextId
    && s'.incoming == stream[if outcome.TimedOut? || j == |stream| then j else j + 1..]
    && s'.events == s.events + said + Last(stream, j, outcome, records)
    && s'.elicitations == s.elicitations + Kept(said + Last(stream, j, outcome, records))
    && s'.sends == s.sends - Asked(stream[..j])
    && s.outbox <= s'.outbox && AnswersAll(s'.outbox[|s.outbox|..], said)
  }

  // ----- one message earlier -----

  function Cost(m: Message): nat {
    if Asks(m) then 1 else 0
  }

  lemma PrefixCons(stream: seq<Option<Message>>, m: Message, j: nat)
    requires stream != [] && stream[0] == Some(m) && j < |stream|
    ensures Said(stream[..j + 1]) == [m] + Said(stream[1..][..j])
    ensures Asked(stream[..j + 1]) == Cost(m) + Asked(stream[1..][..j])
  {
    assert stream[..j + 1][1..] == stream[1..][..j];
  }

  lemma PassesLater(stream: seq<Option<Message>>, m: Message, sends: nat, stops: Message -> bool, i: nat)
    requires stream != [] && stream[0] == Some(m) && Cost(m) <= sends
    ensures Passes(stream[1..], sends - Cost(m), stops, i) <==> Passes(stream, sends, stops, i + 1)
  {
    if i < |stream| - 1 { PrefixCons(stream, m, i); }
  }

  lemma StopsLater(stream: seq<Option<Message>>, m: Message, sends: nat, stops: Message -> bool, patience: nat, j: nat, outcome: Outcome)
    requires stream != [] && stream[0] == Some(m) && patience > 0 && Cost(m) <= sends && !stops(m)
    requires StopsAt(stream[1..], sends - Cost(m), stops, patience - 1, j, outcome)
    ensures StopsAt(stream, sends, stops, patience, j + 1, outcome)
  {
    assert Asked(stream[..0]) == 0;
    forall i: nat | i < j + 1 ensures Passes(stream, sends, stops, i) {
      if i > 0 {
        PassesLater(stream, m, sends, stops, i - 1);
      }
    }
    if j < |stream| - 1 { PrefixCons(stream, m, j); }
  }

  lemma KeptCons(m: Message, messages: seq<Message>)
    ensures Kept([m] + messages) == (if IsElicitation(m) then [m] else []) + Kept(messages)
  {
    assert ([m] + messages)[1..] == messages;
  }

  lemma AnswersCons(m: Message, messages: seq<Message>, lines: seq<Line>)
    requires AnswersAll(lines, messages)
    ensures AnswersAll((if Asks(m) then [Answer(m)] else []) + lines, [m] + messages)
  {
    var all := (if Asks(m) then [Answer(m)] else []) + lines;
    assert ([m] + messages)[1..] == messages;
    if Asks(m) { assert all[1..] == lines; } else { assert all == lines; }
  }

  /** The state after a message that the wait passes. */
  ghost predicate Passed(s: State, m: Message, s1: State) {
    && s.incoming != [] && s.incoming[0] == Some(m) && Cost(m) <= s.sends
    && s1.nextId == s.nextId && s1.incoming == s.incoming[1..] && s1.events == s.events + [m]
    && s1.elicitations == s.elicitations + (if IsElicitation(m) then [m] else [])
    && s1.sends == s.sends - Cost(m) && s1.outbox == s.outbox + (if Asks(m) then [Answer(m)] else [])
  }

  lemma LeavesLater(s: State, m: Message, s1: State, s': State, j: nat, outcome: Outcome, records: bool)
    requires Passed(s, m, s1) && j <= |s1.incoming| && Leaves(s1, s', j, outcome, records)
    ensures Leaves(s, s', j + 1, outcome, records)
  {
    var stream, rest := s.incoming, s1.incoming;
    var said, last := Said(rest[..j]), Last(rest, j, outcome, records);
    PrefixCons(stream, m, j);
    assert Last(stream, j + 1, outcome, records) == last;
    Grouped(s.events, [m], said, last);
    ElicitationsLater(s.elicitations, m, said, last);
    OutboxLater(s, m, s1, s', said);
    assert j < |rest| ==> rest[j + 1..] == stream[j + 2..];
  }

  lemma Grouped(a: seq<Message>, b: seq<Message>, c: seq<Message>, d: seq<Message>)
    ensures a + b + c + d == a + (b + c) + d
  {
  }

  lemma ElicitationsLater(kept: seq<Message>, m: Message, said: seq<Message>, last: seq<Message>)
    ensures kept + (if IsElicitation(m) then [m] else []) + Kept(said + last) == kept + Kept([m] + said + last)
  {
    assert [m] + said + last == [m] + (said + last);
    KeptCons(m, said + last);
  }

  lemma OutboxLater(s: State, m: Message, s1: State, s': State, said: seq<Message>)
    requires Passed(s, m, s1) && s1.outbox <= s'.outbox && AnswersAll(s'.outbox[|s1.outbox|..], said)
    ensures s.outbox <= s'.outbox && AnswersAll(s'.outbox[|s.outbox|..], [m] + said)
  {
    var lines := s'.outbox[|s1.outbox|..];
    AnswersCons(m, said, lines);
    assert s'.outbox[|s.outbox|..] == (if Asks(m) then [Answer(m)] else []) + lines;
  }

  /** A wait that stops at once. */
  lemma LeavesNow(s: State, s': State, outcome: Outcome, records: bool)
    requires s'.nextId == s.nextId && s'.sends == s.sends && s'.outbox == s.outbox
    requires s'.incoming == if outcome.TimedOut? || s.incoming == [] then s.incoming else s.incoming[1..]
    requires s'.events == s.events + Last(s.incoming, 0, outcome, records)
    requires s'.elicitations == s.elicitations + Kept(Last(s.incoming, 0, outcome, records))
    ensures Leaves(s, s', 0, outcome, records)
  {
    var last := Last(s.incoming, 0, outcome, records);
    assert s.incoming[..0] == [] && s.incoming[0..] == s.incoming;
    assert s.events + [] + last == s.events + last && [] + last == last;
    assert s'.outbox[|s.outbox|..] == [];
  }

  // ----- waiting for a response -----

  /** The response to a call: it has the id of the call and no method. */
  function Responds(id: int): Message -> bool {
    (m: Message) => m.id.Some? && EqInt(m.id.value, id) && m.name.None?
  }

  lemma KeptOne(m: Message)
    ensures Kept([m]) == if IsElicitation(m) then [m] else []
  {
    assert [m][1..] == [];
  }

  lemma AwaitStopsNow(s: State, id: int, patience: nat)
    requires patience == 0 || s.incoming == [] || s.incoming[0].None? || Responds(id)(s.incoming[0].value) || (Asks(s.incoming[0].value) && s.sends == 0)
    ensures var (s', outcome) := Await(s, id, patience);
            StopsAt(s.incoming, s.sends, Responds(id), patience, 0, outcome) && Leaves(s, s', 0, outcome, false)
  {
    var (s', outcome) := Await(s, id, patience);
    assert Asked(s.incoming[..0]) == 0;
    if s.incoming != [] && s.incoming[0].Some? { KeptOne(s.incoming[0].value); }
    LeavesNow(s, s', outcome, false);
  }

  lemma AwaitPasses(s: State, m: Message, id: int, patience: nat) returns (s1: State)
    requires patience > 0 && s.incoming != [] && s.incoming[0] == Some(m) && !Responds(id)(m) && (Asks(m) ==> s.sends > 0)
    ensures Passed(s, m, s1) && Await(s, id, patience) == Await(s1, id, patience - 1)
  {
    var rest := s.(incoming := s.incoming[1..]);
    s1 := if IsServerRequest(m) then HandleServerRequest(rest, m).0 else Record(rest, m);
  }

  lemma {:induction false} AwaitStops(s: State, id: int, patience: nat) returns (j: nat)
    ensures var (s', outcome) := Await(s, id, patience);
            StopsAt(s.incoming, s.sends, Responds(id), patience, j, outcome) && Leaves(s, s', j, outcome, false)
    decreases patience
  {
    if patience == 0 || s.incoming == [] || s.incoming[0].None? || Responds(id)(s.incoming[0].value) || (Asks(s.incoming[0].value) && s.sends == 0) {
      AwaitStopsNow(s, id, patience);
      j := 0;
    } else {
      var m := s.incoming[0].value;
      var s1 := AwaitPasses(s, m, id, patience);
      j := AwaitStops(s1, id, patience - 1);
      var (s', outcome) := Await(s1, id, patience - 1);
      StopsLater(s.incoming, m, s.sends, Responds(id), patience, j, outcome);
      LeavesLater(s, m, s1, s', j, outcome, false);
      j := j + 1;
    }
  }

  /** The state once the call is sent: one line, with the id that the response must carry. */
  ghost predicate Sent(s: State, name: string, sent: State) {
    && sent.nextId == s.nextId + 1 && sent.sends == s.sends - 1 && sent.outbox == s.outbox + [Call(s.nextId, name)]
    && sent.incoming == s.incoming && sent.events == s.events && sent.elicitations == s.elicitations
  }

  /** A request sends one call, and then its outcome and everything it leaves are decided by the place at which the stream,
      the patience or the server's input runs out, or the response comes. */
  lemma RequestComesTo(s: State, name: string, patience: nat) returns (sent: State, j: nat)
    requires s.sends > 0
    ensures var (s', outcome) := Request(s, name, patience);
            && Sent(s, name, sent)
            && StopsAt(s.incoming, s.sends - 1, Responds(s.nextId), patience, j, outcome)
            && Leaves(sent, s', j, outcome, false)
  {
    sent := s.(nextId := s.nextId + 1, sends := s.sends - 1, outbox := s.outbox + [Call(s.nextId, name)]);
    j := AwaitStops(sent, s.nextId, patience);
  }

  /** A request to a server that takes no more input only uses up an id. */
  lemma RequestFails(s: State, name: string, patience: nat)
    requires s.sends == 0
    ensures var (s', outcome) := Request(s, name, patience);
            && outcome == Exited && s'.nextId == s.nextId + 1
            && s'.incoming == s.incoming && s'.events == s.events && s'.elicitations == s.elicitations && s'.outbox == s.outbox && s'.sends == 0
  {
  }

  /** The response is returned: if it is the first at place k, within the patience, with no end mark before it, and the server
      takes the call and an answer to each of its own requests before k, the request returns it, has read k + 1 messages, and
      the k before it are its new events. */
  lemma ResponseIsReturned(s: State, name: string, patience: nat, k: nat)
    requires Comes(s.incoming, s.sends - 1, Responds(s.nextId), patience, k)
    ensures var (s', outcome) := Request(s, name, patience);
            && outcome == Returned(s.incoming[k].value)
            && s'.incoming == s.incoming[k + 1..] && s'.events == s.events + Said(s.incoming[..k])
  {
    var sent, j := RequestComesTo(s, name, patience);
    var outcome := Request(s, name, patience).1;
    ComesStops(s.incoming, s.sends - 1, Responds(s.nextId), patience, k);
    StopsOnce(s.incoming, s.sends - 1, Responds(s.nextId), patience, j, outcome, k, Returned(s.incoming[k].value));
    assert s.events + Said(s.incoming[..k]) + [] == s.events + Said(s.incoming[..k]);
  }

  /** What is waited for first comes at place k, in time, after no end mark, and after no more requests than can be answered. */
  ghost predicate Comes(stream: seq<Option<Message>>, sends: int, stops: Message -> bool, patience: nat, k: nat) {
    && k < |stream| && k < patience && stream[k].Some? && stops(stream[k].value)
    && (forall i: nat :: i < k ==> stream[i].Some? && !stops(stream[i].value))
    && Asked(stream[..k]) <= sends
  }

  lemma ComesStops(stream: seq<Option<Message>>, sends: nat, stops: Message -> bool, patience: nat, k: nat)
    requires Comes(stream, sends, stops, patience, k)
    ensures StopsAt(stream, sends, stops, patience, k, Returned(stream[k].value))
  {
    forall i: nat | i < k ensures Passes(stream, sends, stops, i) {
      AskedGrows(stream, i, k);
    }
  }

  /** A request before place k leaves one more to answer there. */
  lemma {:induction false} AskedGrows(stream: seq<Option<Message>>, i: nat, k: nat)
    requires i < k <= |stream|
    ensures Asked(stream[..i]) + (if stream[i].Some? && Asks(stream[i].value) then 1 else 0) <= Asked(stream[..k])
    decreases i
  {
    var prefix := stream[..k];
    assert prefix[1..] == stream[1..][..k - 1];
    if i > 0 {
      AskedGrows(stream[1..], i - 1, k - 1);
      assert stream[..i][1..] == stream[1..][..i - 1];
    }
  }

  // ----- waiting for a notification -----

  /** The notification waited for; a message that must be answered is never it. */
  function Notifies(name: string, accept: Message -> bool): Message -> bool {
    (m: Message) => !Asks(m) && m.name == Some(Str(name)) && m.params == Some(Dict) && accept(m)
  }

  lemma NoticeStopsNow(s: State, name: string, accept: Message -> bool, patience: nat)
    requires patience == 0 || s.incoming == [] || s.incoming[0].None? || Notifies(name, accept)(s.incoming[0].value)
             || (Asks(s.incoming[0].value) && s.sends == 0)
    ensures var (s', outcome) := AwaitNotice(s, name, accept, patience);
            StopsAt(s.incoming, s.sends, Notifies(name, accept), patience, 0, outcome) && Leaves(s, s', 0, outcome, true)
  {
    var (s', outcome) := AwaitNotice(s, name, accept, patience);
    assert Asked(s.incoming[..0]) == 0;
    if s.incoming != [] && s.incoming[0].Some? { KeptOne(s.incoming[0].value); }
    LeavesNow(s, s', outcome, true);
  }

  lemma NoticePasses(s: State, m: Message, name: string, accept: Message -> bool, patience: nat) returns (s1: State)
    requires patience > 0 && s.incoming != [] && s.incoming[0] == Some(m) && !Notifies(name, accept)(m) && (Asks(m) ==> s.sends > 0)
    ensures Passed(s, m, s1) && AwaitNotice(s, name, accept, patience) == AwaitNotice(s1, name, accept, patience - 1)
  {
    var rest := s.(incoming := s.incoming[1..]);
    s1 := if IsServerRequest(m) then HandleServerRequest(rest, m).0 else Record(rest, m);
  }

  lemma {:induction false} NoticeStops(s: State, name: string, accept: Message -> bool, patience: nat) returns (j: nat)
    ensures var (s', outcome) := AwaitNotice(s, name, accept, patience);
            StopsAt(s.incoming, s.sends, Notifies(name, accept), patience, j, outcome) && Leaves(s, s', j, outcome, true)
    decreases patience
  {
    if patience == 0 || s.incoming == [] || s.incoming[0].None? || Notifies(name, accept)(s.incoming[0].value)
       || (Asks(s.incoming[0].value) && s.sends == 0) {
      NoticeStopsNow(s, name, accept, patience);
      j := 0;
    } else {
      var m := s.incoming[0].value;
      var s1 := NoticePasses(s, m, name, accept, patience);
      j := NoticeStops(s1, name, accept, patience - 1);
      var (s', outcome) := AwaitNotice(s1, name, accept, patience - 1);
      StopsLater(s.incoming, m, s.sends, Notifies(name, accept), patience, j, outcome);
      LeavesLater(s, m, s1, s', j, outcome, true);
      j := j + 1;
    }
  }

  /** A wait that finds nothing among the events past its index comes to what the stream decides. */
  lemma WaitComesTo(s: State, name: string, accept: Message -> bool, after: int, patience: nat) returns (j: nat)
    requires var seen := Since(s.events, after); forall i :: 0 <= i < |seen| ==> !Wanted(seen[i], name, accept)
    ensures var (s', outcome) := WaitFor(s, name, accept, after, patience);
            StopsAt(s.incoming, s.sends, Notifies(name, accept), patience, j, outcome) && Leaves(s, s', j, outcome, true)
  {
    FirstWantedIsFirst(Since(s.events, after), name, accept);
    j := NoticeStops(s, name, accept, patience);
  }

  /** The notification is returned, and recorded after the messages before it. */
  lemma NoticeIsReturned(s: State, name: string, accept: Message -> bool, after: int, patience: nat, k: nat)
    requires var seen := Since(s.events, after); forall i :: 0 <= i < |seen| ==> !Wanted(seen[i], name, accept)
    requires Comes(s.incoming, s.sends, Notifies(name, accept), patience, k)
    ensures var (s', outcome) := WaitFor(s, name, accept, after, patience);
            && outcome == Returned(s.incoming[k].value)
            && s'.incoming == s.incoming[k + 1..] && s'.events == s.events + Said(s.incoming[..k]) + [s.incoming[k].value]
  {
    var j := WaitComesTo(s, name, accept, after, patience);
    var outcome := WaitFor(s, name, accept, after, patience).1;
    ComesStops(s.incoming, s.sends, Notifies(name, accept), patience, k);
    StopsOnce(s.incoming, s.sends, Notifies(name, accept), patience, j, outcome, k, Returned(s.incoming[k].value));
  }
}
