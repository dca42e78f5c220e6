/**
 The analytics queue: producers that never wait, flushers that wait for room and then for
 their barrier, and one worker. Every step below is atomic and the steps of all parties
 interleave in any order. The reducer is a parameter.
 */
module AnalyticsQueue {
  import opened Common

  const QUEUE_SIZE: nat := 256

  datatype Message<F> = Fact(fact: F) | Flush(id: nat)

  /** How the worker's reducer turns facts into events. */
  datatype Reducer<!R, !F, !E> = Reducer(init: R, ingest: (R, F) -> (R, seq<E>), flush: R -> (R, seq<E>))

  datatype Worker<F, E> =
    | Waiting
    | Received(message: Message<F>)
    | Sending(events: seq<E>, barrier: Option<nat>)
    | Signalling(id: nat)

  /** An attempt to enqueue a message, and whether the channel took it. */
  datatype Attempt<F> = Attempt(message: Message<F>, accepted: bool)

  datatype State<R, F, E> = State(
    open: bool,
    attempts: seq<Attempt<F>>,   // in the order in which they were made
    started: set<nat>,           // the flushes so far that got a slot; each has an id of its own
    reserved: set<nat>,          // flushers that hold a free slot but have not filled it
    channel: seq<Message<F>>,
    worker: Worker<F, E>,
    reducer: R,
    ingested: seq<F>,
    sent: seq<seq<E>>,           // what was handed to send_track_events, call by call
    done: set<nat>)              // flushers whose barrier was signalled

  function Initial<R, F, E>(red: Reducer<R, F, E>): State<R, F, E> {
    State(true, [], {}, {}, [], Waiting, red.init, [], [], {})
  }

  datatype Action<F> =
    | TrySend(fact: F)           // a producer, which never waits
    | Reserve(id: nat)           // a flusher gets a slot in the channel
    | Cancel(id: nat)            // its time runs out first
    | PushFlush(id: nat)
    | Receive                    // the worker
    | Process
    | Send
    | Signal
    | Close                      // the worker's task goes away

  function Step<R, F, E>(red: Reducer<R, F, E>, s: State<R, F, E>, a: Action<F>): State<R, F, E> {
    match a
    case TrySend(fact) =>
      if s.open && |s.channel| + |s.reserved| < QUEUE_SIZE
      then s.(attempts := s.attempts + [Attempt(Fact(fact), true)], channel := s.channel + [Fact(fact)])
      else s.(attempts := s.attempts + [Attempt(Fact(fact), false)])
    case Reserve(id) =>
      if s.open && id !in s.started && |s.channel| + |s.reserved| < QUEUE_SIZE
      then s.(started := s.started + {id}, reserved := s.reserved + {id})
      else s
    case Cancel(id) => s.(reserved := s.reserved - {id})
    case PushFlush(id) =>
      if s.open && id in s.reserved
      then s.(reserved := s.reserved - {id}, attempts := s.attempts + [Attempt(Flush(id), true)], channel := s.channel + [Flush(id)])
      else s
    case Receive =>
      if s.open && s.worker.Waiting? && s.channel != [] then s.(worker := Received(s.channel[0]), channel := s.channel[1..]) else s
    case Process =>
      if s.open && s.worker.Received? then
        match s.worker.message
        case Fact(fact) =>
          var (r, events) := red.ingest(s.reducer, fact);
          s.(reducer := r, worker := Sending(events, None), ingested := s.ingested + [fact])
        case Flush(id) =>
          var (r, events) := red.flush(s.reducer);
          s.(reducer := r, worker := Sending(events, Some(id)))
      else s
    case Send =>
      if s.open && s.worker.Sending?
      then s.(sent := s.sent + [s.worker.events], worker := if s.worker.barrier.Some? then Signalling(s.worker.barrier.value) else Waiting)
      else s
    case Signal =>
      if s.open && s.worker.Signalling? then s.(done := s.done + {s.worker.id}, worker := Waiting) else s
    case Close => s.(open := false)
  }

  function Run<R, F, E>(red: Reducer<R, F, E>, actions: seq<Action<F>>): State<R, F, E> {
    if actions == [] then Initial(red)
    else Step(red, Run(red, actions[..|actions| - 1]), actions[|actions| - 1])
  }

  // ----- what a run is compared with -----

  /** The accepted messages, in order. */
  function Accepted<F>(attempts: seq<Attempt<F>>): seq<Message<F>> {
    if attempts == [] then []
    else
      var n := |attempts| - 1;
      Accepted(attempts[..n]) + if attempts[n].accepted then [attempts[n].message] else []
  }

  function Facts<F>(messages: seq<Message<F>>): seq<F> {
    if messages == [] then []
    else
      var n := |messages| - 1;
      Facts(messages[..n]) + if messages[n].Fact? then [messages[n].fact] else []
  }

  function Handled<R, F, E>(red: Reducer<R, F, E>, r: R, message: Message<F>): (R, seq<E>) {
    match message
    case Fact(fact) => red.ingest(r, fact)
    case Flush(_) => red.flush(r)
  }

  /** The reducer after a sequence of messages. */
  function Reduced<R, F, E>(red: Reducer<R, F, E>, messages: seq<Message<F>>): R {
    if messages == [] then red.init
    else Handled(red, Reduced(red, messages[..|messages| - 1]), messages[|messages| - 1]).0
  }

  /** The events of each message of a sequence. */
  function Outputs<R, F, E>(red: Reducer<R, F, E>, messages: seq<Message<F>>): seq<seq<E>> {
    if messages == [] then []
    else
      var n := |messages| - 1;
      Outputs(red, messages[..n]) + [Handled(red, Reduced(red, messages[..n]), messages[n]).1]
  }

  // ----- the invariant -----

  /** How many accepted messages have left the channel. */
  function Taken<R, F, E>(s: State<R, F, E>): int {
    |Accepted(s.attempts)| - |s.channel|
  }

  ghost predicate Consistent<R, F, E>(red: Reducer<R, F, E>, s: State<R, F, E>) {
    var all := Accepted(s.attempts);
    var n := Taken(s);
    && |s.channel| + |s.reserved| <= QUEUE_SIZE
    && 0 <= n && s.channel == all[n..]
    && match s.worker {
        case Waiting => s.reducer == Reduced(red, all[..n]) && s.sent == Outputs(red, all[..n]) && s.ingested == Facts(all[..n])
        case Received(m) =>
          && n > 0 && all[n - 1] == m
          && s.reducer == Reduced(red, all[..n - 1]) && s.sent == Outputs(red, all[..n - 1]) && s.ingested == Facts(all[..n - 1])
        case Sending(events, barrier) =>
          && n > 0 && s.reducer == Reduced(red, all[..n]) && s.sent + [events] == Outputs(red, all[..n]) && s.ingested == Facts(all[..n])
          && (if barrier.Some? then all[n - 1] == Flush(barrier.value) else all[n - 1].Fact?)
        case Signalling(id) =>
          && n > 0 && s.reducer == Reduced(red, all[..n]) && s.sent == Outputs(red, all[..n]) && s.ingested == Facts(all[..n])
          && all[n - 1] == Flush(id)
      }
  }

  /** Every signalled barrier lies among the messages whose events were sent, and every barrier
      among those was signalled or is about to be. */
  ghost predicate BarriersKept<R, F, E>(s: State<R, F, E>) {
    var all := Accepted(s.attempts);
    && (forall id :: id in s.done ==> exists i :: 0 <= i < |s.sent| && i < |all| && all[i] == Flush(id))
    && (forall i :: 0 <= i < |s.sent| && i < |all| && all[i].Flush? ==> all[i].id in s.done || s.worker == Signalling(all[i].id))
  }

  /** No two messages are the same flush, and none is that of a flusher still holding its slot. */
  ghost predicate Distinct<F>(all: seq<Message<F>>, started: set<nat>, reserved: set<nat>) {
    && reserved <= started
    && (forall i :: 0 <= i < |all| && all[i].Flush? ==> all[i].id in started && all[i].id !in reserved)
    && (forall i, j :: 0 <= i < j < |all| && all[i].Flush? && all[j].Flush? ==> all[i].id != all[j].id)
  }

  ghost predicate FlushesDistinct<R, F, E>(s: State<R, F, E>) {
    Distinct(Accepted(s.attempts), s.started, s.reserved)
  }

  lemma AcceptedExtends<F>(attempts: seq<Attempt<F>>, a: Attempt<F>)
    ensures Accepted(attempts + [a]) == Accepted(attempts) + if a.accepted then [a.message] else []
  {
    assert (attempts + [a])[..|attempts|] == attempts;
  }

  lemma OneMore<R, F, E>(red: Reducer<R, F, E>, all: seq<Message<F>>, n: nat)
    requires 0 < n <= |all|
    ensures Reduced(red, all[..n]) == Handled(red, Reduced(red, all[..n - 1]), all[n - 1]).0
    ensures Outputs(red, all[..n]) == Outputs(red, all[..n - 1]) + [Handled(red, Reduced(red, all[..n - 1]), all[n - 1]).1]
    ensures Facts(all[..n]) == Facts(all[..n - 1]) + if all[n - 1].Fact? then [all[n - 1].fact] else []
  {
    assert all[..n][..n - 1] == all[..n - 1];
  }

  lemma EnqueueKeeps<R, F, E>(red: Reducer<R, F, E>, s: State<R, F, E>, m: Message<F>, reserved: set<nat>)
    requires Consistent(red, s) && |s.channel| + 1 + |reserved| <= QUEUE_SIZE
    ensures Consistent(red, s.(reserved := reserved, attempts := s.attempts + [Attempt(m, true)], channel := s.channel + [m]))
  {
    AcceptedExtends(s.attempts, Attempt(m, true));
    var all := Accepted(s.attempts);
    var n := Taken(s);
    assert forall k :: 0 <= k <= |all| ==> (all + [m])[..k] == all[..k];
    assert (all + [m])[n..] == all[n..] + [m];
  }

  lemma DropKeeps<R, F, E>(red: Reducer<R, F, E>, s: State<R, F, E>, m: Message<F>)
    requires Consistent(red, s)
    ensures Consistent(red, s.(attempts := s.attempts + [Attempt(m, false)]))
  {
    AcceptedExtends(s.attempts, Attempt(m, false));
    assert Accepted(s.attempts) + [] == Accepted(s.attempts);
  }

  lemma ReceiveKeeps<R, F, E>(red: Reducer<R, F, E>, s: State<R, F, E>)
    requires Consistent(red, s) && s.worker.Waiting? && s.channel != []
    ensures Consistent(red, s.(worker := Received(s.channel[0]), channel := s.channel[1..]))
  {
    var all := Accepted(s.attempts);
    var n := Taken(s);
    assert s.channel[0] == all[n];
    assert all[n..][1..] == all[n + 1..];
  }

  lemma ReservedShrinks(reserved: set<nat>, id: nat)
    ensures |reserved - {id}| <= |reserved|
    ensures id in reserved ==> |reserved - {id}| == |reserved| - 1
  {
    if id in reserved { assert reserved == reserved - {id} + {id}; } else { assert reserved - {id} == reserved; }
  }

  lemma StepConsistent<R, F, E>(red: Reducer<R, F, E>, s: State<R, F, E>, a: Action<F>)
    requires Consistent(red, s)
    ensures Consistent(red, Step(red, s, a))
  {
    match a
    case TrySend(fact) =>
      if s.open && |s.channel| + |s.reserved| < QUEUE_SIZE {
        EnqueueKeeps(red, s, Fact(fact), s.reserved);
      } else {
        DropKeeps(red, s, Fact(fact));
      }
    case Reserve(id) =>
    case Cancel(id) => ReservedShrinks(s.reserved, id);
    case PushFlush(id) =>
      if s.open && id in s.reserved {
        ReservedShrinks(s.reserved, id);
        EnqueueKeeps(red, s, Flush(id), s.reserved - {id});
      }
    case Receive => if s.open && s.worker.Waiting? && s.channel != [] { ReceiveKeeps(red, s); }
    case _ => WorkerKeeps(red, s, a);
  }

  lemma WorkerKeeps<R, F, E>(red: Reducer<R, F, E>, s: State<R, F, E>, a: Action<F>)
    requires Consistent(red, s) && (a.Process? || a.Send? || a.Signal? || a.Close?)
    ensures Consistent(red, Step(red, s, a))
  {
    if s.worker.Received? { OneMore(red, Accepted(s.attempts), Taken(s)); }
  }

  lemma {:induction false} OutputsLength<R, F, E>(red: Reducer<R, F, E>, messages: seq<Message<F>>)
    ensures |Outputs(red, messages)| == |messages|
  {
    if messages != [] { OutputsLength(red, messages[..|messages| - 1]); }
  }

  lemma DistinctWithFact<F>(all: seq<Message<F>>, started: set<nat>, reserved: set<nat>, fact: F)
    requires Distinct(all, started, reserved)
    ensures Distinct(all + [Fact(fact)], started, reserved)
  {
  }

  lemma DistinctWithFlush<F>(all: seq<Message<F>>, started: set<nat>, reserved: set<nat>, id: nat)
    requires Distinct(all, started, reserved) && id in reserved
    ensures Distinct(all + [Flush(id)], started, reserved - {id})
  {
  }

  lemma StepKeepsDistinct<R, F, E>(red: Reducer<R, F, E>, s: State<R, F, E>, a: Action<F>)
    requires FlushesDistinct(s)
    ensures FlushesDistinct(Step(red, s, a))
  {
    var all := Accepted(s.attempts);
    match a
    case TrySend(fact) =>
      var attempt := Step(red, s, a).attempts[|s.attempts|];
      AcceptedExtends(s.attempts, attempt);
      assert all + [] == all;
      DistinctWithFact(all, s.started, s.reserved, fact);
    case PushFlush(id) =>
      if s.open && id in s.reserved {
        AcceptedExtends(s.attempts, Attempt(Flush(id), true));
        DistinctWithFlush(all, s.started, s.reserved, id);
      }
    case _ =>
  }

  lemma StepKeepsBarriers<R, F, E>(red: Reducer<R, F, E>, s: State<R, F, E>, a: Action<F>)
    requires Consistent(red, s) && BarriersKept(s)
    ensures BarriersKept(Step(red, s, a))
  {
    SentBeforeAccepted(red, s);
    HistoryGrows(red, s, a);
    if a.Signal? && s.open && s.worker.Signalling? {
      SignalKeepsBarriers(red, s);
    } else if a.Send? && s.open && s.worker.Sending? {
      SendKeepsBarriers(red, s);
    } else {
      OtherStepsKeep(red, s, a);
      BarriersStable(s, Step(red, s, a));
    }
  }

  lemma OtherStepsKeep<R, F, E>(red: Reducer<R, F, E>, s: State<R, F, E>, a: Action<F>)
    requires a.Signal? ==> !s.open || !s.worker.Signalling?
    requires a.Send? ==> !s.open || !s.worker.Sending?
    ensures var s' := Step(red, s, a); s'.done == s.done && s'.sent == s.sent && (s.worker.Signalling? ==> s'.worker == s.worker)
  {
  }

  lemma SentBeforeAccepted<R, F, E>(red: Reducer<R, F, E>, s: State<R, F, E>)
    requires Consistent(red, s)
    ensures |s.sent| <= |Accepted(s.attempts)|
    ensures s.worker.Sending? ==> |s.sent| == Taken(s) - 1
    ensures s.worker.Signalling? ==> |s.sent| == Taken(s)
  {
    var all := Accepted(s.attempts);
    OutputsLength(red, all[..Taken(s)]);
    if s.worker.Received? { OutputsLength(red, all[..Taken(s) - 1]); }
  }

  lemma SignalKeepsBarriers<R, F, E>(red: Reducer<R, F, E>, s: State<R, F, E>)
    requires Consistent(red, s) && BarriersKept(s) && s.open && s.worker.Signalling? && |s.sent| == Taken(s)
    ensures BarriersKept(Step(red, s, Signal))
  {
    assert Accepted(s.attempts)[Taken(s) - 1] == Flush(s.worker.id);
  }

  lemma SendKeepsBarriers<R, F, E>(red: Reducer<R, F, E>, s: State<R, F, E>)
    requires Consistent(red, s) && BarriersKept(s) && s.open && s.worker.Sending? && |s.sent| == Taken(s) - 1
    ensures BarriersKept(Step(red, s, Send))
  {
  }

  lemma HistoryGrows<R, F, E>(red: Reducer<R, F, E>, s: State<R, F, E>, a: Action<F>)
    ensures Accepted(s.attempts) <= Accepted(Step(red, s, a).attempts)
  {
    var s' := Step(red, s, a);
    if s'.attempts != s.attempts { AcceptedExtends(s.attempts, s'.attempts[|s.attempts|]); }
  }

  lemma BarriersStable<R, F, E>(s: State<R, F, E>, s': State<R, F, E>)
    requires BarriersKept(s) && s'.done == s.done && s'.sent == s.sent && |s.sent| <= |Accepted(s.attempts)|
    requires s.worker.Signalling? ==> s'.worker == s.worker
    requires Accepted(s.attempts) <= Accepted(s'.attempts)
    ensures BarriersKept(s')
  {
    var all, all' := Accepted(s.attempts), Accepted(s'.attempts);
    assert forall i :: 0 <= i < |all| ==> all'[i] == all[i];
  }

  lemma {:induction false} EveryRunConsistent<R, F, E>(red: Reducer<R, F, E>, actions: seq<Action<F>>)
    ensures Consistent(red, Run(red, actions)) && BarriersKept(Run(red, actions)) && FlushesDistinct(Run(red, actions))
  {
    if actions != [] {
      var n := |actions| - 1;
      EveryRunConsistent(red, actions[..n]);
      var s := Run(red, actions[..n]);
      StepConsistent(red, s, actions[n]);
      StepKeepsBarriers(red, s, actions[n]);
      StepKeepsDistinct(red, s, actions[n]);
    }
  }

  // ----- what the queue promises -----

  lemma {:induction false} PrefixOfFacts<F>(messages: seq<Message<F>>, n: nat)
    requires n <= |messages|
    ensures Facts(messages[..n]) <= Facts(messages)
    decreases |messages| - n
  {
    if n == |messages| {
      assert messages[..n] == messages;
    } else {
      PrefixOfFacts(messages, n + 1);
      assert messages[..n + 1][..n] == messages[..n];
    }
  }

  lemma {:induction false} PrefixOfOutputs<R, F, E>(red: Reducer<R, F, E>, messages: seq<Message<F>>, n: nat)
    requires n <= |messages|
    ensures Outputs(red, messages[..n]) <= Outputs(red, messages)
    decreases |messages| - n
  {
    if n == |messages| {
      assert messages[..n] == messages;
    } else {
      PrefixOfOutputs(red, messages, n + 1);
      assert messages[..n + 1][..n] == messages[..n];
    }
  }

  /** How many accepted messages the worker has finished with, events sent. */
  function Finished<R, F, E>(s: State<R, F, E>): nat {
    |s.sent|
  }

  lemma SentIsOutputs<R, F, E>(red: Reducer<R, F, E>, s: State<R, F, E>)
    requires Consistent(red, s)
    ensures var all := Accepted(s.attempts);
            && Finished(s) <= |all| && s.sent == Outputs(red, all[..Finished(s)])
            && Facts(all[..Finished(s)]) <= s.ingested && s.ingested <= Facts(all)
  {
    var all := Accepted(s.attempts);
    var n := Taken(s);
    OutputsLength(red, all[..n]);
    PrefixOfFacts(all, n);
    if n > 0 {
      OutputsLength(red, all[..n - 1]);
      PrefixOfFacts(all, n - 1);
      OneMore(red, all, n);
      if s.worker.Sending? {
        assert s.sent == (s.sent + [s.worker.events])[..n - 1] == Outputs(red, all[..n - 1]);
      }
    }
  }

  /** In every run the channel holds at most 256 messages; the ingested facts are a prefix of the
      accepted ones in order, so a dropped fact is never ingested; and what was handed to
      send is exactly what the reducer makes of the accepted messages, one by one. */
  lemma QueueIsFaithful<R, F, E>(red: Reducer<R, F, E>, actions: seq<Action<F>>)
    ensures var s := Run(red, actions);
            var all := Accepted(s.attempts);
            && |s.channel| <= QUEUE_SIZE
            && s.ingested <= Facts(all)
            && Finished(s) <= |all| && s.sent == Outputs(red, all[..Finished(s)])
  {
    EveryRunConsistent(red, actions);
    SentIsOutputs(red, Run(red, actions));
  }

  /** The flush is the accepted message at place i, and no other. */
  ghost predicate FlushAt<F>(all: seq<Message<F>>, i: nat, id: nat) {
    && i < |all| && all[i] == Flush(id)
    && (forall j :: 0 <= j < |all| && all[j] == Flush(id) ==> j == i)
  }

  /** When a flush is signalled done, it is one accepted message: every fact accepted before it has
      been ingested, and the events of all of them, and of the flush itself, have been
      handed to send. */
  lemma FlushIsBarrier<R, F, E>(red: Reducer<R, F, E>, actions: seq<Action<F>>, id: nat)
    requires id in Run(red, actions).done
    ensures var s := Run(red, actions);
            var all := Accepted(s.attempts);
            exists i: nat :: FlushAt(all, i, id) && Facts(all[..i]) <= s.ingested && Outputs(red, all[..i + 1]) <= s.sent
  {
    var s := Run(red, actions);
    EveryRunConsistent(red, actions);
    SentIsOutputs(red, s);
    var all := Accepted(s.attempts);
    var i: nat :| i < |s.sent| && i < |all| && all[i] == Flush(id);
    PrefixesUpTo(red, all, Finished(s), i);
    assert FlushAt(all, i, id);
  }

  /** And no flush is forgotten: once its events were sent, and the worker has moved on, it is done. */
  lemma FlushIsSignalled<R, F, E>(red: Reducer<R, F, E>, actions: seq<Action<F>>, i: nat)
    requires var s := Run(red, actions);
             i < Finished(s) && i < |Accepted(s.attempts)| && Accepted(s.attempts)[i].Flush? && !s.worker.Signalling?
    ensures Accepted(Run(red, actions).attempts)[i].id in Run(red, actions).done
  {
    EveryRunConsistent(red, actions);
  }

  lemma PrefixesUpTo<R, F, E>(red: Reducer<R, F, E>, all: seq<Message<F>>, m: nat, i: nat)
    requires i < m <= |all|
    ensures Facts(all[..i]) <= Facts(all[..m]) && Outputs(red, all[..i + 1]) <= Outputs(red, all[..m])
  {
    PrefixOfFacts(all[..m], i);
    PrefixOfOutputs(red, all[..m], i + 1);
    assert all[..m][..i] == all[..i] && all[..m][..i + 1] == all[..i + 1];
  }

  // ----- the queue as the code holds it -----

  class EventsQueue<R, F, E> {
    const red: Reducer<R, F, E>
    var channel: seq<Message<F>>
    var reducer: R
    var sent: seq<seq<E>>
    ghost var attempts: seq<Attempt<F>>
    ghost var started: set<nat>
    ghost var ingested: seq<F>
    ghost var done: set<nat>

    constructor (red: Reducer<R, F, E>)
      ensures this.red == red && View() == Initial(red)
    {
      this.red := red;
      channel, reducer, sent := [], red.init, [];
      attempts, started, ingested, done := [], {}, [], {};
    }

    /** The state between two turns of the worker, with no flusher in between. */
    ghost function View(): State<R, F, E>
      reads this
    {
      State(true, attempts, started, {}, channel, Waiting, reducer, ingested, sent, done)
    }

    /** try_send: a full channel drops the fact. */
    method TrySend(fact: F) returns (accepted: bool)
      modifies this
      ensures View() == Step(red, old(View()), Action.TrySend(fact))
      ensures accepted <==> |old(channel)| < QUEUE_SIZE
    {
      accepted := |channel| < QUEUE_SIZE;
      if accepted {
        channel := channel + [Fact(fact)];
      }
      attempts := attempts + [Attempt(Fact(fact), accepted)];
    }

    /** The body of the worker's loop, for the message at the head of the channel. */
    method WorkerTurn()
      requires Consistent(red, View()) && channel != []
      modifies this
      ensures View() == AfterTurn(red, old(View())) && Consistent(red, View())
    {
      TurnKeeps(red, View());
      var message := channel[0];
      channel := channel[1..];
      match message {
        case Fact(fact) =>
          var (r, events) := red.ingest(reducer, fact);
          reducer, sent := r, sent + [events];
          ingested := ingested + [fact];
        case Flush(id) =>
          var (r, events) := red.flush(reducer);
          reducer, sent := r, sent + [events];
          done := done + {id};
      }
    }

    /** The worker's loop, until the channel is empty: the events of every accepted message have
        been sent, in order, and every flush that was waiting is signalled. */
    method DrainChannel()
      requires Consistent(red, View())
      modifies this
      ensures channel == [] && attempts == old(attempts) && Consistent(red, View())
      ensures sent == Outputs(red, Accepted(attempts)) && ingested == Facts(Accepted(attempts))
      ensures FlushIds(old(channel)) <= done
    {
      while channel != []
        invariant attempts == old(attempts) && Consistent(red, View())
        invariant FlushIds(old(channel)) <= done + FlushIds(channel)
        decreases |channel|
      {
        FirstFlush(channel);
        WorkerTurn();
      }
      NothingLeft(red, View());
    }
  }

  ghost function FlushIds<F>(messages: seq<Message<F>>): set<nat> {
    set m | m in messages && m.Flush? :: m.id
  }

  lemma FirstFlush<F>(messages: seq<Message<F>>)
    requires messages != []
    ensures FlushIds(messages) == FlushIds(messages[1..]) + if messages[0].Flush? then {messages[0].id} else {}
  {
    assert messages == [messages[0]] + messages[1..];
  }

  lemma NothingLeft<R, F, E>(red: Reducer<R, F, E>, s: State<R, F, E>)
    requires Consistent(red, s) && s.worker.Waiting? && s.channel == []
    ensures s.sent == Outputs(red, Accepted(s.attempts)) && s.ingested == Facts(Accepted(s.attempts))
  {
    var all := Accepted(s.attempts);
    assert all[..|all|] == all;
  }

  /** The state after one turn of the worker, from waiting to waiting. */
  ghost function AfterTurn<R, F, E>(red: Reducer<R, F, E>, s: State<R, F, E>): State<R, F, E>
    requires s.channel != []
  {
    var m := s.channel[0];
    var (r, events) := Handled(red, s.reducer, m);
    s.(channel := s.channel[1..], reducer := r, sent := s.sent + [events],
       ingested := s.ingested + (if m.Fact? then [m.fact] else []),
       done := s.done + (if m.Flush? then {m.id} else {}))
  }

  lemma TurnIsFourSteps<R, F, E>(red: Reducer<R, F, E>, s: State<R, F, E>)
    requires s.open && s.worker.Waiting? && s.channel != []
    ensures AfterTurn(red, s) == Step(red, Step(red, Step(red, Step(red, s, Receive), Process), Send), Signal)
  {
  }

  lemma TurnKeeps<R, F, E>(red: Reducer<R, F, E>, s: State<R, F, E>)
    requires Consistent(red, s) && s.open && s.worker.Waiting? && s.channel != []
    ensures Consistent(red, AfterTurn(red, s))
  {
    TurnIsFourSteps(red, s);
    FourStepsConsistent(red, s, Receive, Process, Send, Signal);
  }

  lemma FourStepsConsistent<R, F, E>(red: Reducer<R, F, E>, s: State<R, F, E>, a: Action<F>, b: Action<F>, c: Action<F>, d: Action<F>)
    requires Consistent(red, s)
    ensures Consistent(red, Step(red, Step(red, Step(red, Step(red, s, a), b), c), d))
  {
    StepConsistent(red, s, a);
    StepConsistent(red, Step(red, s, a), b);
    StepConsistent(red, Step(red, Step(red, s, a), b), c);
    StepConsistent(red, Step(red, Step(red, Step(red, s, a), b), c), d);
  }
}
