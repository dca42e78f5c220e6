/**
 The two sets that keep an "app used" or "plugin used" event from being sent twice. A set that
 has grown to its limit is emptied before the next key is tried.
 */
module AnalyticsDedupe {
  import opened Common

  const MAX_KEYS: nat := 4096

  type Key = (string, string)

  /** A question to one of the sets. An app without a connector is answered before the set is
      touched; a plugin without an id is answered after the set may have been emptied. */
  datatype Query = App(turn: string, connector: Option<string>) | Plugin(turn: string, pluginId: Option<string>, remoteId: Option<string>) {
    function Key(): Option<Key> {
      var id := if App? then connector else pluginId.Or(remoteId);
      if id.Some? then Some((turn, id.value)) else None
    }

    predicate Touches() {
      Plugin? || connector.Some?
    }
  }

  predicate Clears(keys: set<Key>, q: Query) {
    q.Touches() && |keys| >= MAX_KEYS
  }

  function Trimmed(keys: set<Key>, q: Query): set<Key> {
    if Clears(keys, q) then {} else keys
  }

  /** The answer, and the set after the question. */
  function Ask(keys: set<Key>, q: Query): (bool, set<Key>) {
    match q.Key()
    case None => (true, Trimmed(keys, q))
    case Some(key) => (key !in Trimmed(keys, q), Trimmed(keys, q) + {key})
  }

  class EmittedKeys {
    var appUsed: set<Key>
    var pluginUsed: set<Key>

    constructor ()
      ensures appUsed == {} && pluginUsed == {}
    {
      appUsed, pluginUsed := {}, {};
    }

    method ShouldEnqueueAppUsed(turn: string, connector: Option<string>) returns (answer: bool)
      modifies this
      ensures (answer, appUsed) == Ask(old(appUsed), App(turn, connector)) && pluginUsed == old(pluginUsed)
    {
      if connector.None? {
        return true;
      }
      if |appUsed| >= MAX_KEYS {
        appUsed := {};
      }
      var key := (turn, connector.value);
      answer := key !in appUsed;
      appUsed := appUsed + {key};
    }

    method ShouldEnqueuePluginUsed(turn: string, pluginId: Option<string>, remoteId: Option<string>) returns (answer: bool)
      modifies this
      ensures (answer, pluginUsed) == Ask(old(pluginUsed), Plugin(turn, pluginId, remoteId)) && appUsed == old(appUsed)
    {
      if |pluginUsed| >= MAX_KEYS {
        pluginUsed := {};
      }
      var id := pluginId.Or(remoteId);
      if id.None? {
        return true;
      }
      var key := (turn, id.value);
      answer := key !in pluginUsed;
      pluginUsed := pluginUsed + {key};
    }
  }

  // ----- runs of one set -----

  function Keys(qs: seq<Query>): set<Key> {
    if qs == [] then {} else Ask(Keys(qs[..|qs| - 1]), qs[|qs| - 1]).1
  }

  predicate Answer(qs: seq<Query>, i: nat)
    requires i < |qs|
  {
    Ask(Keys(qs[..i]), qs[i]).0
  }

  predicate ClearedAt(qs: seq<Query>, i: nat)
    requires i < |qs|
  {
    Clears(Keys(qs[..i]), qs[i])
  }

  /** The key was tried at `i` and the answer was yes. */
  predicate YesAt(qs: seq<Query>, i: nat, key: Key)
    requires i < |qs|
  {
    qs[i].Key() == Some(key) && Answer(qs, i)
  }

  /** How often the key was answered yes. */
  function YesCount(qs: seq<Query>, key: Key): nat {
    if qs == [] then 0
    else YesCount(qs[..|qs| - 1], key) + if YesAt(qs, |qs| - 1, key) then 1 else 0
  }

  /** How often any key was answered yes. */
  function KeyedYesCount(qs: seq<Query>): nat {
    if qs == [] then 0
    else KeyedYesCount(qs[..|qs| - 1]) + if qs[|qs| - 1].Key().Some? && Answer(qs, |qs| - 1) then 1 else 0
  }

  function ClearCount(qs: seq<Query>): nat {
    if qs == [] then 0
    else ClearCount(qs[..|qs| - 1]) + if ClearedAt(qs, |qs| - 1) then 1 else 0
  }

  /** The key was tried and the set has not been emptied since. */
  ghost predicate TriedSinceClear(qs: seq<Query>, key: Key) {
    exists i :: TriedAt(qs, key, i)
  }

  ghost predicate TriedAt(qs: seq<Query>, key: Key, i: int) {
    0 <= i < |qs| && qs[i].Key() == Some(key) && forall c :: i < c < |qs| ==> !ClearedAt(qs, c)
  }

  lemma TriedExtends(qs: seq<Query>, key: Key)
    requires qs != []
    ensures TriedSinceClear(qs, key) <==>
              qs[|qs| - 1].Key() == Some(key) || (TriedSinceClear(qs[..|qs| - 1], key) && !ClearedAt(qs, |qs| - 1))
  {
    var n := |qs| - 1;
    var before := qs[..n];
    if TriedSinceClear(before, key) && !ClearedAt(qs, n) {
      var i :| TriedAt(before, key, i);
      TriedBefore(qs, key, n, i);
    }
    if TriedSinceClear(qs, key) && qs[n].Key() != Some(key) {
      var i :| TriedAt(qs, key, i);
      TriedBefore(qs, key, n, i);
    }
    if qs[n].Key() == Some(key) { assert TriedAt(qs, key, n); }
  }

  lemma TriedBefore(qs: seq<Query>, key: Key, n: nat, i: nat)
    requires |qs| == n + 1 && i < n
    ensures TriedAt(qs, key, i) <==> TriedAt(qs[..n], key, i) && !ClearedAt(qs, n)
  {
    forall c: nat | c < n ensures ClearedAt(qs[..n], c) <==> ClearedAt(qs, c) { ClearedBefore(qs, n, c); }
  }

  lemma ClearedBefore(qs: seq<Query>, n: nat, c: nat)
    requires c < n <= |qs|
    ensures ClearedAt(qs[..n], c) <==> ClearedAt(qs, c)
  {
    assert qs[..n][..c] == qs[..c];
  }

  /** The set holds exactly the keys tried since it was last emptied. */
  lemma {:induction false} KeysMeaning(qs: seq<Query>, key: Key)
    ensures key in Keys(qs) <==> TriedSinceClear(qs, key)
  {
    if qs != [] {
      KeysMeaning(qs[..|qs| - 1], key);
      TriedExtends(qs, key);
    }
  }

  /** A second yes for a key comes only after the set has been emptied in between. */
  lemma TwoYesNeedClear(qs: seq<Query>, i: nat, j: nat, key: Key)
    requires i < j < |qs| && YesAt(qs, i, key) && YesAt(qs, j, key)
    ensures exists c :: i < c <= j && ClearedAt(qs, c)
  {
    NoClearNoYes(qs, i, j, key);
  }

  lemma NoClearNoYes(qs: seq<Query>, i: nat, j: nat, key: Key)
    requires i < j < |qs| && qs[i].Key() == Some(key)
    ensures (forall c :: i < c <= j ==> !ClearedAt(qs, c)) ==> !YesAt(qs, j, key)
  {
    if forall c :: i < c <= j ==> !ClearedAt(qs, c) {
      StaysUntilClear(qs, i, j, key);
      assert !ClearedAt(qs, j);
    }
  }

  lemma {:induction false} StaysUntilClear(qs: seq<Query>, i: nat, j: nat, key: Key)
    requires i < j < |qs| && qs[i].Key() == Some(key) && forall c :: i < c <= j ==> !ClearedAt(qs, c)
    ensures key in Keys(qs[..j])
    decreases j
  {
    assert qs[..j][..j - 1] == qs[..j - 1] && qs[..j][j - 1] == qs[j - 1];
    if i < j - 1 {
      StaysUntilClear(qs, i, j - 1, key);
      assert !ClearedAt(qs, j - 1);
    }
  }

  /** Bookkeeping: every keyed yes put one key in, and every emptying took out exactly the limit. */
  lemma {:induction false} Ledger(qs: seq<Query>, key: Key)
    ensures |Keys(qs)| <= MAX_KEYS
    ensures KeyedYesCount(qs) == MAX_KEYS * ClearCount(qs) + |Keys(qs)|
    ensures YesCount(qs, key) <= ClearCount(qs) + if key in Keys(qs) then 1 else 0
  {
    if qs != [] {
      var n := |qs| - 1;
      Ledger(qs[..n], key);
      var trimmed := Trimmed(Keys(qs[..n]), qs[n]);
      assert |trimmed| == |Keys(qs[..n])| - if ClearedAt(qs, n) then MAX_KEYS else 0;
      if qs[n].Key().Some? {
        assert |trimmed| < MAX_KEYS;
        if qs[n].Key().value in trimmed { assert trimmed + {qs[n].Key().value} == trimmed; }
      }
    }
  }

  /** In every run the set stays within its limit, and the number of times one key gets through is
      at most one more than the number of full sets among all keys that got through. */
  lemma RepeatsAreRare(qs: seq<Query>, key: Key)
    ensures |Keys(qs)| <= MAX_KEYS
    ensures YesCount(qs, key) <= 1 + KeyedYesCount(qs) / MAX_KEYS
  {
    Ledger(qs, key);
    DivisionBound(KeyedYesCount(qs), ClearCount(qs));
  }

  lemma DivisionBound(t: nat, c: nat)
    requires t >= MAX_KEYS * c
    ensures c <= t / MAX_KEYS
  {
  }

  // ----- the answer, on what was asked -----

  /** The question is about this connector, or about this plugin: by its id, and without one by its remote id. */
  predicate Names(q: Query, id: string) {
    match q
    case App(_, connector) => connector == Some(id)
    case Plugin(_, pluginId, remoteId) => pluginId == Some(id) || (pluginId.None? && remoteId == Some(id))
  }

  /** Two questions about the same use: of one thing, in one turn. */
  ghost predicate SameUse(p: Query, q: Query) {
    p.turn == q.turn && exists id :: Names(p, id) && Names(q, id)
  }

  lemma SameUseMeans(p: Query, q: Query)
    ensures SameUse(p, q) <==> p.Key().Some? && p.Key() == q.Key()
    ensures q.Key().None? <==> forall id :: !Names(q, id)
  {
    if p.Key().Some? && p.Key() == q.Key() {
      assert Names(p, p.Key().value.1) && Names(q, p.Key().value.1);
    }
    if q.Key().Some? { assert Names(q, q.Key().value.1); }
  }

  /** In every run of a set, the answer is no exactly when the same use was asked about before and the set has not been
      emptied since. */
  lemma AnswerMeans(qs: seq<Query>, i: nat)
    requires i < |qs|
    ensures !Answer(qs, i) <==> !ClearedAt(qs, i) && exists j :: AskedSince(qs, j, i)
  {
    var q, before := qs[i], qs[..i];
    if q.Key().Some? {
      var key := q.Key().value;
      KeysMeaning(before, key);
      forall j: nat ensures TriedAt(before, key, j) <==> AskedSince(qs, j, i) { AskedMeans(qs, i, j); }
      if j: nat :| TriedAt(before, key, j) { assert AskedSince(qs, j, i); }
      if j: nat :| AskedSince(qs, j, i) { assert TriedAt(before, key, j); }
    } else {
      forall p ensures !SameUse(p, q) { SameUseMeans(p, q); }
    }
  }

  /** The same use was asked about at j, and the set was not emptied between j and i. */
  ghost predicate AskedSince(qs: seq<Query>, j: nat, i: nat)
    requires i < |qs|
  {
    j < i && SameUse(qs[j], qs[i]) && forall c :: j < c < i ==> !ClearedAt(qs, c)
  }

  lemma AskedMeans(qs: seq<Query>, i: nat, j: nat)
    requires i < |qs| && qs[i].Key().Some?
    ensures TriedAt(qs[..i], qs[i].Key().value, j) <==> AskedSince(qs, j, i)
  {
    if j < i {
      SameUseMeans(qs[j], qs[i]);
      forall c: nat | c < i ensures ClearedAt(qs[..i], c) <==> ClearedAt(qs, c) { ClearedBefore(qs, i, c); }
    }
  }
}
