/**
 Turning analytics events into requests: what may be sent with the current credentials, cut into
 batches so that some events travel alone.
 */
module AnalyticsBatches {
  import opened Sorting

  function Flatten<E>(batches: seq<seq<E>>): seq<E> {
    if batches == [] then [] else Flatten(batches[..|batches| - 1]) + batches[|batches| - 1]
  }

  /** An order-preserving cut of `events` into requests in which isolated events travel alone. */
  ghost predicate IsCut<E>(batches: seq<seq<E>>, events: seq<E>, isolated: E -> bool) {
    && Flatten(batches) == events
    && (forall b :: 0 <= b < |batches| ==> batches[b] != [])
    && (forall b, k :: 0 <= b < |batches| && 0 <= k < |batches[b]| && isolated(batches[b][k]) ==> |batches[b]| == 1)
  }

  /** The number of requests that no cut can go below: one more for each place between two
      neighbours where one of them is isolated. */
  function Needed<E>(events: seq<E>, isolated: E -> bool): nat {
    if events == [] then 0
    else if |events| == 1 then 1
    else Needed(events[..|events| - 1], isolated) + if isolated(events[|events| - 1]) || isolated(events[|events| - 2]) then 1 else 0
  }

  lemma FlattenSnoc<E>(batches: seq<seq<E>>, b: seq<E>)
    ensures Flatten(batches + [b]) == Flatten(batches) + b
  {
    assert (batches + [b])[..|batches|] == batches;
  }

  lemma NeededSnoc<E>(events: seq<E>, event: E, isolated: E -> bool)
    ensures Needed(events + [event], isolated) ==
              if events == [] then 1
              else Needed(events, isolated) + if isolated(event) || isolated(events[|events| - 1]) then 1 else 0
  {
    assert (events + [event])[..|events|] == events;
  }

  lemma CutSnoc<E>(batches: seq<seq<E>>, events: seq<E>, b: seq<E>, isolated: E -> bool)
    requires IsCut(batches, events, isolated) && b != []
    requires |b| == 1 || forall k :: 0 <= k < |b| ==> !isolated(b[k])
    ensures IsCut(batches + [b], events + b, isolated)
  {
    FlattenSnoc(batches, b);
  }

  /** The batches with the one that is being filled. */
  function Closed<E>(batches: seq<seq<E>>, current: seq<E>): seq<seq<E>> {
    if current == [] then batches else batches + [current]
  }

  /** Halfway: the events so far are cut into the fewest requests, and the batch being filled is
      still open exactly if the last event was not isolated. */
  ghost predicate Cutting<E>(batches: seq<seq<E>>, current: seq<E>, events: seq<E>, isolated: E -> bool) {
    && IsCut(Closed(batches, current), events, isolated) && |Closed(batches, current)| == Needed(events, isolated)
    && (forall k :: 0 <= k < |current| ==> !isolated(current[k]))
    && (events != [] ==> (current == [] <==> isolated(events[|events| - 1])))
  }

  lemma CutAlone<E>(batches: seq<seq<E>>, current: seq<E>, events: seq<E>, event: E, isolated: E -> bool)
    requires Cutting(batches, current, events, isolated) && isolated(event)
    ensures Cutting(Closed(batches, current) + [[event]], [], events + [event], isolated)
  {
    CutSnoc(Closed(batches, current), events, [event], isolated);
    NeededSnoc(events, event, isolated);
  }

  lemma CutAlong<E>(batches: seq<seq<E>>, current: seq<E>, events: seq<E>, event: E, isolated: E -> bool)
    requires Cutting(batches, current, events, isolated) && !isolated(event)
    ensures Cutting(batches, current + [event], events + [event], isolated)
  {
    NeededSnoc(events, event, isolated);
    if current == [] {
      assert current + [event] == [event];
      CutSnoc(batches, events, [event], isolated);
    } else {
      CutWider(batches, current, events, event, isolated);
    }
    assert |Closed(batches, current + [event])| == Needed(events + [event], isolated);
  }

  lemma CutWithout<E>(batches: seq<seq<E>>, current: seq<E>, events: seq<E>, isolated: E -> bool)
    requires IsCut(batches + [current], events, isolated)
    ensures IsCut(batches, Flatten(batches), isolated)
  {
    assert forall b :: 0 <= b < |batches| ==> (batches + [current])[b] == batches[b];
  }

  lemma CutWider<E>(batches: seq<seq<E>>, current: seq<E>, events: seq<E>, event: E, isolated: E -> bool)
    requires IsCut(batches + [current], events, isolated) && forall k :: 0 <= k < |current| ==> !isolated(current[k])
    requires !isolated(event)
    ensures IsCut(batches + [current + [event]], events + [event], isolated)
  {
    FlattenSnoc(batches, current);
    FlattenSnoc(batches, current + [event]);
    CutWithout(batches, current, events, isolated);
    CutSnoc(batches, Flatten(batches), current + [event], isolated);
  }

  // The loop carries a function that stands for Cutting, so that its meaning is looked up only
  // at the steps below.

  ghost predicate At<E>(batches: seq<seq<E>>, current: seq<E>, events: seq<E>) {
    true
  }

  ghost predicate Tracks<E(!new)>(inv: (seq<seq<E>>, seq<E>, seq<E>) -> bool, isolated: E -> bool) {
    forall batches, current, events {:trigger At(batches, current, events)} ::
      At(batches, current, events) ==> (inv(batches, current, events) <==> Cutting(batches, current, events, isolated))
  }

  lemma Tracker<E(!new)>(isolated: E -> bool) returns (inv: (seq<seq<E>>, seq<E>, seq<E>) -> bool)
    ensures Tracks(inv, isolated) && inv([], [], [])
  {
    inv := (batches, current, events) => Cutting(batches, current, events, isolated);
  }

  lemma TrackEvent<E(!new)>(inv: (seq<seq<E>>, seq<E>, seq<E>) -> bool, batches: seq<seq<E>>, current: seq<E>, events: seq<E>, event: E, isolated: E -> bool)
    requires Tracks(inv, isolated) && inv(batches, current, events)
    ensures isolated(event) ==> inv(Closed(batches, current) + [[event]], [], events + [event])
    ensures !isolated(event) ==> inv(batches, current + [event], events + [event])
  {
    assert At(batches, current, events);
    if isolated(event) {
      CutAlone(batches, current, events, event, isolated);
      assert At(Closed(batches, current) + [[event]], [], events + [event]);
    } else {
      CutAlong(batches, current, events, event, isolated);
      assert At(batches, current + [event], events + [event]);
    }
  }

  lemma TrackedAll<E(!new)>(inv: (seq<seq<E>>, seq<E>, seq<E>) -> bool, batches: seq<seq<E>>, current: seq<E>, events: seq<E>, isolated: E -> bool)
    requires Tracks(inv, isolated) && inv(batches, current, events)
    ensures IsCut(Closed(batches, current), events, isolated) && |Closed(batches, current)| == Needed(events, isolated)
  {
    assert At(batches, current, events);
  }

  /** track_event_request_batches: a cut with the fewest requests. */
  method TrackEventRequestBatches<E(!new)>(events: seq<E>, isolated: E -> bool) returns (batches: seq<seq<E>>)
    ensures IsCut(batches, events, isolated)
    ensures |batches| == Needed(events, isolated)
  {
    batches := [];
    var current: seq<E> := [];
    ghost var inv := Tracker(isolated);
    for n := 0 to |events|
      invariant inv(batches, current, events[..n])
    {
      var event := events[n];
      TrackEvent(inv, batches, current, events[..n], event, isolated);
      assert events[..n + 1] == events[..n] + [event];
      if isolated(event) {
        if current != [] {
          batches, current := batches + [current], [];
        }
        batches := batches + [[event]];
      } else {
        current := current + [event];
      }
    }
    assert events[..|events|] == events;
    TrackedAll(inv, batches, current, events, isolated);
    if current != [] {
      batches := batches + [current];
    }
  }

  /** Taking the last event away from a cut leaves a cut of the rest. */
  lemma DropLast<E>(batches: seq<seq<E>>, events: seq<E>, isolated: E -> bool) returns (rest: seq<seq<E>>)
    requires IsCut(batches, events, isolated) && events != []
    ensures IsCut(rest, events[..|events| - 1], isolated)
    ensures batches != [] && batches[|batches| - 1][|batches[|batches| - 1]| - 1] == events[|events| - 1]
    ensures |batches[|batches| - 1]| == 1 ==> |rest| == |batches| - 1
    ensures |rest| <= |batches|
    ensures |batches[|batches| - 1]| > 1 ==> |events| >= 2 && events[|events| - 2] in batches[|batches| - 1]
  {
    var m := |batches| - 1;
    var last := batches[m];
    var front := batches[..m];
    assert events == Flatten(front) + last;
    if |last| == 1 {
      rest := front;
      assert events[..|events| - 1] == Flatten(front);
    } else {
      rest := front + [last[..|last| - 1]];
      FlattenSnoc(front, last[..|last| - 1]);
      assert events[..|events| - 1] == Flatten(front) + last[..|last| - 1];
      assert events[|events| - 2] == last[|last| - 2];
    }
  }

  /** No cut uses fewer requests. */
  lemma {:induction false} NoCutIsSmaller<E>(batches: seq<seq<E>>, events: seq<E>, isolated: E -> bool)
    requires IsCut(batches, events, isolated)
    ensures |batches| >= Needed(events, isolated)
    decreases |events|
  {
    if events != [] {
      var rest := DropLast(batches, events, isolated);
      NoCutIsSmaller(rest, events[..|events| - 1], isolated);
    }
  }

  // ----- sending -----

  datatype Auth = NoAuth | ApiKey | CodexBackend | OtherAuth

  /** The events that may be sent at all. */
  function Retained<E>(auth: Auth, events: seq<E>, withApiKey: E -> bool): seq<E> {
    match auth
    case NoAuth => []
    case ApiKey => Filter(withApiKey, events)
    case CodexBackend => events
    case OtherAuth => []
  }

  lemma RetainedMeans<E(!new)>(auth: Auth, events: seq<E>, withApiKey: E -> bool)
    ensures auth.ApiKey? ==> forall e :: e in Retained(auth, events, withApiKey) <==> e in events && withApiKey(e)
  {
    forall e ensures e in Filter(withApiKey, events) <==> e in events && withApiKey(e) {
      FilterElement(withApiKey, events, e);
    }
  }

  /** `events.retain(keep)` */
  method Retain<E>(events: seq<E>, keep: E -> bool) returns (kept: seq<E>)
    ensures kept == Filter(keep, events)
  {
    kept := [];
    for n := 0 to |events|
      invariant kept == Filter(keep, events[..n])
    {
      FilterNext(keep, events, n);
      if keep(events[n]) {
        kept := kept + [events[n]];
      }
    }
    assert events[..|events|] == events;
  }

  ghost predicate Fewest<E(!new)>(requests: seq<seq<E>>, events: seq<E>, isolated: E -> bool) {
    forall cut :: IsCut(cut, events, isolated) ==> |requests| <= |cut|
  }

  lemma NeededIsFewest<E(!new)>(requests: seq<seq<E>>, events: seq<E>, isolated: E -> bool)
    requires |requests| == Needed(events, isolated)
    ensures Fewest(requests, events, isolated)
  {
    forall cut | IsCut(cut, events, isolated) ensures |requests| <= |cut| {
      NoCutIsSmaller(cut, events, isolated);
    }
  }

  /** send_track_events: the requests carry the retained events, all of them, in order, none empty
      and isolated events alone, in the fewest requests possible. */
  method SendTrackEvents<E(!new)>(auth: Auth, events: seq<E>, withApiKey: E -> bool, isolated: E -> bool) returns (requests: seq<seq<E>>)
    ensures IsCut(requests, Retained(auth, events, withApiKey), isolated)
    ensures Fewest(requests, Retained(auth, events, withApiKey), isolated)
    ensures auth.NoAuth? || auth.OtherAuth? ==> requests == []
    ensures auth.CodexBackend? ==> Flatten(requests) == events
    ensures auth.ApiKey? ==> forall e :: e in Flatten(requests) <==> e in events && withApiKey(e)
  {
    RetainedMeans(auth, events, withApiKey);
    if events == [] || auth.NoAuth? {
      return NoRequests(isolated);
    }
    var kept := events;
    if auth.ApiKey? {
      kept := Retain(events, withApiKey);
    } else if !auth.CodexBackend? {
      return NoRequests(isolated);
    }
    requests := TrackEventRequestBatches(kept, isolated);
    NeededIsFewest(requests, kept, isolated);
  }

  function NoRequests<E(!new)>(isolated: E -> bool): (requests: seq<seq<E>>)
    ensures IsCut(requests, [], isolated) && Fewest(requests, [], isolated)
  {
    []
  }
}
