/** The verdict of the review gate, said on the checks and records of the two reports. */
module ReviewVerdict {
  import opened Sorting
  import opened ReviewReader
  import opened ReviewGate

  /** The report says that the check had the outcome: by a check of one of its cases, or by a record of its lists. */
  ghost predicate Tells(expected: set<Pair>, r: Report, id: Identity, success: bool) {
    if r.kind.Null? then r.cases.Some? && Reports(r.cases.value, id, success)
    else r.checks.Some? && Holds(expected, r.checks.value, id, success)
  }

  ghost predicate Mentions(expected: set<Pair>, r: Report, id: Identity) {
    Tells(expected, r, id, true) || Tells(expected, r, id, false)
  }

  lemma ReadingTells(expected: set<Pair>, r: Report, id: Identity)
    requires Valid(expected, r)
    ensures var results := ReadReport(expected, r).results;
            && (forall success :: Has(results, id, success) <==> Tells(expected, r, id, success))
            && (id in results <==> Mentions(expected, r, id))
  {
    forall success ensures Has(ReadReport(expected, r).results, id, success) <==> Tells(expected, r, id, success) {
      if r.kind.Null? {
        FullReadingMeans(expected, r, id, success);
      } else {
        CompactReadingMeans(expected, r, id, success);
      }
    }
    assert id in ReadReport(expected, r).results <==> Has(ReadReport(expected, r).results, id, true) || Has(ReadReport(expected, r).results, id, false);
  }

  ghost predicate ListsExactly(list: seq<Identity>, p: Identity -> bool) {
    NoDuplicates(list) && Sorted(IdentityLe, list) && forall id :: id in list <==> p(id)
  }

  lemma ListedExactly(ids: set<Identity>, p: Identity -> bool)
    requires forall id :: id in ids <==> p(id)
    ensures ListsExactly(Listed(ids), p)
  {
    Orders();
    ListedAre(ids);
    forall id ensures id in Listed(ids) <==> p(id) {
      assert id in Elements(Listed(ids)) <==> id in Listed(ids);
    }
  }

  ghost predicate IsKnownFailure(expected: set<Pair>, candidate: Report, baseline: Report, id: Identity) {
    Tells(expected, candidate, id, false) && Tells(expected, baseline, id, false)
  }

  ghost predicate IsNewFailure(expected: set<Pair>, candidate: Report, baseline: Report, id: Identity) {
    Tells(expected, candidate, id, false) && !Tells(expected, baseline, id, false)
  }

  ghost predicate IsMissing(expected: set<Pair>, candidate: Report, baseline: Report, id: Identity) {
    Mentions(expected, baseline, id) && !Mentions(expected, candidate, id)
  }

  ghost predicate IsFixed(expected: set<Pair>, candidate: Report, baseline: Report, id: Identity) {
    Tells(expected, baseline, id, false) && Tells(expected, candidate, id, true)
  }

  lemma MembersAre(expected: set<Pair>, candidate: Report, baseline: Report, id: Identity)
    requires Valid(expected, candidate) && Valid(expected, baseline)
    ensures var b, c := ReadReport(expected, baseline).results, ReadReport(expected, candidate).results;
            && (id in KnownFailures(b, c) <==> IsKnownFailure(expected, candidate, baseline, id))
            && (id in NewFailures(b, c) <==> IsNewFailure(expected, candidate, baseline, id))
            && (id in MissingChecks(b, c) <==> IsMissing(expected, candidate, baseline, id))
            && (id in FixedChecks(b, c) <==> IsFixed(expected, candidate, baseline, id))
  {
    ReadingTells(expected, baseline, id);
    ReadingTells(expected, candidate, id);
  }

  /** For two reports without problems, each list of the gate holds in order and once each exactly the checks that the
      reports say it of. */
  lemma GateLists(expected: set<Pair>, candidate: Report, baseline: Report)
    requires Valid(expected, candidate) && Valid(expected, baseline)
    ensures var g := Gate(expected, candidate, baseline);
            && ListsExactly(g.knownFailures, id => IsKnownFailure(expected, candidate, baseline, id))
            && ListsExactly(g.newFailures, id => IsNewFailure(expected, candidate, baseline, id))
            && ListsExactly(g.missingChecks, id => IsMissing(expected, candidate, baseline, id))
            && ListsExactly(g.fixedChecks, id => IsFixed(expected, candidate, baseline, id))
  {
    var b, c := ReadReport(expected, baseline).results, ReadReport(expected, candidate).results;
    forall id
      ensures id in KnownFailures(b, c) <==> IsKnownFailure(expected, candidate, baseline, id)
      ensures id in NewFailures(b, c) <==> IsNewFailure(expected, candidate, baseline, id)
      ensures id in MissingChecks(b, c) <==> IsMissing(expected, candidate, baseline, id)
      ensures id in FixedChecks(b, c) <==> IsFixed(expected, candidate, baseline, id)
    {
      MembersAre(expected, candidate, baseline, id);
    }
    ListedExactly(KnownFailures(b, c), id => IsKnownFailure(expected, candidate, baseline, id));
    ListedExactly(NewFailures(b, c), id => IsNewFailure(expected, candidate, baseline, id));
    ListedExactly(MissingChecks(b, c), id => IsMissing(expected, candidate, baseline, id));
    ListedExactly(FixedChecks(b, c), id => IsFixed(expected, candidate, baseline, id));
  }
}
