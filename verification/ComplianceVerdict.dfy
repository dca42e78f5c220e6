/** The verdict of the regression gate, said on the checks and records of the two reports. */
module ComplianceVerdict {
  import opened Sorting
  import opened ComplianceReport
  import opened ComplianceReader
  import opened ComplianceFacts
  import opened ComplianceGate
  import opened ComplianceBaseline

  /** The report says that the check had the status: by a check of one of its cases, or by a record of its lists. */
  ghost predicate Tells(env: Env, r: Report, id: Identity, status: Status) {
    if r.kind.Null? then r.cases.Some? && Reports(env, r.cases.value, id, status)
    else r.checks.Some? && Holds(r.checks.value, id, status)
  }

  lemma ReadingTells(env: Env, r: Report, id: Identity, status: Status)
    requires Valid(env, r)
    ensures Has(ReadReport(env, r).identities, id, status) <==> Tells(env, r, id, status)
  {
    if r.kind.Null? {
      FullReadingMeans(env, r, id, status);
    } else {
      CompactReadingMeans(env, r, id, status);
    }
  }

  ghost predicate IsNewFailure(env: Env, candidate: Report, baseline: Report, id: Identity) {
    Tells(env, candidate, id, Fail) && !Tells(env, baseline, id, Fail)
  }

  ghost predicate IsKnownFailure(env: Env, candidate: Report, baseline: Report, id: Identity) {
    Tells(env, candidate, id, Fail) && Tells(env, baseline, id, Fail)
  }

  /** It passed and passes no more, or it failed and was not run again. */
  ghost predicate IsMissing(env: Env, candidate: Report, baseline: Report, id: Identity) {
    || (Tells(env, baseline, id, Pass) && !Tells(env, candidate, id, Pass))
    || (Tells(env, baseline, id, Fail) && !Tells(env, candidate, id, Fail) && !Tells(env, candidate, id, Pass))
  }

  /** It failed, and now it passes and does not fail. */
  ghost predicate IsFixed(env: Env, candidate: Report, baseline: Report, id: Identity) {
    Tells(env, baseline, id, Fail) && !Tells(env, candidate, id, Fail) && Tells(env, candidate, id, Pass)
  }

  ghost predicate ListsExactly(list: seq<Identity>, p: Identity -> bool) {
    NoDuplicates(list) && Sorted(IdentityLe, list) && forall id :: id in list <==> p(id)
  }

  lemma ListedExactly(ids: set<Identity>, p: Identity -> bool)
    requires forall id :: id in ids <==> p(id)
    ensures ListsExactly(Listed(ids), p)
  {
    IdentityOrder();
    ListedAre(ids);
    forall id ensures id in Listed(ids) <==> p(id) {
      assert id in Elements(Listed(ids)) <==> id in Listed(ids);
    }
  }

  /** For two reports without problems, each list of the gate holds in order and once each exactly the checks that the
      reports say it of. */
  lemma GateLists(env: Env, candidate: Report, baseline: Report)
    requires Valid(env, candidate) && Valid(env, baseline)
    ensures Gate(env, candidate, baseline).Some?
    ensures var g := Gate(env, candidate, baseline).value;
            && ListsExactly(g.newFailures, id => IsNewFailure(env, candidate, baseline, id))
            && ListsExactly(g.knownFailures, id => IsKnownFailure(env, candidate, baseline, id))
            && ListsExactly(g.missingChecks, id => IsMissing(env, candidate, baseline, id))
            && ListsExactly(g.fixedChecks, id => IsFixed(env, candidate, baseline, id))
  {
    var b, c := ReadReport(env, baseline).identities, ReadReport(env, candidate).identities;
    forall id, status ensures Has(b, id, status) <==> Tells(env, baseline, id, status) { ReadingTells(env, baseline, id, status); }
    forall id, status ensures Has(c, id, status) <==> Tells(env, candidate, id, status) { ReadingTells(env, candidate, id, status); }
    ListedExactly(NewFailures(b, c), id => IsNewFailure(env, candidate, baseline, id));
    ListedExactly(KnownFailures(b, c), id => IsKnownFailure(env, candidate, baseline, id));
    ListedExactly(MissingChecks(b, c), id => IsMissing(env, candidate, baseline, id));
    ListedExactly(FixedChecks(b, c), id => IsFixed(env, candidate, baseline, id));
  }

  ghost predicate FailsShipping(env: Env, r: Report) {
    exists id: Identity :: id.mode == "2025-06-18" && Tells(env, r, id, Fail)
  }

  lemma ShippingTells(env: Env, r: Report)
    requires Valid(env, r)
    ensures ShippingFails(ReadReport(env, r).identities) <==> FailsShipping(env, r)
  {
    var ids := ReadReport(env, r).identities;
    if ShippingFails(ids) {
      var id :| id in ids && id.mode == SHIPPING && Fail in ids[id];
      ReadingTells(env, r, id, Fail);
    }
    if id: Identity :| id.mode == "2025-06-18" && Tells(env, r, id, Fail) {
      ReadingTells(env, r, id, Fail);
    }
  }

  /** The gate accepts exactly when both reports are valid under one recorded policy, neither fails a check of the shipping
      version, and no check is newly failing or missing. */
  lemma GateAccepts(env: Env, candidate: Report, baseline: Report)
    ensures Accepts(env, candidate, baseline) <==>
              && Valid(env, baseline) && Valid(env, candidate)
              && baseline.auth.Bool? && candidate.auth == baseline.auth
              && !FailsShipping(env, baseline) && !FailsShipping(env, candidate)
              && forall id :: !IsNewFailure(env, candidate, baseline, id) && !IsMissing(env, candidate, baseline, id)
  {
    AcceptsMeans(env, candidate, baseline);
    if Valid(env, baseline) && Valid(env, candidate) {
      ShippingTells(env, baseline);
      ShippingTells(env, candidate);
      var b, c := ReadReport(env, baseline).identities, ReadReport(env, candidate).identities;
      forall id, status ensures Has(b, id, status) <==> Tells(env, baseline, id, status) { ReadingTells(env, baseline, id, status); }
      forall id, status ensures Has(c, id, status) <==> Tells(env, candidate, id, status) { ReadingTells(env, candidate, id, status); }
      NoWorseIs(env, candidate, baseline, b, c);
    }
  }

  lemma NoWorseIs(env: Env, candidate: Report, baseline: Report, b: Statuses, c: Statuses)
    requires forall id, status :: Has(b, id, status) <==> Tells(env, baseline, id, status)
    requires forall id, status :: Has(c, id, status) <==> Tells(env, candidate, id, status)
    ensures NoWorse(b, c) <==> forall id :: !IsNewFailure(env, candidate, baseline, id) && !IsMissing(env, candidate, baseline, id)
  {
    if NoWorse(b, c) {
      forall id ensures !IsNewFailure(env, candidate, baseline, id) && !IsMissing(env, candidate, baseline, id) {
        assert (Has(b, id, Pass) ==> Has(c, id, Pass)) && (Has(c, id, Fail) ==> Has(b, id, Fail)) && (Has(b, id, Fail) ==> Has(c, id, Fail) || Has(c, id, Pass));
      }
    }
    if forall id :: !IsNewFailure(env, candidate, baseline, id) && !IsMissing(env, candidate, baseline, id) {
      forall id
        ensures (Has(b, id, Pass) ==> Has(c, id, Pass)) && (Has(c, id, Fail) ==> Has(b, id, Fail)) && (Has(b, id, Fail) ==> Has(c, id, Fail) || Has(c, id, Pass))
      {
        assert !IsNewFailure(env, candidate, baseline, id) && !IsMissing(env, candidate, baseline, id);
      }
    }
  }

  /** For two reports without problems, the configuration errors are those of the recorded policies, and one for each check of
      the shipping version that either report says failed. */
  lemma GateErrors(env: Env, candidate: Report, baseline: Report, e: ConfigError)
    requires Valid(env, candidate) && Valid(env, baseline)
    ensures Gate(env, candidate, baseline).Some?
    ensures e in Gate(env, candidate, baseline).value.errors <==> IsError(env, candidate, baseline, e)
  {
    var b, c := Listed(ShippingFailures(ReadReport(env, baseline).identities)), Listed(ShippingFailures(ReadReport(env, candidate).identities));
    ErrorsAre(env, candidate, baseline);
    ShippingListed(env, candidate);
    ShippingListed(env, baseline);
    ErrorIs(env, candidate, baseline, b, c, e);
  }

  lemma ErrorIs(env: Env, candidate: Report, baseline: Report, b: seq<Identity>, c: seq<Identity>, e: ConfigError)
    requires forall id :: id in b <==> Shipping(env, baseline, id)
    requires forall id :: id in c <==> Shipping(env, candidate, id)
    ensures e in PolicyErrors(baseline.auth, candidate.auth) + CandidateShipping(c) + BaselineShipping(b) <==> IsError(env, candidate, baseline, e)
  {
    CandidateShippingMeans(c, e);
    BaselineShippingMeans(b, e);
  }

  lemma ErrorsAre(env: Env, candidate: Report, baseline: Report)
    requires Valid(env, candidate) && Valid(env, baseline)
    ensures Gate(env, candidate, baseline).Some?
    ensures Gate(env, candidate, baseline).value.errors ==
              PolicyErrors(baseline.auth, candidate.auth)
              + CandidateShipping(Listed(ShippingFailures(ReadReport(env, candidate).identities)))
              + BaselineShipping(Listed(ShippingFailures(ReadReport(env, baseline).identities)))
  {
    assert BaselineProblems([]) == [] && CandidateProblems([]) == [];
  }

  lemma ShippingListed(env: Env, r: Report)
    requires Valid(env, r)
    ensures forall id :: id in Listed(ShippingFailures(ReadReport(env, r).identities)) <==> Shipping(env, r, id)
  {
    var ids := ReadReport(env, r).identities;
    forall id ensures id in ShippingFailures(ids) <==> Shipping(env, r, id) { ReadingTells(env, r, id, Fail); }
    ListedExactly(ShippingFailures(ids), id => Shipping(env, r, id));
  }

  ghost predicate Shipping(env: Env, r: Report, id: Identity) {
    id.mode == "2025-06-18" && Tells(env, r, id, Fail)
  }

  ghost predicate IsError(env: Env, candidate: Report, baseline: Report, e: ConfigError) {
    match e
    case NoPolicies => !baseline.auth.Bool? || !candidate.auth.Bool?
    case PoliciesDiffer => baseline.auth.Bool? && candidate.auth.Bool? && baseline.auth != candidate.auth
    case ShippingFailed(checkId) => exists id :: Shipping(env, candidate, id) && id.checkId == checkId
    case BaselineShippingFailed(checkId) => exists id :: Shipping(env, baseline, id) && id.checkId == checkId
    case _ => false
  }

  lemma CandidateShippingMeans(ids: seq<Identity>, e: ConfigError)
    ensures e in CandidateShipping(ids) <==> e.ShippingFailed? && exists id :: id in ids && id.checkId == e.checkId
  {
    if e.ShippingFailed? {
      if id :| id in ids && id.checkId == e.checkId {
        var i :| 0 <= i < |ids| && ids[i] == id;
        assert CandidateShipping(ids)[i] == e;
      }
    }
  }

  lemma BaselineShippingMeans(ids: seq<Identity>, e: ConfigError)
    ensures e in BaselineShipping(ids) <==> e.BaselineShippingFailed? && exists id :: id in ids && id.checkId == e.checkId
  {
    if e.BaselineShippingFailed? {
      if id :| id in ids && id.checkId == e.checkId {
        var i :| 0 <= i < |ids| && ids[i] == id;
        assert BaselineShipping(ids)[i] == e;
      }
    }
  }
}
