/** The regression gate: it compares a candidate report with a baseline in either form. */
module ComplianceGate {
  import opened Common
  import opened PyValues
  import opened ComplianceReport
  import opened ComplianceReader
  import opened ComplianceFacts
  import opened ComplianceBaseline

  datatype ConfigError =
    | InBaseline(problem: Problem) | InCandidate(problem: Problem)
    | NoPolicies | PoliciesDiffer
    | ShippingFailed(checkId: string) | BaselineShippingFailed(checkId: string)

  datatype GateResult = GateResult(
    errors: seq<ConfigError>,
    newFailures: seq<Identity>,
    missingChecks: seq<Identity>,
    knownFailures: seq<Identity>,
    fixedChecks: seq<Identity>)
  {
    predicate Success() {
      errors == [] && newFailures == [] && missingChecks == []
    }
  }

  function BaselineProblems(problems: seq<Problem>): seq<ConfigError> {
    seq(|problems|, i requires 0 <= i < |problems| => InBaseline(problems[i]))
  }

  function CandidateProblems(problems: seq<Problem>): seq<ConfigError> {
    seq(|problems|, i requires 0 <= i < |problems| => InCandidate(problems[i]))
  }

  function PolicyErrors(baseline: Value, candidate: Value): seq<ConfigError> {
    if !baseline.Bool? || !candidate.Bool? then [NoPolicies]
    else if baseline != candidate then [PoliciesDiffer]
    else []
  }

  function CandidateShipping(ids: seq<Identity>): seq<ConfigError> {
    seq(|ids|, i requires 0 <= i < |ids| => ShippingFailed(ids[i].checkId))
  }

  function BaselineShipping(ids: seq<Identity>): seq<ConfigError> {
    seq(|ids|, i requires 0 <= i < |ids| => BaselineShippingFailed(ids[i].checkId))
  }

  predicate NewFailure(b: Statuses, c: Statuses, id: Identity) {
    Has(c, id, Fail) && !Has(b, id, Fail)
  }

  predicate KnownFailure(b: Statuses, c: Statuses, id: Identity) {
    Has(c, id, Fail) && Has(b, id, Fail)
  }

  /** A passing check that passes no more, or a failing one that did not run again. */
  predicate Missing(b: Statuses, c: Statuses, id: Identity) {
    (Has(b, id, Pass) && !Has(c, id, Pass)) || (Has(b, id, Fail) && !Has(c, id, Fail) && !Has(c, id, Pass))
  }

  predicate Fixed(b: Statuses, c: Statuses, id: Identity) {
    Has(b, id, Fail) && !Has(c, id, Fail) && Has(c, id, Pass)
  }

  predicate ShippingFailure(ids: Statuses, id: Identity) {
    Has(ids, id, Fail) && id.mode == SHIPPING
  }

  function NewFailures(b: Statuses, c: Statuses): set<Identity> {
    set id | id in c && NewFailure(b, c, id)
  }

  function KnownFailures(b: Statuses, c: Statuses): set<Identity> {
    set id | id in c && KnownFailure(b, c, id)
  }

  function MissingChecks(b: Statuses, c: Statuses): set<Identity> {
    set id | id in b && Missing(b, c, id)
  }

  function FixedChecks(b: Statuses, c: Statuses): set<Identity> {
    set id | id in b && Fixed(b, c, id)
  }

  function ShippingFailures(ids: Statuses): set<Identity> {
    set id | id in ids && ShippingFailure(ids, id)
  }

  /** What the gate concludes from two readings: each list is the sorted listing of the identities it is about. */
  ghost function Compare(bErrors: seq<Problem>, b: Statuses, bAuth: Value, cErrors: seq<Problem>, c: Statuses, cAuth: Value): GateResult {
    GateResult(
      BaselineProblems(bErrors) + CandidateProblems(cErrors) + PolicyErrors(bAuth, cAuth)
      + CandidateShipping(Listed(ShippingFailures(c))) + BaselineShipping(Listed(ShippingFailures(b))),
      Listed(NewFailures(b, c)),
      Listed(MissingChecks(b, c)),
      Listed(KnownFailures(b, c)),
      Listed(FixedChecks(b, c)))
  }

  /** `_evaluate_regression_gate`; `None` when reading a report raises. */
  ghost function Gate(env: Env, candidate: Report, baseline: Report): Option<GateResult> {
    var b, c := ReadReport(env, baseline), ReadReport(env, candidate);
    if b.Raised? || c.Raised? then None
    else Some(Compare(b.errors, b.identities, baseline.auth, c.errors, c.identities, candidate.auth))
  }

  // ----- either form of the baseline -----

  lemma SetsIgnoreSkips(b: Statuses, c: Statuses)
    ensures NewFailures(Strip(b), c) == NewFailures(b, c) && KnownFailures(Strip(b), c) == KnownFailures(b, c)
    ensures MissingChecks(Strip(b), c) == MissingChecks(b, c) && FixedChecks(Strip(b), c) == FixedChecks(b, c)
    ensures ShippingFailures(Strip(b)) == ShippingFailures(b)
  {
    forall id, status ensures Has(Strip(b), id, status) <==> Has(b, id, status) && !status.Skip? {
      StripMeans(b, id, status);
    }
  }

  lemma CompareIgnoresSkips(bErrors: seq<Problem>, b: Statuses, bAuth: Value, cErrors: seq<Problem>, c: Statuses, cAuth: Value)
    ensures Compare(bErrors, Strip(b), bAuth, cErrors, c, cAuth) == Compare(bErrors, b, bAuth, cErrors, c, cAuth)
  {
    SetsIgnoreSkips(b, c);
  }

  /** If a baseline compacts and some check ran in every required case and scenario, the gate gives the same result,
      in all its lists, with the compact form as with the full one. Otherwise the compact form lets no candidate through. */
  lemma EitherFormGates(env: Env, candidate: Report, baseline: Report)
    requires Compact(env, baseline).Compacted?
    ensures var form, ids := Compact(env, baseline).report, ReadReport(env, baseline).identities;
            if forall m :: m in MODES ==> Covered(env, ids, m)
            then Gate(env, candidate, form) == Gate(env, candidate, baseline)
            else Gate(env, candidate, form).None? || !Gate(env, candidate, form).value.Success()
  {
    var form, b, c := Compact(env, baseline).report, ReadReport(env, baseline), ReadReport(env, candidate);
    CompactReadsBack(env, baseline);
    if c.Read? {
      CompareIgnoresSkips([], b.identities, baseline.auth, c.errors, c.identities, candidate.auth);
    }
  }

  // ----- acceptance is a preorder -----

  ghost predicate Accepts(env: Env, candidate: Report, baseline: Report) {
    Gate(env, candidate, baseline).Some? && Gate(env, candidate, baseline).value.Success()
  }

  ghost predicate Valid(env: Env, r: Report) {
    ReadReport(env, r).Read? && ReadReport(env, r).errors == []
  }

  /** Nothing that passed is lost, nothing fails that did not fail before, and what failed was run again. */
  ghost predicate NoWorse(b: Statuses, c: Statuses) {
    forall id :: && (Has(b, id, Pass) ==> Has(c, id, Pass))
                 && (Has(c, id, Fail) ==> Has(b, id, Fail))
                 && (Has(b, id, Fail) ==> Has(c, id, Fail) || Has(c, id, Pass))
  }

  lemma NoShipping(ids: Statuses)
    ensures ShippingFailures(ids) == {} <==> !ShippingFails(ids)
  {
    if ShippingFails(ids) {
      var id :| id in ids && id.mode == SHIPPING && Fail in ids[id];
      assert id in ShippingFailures(ids);
    }
  }

  lemma NoWorseMeans(b: Statuses, c: Statuses)
    ensures NewFailures(b, c) == {} && MissingChecks(b, c) == {} <==> NoWorse(b, c)
  {
    if NewFailures(b, c) == {} && MissingChecks(b, c) == {} {
      forall id
        ensures (Has(b, id, Pass) ==> Has(c, id, Pass)) && (Has(c, id, Fail) ==> Has(b, id, Fail))
        ensures Has(b, id, Fail) ==> Has(c, id, Fail) || Has(c, id, Pass)
      {
        assert id !in NewFailures(b, c) && id !in MissingChecks(b, c);
      }
    }
  }

  /** The gate accepts exactly when both reports are valid under one recorded policy, neither fails a shipping check,
      and the candidate is no worse. */
  lemma AcceptsMeans(env: Env, candidate: Report, baseline: Report)
    ensures Accepts(env, candidate, baseline) <==>
              && Valid(env, baseline) && Valid(env, candidate)
              && baseline.auth.Bool? && candidate.auth == baseline.auth
              && !ShippingFails(ReadReport(env, baseline).identities) && !ShippingFails(ReadReport(env, candidate).identities)
              && NoWorse(ReadReport(env, baseline).identities, ReadReport(env, candidate).identities)
  {
    var rb, rc := ReadReport(env, baseline), ReadReport(env, candidate);
    if rb.Read? && rc.Read? {
      var b, c := rb.identities, rc.identities;
      ListedAre(ShippingFailures(c));
      ListedAre(ShippingFailures(b));
      ListedAre(NewFailures(b, c));
      ListedAre(MissingChecks(b, c));
      NoShipping(b);
      NoShipping(c);
      NoWorseMeans(b, c);
    }
  }

  lemma AcceptanceIsTransitive(env: Env, a: Report, b: Report, c: Report)
    requires Accepts(env, b, a) && Accepts(env, c, b)
    ensures Accepts(env, c, a)
  {
    AcceptsMeans(env, b, a);
    AcceptsMeans(env, c, b);
    AcceptsMeans(env, c, a);
  }

  /** A report is accepted against itself exactly when it can serve as a baseline: when it compacts. */
  lemma AcceptanceIsReflexive(env: Env, r: Report)
    ensures Accepts(env, r, r) <==> Compact(env, r).Compacted?
    ensures Accepts(env, r, r) <==> Valid(env, r) && r.auth.Bool? && !ShippingFails(ReadReport(env, r).identities)
  {
    AcceptsMeans(env, r, r);
  }

  ghost predicate Chain(env: Env, rs: seq<Report>) {
    forall i :: 0 < i < |rs| ==> Accepts(env, rs[i], rs[i - 1])
  }

  /** No chain of accepted baselines hides a failure or loses a passing check. */
  lemma ChainsHideNothing(env: Env, rs: seq<Report>)
    requires |rs| > 1 && Chain(env, rs)
    ensures Accepts(env, rs[|rs| - 1], rs[0])
    ensures NoWorse(ReadReport(env, rs[0]).identities, ReadReport(env, rs[|rs| - 1]).identities)
  {
    var n := |rs| - 1;
    var accepts := (baseline: Report, candidate: Report) => Accepts(env, candidate, baseline);
    forall a, b, c | accepts(a, b) && accepts(b, c) ensures accepts(a, c) {
      AcceptanceIsTransitive(env, a, b, c);
    }
    ChainEnds(accepts, rs);
    AcceptsMeans(env, rs[n], rs[0]);
  }
}
