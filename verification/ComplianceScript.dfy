/**
 The script that reads, compacts and gates conformance reports, with its loops. Each method computes
 what the corresponding function of the other modules defines.
 */
module ComplianceScript {
  import opened Common
  import opened PyValues
  import opened Sorting
  import opened ComplianceReport
  import opened ComplianceReader
  import opened ComplianceBaseline
  import opened ComplianceGate

  // ----- the compact form -----

  lemma GatherNext(status: Status, g: Gathered, records: seq<Option<Record>>, i: int)
    requires 0 <= i < |records|
    ensures GatherRecords(status, g, records[..i + 1]) == RecordStep(status, GatherRecords(status, g, records[..i]), records[i])
  {
    assert records[..i + 1][..i] == records[..i];
  }

  lemma {:induction false} GatherRaisedStays(status: Status, g: Gathered, records: seq<Option<Record>>, i: int)
    requires 0 <= i <= |records| && GatherRecords(status, g, records[..i]).GatherRaised?
    ensures GatherRecords(status, g, records).GatherRaised?
    decreases |records| - i
  {
    if i == |records| {
      assert records[..i] == records;
    } else {
      GatherNext(status, g, records, i);
      GatherRaisedStays(status, g, records, i + 1);
    }
  }

  method ReadRecords(status: Status, errors0: seq<Problem>, ids0: Statuses, records: seq<Option<Record>>) returns (g: Gathered)
    ensures g == GatherRecords(status, Gathered(errors0, {}, ids0), records)
  {
    ghost var begun := Gathered(errors0, {}, ids0);
    var errors, seen, ids := errors0, {}, ids0;
    for i := 0 to |records|
      invariant Gathered(errors, seen, ids) == GatherRecords(status, begun, records[..i])
    {
      GatherNext(status, begun, records, i);
      match RecordIdentity(records[i])
      case Unhashable =>
        GatherRaisedStays(status, begun, records, i + 1);
        return GatherRaised;
      case NotOne => errors := errors + [BadRecord(status)];
      case One(id) =>
        if id in seen {
          errors := errors + [RepeatedRecord(status)];
        } else {
          seen := seen + {id};
          ids := Add(ids, id, status);
        }
    }
    assert records[..|records|] == records;
    g := Gathered(errors, seen, ids);
  }

  method ReadBucket(status: Status, g: Gathered, records: Option<seq<Option<Record>>>) returns (g': Gathered)
    ensures g' == GatherBucket(status, g, records)
  {
    if g.GatherRaised? {
      return g;
    }
    match records
    case None => g' := g.(errors := g.errors + [NoBucket(status)]);
    case Some(rs) => g' := ReadRecords(status, g.errors, g.identities, rs);
  }

  lemma ConcatNext(f: string -> seq<Problem>, modes: seq<string>, k: int)
    requires 0 <= k < |modes|
    ensures Concat(f, modes[..k + 1]) == Concat(f, modes[..k]) + f(modes[k])
  {
    assert modes[..k + 1][..k] == modes[..k];
  }

  method ConcatAll(f: string -> seq<Problem>, errors0: seq<Problem>, modes: seq<string>) returns (errors: seq<Problem>)
    ensures errors == errors0 + Concat(f, modes)
  {
    errors := errors0;
    for k := 0 to |modes|
      invariant errors == errors0 + Concat(f, modes[..k])
    {
      errors := errors + f(modes[k]);
      ConcatNext(f, modes, k);
    }
    assert modes[..|modes|] == modes;
  }

  method CoverAllModes(env: Env, r: Report, g: Gathered, modes: seq<string>) returns (reading: Reading)
    ensures reading == CoverModes(env, r, g, modes)
  {
    if g.GatherRaised? {
      return Raised;
    }
    var errors := ConcatAll(Coverage(env, r, g.identities), g.errors, modes);
    reading := Read(errors, g.identities);
  }

  method ReadCompact(env: Env, r: Report) returns (reading: Reading)
    ensures reading == CompactReading(env, r)
  {
    if r.kind != Str(KIND) {
      return Read(HeaderErrors(r) + [UnsupportedKind], map[]);
    }
    if TransportsRaise(r.transports) {
      return Raised;
    }
    if r.checks.None? {
      return Read(CompactHeaderErrors(r) + [NoIdentities], map[]);
    }
    var passing := ReadBucket(Pass, Gathered(CompactHeaderErrors(r), {}, map[]), r.checks.value.passing);
    var both := ReadBucket(Fail, passing, r.checks.value.failing);
    reading := CoverAllModes(env, r, both, MODES);
  }

  // ----- the full form -----

  method CollectRequiredCases(errors0: seq<Problem>, cases: seq<Option<Case>>) returns (t: CaseTable)
    ensures t == CollectCases(CaseTable(errors0, map[]), cases)
  {
    t := CaseTable(errors0, map[]);
    for i := 0 to |cases|
      invariant t == CollectCases(CaseTable(errors0, map[]), cases[..i])
    {
      assert cases[..i + 1][..i] == cases[..i];
      t := CaseStep(t, cases[i]);
    }
    assert cases[..|cases|] == cases;
  }

  lemma TallyNext(env: Env, mode: string, transport: string, t: Tally, checks: seq<Option<Check>>, i: int)
    requires 0 <= i < |checks|
    ensures TallyChecks(env, mode, transport, t, checks[..i + 1])
         == CheckStep(env, mode, transport, TallyChecks(env, mode, transport, t, checks[..i]), checks[i])
  {
    assert checks[..i + 1][..i] == checks[..i];
  }

  lemma {:induction false} TallyRaisedStays(env: Env, mode: string, transport: string, t: Tally, checks: seq<Option<Check>>, i: int)
    requires 0 <= i <= |checks| && TallyChecks(env, mode, transport, t, checks[..i]).TallyRaised?
    ensures TallyChecks(env, mode, transport, t, checks).TallyRaised?
    decreases |checks| - i
  {
    if i == |checks| {
      assert checks[..i] == checks;
    } else {
      TallyNext(env, mode, transport, t, checks, i);
      TallyRaisedStays(env, mode, transport, t, checks, i + 1);
    }
  }

  method ReadChecks(env: Env, mode: string, transport: string, errors0: seq<Problem>, ids0: Statuses, checks: seq<Option<Check>>) returns (t: Tally)
    ensures t == TallyChecks(env, mode, transport, Tally(errors0, ids0, {}), checks)
  {
    ghost var begun := Tally(errors0, ids0, {});
    var errors, ids, observed := errors0, ids0, {};
    for i := 0 to |checks|
      invariant Tally(errors, ids, observed) == TallyChecks(env, mode, transport, begun, checks[..i])
    {
      TallyNext(env, mode, transport, begun, checks, i);
      match Judge(env, mode, transport, checks[i])
      case JudgeRaised =>
        TallyRaisedStays(env, mode, transport, begun, checks, i + 1);
        return TallyRaised;
      case Malformed => errors := errors + [BadCheck(mode, transport)];
      case Good(id, status) =>
        ids := Add(ids, id, status);
        if Counts(id) {
          observed := observed + {id.scenario};
        }
    }
    assert checks[..|checks|] == checks;
    t := Tally(errors, ids, observed);
  }

  method ReadTransport(env: Env, cases: map<(string, string), Case>, mode: string, transport: string, reading0: Reading) returns (reading: Reading)
    ensures reading == TransportStep(env, cases, mode, transport, reading0)
  {
    if reading0.Raised? {
      return Raised;
    }
    if (mode, transport) !in cases {
      return reading0.(errors := reading0.errors + [MissingCase(mode, transport)]);
    }
    var checks := cases[(mode, transport)].checks;
    if checks.None? || checks.value == [] {
      return reading0.(errors := reading0.errors + [NoChecks(mode, transport)]);
    }
    var t := ReadChecks(env, mode, transport, reading0.errors, reading0.identities, checks.value);
    if t.TallyRaised? {
      return Raised;
    }
    reading := Read(t.errors, t.identities);
    if transport == HTTP {
      reading := reading.(errors := reading.errors + ScenarioErrors(env, mode, t.observed));
    }
  }

  method ReadAllModes(env: Env, r: Report, cases: map<(string, string), Case>, errors: seq<Problem>, modes: seq<string>) returns (reading: Reading)
    ensures reading == ReadModes(env, r, cases, Read(errors, map[]), modes)
  {
    reading := Read(errors, map[]);
    for k := 0 to |modes|
      invariant reading == ReadModes(env, r, cases, Read(errors, map[]), modes[..k])
    {
      assert modes[..k + 1][..k] == modes[..k];
      if reading.Read? {
        reading := reading.(errors := reading.errors + When(!CatalogMatches(env, r, modes[k]), IncompleteCatalog(modes[k])));
        reading := ReadTransport(env, cases, modes[k], STDIO, reading);
        reading := ReadTransport(env, cases, modes[k], HTTP, reading);
      }
    }
    assert modes[..|modes|] == modes;
  }

  method ReadFull(env: Env, r: Report) returns (reading: Reading)
    ensures reading == FullReading(env, r)
  {
    var table := CaseTable(HeaderErrors(r) + [NoCases], map[]);
    if r.cases.Some? {
      table := CollectRequiredCases(HeaderErrors(r), r.cases.value);
    }
    reading := ReadAllModes(env, r, table.cases, table.errors, MODES);
  }

  method RequiredRegressionChecks(env: Env, r: Report) returns (reading: Reading)
    ensures reading == ReadReport(env, r)
  {
    if r.kind != Null {
      reading := ReadCompact(env, r);
    } else {
      reading := ReadFull(env, r);
    }
  }

  // ----- compaction -----

  method CompactRegressionBaseline(env: Env, r: Report) returns (c: Compaction)
    ensures c == Compact(env, r)
  {
    var reading := RequiredRegressionChecks(env, r);
    if reading.Raised? {
      return CompactionRaised;
    }
    var errors := BaselineErrors(r, reading.errors, reading.identities);
    if errors != [] {
      return Refused(errors);
    }
    var passing := ListIdentities(WithStatus(reading.identities, Pass));
    var failing := ListIdentities(WithStatus(reading.identities, Fail));
    c := Compacted(CompactForm(r, passing, failing));
  }

  // ----- the gate -----

  /** The loop over the candidate's checks: failures are new or known, and those of shipping checks are errors. */
  method JudgeCandidate(b: Statuses, c: Statuses, order: seq<Identity>)
    returns (shipping: seq<ConfigError>, newFailures: seq<Identity>, knownFailures: seq<Identity>)
    requires forall id :: id in order ==> id in c
    ensures shipping == CandidateShipping(Filter(id => ShippingFailure(c, id), order))
    ensures newFailures == Filter(id => NewFailure(b, c, id), order) && knownFailures == Filter(id => KnownFailure(b, c, id), order)
  {
    ghost var isNew, isKnown, ships := id => NewFailure(b, c, id), id => KnownFailure(b, c, id), id => ShippingFailure(c, id);
    shipping, newFailures, knownFailures := [], [], [];
    for i := 0 to |order|
      invariant shipping == CandidateShipping(Filter(ships, order[..i]))
      invariant newFailures == Filter(isNew, order[..i]) && knownFailures == Filter(isKnown, order[..i])
    {
      var id := order[i];
      FilterNext(isNew, order, i);
      FilterNext(isKnown, order, i);
      FilterNext(ships, order, i);
      if Fail in c[id] {
        if id.mode == SHIPPING {
          shipping := shipping + [ShippingFailed(id.checkId)];
        }
        if id in b && Fail in b[id] {
          knownFailures := knownFailures + [id];
        } else {
          newFailures := newFailures + [id];
        }
      }
    }
    assert order[..|order|] == order;
  }

  /** The loop over the baseline's checks: what passed must pass again, what failed must have run again. */
  method JudgeBaseline(b: Statuses, c: Statuses, order: seq<Identity>)
    returns (shipping: seq<ConfigError>, missing: seq<Identity>, fixed: seq<Identity>)
    requires forall id :: id in order ==> id in b
    ensures shipping == BaselineShipping(Filter(id => ShippingFailure(b, id), order))
    ensures missing == Filter(id => Missing(b, c, id), order) && fixed == Filter(id => Fixed(b, c, id), order)
  {
    ghost var isMissing, isFixed, ships := id => Missing(b, c, id), id => Fixed(b, c, id), id => ShippingFailure(b, id);
    shipping, missing, fixed := [], [], [];
    for i := 0 to |order|
      invariant shipping == BaselineShipping(Filter(ships, order[..i]))
      invariant missing == Filter(isMissing, order[..i]) && fixed == Filter(isFixed, order[..i])
    {
      var id := order[i];
      FilterNext(isMissing, order, i);
      FilterNext(isFixed, order, i);
      FilterNext(ships, order, i);
      var statuses := if id in c then c[id] else {};
      if id.mode == SHIPPING && Fail in b[id] {
        shipping := shipping + [BaselineShippingFailed(id.checkId)];
      }
      if Pass in b[id] && Pass !in statuses {
        missing := missing + [id];
      } else if Fail in b[id] && Fail !in statuses && Pass !in statuses {
        missing := missing + [id];
      } else if Fail in b[id] && Fail !in statuses {
        fixed := fixed + [id];
      }
    }
    assert order[..|order|] == order;
  }

  lemma ListsAreCompared(b: Statuses, c: Statuses)
    ensures Filter(id => ShippingFailure(c, id), Listed(c.Keys)) == Listed(ShippingFailures(c))
    ensures Filter(id => NewFailure(b, c, id), Listed(c.Keys)) == Listed(NewFailures(b, c))
    ensures Filter(id => KnownFailure(b, c, id), Listed(c.Keys)) == Listed(KnownFailures(b, c))
    ensures Filter(id => ShippingFailure(b, id), Listed(b.Keys)) == Listed(ShippingFailures(b))
    ensures Filter(id => Missing(b, c, id), Listed(b.Keys)) == Listed(MissingChecks(b, c))
    ensures Filter(id => Fixed(b, c, id), Listed(b.Keys)) == Listed(FixedChecks(b, c))
  {
    FilterListed(c.Keys, id => ShippingFailure(c, id), ShippingFailures(c));
    FilterListed(c.Keys, id => NewFailure(b, c, id), NewFailures(b, c));
    FilterListed(c.Keys, id => KnownFailure(b, c, id), KnownFailures(b, c));
    FilterListed(b.Keys, id => ShippingFailure(b, id), ShippingFailures(b));
    FilterListed(b.Keys, id => Missing(b, c, id), MissingChecks(b, c));
    FilterListed(b.Keys, id => Fixed(b, c, id), FixedChecks(b, c));
  }

  method CompareReadings(b: Statuses, c: Statuses, errors: seq<ConfigError>) returns (result: GateResult)
    ensures result == GateResult(
                        errors + CandidateShipping(Listed(ShippingFailures(c))) + BaselineShipping(Listed(ShippingFailures(b))),
                        Listed(NewFailures(b, c)), Listed(MissingChecks(b, c)), Listed(KnownFailures(b, c)), Listed(FixedChecks(b, c)))
  {
    var candidates := ListIdentities(c.Keys);
    var baselines := ListIdentities(b.Keys);
    ListsAreCompared(b, c);
    ListedAre(c.Keys);
    ListedAre(b.Keys);
    var shipping, newFailures, knownFailures := JudgeCandidate(b, c, candidates);
    var baselineShipping, missing, fixed := JudgeBaseline(b, c, baselines);
    result := GateResult(errors + shipping + baselineShipping, newFailures, missing, knownFailures, fixed);
  }

  method EvaluateRegressionGate(env: Env, candidate: Report, baseline: Report) returns (result: Option<GateResult>)
    ensures result == Gate(env, candidate, baseline)
  {
    var b := RequiredRegressionChecks(env, baseline);
    if b.Raised? {
      return None;
    }
    var c := RequiredRegressionChecks(env, candidate);
    if c.Raised? {
      return None;
    }
    var errors := BaselineProblems(b.errors) + CandidateProblems(c.errors) + PolicyErrors(baseline.auth, candidate.auth);
    var compared := CompareReadings(b.identities, c.identities, errors);
    result := Some(compared);
  }
}
