/** The compactor of conformance reports, and how its output reads back. */
module ComplianceBaseline {
  import opened Common
  import opened PyValues
  import opened Sorting
  import opened ComplianceReport
  import opened ComplianceReader
  import opened ComplianceFacts

  datatype Compaction = CompactionRaised | Refused(errors: seq<Problem>) | Compacted(report: Report)

  predicate ShippingFails(ids: Statuses) {
    exists id :: id in ids && id.mode == SHIPPING && Fail in ids[id]
  }

  function WithStatus(ids: Statuses, status: Status): set<Identity> {
    set id | id in ids && status in ids[id]
  }

  /** `asdict(identity)` */
  function ToRecord(id: Identity): Option<Record> {
    Some(Record(Str(id.mode), Str(id.transport), Str(id.source), Str(id.scenario), Str(id.checkId)))
  }

  function ToRecords(q: seq<Identity>): (records: seq<Option<Record>>)
    ensures |records| == |q|
  {
    seq(|q|, i requires 0 <= i < |q| => ToRecord(q[i]))
  }

  function CompactForm(r: Report, passing: seq<Identity>, failing: seq<Identity>): Report {
    Report(
      schemaVersion := Int(SCHEMA),
      versionCheck := Some(Bool(true)),
      modern := Bool(true),
      official := Some(Official(Str(REPOSITORY), Str(GIT_REF), Bool(true), Some(map m | m in MODES :: Selected(r, m)))),
      auth := r.auth,
      kind := Str(KIND),
      requiredModes := List(Strings(MODES)),
      transports := List([Str(STDIO), Str(HTTP)]),
      checks := Some(Buckets(Some(ToRecords(passing)), Some(ToRecords(failing)))),
      cases := None)
  }

  ghost function FormOf(r: Report, ids: Statuses): Report {
    CompactForm(r, Listed(WithStatus(ids, Pass)), Listed(WithStatus(ids, Fail)))
  }

  function BaselineErrors(r: Report, errors: seq<Problem>, ids: Statuses): seq<Problem> {
    errors + When(!r.auth.Bool?, NoAuthPolicy) + When(ShippingFails(ids), ShippingRegression)
  }

  /** `_compact_regression_baseline` */
  ghost function Compact(env: Env, r: Report): Compaction {
    match ReadReport(env, r)
    case Raised => CompactionRaised
    case Read(errors, ids) =>
      var all := BaselineErrors(r, errors, ids);
      if all != [] then Refused(all) else Compacted(FormOf(r, ids))
  }

  // ----- reading the lists back -----

  /** The statuses after every identity of `more` was seen with one more status. */
  function AddAll(ids: Statuses, more: set<Identity>, status: Status): Statuses {
    map id | id in ids.Keys + more :: (if id in ids then ids[id] else {}) + (if id in more then {status} else {})
  }

  lemma AddAllOne(ids: Statuses, more: set<Identity>, id: Identity, status: Status)
    ensures Add(AddAll(ids, more, status), id, status) == AddAll(ids, more + {id}, status)
  {
    var one, all := Add(AddAll(ids, more, status), id, status), AddAll(ids, more + {id}, status);
    assert one.Keys == all.Keys;
    forall x | x in one ensures one[x] == all[x] {
      assert forall s :: s in one[x] <==> s in all[x];
    }
  }

  lemma AddNone(ids: Statuses, status: Status)
    ensures AddAll(ids, {}, status) == ids
  {
    var same := AddAll(ids, {}, status);
    assert same.Keys == ids.Keys;
    forall id | id in ids ensures same[id] == ids[id] {
      assert ids[id] + {} == ids[id];
    }
  }

  lemma RecordReadsBack(id: Identity)
    requires WellFormed(id)
    ensures RecordIdentity(ToRecord(id)) == One(id)
  {
  }

  /** A list of distinct well-formed identities is read back whole. */
  lemma {:induction false} ListReadsBack(status: Status, errors: seq<Problem>, ids: Statuses, q: seq<Identity>)
    requires NoDuplicates(q) && forall id :: id in q ==> WellFormed(id)
    ensures GatherRecords(status, Gathered(errors, {}, ids), ToRecords(q)) == Gathered(errors, Elements(q), AddAll(ids, Elements(q), status))
  {
    if q == [] {
      assert Elements(q) == {};
      AddNone(ids, status);
    } else {
      var n := |q| - 1;
      assert q == q[..n] + [q[n]];
      ListReadsBack(status, errors, ids, q[..n]);
      assert ToRecords(q)[..n] == ToRecords(q[..n]);
      assert Elements(q) == Elements(q[..n]) + {q[n]};
      assert q[n] !in Elements(q[..n]);
      RecordReadsBack(q[n]);
      AddAllOne(ids, Elements(q[..n]), q[n], status);
    }
  }

  /** The statuses that a compact form can hold: skipped checks are left out. */
  function Strip(ids: Statuses): Statuses {
    map id | id in ids && (Pass in ids[id] || Fail in ids[id]) :: ids[id] - {Skip}
  }

  lemma OnlyThree(a: set<Status>, b: set<Status>)
    requires (Pass in a <==> Pass in b) && (Fail in a <==> Fail in b) && (Skip in a <==> Skip in b)
    ensures a == b
  {
    forall s ensures s in a <==> s in b {
      match s {
        case Pass =>
        case Fail =>
        case Skip =>
      }
    }
  }

  lemma StripIsBothLists(ids: Statuses)
    ensures AddAll(AddAll(map[], WithStatus(ids, Pass), Pass), WithStatus(ids, Fail), Fail) == Strip(ids)
  {
    var both := AddAll(AddAll(map[], WithStatus(ids, Pass), Pass), WithStatus(ids, Fail), Fail);
    assert both.Keys == Strip(ids).Keys;
    forall id | id in both ensures both[id] == Strip(ids)[id] {
      assert Pass in both[id] <==> Pass in Strip(ids)[id];
      assert Fail in both[id] <==> Fail in Strip(ids)[id];
      assert Skip !in both[id] && Skip !in Strip(ids)[id];
      OnlyThree(both[id], Strip(ids)[id]);
    }
  }

  lemma StripMeans(ids: Statuses, id: Identity, status: Status)
    ensures Has(Strip(ids), id, status) <==> Has(ids, id, status) && !status.Skip?
    ensures id in Strip(ids) <==> Has(ids, id, Pass) || Has(ids, id, Fail)
  {
  }

  lemma FormHeader(r: Report, passing: seq<Identity>, failing: seq<Identity>)
    ensures CompactHeaderErrors(CompactForm(r, passing, failing)) == []
    ensures !TransportsRaise(CompactForm(r, passing, failing).transports)
    ensures forall m :: m in MODES ==> Selected(CompactForm(r, passing, failing), m) == Selected(r, m)
  {
  }

  /** The compact form of any well-formed identities reads back as those identities, without skipped checks. */
  lemma FormReadsBack(env: Env, r: Report, ids: Statuses)
    requires Fits(env, ids)
    ensures ReadReport(env, FormOf(r, ids)) == CoverModes(env, FormOf(r, ids), Gathered([], WithStatus(ids, Fail), Strip(ids)), MODES)
  {
    var passing, failing := WithStatus(ids, Pass), WithStatus(ids, Fail);
    ListedAre(passing);
    ListedAre(failing);
    FormHeader(r, Listed(passing), Listed(failing));
    forall id | id in Listed(passing) || id in Listed(failing) ensures WellFormed(id) {
      assert id in Elements(Listed(passing)) || id in Elements(Listed(failing));
      assert Has(ids, id, Pass) || Has(ids, id, Fail);
    }
    ListReadsBack(Pass, [], map[], Listed(passing));
    ListReadsBack(Fail, [], AddAll(map[], passing, Pass), Listed(failing));
    StripIsBothLists(ids);
  }

  // ----- when the compact form is accepted again -----

  /** The check ran: it was seen passing or failing, and not only skipped. */
  predicate Ran(ids: Statuses, id: Identity) {
    Has(ids, id, Pass) || Has(ids, id, Fail)
  }

  ghost predicate RanCase(ids: Statuses, mode: string, transport: string) {
    exists id :: Ran(ids, id) && id.mode == mode && id.transport == transport
  }

  ghost predicate RanScenario(ids: Statuses, mode: string, scenario: string) {
    exists id :: Ran(ids, id) && id.mode == mode && Counts(id) && id.scenario == scenario
  }

  /** Some check ran in each transport case, and in each scenario of the catalog. */
  ghost predicate Covered(env: Env, ids: Statuses, mode: string) {
    && RanCase(ids, mode, STDIO) && RanCase(ids, mode, HTTP)
    && forall scenario :: scenario in env.catalog(mode) ==> RanScenario(ids, mode, scenario)
  }

  lemma PresentIffRan(ids: Statuses, mode: string, transport: string)
    ensures Present(Strip(ids), mode, transport) <==> RanCase(ids, mode, transport)
  {
    if id :| Ran(ids, id) && id.mode == mode && id.transport == transport {
      assert id in Strip(ids);
    }
  }

  lemma ObservedIffRan(ids: Statuses, mode: string, scenario: string)
    ensures scenario in Observed(Strip(ids), mode) <==> RanScenario(ids, mode, scenario)
  {
    if id :| Ran(ids, id) && id.mode == mode && Counts(id) && id.scenario == scenario {
      assert id in Strip(ids);
    }
  }

  lemma CoverageIffCovered(env: Env, r: Report, ids: Statuses, mode: string)
    requires Fits(env, ids) && CatalogMatches(env, r, mode)
    ensures CoverageErrors(env, r, Strip(ids), mode) == [] <==> Covered(env, ids, mode)
  {
    CoverageMeans(env, r, Strip(ids), mode);
    PresentIffRan(ids, mode, STDIO);
    PresentIffRan(ids, mode, HTTP);
    forall scenario ensures scenario in Observed(Strip(ids), mode) <==> RanScenario(ids, mode, scenario) {
      ObservedIffRan(ids, mode, scenario);
    }
    forall scenario | RanScenario(ids, mode, scenario) ensures scenario in env.catalog(mode) {
      var id :| Ran(ids, id) && id.mode == mode && Counts(id) && id.scenario == scenario;
      assert Has(ids, id, Pass) || Has(ids, id, Fail);
    }
    var catalog := env.catalog(mode);
    assert forall scenario :: scenario in catalog <==> scenario in Elements(catalog);
  }

  /** Whenever a report compacts, its compact form holds exactly the statuses of the checks that ran,
      and it is read without problems if and only if some check ran in every required case and scenario. */
  lemma CompactReadsBack(env: Env, r: Report)
    requires Compact(env, r).Compacted?
    ensures var ids, back := ReadReport(env, r).identities, ReadReport(env, Compact(env, r).report);
            && back.Read? && back.identities == Strip(ids)
            && (back.errors == [] <==> forall m :: m in MODES ==> Covered(env, ids, m))
  {
    var ids := ReadReport(env, r).identities;
    var form := FormOf(r, ids);
    ReadingFits(env, r);
    FormReadsBack(env, r, ids);
    FormHeader(r, Listed(WithStatus(ids, Pass)), Listed(WithStatus(ids, Fail)));
    var g := Gathered([], WithStatus(ids, Fail), Strip(ids));
    CoverModesMeans(env, form, g, MODES);
    forall m | m in MODES ensures Coverage(env, form, Strip(ids))(m) == [] <==> Covered(env, ids, m) {
      assert CatalogMatches(env, form, m);
      CoverageIffCovered(env, form, ids, m);
    }
  }

  lemma FormOfForm(r: Report, ids: Statuses)
    ensures FormOf(FormOf(r, ids), Strip(ids)) == FormOf(r, ids)
  {
    var form := FormOf(r, ids);
    FormHeader(r, Listed(WithStatus(ids, Pass)), Listed(WithStatus(ids, Fail)));
    forall id, status ensures Has(Strip(ids), id, status) <==> Has(ids, id, status) && !status.Skip? {
      StripMeans(ids, id, status);
    }
    SameStatus(ids, Pass);
    SameStatus(ids, Fail);
    assert (map m | m in MODES :: Selected(form, m)) == (map m | m in MODES :: Selected(r, m));
  }

  lemma SameStatus(ids: Statuses, status: Status)
    requires !status.Skip?
    ensures WithStatus(Strip(ids), status) == WithStatus(ids, status)
  {
  }

  lemma SameShipping(ids: Statuses)
    ensures ShippingFails(Strip(ids)) <==> ShippingFails(ids)
  {
    if id :| id in ids && id.mode == SHIPPING && Fail in ids[id] {
      assert id in Strip(ids) && Fail in Strip(ids)[id];
    }
  }

  /** Compacting a compact form again returns it unchanged if it still covers what is required, and is refused otherwise. */
  lemma CompactTwice(env: Env, r: Report)
    requires Compact(env, r).Compacted?
    ensures var form := Compact(env, r).report;
            if forall m :: m in MODES ==> Covered(env, ReadReport(env, r).identities, m)
            then Compact(env, form) == Compacted(form)
            else Compact(env, form).Refused?
  {
    var ids := ReadReport(env, r).identities;
    CompactReadsBack(env, r);
    FormOfForm(r, ids);
    SameShipping(ids);
  }

  /** What was compact already is always covered: compaction is idempotent. */
  lemma CompactIsIdempotent(env: Env, r: Report)
    requires r.kind != Null && Compact(env, r).Compacted?
    ensures Compact(env, Compact(env, r).report) == Compact(env, r)
  {
    var ids := ReadReport(env, r).identities;
    forall m | m in MODES ensures Covered(env, ids, m) {
      CompactIsCovered(env, r, m);
    }
    CompactTwice(env, r);
  }

  lemma CompactIsCovered(env: Env, r: Report, mode: string)
    requires mode in MODES && r.kind != Null && ReadReport(env, r).Read? && ReadReport(env, r).errors == []
    ensures Covered(env, ReadReport(env, r).identities, mode)
  {
    var ids := ReadReport(env, r).identities;
    CompactReadingCovers(env, r, mode);
    CoverageMeans(env, r, ids, mode);
    NothingSkipped(env, r);
    var catalog := env.catalog(mode);
    forall scenario | scenario in catalog ensures RanScenario(ids, mode, scenario) {
      assert scenario in Elements(catalog);
      assert scenario in Observed(ids, mode);
    }
  }

  ghost predicate AllRan(ids: Statuses) {
    forall id :: id in ids ==> Ran(ids, id)
  }

  lemma AddRan(ids: Statuses, id: Identity, status: Status)
    requires AllRan(ids) && !status.Skip?
    ensures AllRan(Add(ids, id, status))
  {
    var more := Add(ids, id, status);
    forall x | x in more ensures Ran(more, x) {
      assert x != id ==> Ran(ids, x);
    }
  }

  lemma {:induction false} GatherKeepsRan(status: Status, g: Gathered, records: seq<Option<Record>>)
    requires !status.Skip? && g.Gathered? && AllRan(g.identities)
    ensures var g' := GatherRecords(status, g, records); g'.Gathered? ==> AllRan(g'.identities)
  {
    if records != [] {
      var n := |records| - 1;
      GatherKeepsRan(status, g, records[..n]);
      var before := GatherRecords(status, g, records[..n]);
      if before.Gathered? && RecordIdentity(records[n]).One? {
        AddRan(before.identities, RecordIdentity(records[n]).id, status);
      }
    }
  }

  lemma BucketKeepsRan(status: Status, g: Gathered, records: Option<seq<Option<Record>>>)
    requires !status.Skip? && (g.Gathered? ==> AllRan(g.identities))
    ensures var g' := GatherBucket(status, g, records); g'.Gathered? ==> AllRan(g'.identities)
  {
    if g.Gathered? && records.Some? {
      GatherKeepsRan(status, g.(seen := {}), records.value);
    }
  }

  /** The reading of a compact form knows no skipped checks. */
  lemma NothingSkipped(env: Env, r: Report)
    requires r.kind != Null && ReadReport(env, r).Read?
    ensures AllRan(ReadReport(env, r).identities)
  {
    if r.checks.Some? {
      var begun := Gathered(CompactHeaderErrors(r), {}, map[]);
      BucketKeepsRan(Pass, begun, r.checks.value.passing);
      BucketKeepsRan(Fail, GatherBucket(Pass, begun, r.checks.value.passing), r.checks.value.failing);
    }
  }
}
