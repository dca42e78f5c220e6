/** Which conformance reports are read without problems, said without the reader. */
module ComplianceValidity {
  import opened Common
  import opened PyValues
  import opened Sorting
  import opened ComplianceReport
  import opened ComplianceReader
  import opened ComplianceChecks
  import opened ComplianceFacts
  import opened ComplianceBaseline

  ghost predicate Clean(reading: Reading) {
    reading.Read? && reading.errors == []
  }

  predicate GoodHeader(r: Report) {
    && EqInt(r.schemaVersion, 4) && r.versionCheck == Some(Bool(true)) && r.modern == Bool(true)
    && r.official.Some? && r.official.value.repository == Str(REPOSITORY) && r.official.value.gitRef == Str(GIT_REF)
    && r.official.value.authenticated == Bool(true) && r.official.value.scenarios.Some?
  }

  lemma HeaderMeans(r: Report)
    ensures HeaderErrors(r) == [] <==> GoodHeader(r)
  {
  }

  // ----- the full form -----

  /** A check with a known source, a name, and a status that agrees with its success. */
  predicate GoodCheck(check: Option<Check>) {
    && check.Some? && OneOf(check.value.source, SOURCES)
    && check.value.name.Str? && check.value.name.s != ""
    && OptionalText(check.value.scenario) && OptionalText(check.value.checkId)
    && ( || (check.value.status == Str("PASS") && check.value.success == Bool(true))
         || (check.value.status == Str("SKIP") && check.value.success == Bool(true))
         || (check.value.status == Str("FAIL") && check.value.success == Bool(false)))
  }

  lemma JudgeMeans(env: Env, mode: string, transport: string, check: Option<Check>)
    ensures Judge(env, mode, transport, check).Good? <==> GoodCheck(check)
  {
    assert "PASS"[0] == 'P' && "FAIL"[0] == 'F' && "SKIP"[0] == 'S';
  }

  /** The scenario a check observes: official and harness checks over official HTTP do, a missing one counting as empty. */
  predicate Observes(transport: string, check: Option<Check>, scenario: string) {
    && GoodCheck(check) && transport == HTTP && (check.value.source == Str(OFFICIAL) || check.value.source == Str(HARNESS))
    && scenario == if check.value.scenario.Str? then check.value.scenario.s else ""
  }

  lemma JudgeObserves(env: Env, mode: string, transport: string, check: Option<Check>, scenario: string)
    ensures var j := Judge(env, mode, transport, check);
            Observes(transport, check, scenario) <==> j.Good? && Counts(j.id) && j.id.scenario == scenario
  {
    JudgeMeans(env, mode, transport, check);
  }

  predicate AllGood(checks: seq<Option<Check>>) {
    forall j :: 0 <= j < |checks| ==> GoodCheck(checks[j])
  }

  lemma AllGoodSnoc(checks: seq<Option<Check>>)
    requires checks != []
    ensures AllGood(checks) <==> AllGood(checks[..|checks| - 1]) && GoodCheck(checks[|checks| - 1])
  {
    assert forall j :: 0 <= j < |checks| - 1 ==> checks[..|checks| - 1][j] == checks[j];
  }

  predicate SomeObserves(transport: string, checks: seq<Option<Check>>, scenario: string) {
    exists j :: 0 <= j < |checks| && Observes(transport, checks[j], scenario)
  }

  lemma SomeObservesSnoc(transport: string, checks: seq<Option<Check>>, scenario: string)
    requires checks != []
    ensures var n := |checks| - 1;
            SomeObserves(transport, checks, scenario) <==> SomeObserves(transport, checks[..n], scenario) || Observes(transport, checks[n], scenario)
  {
    var n := |checks| - 1;
    if SomeObserves(transport, checks[..n], scenario) {
      var j :| 0 <= j < n && Observes(transport, checks[..n][j], scenario);
      assert checks[j] == checks[..n][j];
    }
    if j :| 0 <= j < n && Observes(transport, checks[j], scenario) {
      assert checks[j] == checks[..n][j];
    }
  }

  lemma {:induction false} TallyIsClean(env: Env, mode: string, transport: string, ids: Statuses, errors: seq<Problem>, checks: seq<Option<Check>>, scenario: string)
    ensures var t := TallyChecks(env, mode, transport, Tally(errors, ids, {}), checks);
            && (t.Tally? && t.errors == [] <==> errors == [] && AllGood(checks))
            && (t.Tally? && t.errors == [] ==> (scenario in t.observed <==> SomeObserves(transport, checks, scenario)))
  {
    if checks != [] {
      var n := |checks| - 1;
      TallyIsClean(env, mode, transport, ids, errors, checks[..n], scenario);
      JudgeMeans(env, mode, transport, checks[n]);
      JudgeObserves(env, mode, transport, checks[n], scenario);
      SomeObservesSnoc(transport, checks, scenario);
      AllGoodSnoc(checks);
    }
  }

  /** The checks of a case are good, and over official HTTP they observe exactly the scenarios of the catalog. */
  ghost predicate GoodChecks(env: Env, mode: string, transport: string, checks: Option<seq<Option<Check>>>) {
    && checks.Some? && checks.value != [] && AllGood(checks.value)
    && (transport == HTTP ==> forall scenario :: scenario in env.catalog(mode) <==> SomeObserves(transport, checks.value, scenario))
  }

  lemma TransportIsClean(env: Env, cases: map<(string, string), Case>, mode: string, transport: string, reading: Reading)
    ensures Clean(TransportStep(env, cases, mode, transport, reading)) <==>
              Clean(reading) && (mode, transport) in cases && GoodChecks(env, mode, transport, cases[(mode, transport)].checks)
  {
    if reading.Read? && (mode, transport) in cases && cases[(mode, transport)].checks.Some? {
      var checks := cases[(mode, transport)].checks.value;
      TallyIsClean(env, mode, transport, reading.identities, reading.errors, checks, "");
      var t := TallyChecks(env, mode, transport, Tally(reading.errors, reading.identities, {}), checks);
      if t.Tally? && t.errors == [] {
        ScenarioErrorsMean(env, mode, t.observed);
        ObservedIsCatalog(env, mode, transport, reading, checks);
      }
    }
  }

  lemma ObservedIsCatalog(env: Env, mode: string, transport: string, reading: Reading, checks: seq<Option<Check>>)
    requires reading.Read?
    ensures var t := TallyChecks(env, mode, transport, Tally(reading.errors, reading.identities, {}), checks);
            t.Tally? && t.errors == [] ==>
              (t.observed == Elements(env.catalog(mode)) <==>
                 forall scenario :: scenario in env.catalog(mode) <==> SomeObserves(transport, checks, scenario))
  {
    var t := TallyChecks(env, mode, transport, Tally(reading.errors, reading.identities, {}), checks);
    var catalog := env.catalog(mode);
    forall scenario ensures t.Tally? && t.errors == [] ==> (scenario in t.observed <==> SomeObserves(transport, checks, scenario)) {
      TallyIsClean(env, mode, transport, reading.identities, reading.errors, checks, scenario);
    }
    assert forall scenario :: scenario in Elements(catalog) <==> scenario in catalog;
  }

  ghost predicate GoodMode(env: Env, r: Report, cases: map<(string, string), Case>, mode: string) {
    && CatalogMatches(env, r, mode)
    && (mode, STDIO) in cases && GoodChecks(env, mode, STDIO, cases[(mode, STDIO)].checks)
    && (mode, HTTP) in cases && GoodChecks(env, mode, HTTP, cases[(mode, HTTP)].checks)
  }

  lemma ModeIsClean(env: Env, r: Report, cases: map<(string, string), Case>, reading: Reading, mode: string)
    ensures Clean(ModeStep(env, r, cases, reading, mode)) <==> Clean(reading) && GoodMode(env, r, cases, mode)
  {
    if reading.Read? {
      var begun := reading.(errors := reading.errors + When(!CatalogMatches(env, r, mode), IncompleteCatalog(mode)));
      TransportIsClean(env, cases, mode, STDIO, begun);
      TransportIsClean(env, cases, mode, HTTP, TransportStep(env, cases, mode, STDIO, begun));
    }
  }

  lemma {:induction false} ModesAreClean(env: Env, r: Report, cases: map<(string, string), Case>, errors: seq<Problem>, modes: seq<string>)
    ensures Clean(ReadModes(env, r, cases, Read(errors, map[]), modes)) <==>
              errors == [] && forall k :: 0 <= k < |modes| ==> GoodMode(env, r, cases, modes[k])
  {
    if modes != [] {
      var n := |modes| - 1;
      ModesAreClean(env, r, cases, errors, modes[..n]);
      ModeIsClean(env, r, cases, ReadModes(env, r, cases, Read(errors, map[]), modes[..n]), modes[n]);
      GoodModesSnoc(env, r, cases, modes, n);
    }
  }

  lemma GoodModesSnoc(env: Env, r: Report, cases: map<(string, string), Case>, modes: seq<string>, n: nat)
    requires |modes| == n + 1
    ensures (forall k :: 0 <= k < |modes| ==> GoodMode(env, r, cases, modes[k])) <==>
              (forall k :: 0 <= k < n ==> GoodMode(env, r, cases, modes[..n][k])) && GoodMode(env, r, cases, modes[n])
  {
    assert forall k :: 0 <= k < n ==> modes[..n][k] == modes[k];
  }

  predicate Required(given: Option<Case>) {
    given.Some? && OneOf(given.value.mode, MODES)
  }

  /** Every case is a case, and the required ones have a transport, no two the same. */
  ghost predicate GoodCases(cases: seq<Option<Case>>) {
    && (forall i :: 0 <= i < |cases| ==> cases[i].Some? && (Required(cases[i]) ==> cases[i].value.transport.Str?))
    && (forall i, j :: 0 <= i < j < |cases| && Required(cases[i]) && Required(cases[j]) ==>
          cases[i].value.mode != cases[j].value.mode || cases[i].value.transport != cases[j].value.transport)
  }

  lemma {:induction false} CollectingIsClean(errors: seq<Problem>, cases: seq<Option<Case>>)
    ensures CollectCases(CaseTable(errors, map[]), cases).errors == [] <==> errors == [] && GoodCases(cases)
  {
    if cases != [] {
      var n := |cases| - 1;
      CollectingIsClean(errors, cases[..n]);
      var before := CollectCases(CaseTable(errors, map[]), cases[..n]);
      if before.errors == [] && Required(cases[n]) && cases[n].value.transport.Str? {
        CollectCasesMeans(errors, cases[..n], cases[n].value.mode.s, cases[n].value.transport.s);
        RepeatedIffTaken(cases, cases[n].value.mode.s, cases[n].value.transport.s);
      }
      GoodCasesSnoc(cases);
    }
  }

  ghost predicate Taken(cases: seq<Option<Case>>, mode: string, transport: string) {
    exists i :: CaseAt(cases, i, mode, transport)
  }

  lemma GoodCasesSnoc(cases: seq<Option<Case>>)
    requires cases != []
    ensures var n := |cases| - 1;
            GoodCases(cases) <==>
              && GoodCases(cases[..n]) && cases[n].Some? && (Required(cases[n]) ==> cases[n].value.transport.Str?)
              && (forall i :: 0 <= i < n && Required(cases[i]) && Required(cases[n]) ==>
                    cases[i].value.mode != cases[n].value.mode || cases[i].value.transport != cases[n].value.transport)
  {
    var n := |cases| - 1;
    assert forall i :: 0 <= i < n ==> cases[..n][i] == cases[i];
  }

  lemma RepeatedIffTaken(cases: seq<Option<Case>>, mode: string, transport: string)
    requires cases != [] && mode in MODES && CaseAt(cases, |cases| - 1, mode, transport)
    ensures var n := |cases| - 1;
            Taken(cases[..n], mode, transport) <==>
              !(forall i :: 0 <= i < n && Required(cases[i]) ==> cases[i].value.mode != cases[n].value.mode || cases[i].value.transport != cases[n].value.transport)
  {
    var n := |cases| - 1;
    if i :| CaseAt(cases[..n], i, mode, transport) {
      assert Required(cases[i]);
    }
    if i :| 0 <= i < n && Required(cases[i]) && cases[i].value.mode == cases[n].value.mode && cases[i].value.transport == cases[n].value.transport {
      assert CaseAt(cases[..n], i, mode, transport);
    }
  }

  ghost predicate GoodCaseFor(env: Env, cases: seq<Option<Case>>, mode: string, transport: string) {
    exists i :: CaseAt(cases, i, mode, transport) && GoodChecks(env, mode, transport, cases[i].value.checks)
  }

  /** A full report that may be used: the right schema, tools and catalog, and for each required mode and transport one case
      whose checks are all well formed, those over official HTTP observing exactly the scenarios of the catalog. */
  ghost predicate ValidFull(env: Env, r: Report) {
    && GoodHeader(r) && r.cases.Some? && GoodCases(r.cases.value)
    && forall m :: m in MODES ==>
         && CatalogMatches(env, r, m)
         && GoodCaseFor(env, r.cases.value, m, STDIO) && GoodCaseFor(env, r.cases.value, m, HTTP)
  }

  lemma GoodModeMeans(env: Env, r: Report, cases: seq<Option<Case>>, errors: seq<Problem>, mode: string)
    requires mode in MODES && CollectCases(CaseTable(errors, map[]), cases).errors == []
    ensures GoodMode(env, r, CollectCases(CaseTable(errors, map[]), cases).cases, mode) <==>
              CatalogMatches(env, r, mode) && GoodCaseFor(env, cases, mode, STDIO) && GoodCaseFor(env, cases, mode, HTTP)
  {
    CollectCasesMeans(errors, cases, mode, STDIO);
    CollectCasesMeans(errors, cases, mode, HTTP);
  }

  /** A full report is read without problems if and only if it is valid. */
  lemma FullReportIsValid(env: Env, r: Report)
    ensures Clean(FullReading(env, r)) <==> ValidFull(env, r)
  {
    HeaderMeans(r);
    if r.cases.None? {
      ModesAreClean(env, r, map[], HeaderErrors(r) + [NoCases], MODES);
    } else {
      var cases := r.cases.value;
      var t := CollectCases(CaseTable(HeaderErrors(r), map[]), cases);
      CollectingIsClean(HeaderErrors(r), cases);
      ModesAreClean(env, r, t.cases, t.errors, MODES);
      if t.errors == [] {
        forall k | 0 <= k < |MODES|
          ensures GoodMode(env, r, t.cases, MODES[k]) <==>
                    CatalogMatches(env, r, MODES[k]) && GoodCaseFor(env, cases, MODES[k], STDIO) && GoodCaseFor(env, cases, MODES[k], HTTP)
        {
          GoodModeMeans(env, r, cases, HeaderErrors(r), MODES[k]);
        }
      }
    }
  }

  // ----- the compact form -----

  predicate GoodRecord(record: Option<Record>) {
    && record.Some? && OneOf(record.value.mode, MODES) && OneOf(record.value.transport, TRANSPORTS)
    && OneOf(record.value.source, SOURCES) && record.value.scenario.Str?
    && record.value.checkId.Str? && record.value.checkId.s != ""
  }

  lemma RecordMeans(record: Option<Record>)
    ensures RecordIdentity(record).One? <==> GoodRecord(record)
    ensures GoodRecord(record) ==> record == ToRecord(RecordIdentity(record).id)
  {
  }

  /** Every record is good, and no two are the same. */
  ghost predicate GoodRecords(records: seq<Option<Record>>) {
    && (forall j :: 0 <= j < |records| ==> GoodRecord(records[j]))
    && NoDuplicates(records)
  }

  lemma GoodRecordsSnoc(records: seq<Option<Record>>)
    requires records != []
    ensures var n := |records| - 1; GoodRecords(records) <==> GoodRecords(records[..n]) && GoodRecord(records[n]) && records[n] !in records[..n]
  {
    var n := |records| - 1;
    assert records == records[..n] + [records[n]];
    assert forall j :: 0 <= j < n ==> records[..n][j] == records[j];
    if records[n] in records[..n] {
      var j :| 0 <= j < n && records[..n][j] == records[n];
      assert records[j] == records[n];
    }
  }

  lemma ListsMeans(records: seq<Option<Record>>, record: Option<Record>)
    requires GoodRecord(record)
    ensures Lists(records, RecordIdentity(record).id) <==> record in records
  {
    RecordMeans(record);
    var id := RecordIdentity(record).id;
    RecordIs(record, id);
    if Lists(records, id) {
      var j :| 0 <= j < |records| && Records(records[j], id);
      RecordIs(records[j], id);
      RecordMeans(records[j]);
    }
  }

  lemma {:induction false} GatheringIsClean(status: Status, errors: seq<Problem>, ids: Statuses, records: seq<Option<Record>>)
    ensures var g := GatherRecords(status, Gathered(errors, {}, ids), records);
            && (g.Gathered? && g.errors == [] <==> errors == [] && GoodRecords(records))
            && (g.Gathered? && g.errors == [] ==> forall id :: id in g.seen <==> Lists(records, id))
  {
    if records != [] {
      var n := |records| - 1;
      GatheringIsClean(status, errors, ids, records[..n]);
      GoodRecordsSnoc(records);
      RecordMeans(records[n]);
      if GoodRecord(records[n]) {
        ListsMeans(records[..n], records[n]);
      }
      forall id ensures Lists(records, id) <==> Lists(records[..n], id) || RecordIdentity(records[n]) == One(id) {
        ListsSnoc(records, id);
      }
    }
  }

  lemma BucketsAreClean(errors: seq<Problem>, buckets: Buckets)
    ensures var g := GatherBuckets(errors, buckets);
            g.Gathered? && g.errors == [] <==>
              && errors == [] && buckets.passing.Some? && GoodRecords(buckets.passing.value)
              && buckets.failing.Some? && GoodRecords(buckets.failing.value)
  {
    var g1 := GatherBucket(Pass, Gathered(errors, {}, map[]), buckets.passing);
    if buckets.passing.Some? {
      GatheringIsClean(Pass, errors, map[], buckets.passing.value);
    }
    if g1.Gathered? && buckets.failing.Some? {
      GatheringIsClean(Fail, g1.errors, g1.identities, buckets.failing.value);
    }
  }

  /** Some record of either list is of this mode and transport. */
  ghost predicate ListsCase(buckets: Buckets, mode: string, transport: string) {
    exists id, status :: Holds(buckets, id, status) && id.mode == mode && id.transport == transport
  }

  ghost predicate ListsScenario(buckets: Buckets, mode: string, scenario: string) {
    exists id, status :: Holds(buckets, id, status) && id.mode == mode && Counts(id) && id.scenario == scenario
  }

  /** The lists cover the mode: its catalog is declared, both transports have records, and the observed scenarios are the catalog's. */
  ghost predicate ListsMode(env: Env, r: Report, buckets: Buckets, mode: string) {
    && CatalogMatches(env, r, mode) && ListsCase(buckets, mode, STDIO) && ListsCase(buckets, mode, HTTP)
    && forall scenario :: scenario in env.catalog(mode) <==> ListsScenario(buckets, mode, scenario)
  }

  /** A compact report that may be used: the right header, two lists of distinct good records, and in them every required mode,
      transport and scenario, and no other scenario. */
  ghost predicate ValidCompact(env: Env, r: Report) {
    && GoodHeader(r) && r.kind == Str(KIND) && r.requiredModes == List(Strings(MODES)) && TransportsMatch(r.transports)
    && r.checks.Some? && r.checks.value.passing.Some? && r.checks.value.failing.Some?
    && GoodRecords(r.checks.value.passing.value) && GoodRecords(r.checks.value.failing.value)
    && forall m :: m in MODES ==> ListsMode(env, r, r.checks.value, m)
  }

  /** What the lists hold is what was gathered. */
  lemma GatheredMeans(errors: seq<Problem>, buckets: Buckets, id: Identity)
    ensures var g := GatherBuckets(errors, buckets);
            g.Gathered? && g.errors == [] ==> (id in g.identities <==> exists status :: Holds(buckets, id, status))
  {
    BucketsMean(errors, buckets, id, Pass);
    BucketsMean(errors, buckets, id, Fail);
    BucketKeepsRan(Pass, Gathered(errors, {}, map[]), buckets.passing);
    BucketKeepsRan(Fail, GatherBucket(Pass, Gathered(errors, {}, map[]), buckets.passing), buckets.failing);
    var g := GatherBuckets(errors, buckets);
    if g.Gathered? && g.errors == [] && id in g.identities {
      assert Ran(g.identities, id);
      assert Holds(buckets, id, Pass) || Holds(buckets, id, Fail);
    }
  }

  lemma CoverageOfLists(env: Env, r: Report, errors: seq<Problem>, buckets: Buckets, mode: string)
    requires GatherBuckets(errors, buckets).Gathered? && GatherBuckets(errors, buckets).errors == []
    ensures CoverageErrors(env, r, GatherBuckets(errors, buckets).identities, mode) == [] <==> ListsMode(env, r, buckets, mode)
  {
    var ids := GatherBuckets(errors, buckets).identities;
    CoverageMeans(env, r, ids, mode);
    forall id ensures id in ids <==> exists status :: Holds(buckets, id, status) {
      GatheredMeans(errors, buckets, id);
    }
    ListedCaseIsPresent(ids, buckets, mode, STDIO);
    ListedCaseIsPresent(ids, buckets, mode, HTTP);
    forall scenario ensures scenario in Observed(ids, mode) <==> ListsScenario(buckets, mode, scenario) {
      ListedScenarioIsObserved(ids, buckets, mode, scenario);
    }
    var catalog := env.catalog(mode);
    assert forall scenario :: scenario in Elements(catalog) <==> scenario in catalog;
  }

  lemma ListedCaseIsPresent(ids: Statuses, buckets: Buckets, mode: string, transport: string)
    requires forall id :: id in ids <==> exists status :: Holds(buckets, id, status)
    ensures Present(ids, mode, transport) <==> ListsCase(buckets, mode, transport)
  {
    if Present(ids, mode, transport) {
      var id :| id in ids && id.mode == mode && id.transport == transport;
      var status :| Holds(buckets, id, status);
    }
    if ListsCase(buckets, mode, transport) {
      var id, status :| Holds(buckets, id, status) && id.mode == mode && id.transport == transport;
      assert id in ids;
    }
  }

  lemma ListedScenarioIsObserved(ids: Statuses, buckets: Buckets, mode: string, scenario: string)
    requires forall id :: id in ids <==> exists status :: Holds(buckets, id, status)
    ensures scenario in Observed(ids, mode) <==> ListsScenario(buckets, mode, scenario)
  {
    if scenario in Observed(ids, mode) {
      var id :| id in ids && id.mode == mode && Counts(id) && id.scenario == scenario;
      var status :| Holds(buckets, id, status);
    }
    if ListsScenario(buckets, mode, scenario) {
      var id, status :| Holds(buckets, id, status) && id.mode == mode && Counts(id) && id.scenario == scenario;
      assert id in ids;
    }
  }

  lemma CompactHeaderMeans(r: Report)
    ensures CompactHeaderErrors(r) == [] <==> GoodHeader(r) && r.requiredModes == List(Strings(MODES)) && TransportsMatch(r.transports)
    ensures TransportsMatch(r.transports) ==> !TransportsRaise(r.transports)
  {
    HeaderMeans(r);
  }

  lemma CoverageIsClean(env: Env, r: Report, errors: seq<Problem>, buckets: Buckets, modes: seq<string>)
    ensures var g := GatherBuckets(errors, buckets);
            Clean(CoverModes(env, r, g, modes)) <==> g.Gathered? && g.errors == [] && forall m :: m in modes ==> ListsMode(env, r, buckets, m)
  {
    var g := GatherBuckets(errors, buckets);
    if g.Gathered? {
      CoverModesMeans(env, r, g, modes);
      if g.errors == [] {
        forall m | m in modes ensures Coverage(env, r, g.identities)(m) == [] <==> ListsMode(env, r, buckets, m) {
          CoverageOfLists(env, r, errors, buckets, m);
        }
      }
    }
  }

  /** A report with a baseline kind is read without problems if and only if it is a valid compact report. */
  lemma CompactReportIsValid(env: Env, r: Report)
    ensures Clean(CompactReading(env, r)) <==> ValidCompact(env, r)
  {
    CompactHeaderMeans(r);
    if r.checks.Some? {
      BucketsAreClean(CompactHeaderErrors(r), r.checks.value);
      CoverageIsClean(env, r, CompactHeaderErrors(r), r.checks.value, MODES);
    }
  }
}
