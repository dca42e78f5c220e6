/** What a reading means: which checks of the report it holds, and what every reading without problems satisfies. */
module ComplianceFacts {
  import opened Common
  import opened PyValues
  import opened Sorting
  import opened ComplianceReport
  import opened ComplianceReader
  import opened ComplianceChecks

  predicate Has(ids: Statuses, id: Identity, status: Status) {
    id in ids && status in ids[id]
  }

  predicate WellFormed(id: Identity) {
    id.mode in MODES && id.transport in TRANSPORTS && id.source in SOURCES && id.checkId != ""
  }

  /** Every identity is well formed, and those that count as scenario observations are of a scenario of the catalog. */
  ghost predicate Fits(env: Env, ids: Statuses) {
    forall id, status :: Has(ids, id, status) ==> WellFormed(id) && (Counts(id) ==> id.scenario in env.catalog(id.mode))
  }

  lemma ScenarioErrorsMean(env: Env, mode: string, observed: set<string>)
    ensures ScenarioErrors(env, mode, observed) == [] <==> observed == Elements(env.catalog(mode))
  {
    var expected := Elements(env.catalog(mode));
    assert expected - observed == {} && observed - expected == {} <==> observed == expected;
  }

  // ----- the full form -----

  /** One of the checks of the case says that the check `id` of that case had the status. */
  ghost predicate Says(env: Env, mode: string, transport: string, checks: seq<Option<Check>>, id: Identity, status: Status) {
    id.mode == mode && id.transport == transport && exists j :: 0 <= j < |checks| && Attests(env, checks[j], id, status)
  }

  lemma SaysSnoc(env: Env, mode: string, transport: string, checks: seq<Option<Check>>, id: Identity, status: Status)
    requires checks != []
    ensures var n := |checks| - 1;
            Says(env, mode, transport, checks, id, status) <==>
              Says(env, mode, transport, checks[..n], id, status) || Judge(env, mode, transport, checks[n]) == Good(id, status)
  {
    var n := |checks| - 1;
    JudgeIs(env, mode, transport, checks[n], id, status);
    if j :| 0 <= j < n && Attests(env, checks[..n][j], id, status) {
      assert checks[j] == checks[..n][j];
    }
    if j :| 0 <= j < n && Attests(env, checks[j], id, status) {
      assert checks[j] == checks[..n][j];
    }
  }

  lemma {:induction false} StableNameNotEmpty(env: Env, name: string)
    requires name != ""
    ensures StableName(env, name) != ""
  {
  }

  lemma JudgeFits(env: Env, mode: string, transport: string, check: Option<Check>)
    requires mode in MODES && transport in TRANSPORTS
    ensures var j := Judge(env, mode, transport, check);
            j.Good? ==> WellFormed(j.id) && j.id.mode == mode && j.id.transport == transport
  {
    if check.Some? && check.value.name.Str? && check.value.name.s != "" {
      StableNameNotEmpty(env, check.value.name.s);
    }
  }

  /** One more check adds exactly what it says. */
  lemma CheckStepMeans(env: Env, mode: string, transport: string, t: Tally, check: Option<Check>, id: Identity, status: Status)
    ensures var t' := CheckStep(env, mode, transport, t, check);
            t'.Tally? ==>
              && t.Tally? && t.errors <= t'.errors && t.observed <= t'.observed
              && (Has(t'.identities, id, status) <==> Has(t.identities, id, status) || Judge(env, mode, transport, check) == Good(id, status))
              && (Counts(id) && Judge(env, mode, transport, check) == Good(id, status) ==> id.scenario in t'.observed)
  {
  }

  lemma {:induction false} TallyMeans(env: Env, mode: string, transport: string, t: Tally, checks: seq<Option<Check>>, id: Identity, status: Status)
    ensures var t' := TallyChecks(env, mode, transport, t, checks);
            t'.Tally? ==>
              && t.Tally? && t.errors <= t'.errors
              && (Has(t'.identities, id, status) <==> Has(t.identities, id, status) || Says(env, mode, transport, checks, id, status))
              && (Counts(id) && Says(env, mode, transport, checks, id, status) ==> id.scenario in t'.observed)
  {
    if checks != [] {
      var n := |checks| - 1;
      var before := TallyChecks(env, mode, transport, t, checks[..n]);
      TallyMeans(env, mode, transport, t, checks[..n], id, status);
      SaysSnoc(env, mode, transport, checks, id, status);
      CheckStepMeans(env, mode, transport, before, checks[n], id, status);
    }
  }

  ghost predicate CaseSays(env: Env, cases: map<(string, string), Case>, mode: string, transport: string, id: Identity, status: Status) {
    && (mode, transport) in cases
    && cases[(mode, transport)].checks.Some?
    && Says(env, mode, transport, cases[(mode, transport)].checks.value, id, status)
  }

  /** A transport case that is read without problems adds exactly what its checks say. */
  lemma TransportStepMeans(env: Env, cases: map<(string, string), Case>, mode: string, transport: string, reading: Reading, id: Identity, status: Status)
    ensures var reading' := TransportStep(env, cases, mode, transport, reading);
            reading'.Read? && reading'.errors == [] ==>
              && reading.Read? && reading.errors == []
              && (Has(reading'.identities, id, status) <==> Has(reading.identities, id, status) || CaseSays(env, cases, mode, transport, id, status))
              && (transport == HTTP && CaseSays(env, cases, mode, transport, id, status) && Counts(id) ==> id.scenario in env.catalog(mode))
  {
    if reading.Read? && (mode, transport) in cases {
      var checks := cases[(mode, transport)].checks;
      if checks.Some? {
        var t := Tally(reading.errors, reading.identities, {});
        TallyMeans(env, mode, transport, t, checks.value, id, status);
        var t' := TallyChecks(env, mode, transport, t, checks.value);
        if t'.Tally? {
          ScenarioErrorsMean(env, mode, t'.observed);
        }
      }
    }
  }

  ghost predicate ModeSays(env: Env, cases: map<(string, string), Case>, mode: string, id: Identity, status: Status) {
    CaseSays(env, cases, mode, STDIO, id, status) || CaseSays(env, cases, mode, HTTP, id, status)
  }

  lemma SaysItself(env: Env, cases: map<(string, string), Case>, mode: string, transport: string, id: Identity, status: Status)
    requires mode in MODES && transport in TRANSPORTS
    ensures CaseSays(env, cases, mode, transport, id, status) ==> WellFormed(id) && id.mode == mode && id.transport == transport
  {
    if CaseSays(env, cases, mode, transport, id, status) {
      var checks := cases[(mode, transport)].checks.value;
      var j :| 0 <= j < |checks| && Attests(env, checks[j], id, status);
      JudgeIs(env, mode, transport, checks[j], id, status);
      JudgeFits(env, mode, transport, checks[j]);
    }
  }

  lemma TransportsDiffer()
    ensures STDIO in TRANSPORTS && HTTP in TRANSPORTS && STDIO != HTTP
  {
    assert |STDIO| != |HTTP|;
    assert TRANSPORTS[0] == STDIO && TRANSPORTS[1] == HTTP;
  }

  lemma ModeStepMeans(env: Env, r: Report, cases: map<(string, string), Case>, reading: Reading, mode: string, id: Identity, status: Status)
    requires mode in MODES
    ensures var reading' := ModeStep(env, r, cases, reading, mode);
            reading'.Read? && reading'.errors == [] ==>
              && reading.Read? && reading.errors == [] && CatalogMatches(env, r, mode)
              && (Has(reading'.identities, id, status) <==> Has(reading.identities, id, status) || ModeSays(env, cases, mode, id, status))
              && (ModeSays(env, cases, mode, id, status) ==> WellFormed(id) && id.mode == mode && (Counts(id) ==> id.scenario in env.catalog(mode)))
  {
    if reading.Read? {
      var begun := reading.(errors := reading.errors + When(!CatalogMatches(env, r, mode), IncompleteCatalog(mode)));
      TransportStepMeans(env, cases, mode, STDIO, begun, id, status);
      TransportStepMeans(env, cases, mode, HTTP, TransportStep(env, cases, mode, STDIO, begun), id, status);
      TransportsDiffer();
      SaysItself(env, cases, mode, STDIO, id, status);
      SaysItself(env, cases, mode, HTTP, id, status);
    }
  }

  ghost predicate SomeModeSays(env: Env, cases: map<(string, string), Case>, modes: seq<string>, id: Identity, status: Status) {
    exists k :: 0 <= k < |modes| && ModeSays(env, cases, modes[k], id, status)
  }

  lemma SomeModeSnoc(env: Env, cases: map<(string, string), Case>, modes: seq<string>, id: Identity, status: Status)
    requires modes != []
    ensures var n := |modes| - 1;
            SomeModeSays(env, cases, modes, id, status) <==>
              SomeModeSays(env, cases, modes[..n], id, status) || ModeSays(env, cases, modes[n], id, status)
  {
    var n := |modes| - 1;
    if SomeModeSays(env, cases, modes[..n], id, status) {
      var k :| 0 <= k < n && ModeSays(env, cases, modes[..n][k], id, status);
      assert modes[k] == modes[..n][k];
    }
    if SomeModeSays(env, cases, modes, id, status) {
      var k :| 0 <= k < |modes| && ModeSays(env, cases, modes[k], id, status);
      if k < n {
        assert modes[k] == modes[..n][k];
      }
    }
  }

  lemma {:induction false} ReadModesMeans(env: Env, r: Report, cases: map<(string, string), Case>, modes: seq<string>, errors: seq<Problem>, id: Identity, status: Status)
    requires forall m :: m in modes ==> m in MODES
    ensures var reading := ReadModes(env, r, cases, Read(errors, map[]), modes);
            reading.Read? && reading.errors == [] ==>
              && errors == []
              && (Has(reading.identities, id, status) <==> SomeModeSays(env, cases, modes, id, status))
              && (Has(reading.identities, id, status) ==> WellFormed(id) && (Counts(id) ==> id.scenario in env.catalog(id.mode)))
  {
    if modes != [] {
      var n := |modes| - 1;
      ReadModesMeans(env, r, cases, modes[..n], errors, id, status);
      assert modes == modes[..n] + [modes[n]];
      SomeModeSnoc(env, cases, modes, id, status);
      ModeStepMeans(env, r, cases, ReadModes(env, r, cases, Read(errors, map[]), modes[..n]), modes[n], id, status);
    }
  }

  lemma {:induction false} ReadModesMatches(env: Env, r: Report, cases: map<(string, string), Case>, modes: seq<string>, errors: seq<Problem>, k: nat)
    requires k < |modes| && forall m :: m in modes ==> m in MODES
    ensures var reading := ReadModes(env, r, cases, Read(errors, map[]), modes);
            reading.Read? && reading.errors == [] ==> CatalogMatches(env, r, modes[k])
  {
    var n := |modes| - 1;
    assert modes == modes[..n] + [modes[n]];
    ModeStepMeans(env, r, cases, ReadModes(env, r, cases, Read(errors, map[]), modes[..n]), modes[n], Identity("", "", "", "", ""), Pass);
    if k < n {
      ReadModesMatches(env, r, cases, modes[..n], errors, k);
    }
  }

  predicate CaseAt(cases: seq<Option<Case>>, i: int, mode: string, transport: string) {
    0 <= i < |cases| && cases[i].Some? && cases[i].value.mode == Str(mode) && cases[i].value.transport == Str(transport)
  }

  /** Without problems, the table of cases holds every case of a required mode. */
  lemma {:induction false} CollectCasesMeans(errors: seq<Problem>, cases: seq<Option<Case>>, mode: string, transport: string)
    requires mode in MODES
    ensures var t := CollectCases(CaseTable(errors, map[]), cases);
            t.errors == [] ==>
              && errors == []
              && ((mode, transport) in t.cases <==> exists i :: CaseAt(cases, i, mode, transport))
              && (forall i :: CaseAt(cases, i, mode, transport) ==> (mode, transport) in t.cases && t.cases[(mode, transport)] == cases[i].value)
  {
    if cases != [] {
      var n := |cases| - 1;
      CollectCasesMeans(errors, cases[..n], mode, transport);
      forall i ensures CaseAt(cases, i, mode, transport) <==> CaseAt(cases[..n], i, mode, transport) || (i == n && CaseAt(cases, n, mode, transport)) {
      }
      if i :| CaseAt(cases[..n], i, mode, transport) {
        assert CaseAt(cases, i, mode, transport);
      } else if (mode, transport) in CollectCases(CaseTable(errors, map[]), cases).cases && CollectCases(CaseTable(errors, map[]), cases).errors == [] {
        assert CaseAt(cases, n, mode, transport);
      }
    }
  }

  /** The report holds, in the case for this mode and transport, a well-formed check with this identity and status. */
  ghost predicate Reports(env: Env, cases: seq<Option<Case>>, id: Identity, status: Status) {
    && id.mode in MODES && id.transport in TRANSPORTS
    && exists i :: CaseAt(cases, i, id.mode, id.transport) && cases[i].value.checks.Some?
                   && Says(env, id.mode, id.transport, cases[i].value.checks.value, id, status)
  }

  lemma ModesSayItself(env: Env, cases: map<(string, string), Case>, id: Identity, status: Status)
    ensures SomeModeSays(env, cases, MODES, id, status) <==>
              id.mode in MODES && id.transport in TRANSPORTS && CaseSays(env, cases, id.mode, id.transport, id, status)
  {
    TransportsDiffer();
    forall k | 0 <= k < |MODES|
      ensures ModeSays(env, cases, MODES[k], id, status) ==> id.mode == MODES[k] && CaseSays(env, cases, id.mode, id.transport, id, status)
    {
      SaysItself(env, cases, MODES[k], STDIO, id, status);
      SaysItself(env, cases, MODES[k], HTTP, id, status);
    }
    if id.mode in MODES && id.transport in TRANSPORTS && CaseSays(env, cases, id.mode, id.transport, id, status) {
      var k :| 0 <= k < |MODES| && MODES[k] == id.mode;
      assert ModeSays(env, cases, MODES[k], id, status);
    }
  }

  /** A full report that is read without problems yields exactly the statuses its checks report. */
  lemma FullReadingMeans(env: Env, r: Report, id: Identity, status: Status)
    ensures var reading := FullReading(env, r);
            reading.Read? && reading.errors == [] ==>
              && r.cases.Some?
              && (Has(reading.identities, id, status) <==> Reports(env, r.cases.value, id, status))
              && (Has(reading.identities, id, status) ==> WellFormed(id) && (Counts(id) ==> id.scenario in env.catalog(id.mode)))
  {
    var table := match r.cases
                 case None => CaseTable(HeaderErrors(r) + [NoCases], map[])
                 case Some(cases) => CollectCases(CaseTable(HeaderErrors(r), map[]), cases);
    ReadModesMeans(env, r, table.cases, MODES, table.errors, id, status);
    ModesSayItself(env, table.cases, id, status);
    if r.cases.Some? && id.mode in MODES {
      CollectCasesMeans(HeaderErrors(r), r.cases.value, id.mode, id.transport);
    }
  }

  lemma FullReadingMatches(env: Env, r: Report)
    ensures var reading := FullReading(env, r);
            reading.Read? && reading.errors == [] ==> forall m :: m in MODES ==> CatalogMatches(env, r, m)
  {
    var table := match r.cases
                 case None => CaseTable(HeaderErrors(r) + [NoCases], map[])
                 case Some(cases) => CollectCases(CaseTable(HeaderErrors(r), map[]), cases);
    forall k: nat | k < |MODES|
      ensures var reading := FullReading(env, r); reading.Read? && reading.errors == [] ==> CatalogMatches(env, r, MODES[k])
    {
      ReadModesMatches(env, r, table.cases, MODES, table.errors, k);
    }
  }

  // ----- the compact form -----

  /** One of the records names the check. */
  ghost predicate Lists(records: seq<Option<Record>>, id: Identity) {
    exists j :: 0 <= j < |records| && Records(records[j], id)
  }

  lemma ListsSnoc(records: seq<Option<Record>>, id: Identity)
    requires records != []
    ensures var n := |records| - 1; Lists(records, id) <==> Lists(records[..n], id) || RecordIdentity(records[n]) == One(id)
  {
    var n := |records| - 1;
    RecordIs(records[n], id);
    if j :| 0 <= j < n && Records(records[..n][j], id) {
      assert records[j] == records[..n][j];
    }
    if j :| 0 <= j < n && Records(records[j], id) {
      assert records[j] == records[..n][j];
    }
  }

  lemma {:induction false} GatherMeans(status: Status, g: Gathered, records: seq<Option<Record>>, id: Identity, s: Status)
    ensures var g' := GatherRecords(status, g, records);
            g'.Gathered? && g'.errors == [] ==>
              && g.Gathered? && g.errors == []
              && (Has(g'.identities, id, s) <==> Has(g.identities, id, s) || (s == status && Lists(records, id)))
  {
    if records != [] {
      var n := |records| - 1;
      GatherMeans(status, g, records[..n], id, s);
      ListsSnoc(records, id);
    }
  }

  ghost predicate Holds(buckets: Buckets, id: Identity, status: Status) {
    || (status.Pass? && buckets.passing.Some? && Lists(buckets.passing.value, id))
    || (status.Fail? && buckets.failing.Some? && Lists(buckets.failing.value, id))
  }

  lemma BucketsMean(errors: seq<Problem>, buckets: Buckets, id: Identity, status: Status)
    ensures var g := GatherBuckets(errors, buckets);
            g.Gathered? && g.errors == [] ==>
              && errors == [] && buckets.passing.Some? && buckets.failing.Some?
              && (Has(g.identities, id, status) <==> Holds(buckets, id, status))
  {
    var g0 := Gathered(errors, {}, map[]);
    var g1 := GatherBucket(Pass, g0, buckets.passing);
    if buckets.passing.Some? {
      GatherMeans(Pass, g0, buckets.passing.value, id, status);
    }
    if buckets.failing.Some? && g1.Gathered? {
      GatherMeans(Fail, g1.(seen := {}), buckets.failing.value, id, status);
    }
  }

  lemma CoverageMeans(env: Env, r: Report, ids: Statuses, mode: string)
    ensures CoverageErrors(env, r, ids, mode) == [] <==>
              && CatalogMatches(env, r, mode) && Present(ids, mode, STDIO) && Present(ids, mode, HTTP)
              && Observed(ids, mode) == Elements(env.catalog(mode))
  {
    ScenarioErrorsMean(env, mode, Observed(ids, mode));
  }

  lemma {:induction false} ConcatEmpty(f: string -> seq<Problem>, modes: seq<string>)
    ensures Concat(f, modes) == [] <==> forall m :: m in modes ==> f(m) == []
  {
    if modes != [] {
      var n := |modes| - 1;
      ConcatEmpty(f, modes[..n]);
      assert modes == modes[..n] + [modes[n]];
    }
  }

  lemma RecordFits(record: Option<Record>)
    ensures RecordIdentity(record).One? ==> WellFormed(RecordIdentity(record).id)
  {
  }

  lemma CoverModesMeans(env: Env, r: Report, g: Gathered, modes: seq<string>)
    requires g.Gathered?
    ensures CoverModes(env, r, g, modes).errors == [] <==> g.errors == [] && forall m :: m in modes ==> Coverage(env, r, g.identities)(m) == []
  {
    ConcatEmpty(Coverage(env, r, g.identities), modes);
  }

  /** A compact report that is read without problems covers every mode, transport and scenario. */
  lemma CompactReadingCovers(env: Env, r: Report, mode: string)
    requires mode in MODES
    ensures var reading := CompactReading(env, r);
            reading.Read? && reading.errors == [] ==> CoverageErrors(env, r, reading.identities, mode) == []
  {
    if r.checks.Some? {
      var g := GatherBuckets(CompactHeaderErrors(r), r.checks.value);
      if g.Gathered? {
        CoverModesMeans(env, r, g, MODES);
        assert Coverage(env, r, g.identities)(mode) == CoverageErrors(env, r, g.identities, mode);
      }
    }
  }

  /** A compact report that is read without problems yields exactly the statuses of its two lists. */
  lemma CompactReadingMeans(env: Env, r: Report, id: Identity, status: Status)
    ensures var reading := CompactReading(env, r);
            reading.Read? && reading.errors == [] ==>
              r.checks.Some? && (Has(reading.identities, id, status) <==> Holds(r.checks.value, id, status))
  {
    if r.checks.Some? {
      BucketsMean(CompactHeaderErrors(r), r.checks.value, id, status);
    }
  }

  lemma HeldFits(buckets: Buckets, id: Identity, status: Status)
    ensures Holds(buckets, id, status) ==> WellFormed(id)
  {
    if Holds(buckets, id, status) {
      var records := if status.Pass? then buckets.passing.value else buckets.failing.value;
      var j :| 0 <= j < |records| && Records(records[j], id);
      RecordIs(records[j], id);
      RecordFits(records[j]);
    }
  }

  // ----- both forms -----

  /** Any report that is read without problems has well-formed identities, within the catalog it declares. */
  lemma ReadingFits(env: Env, r: Report)
    ensures var reading := ReadReport(env, r);
            reading.Read? && reading.errors == [] ==> Fits(env, reading.identities) && forall m :: m in MODES ==> CatalogMatches(env, r, m)
  {
    var reading := ReadReport(env, r);
    if reading.Read? && reading.errors == [] {
      forall id, status | Has(reading.identities, id, status)
        ensures WellFormed(id) && (Counts(id) ==> id.scenario in env.catalog(id.mode))
      {
        if r.kind == Null {
          FullReadingMeans(env, r, id, status);
        } else {
          CompactReadingMeans(env, r, id, status);
          HeldFits(r.checks.value, id, status);
          CompactReadingCovers(env, r, id.mode);
          CoverageMeans(env, r, reading.identities, id.mode);
          assert Counts(id) ==> id.scenario in Observed(reading.identities, id.mode);
        }
      }
      ReadingMatchesCatalog(env, r);
    }
  }

  lemma ReadingMatchesCatalog(env: Env, r: Report)
    ensures var reading := ReadReport(env, r);
            reading.Read? && reading.errors == [] ==> forall m :: m in MODES ==> CatalogMatches(env, r, m)
  {
    if r.kind == Null {
      FullReadingMatches(env, r);
    } else {
      forall m | m in MODES
        ensures var reading := CompactReading(env, r); reading.Read? && reading.errors == [] ==> CatalogMatches(env, r, m)
      {
        CompactReadingCovers(env, r, m);
        var reading := CompactReading(env, r);
        if reading.Read? {
          CoverageMeans(env, r, reading.identities, m);
        }
      }
    }
  }
}
