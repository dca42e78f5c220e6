/** A run that skipped everything: its report compacts, and the compact form is refused as a baseline. */
module ComplianceSkips {
  import opened Common
  import opened PyValues
  import opened ComplianceReport
  import opened ComplianceReader
  import opened ComplianceChecks
  import opened ComplianceFacts
  import opened ComplianceBaseline
  import opened ComplianceValidity

  /** Scenario catalogs as the harness has them: each required mode has scenarios, and each of them a name. */
  ghost predicate Catalogued(env: Env) {
    forall m :: m in MODES ==> env.catalog(m) != [] && forall i :: 0 <= i < |env.catalog(m)| ==> env.catalog(m)[i] != ""
  }

  function SkippedCheck(scenario: Value, name: string): Option<Check> {
    Some(Check(Str(OFFICIAL), scenario, Str(name), Null, Str("SKIP"), Bool(true)))
  }

  /** Over official HTTP one skipped check for each scenario of the catalog, over stdio a single one. */
  function SkippedChecks(env: Env, mode: string, transport: string, name: string): seq<Option<Check>> {
    if transport == HTTP then
      var catalog := env.catalog(mode);
      seq(|catalog|, i requires 0 <= i < |catalog| => SkippedCheck(Str(catalog[i]), name))
    else [SkippedCheck(Null, name)]
  }

  function SkippedCase(env: Env, mode: string, transport: string, name: string): Option<Case> {
    Some(Case(Str(mode), Str(transport), Some(SkippedChecks(env, mode, transport, name))))
  }

  /** One case for each required mode and transport. */
  function SkippedCases(env: Env, name: string): seq<Option<Case>> {
    [SkippedCase(env, MODES[0], STDIO, name), SkippedCase(env, MODES[0], HTTP, name),
     SkippedCase(env, MODES[1], STDIO, name), SkippedCase(env, MODES[1], HTTP, name),
     SkippedCase(env, MODES[2], STDIO, name), SkippedCase(env, MODES[2], HTTP, name)]
  }

  function SkippedReport(env: Env, name: string, auth: bool): Report {
    Report(
      schemaVersion := Int(SCHEMA),
      versionCheck := Some(Bool(true)),
      modern := Bool(true),
      official := Some(Official(Str(REPOSITORY), Str(GIT_REF), Bool(true), Some(map m | m in MODES :: List(Strings(env.catalog(m)))))),
      auth := Bool(auth),
      kind := Null,
      requiredModes := Null,
      transports := Null,
      checks := None,
      cases := Some(SkippedCases(env, name)))
  }

  // ----- the report is valid -----

  lemma SkippedChecksAreGood(env: Env, mode: string, transport: string, name: string)
    requires Catalogued(env) && mode in MODES && name != ""
    ensures GoodChecks(env, mode, transport, Some(SkippedChecks(env, mode, transport, name)))
  {
    var checks := SkippedChecks(env, mode, transport, name);
    assert OFFICIAL == SOURCES[0];
    if transport == HTTP {
      var catalog := env.catalog(mode);
      forall scenario ensures scenario in catalog <==> SomeObserves(transport, checks, scenario) {
        if scenario in catalog {
          var i :| 0 <= i < |catalog| && catalog[i] == scenario;
          assert Observes(transport, checks[i], scenario);
        }
        if j :| 0 <= j < |checks| && Observes(transport, checks[j], scenario) {
          assert catalog[j] == scenario;
        }
      }
    }
  }

  lemma ModesDiffer()
    ensures MODES[0] != MODES[1] && MODES[0] != MODES[2] && MODES[1] != MODES[2]
  {
    assert MODES[0][3] == '5' && MODES[1][3] == '5' && MODES[2][3] == '6';
    assert MODES[0][5] == '0' && MODES[1][5] == '1';
  }

  lemma SkippedCasesAreGood(env: Env, name: string)
    ensures GoodCases(SkippedCases(env, name))
  {
    ModesDiffer();
    TransportsDiffer();
  }

  lemma SkippedCaseAt(env: Env, name: string, mode: string, transport: string) returns (i: int)
    requires mode in MODES && transport in TRANSPORTS
    ensures 0 <= i < 6 && SkippedCases(env, name)[i] == SkippedCase(env, mode, transport, name) && CaseAt(SkippedCases(env, name), i, mode, transport)
  {
    var k :| 0 <= k < |MODES| && MODES[k] == mode;
    i := if transport == STDIO then 2 * k else 2 * k + 1;
  }

  lemma SkippedCaseIsGood(env: Env, name: string, mode: string, transport: string)
    requires Catalogued(env) && mode in MODES && transport in TRANSPORTS && name != ""
    ensures GoodCaseFor(env, SkippedCases(env, name), mode, transport)
  {
    var i := SkippedCaseAt(env, name, mode, transport);
    SkippedChecksAreGood(env, mode, transport, name);
  }

  lemma SkippedReportIsValid(env: Env, name: string, auth: bool)
    requires Catalogued(env) && name != ""
    ensures Clean(FullReading(env, SkippedReport(env, name, auth)))
  {
    var r := SkippedReport(env, name, auth);
    SkippedCasesAreGood(env, name);
    TransportsDiffer();
    forall m | m in MODES
      ensures CatalogMatches(env, r, m) && GoodCaseFor(env, r.cases.value, m, STDIO) && GoodCaseFor(env, r.cases.value, m, HTTP)
    {
      SkippedCaseIsGood(env, name, m, STDIO);
      SkippedCaseIsGood(env, name, m, HTTP);
    }
    FullReportIsValid(env, r);
  }

  // ----- nothing in it ran -----

  ghost predicate OnlySkips(ids: Statuses) {
    forall id, status :: Has(ids, id, status) ==> status == Skip
  }

  lemma SkippedJudgement(env: Env, mode: string, transport: string, check: Option<Check>)
    requires check.Some? && check.value.status == Str("SKIP")
    ensures var j := Judge(env, mode, transport, check); j.Good? ==> j.status == Skip
  {
    assert "SKIP"[0] == 'S' && "PASS"[0] == 'P' && "FAIL"[0] == 'F';
  }

  lemma SkippedCasesSaySkip(env: Env, name: string, id: Identity, status: Status)
    requires Reports(env, SkippedCases(env, name), id, status)
    ensures status == Skip
  {
    var cases := SkippedCases(env, name);
    var i :| CaseAt(cases, i, id.mode, id.transport) && cases[i].value.checks.Some?
             && Says(env, id.mode, id.transport, cases[i].value.checks.value, id, status);
    var checks := cases[i].value.checks.value;
    var j :| 0 <= j < |checks| && Attests(env, checks[j], id, status);
    JudgeIs(env, id.mode, id.transport, checks[j], id, status);
    assert checks[j].value.status == Str("SKIP");
    SkippedJudgement(env, id.mode, id.transport, checks[j]);
  }

  lemma SkipsDoNotRun(ids: Statuses)
    requires OnlySkips(ids)
    ensures !ShippingFails(ids) && forall id :: !Ran(ids, id)
  {
    forall id | id in ids ensures Fail !in ids[id] {
      assert !Has(ids, id, Fail);
    }
  }

  /** Whatever the scenario catalogs, a report in which each scenario was observed by a skipped check, and nothing else ran, is
      valid and compacts, but its compact form holds nothing and is not read without problems. */
  lemma SkippedRunIsRefused(env: Env, name: string, auth: bool)
    requires Catalogued(env) && name != ""
    ensures var compacted := Compact(env, SkippedReport(env, name, auth));
            && compacted.Compacted?
            && ReadReport(env, compacted.report).Read? && ReadReport(env, compacted.report).errors != []
  {
    var r := SkippedReport(env, name, auth);
    SkippedReportIsValid(env, name, auth);
    var ids := ReadReport(env, r).identities;
    forall id, status | Has(ids, id, status) ensures status == Skip {
      FullReadingMeans(env, r, id, status);
      SkippedCasesSaySkip(env, name, id, status);
    }
    SkipsDoNotRun(ids);
    CompactReadsBack(env, r);
    assert !RanCase(ids, MODES[0], STDIO);
  }
}
