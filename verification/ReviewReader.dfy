/**
 The validator of review reports. The full and the compact form read into the same thing: the problems
 found, the cases observed, and for each check whether it succeeded. The set of required cases is a parameter.
 */
module ReviewReader {
  import opened Common
  import opened PyValues

  const SCHEMA := 1
  const KIND := "mcp-review-regression-baseline-v1"
  const REVIEWER := "codex-mcp-regression-suite"
  const MODES: seq<string> := ["2025-06-18", "2025-11-25", "2026-07-28"]
  const PREFIX := "review/"

  type Pair = (string, string)

  datatype Identity = Identity(mode: string, transport: string, checkId: string)

  type Results = map<Identity, bool>

  datatype Check = Check(name: Value, success: Value)

  datatype Case = Case(mode: Value, transport: Value, checks: Option<seq<Option<Check>>>, success: Value)

  datatype CaseName = CaseName(mode: Value, transport: Value)

  datatype Record = Record(mode: Value, transport: Value, checkId: Value)

  datatype Buckets = Buckets(passing: Option<seq<Option<Record>>>, failing: Option<seq<Option<Record>>>)

  datatype Summary = Summary(passed: Value, failed: Value, total: Value, casesPassed: Value, casesTotal: Value)

  datatype Report = Report(
    schemaVersion: Value,
    reviewer: Value,
    kind: Value,
    modes: Value,
    requiredModes: Value,
    requiredCases: Option<seq<Option<CaseName>>>,
    checks: Option<Buckets>,
    cases: Option<seq<Option<Case>>>,
    summary: Option<Summary>,
    success: Value)

  datatype Problem =
    | WrongSchema | WrongReviewer | WrongModes | UnsupportedKind
    | NoRequiredCases | BadCase | RepeatedCase | NoCheckIdentities
    | NoBucket(bucket: bool) | BadRecord(bucket: bool) | RepeatedCheck
    | NoCases | UnexpectedCase | NoChecks(mode: string, transport: string) | BadCheck | InconsistentCase(mode: string, transport: string)
    | MissingCases(cases: set<Pair>) | UnexpectedCases(cases: set<Pair>)
    | InconsistentTotals | InconsistentSuccess

  datatype Reading = Read(errors: seq<Problem>, observed: set<Pair>, results: Results)

  function When(bad: bool, problem: Problem): seq<Problem> {
    if bad then [problem] else []
  }

  predicate Compact(r: Report) {
    !r.kind.Null?
  }

  function HeaderErrors(r: Report): seq<Problem> {
    When(!EqInt(r.schemaVersion, SCHEMA), WrongSchema)
    + When(r.reviewer != Str(REVIEWER), WrongReviewer)
    + When((if Compact(r) then r.requiredModes else r.modes) != List(Strings(MODES)), WrongModes)
  }

  /** `check_id.startswith("review/")` */
  predicate IsCheckId(v: Value) {
    v.Str? && PREFIX <= v.s
  }

  function Complain(s: Reading, problem: Problem): Reading {
    s.(errors := s.errors + [problem])
  }

  // ----- the compact form -----

  function NameStep(s: Reading, name: Option<CaseName>): Reading {
    if name.None? || !name.value.mode.Str? || !name.value.transport.Str? then Complain(s, BadCase)
    else
      var pair := (name.value.mode.s, name.value.transport.s);
      if pair in s.observed then Complain(s, RepeatedCase) else s.(observed := s.observed + {pair})
  }

  function ReadNames(s: Reading, names: seq<Option<CaseName>>): Reading {
    if names == [] then s else NameStep(ReadNames(s, names[..|names| - 1]), names[|names| - 1])
  }

  function RecordIdentity(expected: set<Pair>, record: Option<Record>): Option<Identity> {
    if record.None? then None
    else
      var r := record.value;
      if !r.mode.Str? || !r.transport.Str? || !IsCheckId(r.checkId) || (r.mode.s, r.transport.s) !in expected then None
      else Some(Identity(r.mode.s, r.transport.s, r.checkId.s))
  }

  function RecordStep(expected: set<Pair>, success: bool, s: Reading, record: Option<Record>): Reading {
    match RecordIdentity(expected, record)
    case None => Complain(s, BadRecord(success))
    case Some(id) => if id in s.results then Complain(s, RepeatedCheck) else s.(results := s.results[id := success])
  }

  function ReadRecords(expected: set<Pair>, success: bool, s: Reading, records: seq<Option<Record>>): Reading {
    if records == [] then s
    else RecordStep(expected, success, ReadRecords(expected, success, s, records[..|records| - 1]), records[|records| - 1])
  }

  function ReadBucket(expected: set<Pair>, success: bool, s: Reading, records: Option<seq<Option<Record>>>): Reading {
    match records
    case None => Complain(s, NoBucket(success))
    case Some(rs) => ReadRecords(expected, success, s, rs)
  }

  function ReadBuckets(expected: set<Pair>, s: Reading, checks: Option<Buckets>): Reading {
    var begun := if checks.None? then Complain(s, NoCheckIdentities) else s;
    var buckets := if checks.None? then Buckets(None, None) else checks.value;
    ReadBucket(expected, false, ReadBucket(expected, true, begun, buckets.passing), buckets.failing)
  }

  function ReadCompact(expected: set<Pair>, r: Report): Reading {
    var begun := Read(HeaderErrors(r) + When(r.kind != Str(KIND), UnsupportedKind), {}, map[]);
    var named := match r.requiredCases
                 case None => Complain(begun, NoRequiredCases)
                 case Some(names) => ReadNames(begun, names);
    ReadBuckets(expected, named, r.checks)
  }

  // ----- the full form -----

  /** Reading the checks of one case: the state, and whether all of the case succeeded so far. */
  datatype InCase = InCase(s: Reading, success: bool)

  function CheckIdentity(pair: Pair, check: Option<Check>): Option<Identity> {
    if check.None? || !IsCheckId(check.value.name) || !check.value.success.Bool? then None
    else Some(Identity(pair.0, pair.1, check.value.name.s))
  }

  function CheckStep(pair: Pair, c: InCase, check: Option<Check>): InCase {
    match CheckIdentity(pair, check)
    case None => c.(s := Complain(c.s, BadCheck))
    case Some(id) =>
      if id in c.s.results then c.(s := Complain(c.s, RepeatedCheck))
      else InCase(c.s.(results := c.s.results[id := check.value.success.b]), c.success && check.value.success.b)
  }

  function ReadChecks(pair: Pair, c: InCase, checks: seq<Option<Check>>): InCase {
    if checks == [] then c else CheckStep(pair, ReadChecks(pair, c, checks[..|checks| - 1]), checks[|checks| - 1])
  }

  function CaseStep(expected: set<Pair>, s: Reading, given: Option<Case>): Reading {
    if given.None? then Complain(s, BadCase)
    else
      var c := given.value;
      if !c.mode.Str? || !c.transport.Str? || (c.mode.s, c.transport.s) !in expected then Complain(s, UnexpectedCase)
      else
        var pair := (c.mode.s, c.transport.s);
        if pair in s.observed then Complain(s, RepeatedCase)
        else
          var seen := s.(observed := s.observed + {pair});
          if c.checks.None? || c.checks.value == [] then Complain(seen, NoChecks(pair.0, pair.1))
          else
            var done := ReadChecks(pair, InCase(seen, true), c.checks.value);
            if c.success != Bool(done.success) then Complain(done.s, InconsistentCase(pair.0, pair.1)) else done.s
  }

  function ReadCases(expected: set<Pair>, s: Reading, cases: seq<Option<Case>>): Reading {
    if cases == [] then s else CaseStep(expected, ReadCases(expected, s, cases[..|cases| - 1]), cases[|cases| - 1])
  }

  function ReadFull(expected: set<Pair>, r: Report): Reading {
    var begun := Read(HeaderErrors(r), {}, map[]);
    match r.cases
    case None => Complain(begun, NoCases)
    case Some(cases) => ReadCases(expected, begun, cases)
  }

  // ----- totals -----

  function Succeeded(results: Results): set<Identity> {
    set id | id in results && results[id]
  }

  function Failed(results: Results): set<Identity> {
    set id | id in results && !results[id]
  }

  predicate CasePassed(results: Results, pair: Pair) {
    && (exists id :: id in results && (id.mode, id.transport) == pair)
    && (forall id :: id in results && (id.mode, id.transport) == pair ==> results[id])
  }

  function CasesPassed(results: Results, observed: set<Pair>): set<Pair> {
    set pair | pair in observed && CasePassed(results, pair)
  }

  predicate TotalsMatch(summary: Option<Summary>, observed: set<Pair>, results: Results) {
    && summary.Some?
    && EqInt(summary.value.passed, |Succeeded(results)|)
    && EqInt(summary.value.failed, |results| - |Succeeded(results)|)
    && EqInt(summary.value.total, |results|)
    && EqInt(summary.value.casesPassed, |CasesPassed(results, observed)|)
    && EqInt(summary.value.casesTotal, |observed|)
  }

  function ClosingErrors(expected: set<Pair>, r: Report, s: Reading): seq<Problem> {
    When(expected - s.observed != {}, MissingCases(expected - s.observed))
    + When(s.observed - expected != {}, UnexpectedCases(s.observed - expected))
    + When(!TotalsMatch(r.summary, s.observed, s.results), InconsistentTotals)
    + When(!Compact(r) && r.success != Bool(s.observed != {} && |s.results| - |Succeeded(s.results)| == 0), InconsistentSuccess)
  }

  function ReadBody(expected: set<Pair>, r: Report): Reading {
    if Compact(r) then ReadCompact(expected, r) else ReadFull(expected, r)
  }

  /** `_required_review_checks` */
  function ReadReport(expected: set<Pair>, r: Report): Reading {
    var s := ReadBody(expected, r);
    s.(errors := s.errors + ClosingErrors(expected, r, s))
  }

  // ----- what a reading means -----

  predicate WellFormed(expected: set<Pair>, id: Identity) {
    (id.mode, id.transport) in expected && PREFIX <= id.checkId
  }

  ghost predicate AllWellFormed(expected: set<Pair>, results: Results) {
    forall id :: id in results ==> WellFormed(expected, id)
  }

  /** `results` maps id to this outcome. */
  predicate Has(results: Results, id: Identity, success: bool) {
    id in results && results[id] == success
  }

  /** A record of a compact report names the check. */
  ghost predicate Records(expected: set<Pair>, record: Option<Record>, id: Identity) {
    record == Some(Record(Str(id.mode), Str(id.transport), Str(id.checkId))) && (id.mode, id.transport) in expected && "review/" <= id.checkId
  }

  ghost predicate Lists(expected: set<Pair>, records: seq<Option<Record>>, id: Identity) {
    exists j :: 0 <= j < |records| && Records(expected, records[j], id)
  }

  /** In a list of records that is read without problems, each names another check, and all of them are taken. */
  lemma {:induction false} RecordsMean(expected: set<Pair>, success: bool, s: Reading, records: seq<Option<Record>>, id: Identity, outcome: bool)
    requires AllWellFormed(expected, s.results)
    ensures var s' := ReadRecords(expected, success, s, records);
            && AllWellFormed(expected, s'.results) && s'.observed == s.observed
            && (s'.errors == [] ==>
                  && s.errors == []
                  && (Has(s'.results, id, outcome) <==> Has(s.results, id, outcome) || (outcome == success && Lists(expected, records, id))))
  {
    if records != [] {
      var n := |records| - 1;
      RecordsMean(expected, success, s, records[..n], id, outcome);
      assert Lists(expected, records, id) <==> Lists(expected, records[..n], id) || RecordIdentity(expected, records[n]) == Some(id) by {
        if j :| 0 <= j < n && Records(expected, records[..n][j], id) {
          assert records[j] == records[..n][j];
        }
        if j :| 0 <= j < n && Records(expected, records[j], id) {
          assert records[j] == records[..n][j];
        }
      }
    }
  }

  /** A check of the case says that the check `id` had the outcome. */
  ghost predicate Attests(pair: Pair, check: Option<Check>, id: Identity, success: bool) {
    check == Some(Check(Str(id.checkId), Bool(success))) && pair == (id.mode, id.transport) && "review/" <= id.checkId
  }

  ghost predicate Says(pair: Pair, checks: seq<Option<Check>>, id: Identity, success: bool) {
    exists j :: 0 <= j < |checks| && Attests(pair, checks[j], id, success)
  }

  lemma SaysSnoc(pair: Pair, checks: seq<Option<Check>>, id: Identity, success: bool)
    requires checks != []
    ensures var n := |checks| - 1;
            Says(pair, checks, id, success) <==>
              Says(pair, checks[..n], id, success) || (CheckIdentity(pair, checks[n]) == Some(id) && checks[n].value.success == Bool(success))
  {
    var n := |checks| - 1;
    assert CheckIdentity(pair, checks[n]) == Some(id) && checks[n].value.success == Bool(success) <==> Attests(pair, checks[n], id, success);
    if j :| 0 <= j < n && Attests(pair, checks[..n][j], id, success) {
      assert checks[j] == checks[..n][j];
    }
    if j :| 0 <= j < n && Attests(pair, checks[j], id, success) {
      assert checks[j] == checks[..n][j];
    }
  }

  lemma {:induction false} ChecksMean(expected: set<Pair>, pair: Pair, c: InCase, checks: seq<Option<Check>>, id: Identity, success: bool)
    requires pair in expected && AllWellFormed(expected, c.s.results)
    ensures var c' := ReadChecks(pair, c, checks);
            && AllWellFormed(expected, c'.s.results) && c'.s.observed == c.s.observed
            && (c'.s.errors == [] ==>
                  && c.s.errors == []
                  && (Has(c'.s.results, id, success) <==> Has(c.s.results, id, success) || Says(pair, checks, id, success)))
  {
    if checks != [] {
      var n := |checks| - 1;
      ChecksMean(expected, pair, c, checks[..n], id, success);
      SaysSnoc(pair, checks, id, success);
    }
  }

  ghost predicate CaseSays(given: Option<Case>, id: Identity, success: bool) {
    && given.Some? && given.value.mode == Str(id.mode) && given.value.transport == Str(id.transport)
    && given.value.checks.Some? && Says((id.mode, id.transport), given.value.checks.value, id, success)
  }

  lemma SaysOwnPair(pair: Pair, checks: seq<Option<Check>>, id: Identity, success: bool)
    ensures Says(pair, checks, id, success) ==> pair == (id.mode, id.transport)
  {
  }

  lemma CaseMeans(expected: set<Pair>, s: Reading, given: Option<Case>, id: Identity, success: bool)
    requires AllWellFormed(expected, s.results)
    ensures var s' := CaseStep(expected, s, given);
            && AllWellFormed(expected, s'.results)
            && (s'.errors == [] ==>
                  s.errors == [] && (Has(s'.results, id, success) <==> Has(s.results, id, success) || CaseSays(given, id, success)))
  {
    if given.Some? && given.value.mode.Str? && given.value.transport.Str? && given.value.checks.Some? {
      var pair := (given.value.mode.s, given.value.transport.s);
      if pair in expected {
        ChecksMean(expected, pair, InCase(s.(observed := s.observed + {pair}), true), given.value.checks.value, id, success);
        SaysOwnPair(pair, given.value.checks.value, id, success);
      }
    }
  }

  ghost predicate Reports(cases: seq<Option<Case>>, id: Identity, success: bool) {
    exists i :: 0 <= i < |cases| && CaseSays(cases[i], id, success)
  }

  lemma {:induction false} CasesMean(expected: set<Pair>, s: Reading, cases: seq<Option<Case>>, id: Identity, success: bool)
    requires AllWellFormed(expected, s.results)
    ensures var s' := ReadCases(expected, s, cases);
            && AllWellFormed(expected, s'.results)
            && (s'.errors == [] ==>
                  s.errors == [] && (Has(s'.results, id, success) <==> Has(s.results, id, success) || Reports(cases, id, success)))
  {
    if cases != [] {
      var n := |cases| - 1;
      CasesMean(expected, s, cases[..n], id, success);
      CaseMeans(expected, ReadCases(expected, s, cases[..n]), cases[n], id, success);
      assert Reports(cases, id, success) <==> Reports(cases[..n], id, success) || CaseSays(cases[n], id, success) by {
        if Reports(cases[..n], id, success) {
          var i :| 0 <= i < n && CaseSays(cases[..n][i], id, success);
          assert cases[i] == cases[..n][i];
        }
        if i :| 0 <= i < n && CaseSays(cases[i], id, success) {
          assert cases[i] == cases[..n][i];
        }
      }
    }
  }

  ghost predicate Valid(expected: set<Pair>, r: Report) {
    ReadReport(expected, r).errors == []
  }

  /** A valid full report yields exactly the outcomes its checks report. */
  lemma FullReadingMeans(expected: set<Pair>, r: Report, id: Identity, success: bool)
    requires !Compact(r) && Valid(expected, r)
    ensures r.cases.Some? && (Has(ReadReport(expected, r).results, id, success) <==> Reports(r.cases.value, id, success))
  {
    if r.cases.Some? {
      CasesMean(expected, Read(HeaderErrors(r), {}, map[]), r.cases.value, id, success);
    }
  }

  /** A compact report holds the check in one of its lists. */
  ghost predicate Holds(expected: set<Pair>, buckets: Buckets, id: Identity, success: bool) {
    var bucket := if success then buckets.passing else buckets.failing;
    bucket.Some? && Lists(expected, bucket.value, id)
  }

  /** A valid compact report yields exactly the outcomes of its two lists. */
  lemma CompactReadingMeans(expected: set<Pair>, r: Report, id: Identity, success: bool)
    requires Compact(r) && Valid(expected, r)
    ensures r.checks.Some? && (Has(ReadReport(expected, r).results, id, success) <==> Holds(expected, r.checks.value, id, success))
  {
    var begun := Read(HeaderErrors(r) + When(r.kind != Str(KIND), UnsupportedKind), {}, map[]);
    var named := match r.requiredCases
                 case None => Complain(begun, NoRequiredCases)
                 case Some(names) => ReadNames(begun, names);
    if r.requiredCases.Some? { NamesKeepResults(begun, r.requiredCases.value); }
    BucketsMean(expected, named, r.checks, id, success);
  }

  lemma BucketsMean(expected: set<Pair>, s: Reading, checks: Option<Buckets>, id: Identity, success: bool)
    requires s.results == map[]
    ensures var s' := ReadBuckets(expected, s, checks);
            s'.errors == [] ==> checks.Some? && (Has(s'.results, id, success) <==> Holds(expected, checks.value, id, success))
  {
    if checks.Some? {
      var passing, failing := checks.value.passing, checks.value.failing;
      var s1 := ReadBucket(expected, true, s, passing);
      if passing.Some? { RecordsMean(expected, true, s, passing.value, id, success); }
      if failing.Some? { RecordsMean(expected, false, s1, failing.value, id, success); }
    }
  }

  lemma BodyIsWellFormed(expected: set<Pair>, r: Report)
    ensures AllWellFormed(expected, ReadBody(expected, r).results)
  {
    var any := Identity("", "", "");
    if !Compact(r) {
      if r.cases.Some? {
        CasesMean(expected, Read(HeaderErrors(r), {}, map[]), r.cases.value, any, true);
      }
    } else {
      var begun := Read(HeaderErrors(r) + When(r.kind != Str(KIND), UnsupportedKind), {}, map[]);
      var named := match r.requiredCases
                   case None => Complain(begun, NoRequiredCases)
                   case Some(names) => ReadNames(begun, names);
      if r.requiredCases.Some? {
        NamesKeepResults(begun, r.requiredCases.value);
      }
      BucketsAreWellFormed(expected, named, r.checks);
    }
  }

  lemma {:induction false} NamesKeepResults(s: Reading, names: seq<Option<CaseName>>)
    ensures ReadNames(s, names).results == s.results
  {
    if names != [] {
      NamesKeepResults(s, names[..|names| - 1]);
    }
  }

  lemma BucketsAreWellFormed(expected: set<Pair>, s: Reading, checks: Option<Buckets>)
    requires AllWellFormed(expected, s.results)
    ensures AllWellFormed(expected, ReadBuckets(expected, s, checks).results)
  {
    if checks.Some? {
      var any := Identity("", "", "");
      if checks.value.passing.Some? {
        RecordsMean(expected, true, s, checks.value.passing.value, any, true);
      }
      if checks.value.failing.Some? {
        RecordsMean(expected, false, ReadBucket(expected, true, s, checks.value.passing), checks.value.failing.value, any, true);
      }
    }
  }
}
