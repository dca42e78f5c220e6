/** Which review reports are read without problems, said without the reader: their form, and totals counted in the report. */
module ReviewValidity {
  import opened Common
  import opened PyValues
  import opened ReviewReader
  import opened ReviewGate
  import opened ReviewForms

  /** A summary with these numbers of passed and of all checks, and of passed and of all cases. */
  predicate TotalsAre(summary: Option<Summary>, passed: int, total: int, casesPassed: int, casesTotal: int) {
    && summary.Some?
    && EqInt(summary.value.passed, passed) && EqInt(summary.value.failed, total - passed) && EqInt(summary.value.total, total)
    && EqInt(summary.value.casesPassed, casesPassed) && EqInt(summary.value.casesTotal, casesTotal)
  }

  lemma ClosingMeans(expected: set<Pair>, r: Report, s: Reading)
    ensures ClosingErrors(expected, r, s) == [] <==>
              && s.observed == expected
              && TotalsAre(r.summary, |Succeeded(s.results)|, |s.results|, |CasesPassed(s.results, s.observed)|, |s.observed|)
              && (r.kind.Null? ==> r.success == Bool(s.observed != {} && |Succeeded(s.results)| == |s.results|))
  {
    assert expected - s.observed == {} && s.observed - expected == {} <==> s.observed == expected;
  }

  lemma AddResult(results: Results, id: Identity, success: bool)
    requires id !in results
    ensures var more := results[id := success];
            |more| == |results| + 1 && |Succeeded(more)| == |Succeeded(results)| + if success then 1 else 0
  {
    var more := results[id := success];
    assert Succeeded(more) == Succeeded(results) + if success then {id} else {};
  }

  // ----- counting a full report -----

  function ChecksOf(given: Option<Case>): seq<Option<Check>> {
    if given.Some? && given.value.checks.Some? then given.value.checks.value else []
  }

  function SuccessesIn(checks: seq<Option<Check>>): nat {
    if checks == [] then 0
    else
      var n := |checks| - 1;
      SuccessesIn(checks[..n]) + if checks[n].Some? && checks[n].value.success == Bool(true) then 1 else 0
  }

  /** The number of checks of all cases. */
  function CheckCount(cases: seq<Option<Case>>): nat {
    if cases == [] then 0 else CheckCount(cases[..|cases| - 1]) + |ChecksOf(cases[|cases| - 1])|
  }

  /** The number of checks that succeed. */
  function SuccessCount(cases: seq<Option<Case>>): nat {
    if cases == [] then 0 else SuccessCount(cases[..|cases| - 1]) + SuccessesIn(ChecksOf(cases[|cases| - 1]))
  }

  /** The number of cases all of whose checks succeed. */
  ghost function SuccessfulCases(cases: seq<Option<Case>>): nat {
    if cases == [] then 0 else SuccessfulCases(cases[..|cases| - 1]) + if AllSucceed(ChecksOf(cases[|cases| - 1])) then 1 else 0
  }

  ghost predicate Extends(results: Results, more: Results) {
    forall id :: id in results ==> id in more && more[id] == results[id]
  }

  lemma {:induction false} ChecksAreCounted(pair: Pair, s: Reading, checks: seq<Option<Check>>)
    requires Untouched(s.results, pair)
    ensures var c := ReadChecks(pair, InCase(s, true), checks);
            c.s.errors == [] ==>
              && |c.s.results| == |s.results| + |checks| && |Succeeded(c.s.results)| == |Succeeded(s.results)| + SuccessesIn(checks)
              && Extends(s.results, c.s.results)
  {
    if checks != [] {
      var n := |checks| - 1;
      ChecksAreCounted(pair, s, checks[..n]);
      var before := ReadChecks(pair, InCase(s, true), checks[..n]).s;
      match CheckIdentity(pair, checks[n])
      case None =>
      case Some(id) =>
        if id !in before.results {
          AddResult(before.results, id, checks[n].value.success.b);
        }
    }
  }

  /** Each check is read with its own outcome. */
  lemma {:induction false} ChecksHaveValues(pair: Pair, s: Reading, checks: seq<Option<Check>>, j: nat)
    requires Untouched(s.results, pair) && j < |checks| && ReadChecks(pair, InCase(s, true), checks).s.errors == []
    ensures GoodCheck(checks[j]) && Has(ReadChecks(pair, InCase(s, true), checks).s.results, Identity(pair.0, pair.1, checks[j].value.name.s), checks[j].value.success.b)
  {
    var n := |checks| - 1;
    ChecksAreClean(pair, s, checks, Identity("", "", ""));
    assert CheckIdentity(pair, checks[n]) == Some(Identity(pair.0, pair.1, checks[n].value.name.s));
    if j < n {
      ChecksHaveValues(pair, s, checks[..n], j);
    }
  }

  lemma OwnCasePassed(pair: Pair, s: Reading, checks: seq<Option<Check>>)
    requires Untouched(s.results, pair) && checks != [] && ReadChecks(pair, InCase(s, true), checks).s.errors == []
    ensures CasePassed(ReadChecks(pair, InCase(s, true), checks).s.results, pair) <==> AllSucceed(checks)
  {
    var results := ReadChecks(pair, InCase(s, true), checks).s.results;
    forall j | 0 <= j < |checks|
      ensures GoodCheck(checks[j]) && Has(results, Identity(pair.0, pair.1, checks[j].value.name.s), checks[j].value.success.b)
    {
      ChecksHaveValues(pair, s, checks, j);
    }
    if AllSucceed(checks) {
      assert Has(results, Identity(pair.0, pair.1, checks[0].value.name.s), true);
      forall id | id in results && (id.mode, id.transport) == pair ensures results[id] {
        ChecksAreClean(pair, s, checks, id);
        var j :| 0 <= j < |checks| && GoodCheck(checks[j]) && checks[j].value.name == Str(id.checkId);
        assert id == Identity(pair.0, pair.1, checks[j].value.name.s);
      }
    }
    if CasePassed(results, pair) {
      forall j | 0 <= j < |checks| ensures checks[j].Some? && checks[j].value.success == Bool(true) {
        assert Has(results, Identity(pair.0, pair.1, checks[j].value.name.s), checks[j].value.success.b);
      }
    }
  }

  lemma OtherCasesPassed(pair: Pair, s: Reading, checks: seq<Option<Check>>, other: Pair)
    requires Untouched(s.results, pair) && other != pair && ReadChecks(pair, InCase(s, true), checks).s.errors == []
    ensures CasePassed(ReadChecks(pair, InCase(s, true), checks).s.results, other) <==> CasePassed(s.results, other)
  {
    var results := ReadChecks(pair, InCase(s, true), checks).s.results;
    ChecksAreCounted(pair, s, checks);
    forall id: Identity | (id.mode, id.transport) == other ensures id in results <==> id in s.results {
      ChecksAreClean(pair, s, checks, id);
    }
  }

  lemma PassedAfterCase(pair: Pair, s: Reading, checks: seq<Option<Check>>)
    requires Untouched(s.results, pair) && pair !in s.observed && checks != [] && ReadChecks(pair, InCase(s, true), checks).s.errors == []
    ensures |CasesPassed(ReadChecks(pair, InCase(s, true), checks).s.results, s.observed + {pair})|
         == |CasesPassed(s.results, s.observed)| + if AllSucceed(checks) then 1 else 0
  {
    var results := ReadChecks(pair, InCase(s, true), checks).s.results;
    OwnCasePassed(pair, s, checks);
    forall other | other in s.observed ensures CasePassed(results, other) <==> CasePassed(s.results, other) {
      OtherCasesPassed(pair, s, checks, other);
    }
    PassedGrows(s.results, results, s.observed, pair);
  }

  lemma PassedGrows(results: Results, more: Results, observed: set<Pair>, pair: Pair)
    requires pair !in observed && forall other :: other in observed ==> (CasePassed(more, other) <==> CasePassed(results, other))
    ensures |CasesPassed(more, observed + {pair})| == |CasesPassed(results, observed)| + if CasePassed(more, pair) then 1 else 0
  {
    var before, passed := CasesPassed(results, observed), CasesPassed(more, observed + {pair});
    assert passed == if CasePassed(more, pair) then before + {pair} else before;
  }

  lemma {:induction false} ObservedDoesNotMatter(pair: Pair, s: Reading, observed: set<Pair>, checks: seq<Option<Check>>)
    ensures var c, c' := ReadChecks(pair, InCase(s, true), checks), ReadChecks(pair, InCase(s.(observed := observed), true), checks);
            c'.s.results == c.s.results && c'.s.errors == c.s.errors
  {
    if checks != [] {
      ObservedDoesNotMatter(pair, s, observed, checks[..|checks| - 1]);
    }
  }

  lemma CaseIsCounted(expected: set<Pair>, s: Reading, given: Option<Case>)
    requires Contained(s)
    ensures var s' := CaseStep(expected, s, given);
            s'.errors == [] ==>
              && |s'.results| == |s.results| + |ChecksOf(given)| && |Succeeded(s'.results)| == |Succeeded(s.results)| + SuccessesIn(ChecksOf(given))
              && |s'.observed| == |s.observed| + 1
              && |CasesPassed(s'.results, s'.observed)| == |CasesPassed(s.results, s.observed)| + if AllSucceed(ChecksOf(given)) then 1 else 0
  {
    CaseIsClean(expected, s, given);
    if CaseStep(expected, s, given).errors == [] {
      var pair, checks := PairOf(expected, given), given.value.checks.value;
      ObservedDoesNotMatter(pair, s, s.observed + {pair}, checks);
      ChecksAreCounted(pair, s, checks);
      PassedAfterCase(pair, s, checks);
    }
  }

  lemma {:induction false} CasesAreCounted(expected: set<Pair>, errors: seq<Problem>, cases: seq<Option<Case>>)
    ensures var s := ReadCases(expected, Read(errors, {}, map[]), cases);
            s.errors == [] ==>
              && |s.results| == CheckCount(cases) && |Succeeded(s.results)| == SuccessCount(cases)
              && |s.observed| == |cases| && |CasesPassed(s.results, s.observed)| == SuccessfulCases(cases)
  {
    if cases == [] {
      assert Succeeded(map[]) == {} && CasesPassed(map[], {}) == {};
    } else {
      var n := |cases| - 1;
      var before := ReadCases(expected, Read(errors, {}, map[]), cases[..n]);
      CasesAreCounted(expected, errors, cases[..n]);
      CasesAreClean(expected, errors, cases[..n]);
      if before.errors == [] {
        CaseIsCounted(expected, before, cases[n]);
      } else {
        ErrorsStay(expected, before, cases[n]);
      }
    }
  }

  /** A full report that may be used: each required case once, with distinct well-formed checks and the success they add up to,
      and totals and overall success that are those of the cases. */
  ghost predicate ValidFull(expected: set<Pair>, r: Report) {
    && GoodHeader(r) && r.cases.Some? && GoodCases(expected, r.cases.value)
    && (forall pair :: pair in expected <==> HasPair(expected, r.cases.value, pair))
    && var cases := r.cases.value;
       && TotalsAre(r.summary, SuccessCount(cases), CheckCount(cases), SuccessfulCases(cases), |cases|)
       && r.success == Bool(cases != [] && SuccessCount(cases) == CheckCount(cases))
  }

  /** A full report is read without problems if and only if it is valid. */
  lemma FullReportIsValid(expected: set<Pair>, r: Report)
    requires r.kind.Null?
    ensures ReadReport(expected, r).errors == [] <==> ValidFull(expected, r)
  {
    FullBodyIsClean(expected, r);
    ClosingMeans(expected, r, ReadBody(expected, r));
    if r.cases.Some? {
      CasesAreCounted(expected, HeaderErrors(r), r.cases.value);
    }
  }

  // ----- counting a compact report -----

  predicate IsOf(record: Option<Record>, pair: Pair) {
    record.Some? && record.value.mode == Str(pair.0) && record.value.transport == Str(pair.1)
  }

  predicate SomeOf(records: seq<Option<Record>>, pair: Pair) {
    exists j :: 0 <= j < |records| && IsOf(records[j], pair)
  }

  /** The required cases with a passing record and no failing one. */
  function PassedPairs(expected: set<Pair>, passing: seq<Option<Record>>, failing: seq<Option<Record>>): set<Pair> {
    set pair | pair in expected && SomeOf(passing, pair) && !SomeOf(failing, pair)
  }

  lemma {:induction false} RecordsAreCounted(expected: set<Pair>, success: bool, s: Reading, records: seq<Option<Record>>)
    ensures var s' := ReadRecords(expected, success, s, records);
            s'.errors == [] ==>
              && |s'.results| == |s.results| + |records| && |Succeeded(s'.results)| == |Succeeded(s.results)| + (if success then |records| else 0)
              && Extends(s.results, s'.results) && forall id :: id in s'.results && id !in s.results ==> s'.results[id] == success
  {
    if records != [] {
      var n := |records| - 1;
      RecordsAreCounted(expected, success, s, records[..n]);
      var before := ReadRecords(expected, success, s, records[..n]);
      match RecordIdentity(expected, records[n])
      case None =>
      case Some(id) =>
        if id !in before.results {
          AddResult(before.results, id, success);
        }
    }
  }

  /** Checks of the first list passed and those of the second failed. */
  ghost predicate AreResults(results: Results, passing: seq<Option<Record>>, failing: seq<Option<Record>>) {
    forall id :: && (Has(results, id, true) <==> ToRecord(id) in passing)
                 && (Has(results, id, false) <==> ToRecord(id) in failing)
  }

  lemma BucketsAreCounted(expected: set<Pair>, s: Reading, buckets: Buckets)
    requires s.results == map[] && ReadBuckets(expected, s, Some(buckets)).errors == []
    ensures var results := ReadBuckets(expected, s, Some(buckets)).results;
            && buckets.passing.Some? && buckets.failing.Some?
            && |Succeeded(results)| == |buckets.passing.value| && |results| == |buckets.passing.value| + |buckets.failing.value|
            && AreResults(results, buckets.passing.value, buckets.failing.value)
  {
    BucketsAreClean(expected, s, Some(buckets));
    var passing, failing := buckets.passing.value, buckets.failing.value;
    var passed := ReadRecords(expected, true, s, passing);
    assert Succeeded(map[]) == {};
    RecordsAreClean(expected, true, s, passing);
    RecordsAreCounted(expected, true, s, passing);
    RecordsAreClean(expected, false, passed, failing);
    RecordsAreCounted(expected, false, passed, failing);
  }

  lemma SomeOfMeans(expected: set<Pair>, records: seq<Option<Record>>, pair: Pair)
    requires GoodRecords(expected, records)
    ensures SomeOf(records, pair) <==> exists id :: ToRecord(id) in records && (id.mode, id.transport) == pair
  {
    if SomeOf(records, pair) {
      var j :| 0 <= j < |records| && IsOf(records[j], pair);
      RecordMeans(expected, records[j]);
      var id := RecordIdentity(expected, records[j]).value;
      assert ToRecord(id) in records && (id.mode, id.transport) == pair;
    }
    if id :| ToRecord(id) in records && (id.mode, id.transport) == pair {
      var j :| 0 <= j < |records| && records[j] == ToRecord(id);
      assert IsOf(records[j], pair);
    }
  }

  lemma PassedMeans(expected: set<Pair>, results: Results, passing: seq<Option<Record>>, failing: seq<Option<Record>>, pair: Pair)
    requires AreResults(results, passing, failing) && GoodRecords(expected, passing) && GoodRecords(expected, failing)
    ensures CasePassed(results, pair) <==> SomeOf(passing, pair) && !SomeOf(failing, pair)
  {
    SomeOfMeans(expected, passing, pair);
    SomeOfMeans(expected, failing, pair);
    if CasePassed(results, pair) {
      var id :| id in results && (id.mode, id.transport) == pair;
      assert Has(results, id, true);
      forall id': Identity | (id'.mode, id'.transport) == pair ensures ToRecord(id') !in failing {
        assert !Has(results, id', false);
      }
    }
    if SomeOf(passing, pair) && !SomeOf(failing, pair) {
      var id :| ToRecord(id) in passing && (id.mode, id.transport) == pair;
      assert Has(results, id, true);
      forall id' | id' in results && (id'.mode, id'.transport) == pair ensures results[id'] {
        assert !Has(results, id', false);
      }
    }
  }

  /** A compact report that may be used: the right header, the required cases once each, two lists of well-formed records
      of which no two are the same check, and totals that are those of the lists. */
  ghost predicate ValidCompact(expected: set<Pair>, r: Report) {
    && GoodHeader(r) && r.kind == Str(KIND)
    && r.requiredCases.Some? && GoodNames(r.requiredCases.value) && (forall pair :: pair in expected <==> NameOf(pair) in r.requiredCases.value)
    && r.checks.Some? && GoodBuckets(expected, r.checks.value)
    && var passing, failing := r.checks.value.passing.value, r.checks.value.failing.value;
       TotalsAre(r.summary, |passing|, |passing| + |failing|, |PassedPairs(expected, passing, failing)|, |expected|)
  }

  lemma CompactIsCounted(expected: set<Pair>, r: Report)
    requires !r.kind.Null? && ReadBody(expected, r).errors == []
    ensures r.checks.Some? && r.checks.value.passing.Some? && r.checks.value.failing.Some?
    ensures var results, passing, failing := ReadBody(expected, r).results, r.checks.value.passing.value, r.checks.value.failing.value;
            && |Succeeded(results)| == |passing| && |results| == |passing| + |failing|
            && CasesPassed(results, expected) == PassedPairs(expected, passing, failing)
  {
    CompactBodyIsClean(expected, r);
    var errors := HeaderErrors(r) + When(r.kind != Str(KIND), UnsupportedKind);
    var named := ReadNames(Read(errors, {}, map[]), r.requiredCases.value);
    NamesAreClean(errors, r.requiredCases.value);
    BucketsAreCounted(expected, named, r.checks.value);
    var results, passing, failing := ReadBody(expected, r).results, r.checks.value.passing.value, r.checks.value.failing.value;
    forall pair ensures CasePassed(results, pair) <==> SomeOf(passing, pair) && !SomeOf(failing, pair) {
      PassedMeans(expected, results, passing, failing, pair);
    }
  }

  /** A report with a baseline kind is read without problems if and only if it is a valid compact report. */
  lemma CompactReportIsValid(expected: set<Pair>, r: Report)
    requires !r.kind.Null?
    ensures ReadReport(expected, r).errors == [] <==> ValidCompact(expected, r)
  {
    CompactBodyIsClean(expected, r);
    ClosingMeans(expected, r, ReadBody(expected, r));
    if ReadBody(expected, r).errors == [] {
      CompactIsCounted(expected, r);
    }
  }
}
