/** When the header, the cases and the checks of a review report are read without problems, said without the reader. */
module ReviewForms {
  import opened Common
  import opened PyValues
  import opened Sorting
  import opened ReviewReader
  import opened ReviewGate

  predicate GoodHeader(r: Report) {
    && EqInt(r.schemaVersion, 1) && r.reviewer == Str(REVIEWER)
    && (if r.kind.Null? then r.modes else r.requiredModes) == List(Strings(MODES))
  }

  lemma HeaderMeans(r: Report)
    ensures HeaderErrors(r) == [] <==> GoodHeader(r)
  {
  }

  // ----- the checks of a case -----

  predicate GoodCheck(check: Option<Check>) {
    check.Some? && check.value.name.Str? && PREFIX <= check.value.name.s && check.value.success.Bool?
  }

  /** Every check is good, and no two have the same name. */
  ghost predicate GoodChecks(checks: seq<Option<Check>>) {
    && (forall j :: 0 <= j < |checks| ==> GoodCheck(checks[j]))
    && (forall i, j :: 0 <= i < j < |checks| ==> checks[i].value.name != checks[j].value.name)
  }

  ghost predicate AllSucceed(checks: seq<Option<Check>>) {
    forall j :: 0 <= j < |checks| ==> checks[j].Some? && checks[j].value.success == Bool(true)
  }

  ghost predicate Named(checks: seq<Option<Check>>, name: Value) {
    exists j :: 0 <= j < |checks| && GoodCheck(checks[j]) && checks[j].value.name == name
  }

  lemma NamedSnoc(checks: seq<Option<Check>>, name: Value)
    requires checks != []
    ensures var n := |checks| - 1; Named(checks, name) <==> Named(checks[..n], name) || (GoodCheck(checks[n]) && checks[n].value.name == name)
  {
    var n := |checks| - 1;
    if Named(checks[..n], name) {
      var j :| 0 <= j < n && GoodCheck(checks[..n][j]) && checks[..n][j].value.name == name;
      assert checks[j] == checks[..n][j];
    }
    if j :| 0 <= j < n && GoodCheck(checks[j]) && checks[j].value.name == name {
      assert checks[..n][j] == checks[j];
    }
  }

  lemma GoodChecksSnoc(checks: seq<Option<Check>>)
    requires checks != []
    ensures var n := |checks| - 1;
            GoodChecks(checks) <==> GoodChecks(checks[..n]) && GoodCheck(checks[n]) && !Named(checks[..n], checks[n].value.name)
  {
    var n := |checks| - 1;
    var before := checks[..n];
    assert forall j :: 0 <= j < n ==> before[j] == checks[j];
    if GoodChecks(before) && GoodCheck(checks[n]) {
      if Named(before, checks[n].value.name) {
        var j :| 0 <= j < n && before[j].value.name == checks[n].value.name;
        assert checks[j].value.name == checks[n].value.name;
      } else {
        forall j | 0 <= j < n ensures checks[j].value.name != checks[n].value.name {
          assert GoodCheck(before[j]);
        }
      }
    }
  }

  lemma AllSucceedSnoc(checks: seq<Option<Check>>)
    requires checks != []
    ensures var n := |checks| - 1; AllSucceed(checks) <==> AllSucceed(checks[..n]) && checks[n].Some? && checks[n].value.success == Bool(true)
  {
    var n := |checks| - 1;
    assert forall j :: 0 <= j < n ==> checks[..n][j] == checks[j];
  }

  /** No check of this case has been read. */
  ghost predicate Untouched(results: Results, pair: Pair) {
    forall id :: id in results ==> (id.mode, id.transport) != pair
  }

  lemma {:induction false} ChecksAreClean(pair: Pair, s: Reading, checks: seq<Option<Check>>, id: Identity)
    requires Untouched(s.results, pair)
    ensures var c := ReadChecks(pair, InCase(s, true), checks);
            && c.s.observed == s.observed
            && (c.s.errors == [] <==> s.errors == [] && GoodChecks(checks))
            && (c.s.errors == [] ==> (c.success <==> AllSucceed(checks)))
            && (c.s.errors == [] ==> (id in c.s.results <==> id in s.results || ((id.mode, id.transport) == pair && Named(checks, Str(id.checkId)))))
  {
    if checks != [] {
      var n := |checks| - 1;
      GoodChecksSnoc(checks);
      AllSucceedSnoc(checks);
      NamedSnoc(checks, Str(id.checkId));
      ChecksAreClean(pair, s, checks[..n], id);
      if GoodCheck(checks[n]) {
        ChecksAreClean(pair, s, checks[..n], Identity(pair.0, pair.1, checks[n].value.name.s));
      }
    }
  }

  // ----- cases -----

  predicate IsCase(expected: set<Pair>, given: Option<Case>) {
    given.Some? && given.value.mode.Str? && given.value.transport.Str? && (given.value.mode.s, given.value.transport.s) in expected
  }

  function PairOf(expected: set<Pair>, given: Option<Case>): Pair
    requires IsCase(expected, given)
  {
    (given.value.mode.s, given.value.transport.s)
  }

  /** A required case with good checks, whose success says whether they all succeed. */
  ghost predicate GoodCase(expected: set<Pair>, given: Option<Case>) {
    && IsCase(expected, given)
    && given.value.checks.Some? && given.value.checks.value != [] && GoodChecks(given.value.checks.value)
    && given.value.success == Bool(AllSucceed(given.value.checks.value))
  }

  ghost predicate GoodCases(expected: set<Pair>, cases: seq<Option<Case>>) {
    && (forall i :: 0 <= i < |cases| ==> GoodCase(expected, cases[i]))
    && (forall i, j :: 0 <= i < j < |cases| ==> PairOf(expected, cases[i]) != PairOf(expected, cases[j]))
  }

  /** The results are of observed cases only. */
  ghost predicate Contained(s: Reading) {
    forall id :: id in s.results ==> (id.mode, id.transport) in s.observed
  }

  lemma CaseIsClean(expected: set<Pair>, s: Reading, given: Option<Case>)
    requires Contained(s)
    ensures var s' := CaseStep(expected, s, given);
            && (s'.errors == [] <==> s.errors == [] && GoodCase(expected, given) && PairOf(expected, given) !in s.observed)
            && (s'.errors == [] ==> s'.observed == s.observed + {PairOf(expected, given)} && Contained(s'))
  {
    if IsCase(expected, given) && PairOf(expected, given) !in s.observed && given.value.checks.Some? {
      var pair, checks := PairOf(expected, given), given.value.checks.value;
      var seen := s.(observed := s.observed + {pair});
      ChecksAreClean(pair, seen, checks, Identity("", "", ""));
      ChecksStayContained(pair, seen, checks);
    }
  }

  lemma ChecksStayContained(pair: Pair, s: Reading, checks: seq<Option<Check>>)
    requires Untouched(s.results, pair) && Contained(s) && pair in s.observed
    ensures var c := ReadChecks(pair, InCase(s, true), checks); c.s.errors == [] ==> Contained(c.s)
  {
    var c := ReadChecks(pair, InCase(s, true), checks);
    forall id | c.s.errors == [] && id in c.s.results ensures (id.mode, id.transport) in c.s.observed {
      ChecksAreClean(pair, s, checks, id);
    }
    ChecksAreClean(pair, s, checks, Identity("", "", ""));
  }

  ghost predicate HasPair(expected: set<Pair>, cases: seq<Option<Case>>, pair: Pair) {
    exists i :: 0 <= i < |cases| && IsCase(expected, cases[i]) && PairOf(expected, cases[i]) == pair
  }

  lemma GoodCasesSnoc(expected: set<Pair>, cases: seq<Option<Case>>)
    requires cases != []
    ensures var n := |cases| - 1;
            GoodCases(expected, cases) <==>
              GoodCases(expected, cases[..n]) && GoodCase(expected, cases[n]) && !HasPair(expected, cases[..n], PairOf(expected, cases[n]))
  {
    var n := |cases| - 1;
    var before := cases[..n];
    assert forall i :: 0 <= i < n ==> before[i] == cases[i];
    if GoodCases(expected, before) && GoodCase(expected, cases[n]) {
      if HasPair(expected, before, PairOf(expected, cases[n])) {
        var i :| 0 <= i < n && IsCase(expected, before[i]) && PairOf(expected, before[i]) == PairOf(expected, cases[n]);
        assert PairOf(expected, cases[i]) == PairOf(expected, cases[n]);
      } else {
        forall i | 0 <= i < n ensures PairOf(expected, cases[i]) != PairOf(expected, cases[n]) {
          assert GoodCase(expected, before[i]);
        }
      }
    }
  }

  lemma HasPairSnoc(expected: set<Pair>, cases: seq<Option<Case>>, pair: Pair)
    requires cases != []
    ensures var n := |cases| - 1;
            HasPair(expected, cases, pair) <==> HasPair(expected, cases[..n], pair) || (IsCase(expected, cases[n]) && PairOf(expected, cases[n]) == pair)
  {
    var n := |cases| - 1;
    if HasPair(expected, cases[..n], pair) {
      var i :| 0 <= i < n && IsCase(expected, cases[..n][i]) && PairOf(expected, cases[..n][i]) == pair;
      assert cases[i] == cases[..n][i];
    }
    if i :| 0 <= i < n && IsCase(expected, cases[i]) && PairOf(expected, cases[i]) == pair {
      assert cases[..n][i] == cases[i];
    }
  }

  lemma {:induction false} CasesAreClean(expected: set<Pair>, errors: seq<Problem>, cases: seq<Option<Case>>)
    ensures var s := ReadCases(expected, Read(errors, {}, map[]), cases);
            && (s.errors == [] <==> errors == [] && GoodCases(expected, cases))
            && (s.errors == [] ==> Contained(s) && forall pair :: pair in s.observed <==> HasPair(expected, cases, pair))
  {
    if cases != [] {
      var n := |cases| - 1;
      CasesAreClean(expected, errors, cases[..n]);
      GoodCasesSnoc(expected, cases);
      var before := ReadCases(expected, Read(errors, {}, map[]), cases[..n]);
      if before.errors == [] {
        CaseIsClean(expected, before, cases[n]);
      } else {
        ErrorsStay(expected, before, cases[n]);
      }
      forall pair ensures HasPair(expected, cases, pair) <==> HasPair(expected, cases[..n], pair) || (IsCase(expected, cases[n]) && PairOf(expected, cases[n]) == pair) {
        HasPairSnoc(expected, cases, pair);
      }
    }
  }

  lemma ErrorsStay(expected: set<Pair>, s: Reading, given: Option<Case>)
    requires s.errors != []
    ensures CaseStep(expected, s, given).errors != []
  {
    if IsCase(expected, given) && given.value.checks.Some? {
      ChecksKeepErrors(PairOf(expected, given), InCase(s.(observed := s.observed + {PairOf(expected, given)}), true), given.value.checks.value);
    }
  }

  lemma {:induction false} ChecksKeepErrors(pair: Pair, c: InCase, checks: seq<Option<Check>>)
    requires c.s.errors != []
    ensures ReadChecks(pair, c, checks).s.errors != []
  {
    if checks != [] {
      ChecksKeepErrors(pair, c, checks[..|checks| - 1]);
    }
  }

  // ----- the full form -----

  lemma FullBodyIsClean(expected: set<Pair>, r: Report)
    requires r.kind.Null?
    ensures var s := ReadBody(expected, r);
            && (s.errors == [] <==> GoodHeader(r) && r.cases.Some? && GoodCases(expected, r.cases.value))
            && (s.errors == [] ==> (s.observed == expected <==> forall pair :: pair in expected <==> HasPair(expected, r.cases.value, pair)))
  {
    HeaderMeans(r);
    if r.cases.Some? {
      CasesAreClean(expected, HeaderErrors(r), r.cases.value);
    }
  }

  // ----- the compact form -----

  predicate GoodName(name: Option<CaseName>) {
    name.Some? && name.value.mode.Str? && name.value.transport.Str?
  }

  ghost predicate GoodNames(names: seq<Option<CaseName>>) {
    (forall i :: 0 <= i < |names| ==> GoodName(names[i])) && NoDuplicates(names)
  }

  function NameOf(pair: Pair): Option<CaseName> {
    Some(CaseName(Str(pair.0), Str(pair.1)))
  }

  lemma SnocIn<T>(all: seq<T>, x: T)
    requires all != []
    ensures x in all <==> x in all[..|all| - 1] || x == all[|all| - 1]
    ensures NoDuplicates(all) <==> NoDuplicates(all[..|all| - 1]) && all[|all| - 1] !in all[..|all| - 1]
  {
    var n := |all| - 1;
    assert all == all[..n] + [all[n]];
    assert forall j :: 0 <= j < n ==> all[..n][j] == all[j];
    if all[n] in all[..n] {
      var j :| 0 <= j < n && all[..n][j] == all[n];
      assert all[j] == all[n];
    }
  }

  lemma {:induction false} NamesAreClean(errors: seq<Problem>, names: seq<Option<CaseName>>)
    ensures var s := ReadNames(Read(errors, {}, map[]), names);
            && s.results == map[]
            && (s.errors == [] <==> errors == [] && GoodNames(names))
            && (s.errors == [] ==> forall pair :: pair in s.observed <==> NameOf(pair) in names)
  {
    if names != [] {
      var n := |names| - 1;
      NamesAreClean(errors, names[..n]);
      SnocIn(names, names[n]);
      assert names == names[..n] + [names[n]];
      if GoodName(names[n]) {
        assert names[n] == NameOf((names[n].value.mode.s, names[n].value.transport.s));
      }
    }
  }

  predicate GoodRecord(expected: set<Pair>, record: Option<Record>) {
    && record.Some? && record.value.mode.Str? && record.value.transport.Str? && (record.value.mode.s, record.value.transport.s) in expected
    && record.value.checkId.Str? && PREFIX <= record.value.checkId.s
  }

  lemma RecordMeans(expected: set<Pair>, record: Option<Record>)
    ensures RecordIdentity(expected, record).Some? <==> GoodRecord(expected, record)
    ensures GoodRecord(expected, record) ==> record == ToRecord(RecordIdentity(expected, record).value)
  {
  }

  ghost predicate GoodRecords(expected: set<Pair>, records: seq<Option<Record>>) {
    (forall j :: 0 <= j < |records| ==> GoodRecord(expected, records[j])) && NoDuplicates(records)
  }

  ghost predicate NoneRead(results: Results, records: seq<Option<Record>>) {
    forall id :: id in results ==> ToRecord(id) !in records
  }

  lemma {:induction false} RecordsAreClean(expected: set<Pair>, success: bool, s: Reading, records: seq<Option<Record>>)
    ensures var s' := ReadRecords(expected, success, s, records);
            && s'.observed == s.observed
            && (s'.errors == [] <==> s.errors == [] && GoodRecords(expected, records) && NoneRead(s.results, records))
            && (s'.errors == [] ==> forall id :: id in s'.results <==> id in s.results || ToRecord(id) in records)
  {
    if records != [] {
      var n := |records| - 1;
      RecordsAreClean(expected, success, s, records[..n]);
      SnocIn(records, records[n]);
      RecordMeans(expected, records[n]);
      assert records == records[..n] + [records[n]];
    }
  }

  ghost predicate GoodBuckets(expected: set<Pair>, buckets: Buckets) {
    && buckets.passing.Some? && buckets.failing.Some?
    && GoodRecords(expected, buckets.passing.value) && GoodRecords(expected, buckets.failing.value)
    && forall record :: record in buckets.passing.value ==> record !in buckets.failing.value
  }

  lemma BucketsAreClean(expected: set<Pair>, s: Reading, checks: Option<Buckets>)
    requires s.results == map[]
    ensures var s' := ReadBuckets(expected, s, checks);
            && s'.observed == s.observed
            && (s'.errors == [] <==> s.errors == [] && checks.Some? && GoodBuckets(expected, checks.value))
  {
    var begun := if checks.None? then Complain(s, NoCheckIdentities) else s;
    var buckets := if checks.None? then Buckets(None, None) else checks.value;
    var passed := ReadBucket(expected, true, begun, buckets.passing);
    if buckets.passing.Some? {
      RecordsAreClean(expected, true, begun, buckets.passing.value);
    }
    if buckets.failing.Some? {
      RecordsAreClean(expected, false, passed, buckets.failing.value);
      if buckets.passing.Some? && passed.errors == [] {
        DisjointMeans(expected, passed.results, buckets.passing.value, buckets.failing.value);
      }
    }
  }

  lemma DisjointMeans(expected: set<Pair>, results: Results, passing: seq<Option<Record>>, failing: seq<Option<Record>>)
    requires GoodRecords(expected, passing) && forall id :: id in results <==> ToRecord(id) in passing
    ensures NoneRead(results, failing) <==> forall record :: record in passing ==> record !in failing
  {
    if NoneRead(results, failing) {
      forall record | record in passing ensures record !in failing {
        RecordMeans(expected, record);
        assert RecordIdentity(expected, record).value in results;
      }
    }
  }

  lemma CompactBodyIsClean(expected: set<Pair>, r: Report)
    requires !r.kind.Null?
    ensures var s := ReadBody(expected, r);
            && (s.errors == [] <==>
                  && GoodHeader(r) && r.kind == Str(KIND) && r.requiredCases.Some? && GoodNames(r.requiredCases.value)
                  && r.checks.Some? && GoodBuckets(expected, r.checks.value))
            && (s.errors == [] ==> (s.observed == expected <==> forall pair :: pair in expected <==> NameOf(pair) in r.requiredCases.value))
  {
    HeaderMeans(r);
    var errors := HeaderErrors(r) + When(r.kind != Str(KIND), UnsupportedKind);
    var begun := Read(errors, {}, map[]);
    if r.requiredCases.Some? {
      NamesAreClean(errors, r.requiredCases.value);
      BucketsAreClean(expected, ReadNames(begun, r.requiredCases.value), r.checks);
    } else {
      BucketsAreClean(expected, Complain(begun, NoRequiredCases), r.checks);
    }
  }
}
