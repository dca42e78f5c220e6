/** The compactor of review reports, how its output reads back, and the gate that compares two reports. */
module ReviewGate {
  import opened Common
  import opened PyValues
  import opened Sorting
  import opened ReviewReader

  // ----- sorted listings -----

  function Key(id: Identity): seq<string> {
    [id.mode, id.transport, id.checkId]
  }

  function PairKey(pair: Pair): seq<string> {
    [pair.0, pair.1]
  }

  const IdentityLe: (Identity, Identity) -> bool := (a: Identity, b: Identity) => StringsLe(Key(a), Key(b))

  const PairLe: (Pair, Pair) -> bool := (a: Pair, b: Pair) => StringsLe(PairKey(a), PairKey(b))

  lemma Orders()
    ensures TotalOrder(IdentityLe) && TotalOrder(PairLe)
  {
    StringOrders();
    forall a, b | Key(a) == Key(b) ensures a == b {
      assert Key(a)[0] == a.mode && Key(a)[1] == a.transport && Key(a)[2] == a.checkId;
      assert Key(b)[0] == b.mode && Key(b)[1] == b.transport && Key(b)[2] == b.checkId;
    }
    OrderByKey(StringsLe, Key, IdentityLe);
    forall a, b | PairKey(a) == PairKey(b) ensures a == b {
      assert PairKey(a)[0] == a.0 && PairKey(a)[1] == a.1;
      assert PairKey(b)[0] == b.0 && PairKey(b)[1] == b.1;
    }
    OrderByKey(StringsLe, PairKey, PairLe);
  }

  ghost function Listed(ids: set<Identity>): seq<Identity> {
    Orders();
    SortedSet(IdentityLe, ids)
  }

  ghost function ListedPairs(pairs: set<Pair>): seq<Pair> {
    Orders();
    SortedSet(PairLe, pairs)
  }

  lemma ListedAre(ids: set<Identity>)
    ensures NoDuplicates(Listed(ids)) && Elements(Listed(ids)) == ids
    ensures Listed(ids) == [] <==> ids == {}
    ensures forall id :: id in Listed(ids) ==> id in ids
  {
    Orders();
    ElementsMean(Listed(ids), ids);
  }

  lemma ListedPairsAre(pairs: set<Pair>)
    ensures NoDuplicates(ListedPairs(pairs)) && Elements(ListedPairs(pairs)) == pairs
  {
    Orders();
  }

  lemma FilterListed(ids: set<Identity>, p: Identity -> bool, chosen: set<Identity>)
    requires forall id :: id in chosen <==> id in ids && p(id)
    ensures Filter(p, Listed(ids)) == Listed(chosen)
  {
    Orders();
    FilterSorted(IdentityLe, ids, p, chosen);
  }

  // ----- compaction -----

  /** `asdict(identity)` */
  function ToRecord(id: Identity): Option<Record> {
    Some(Record(Str(id.mode), Str(id.transport), Str(id.checkId)))
  }

  function ToRecords(q: seq<Identity>): (records: seq<Option<Record>>)
    ensures |records| == |q|
  {
    seq(|q|, i requires 0 <= i < |q| => ToRecord(q[i]))
  }

  function ToNames(pairs: seq<Pair>): (names: seq<Option<CaseName>>)
    ensures |names| == |pairs|
  {
    seq(|pairs|, i requires 0 <= i < |pairs| => Some(CaseName(Str(pairs[i].0), Str(pairs[i].1))))
  }

  function CompactForm(summary: Option<Summary>, cases: seq<Pair>, passing: seq<Identity>, failing: seq<Identity>): Report {
    Report(
      schemaVersion := Int(SCHEMA),
      reviewer := Str(REVIEWER),
      kind := Str(KIND),
      modes := Null,
      requiredModes := List(Strings(MODES)),
      requiredCases := Some(ToNames(cases)),
      checks := Some(Buckets(Some(ToRecords(passing)), Some(ToRecords(failing)))),
      cases := None,
      summary := summary,
      success := Null)
  }

  ghost function FormOf(expected: set<Pair>, r: Report, results: Results): Report {
    CompactForm(r.summary, ListedPairs(expected), Listed(Succeeded(results)), Listed(Failed(results)))
  }

  /** `_compact_review_regression_baseline` */
  ghost function CompactReport(expected: set<Pair>, r: Report): Result<Report, seq<Problem>> {
    var reading := ReadReport(expected, r);
    if reading.errors != [] then Err(reading.errors) else Ok(FormOf(expected, r, reading.results))
  }

  // ----- reading the compact form back -----

  lemma {:induction false} NamesReadBack(errors: seq<Problem>, pairs: seq<Pair>)
    requires NoDuplicates(pairs)
    ensures ReadNames(Read(errors, {}, map[]), ToNames(pairs)) == Read(errors, Elements(pairs), map[])
  {
    if pairs == [] {
      assert Elements(pairs) == {};
    } else {
      var n := |pairs| - 1;
      assert pairs == pairs[..n] + [pairs[n]];
      NamesReadBack(errors, pairs[..n]);
      assert ToNames(pairs)[..n] == ToNames(pairs[..n]);
      assert pairs[n] !in Elements(pairs[..n]);
      assert Elements(pairs) == Elements(pairs[..n]) + {pairs[n]};
    }
  }

  /** The results after each of `more` was read with the same outcome. */
  function Put(results: Results, more: set<Identity>, success: bool): Results {
    map id | id in results.Keys + more :: if id in more then success else results[id]
  }

  lemma PutOne(results: Results, more: set<Identity>, id: Identity, success: bool)
    ensures Put(results, more, success)[id := success] == Put(results, more + {id}, success)
  {
    assert Put(results, more, success)[id := success].Keys == Put(results, more + {id}, success).Keys;
  }

  lemma {:induction false} RecordsReadBack(expected: set<Pair>, success: bool, s: Reading, q: seq<Identity>)
    requires NoDuplicates(q) && s.results.Keys !! Elements(q)
    requires forall id :: id in q ==> WellFormed(expected, id)
    ensures ReadRecords(expected, success, s, ToRecords(q)) == s.(results := Put(s.results, Elements(q), success))
  {
    if q == [] {
      assert Elements(q) == {};
      assert Put(s.results, {}, success) == s.results;
    } else {
      var n := |q| - 1;
      assert q == q[..n] + [q[n]];
      assert Elements(q) == Elements(q[..n]) + {q[n]};
      assert q[n] !in Elements(q[..n]) && q[n] in Elements(q);
      RecordsReadBack(expected, success, s, q[..n]);
      assert ToRecords(q)[..n] == ToRecords(q[..n]);
      assert RecordIdentity(expected, ToRecords(q)[n]) == Some(q[n]);
      PutOne(s.results, Elements(q[..n]), q[n], success);
    }
  }

  lemma BothLists(results: Results)
    ensures Put(Put(map[], Succeeded(results), true), Failed(results), false) == results
  {
    var both := Put(Put(map[], Succeeded(results), true), Failed(results), false);
    assert both.Keys == results.Keys;
  }

  lemma FormHeader(summary: Option<Summary>, cases: seq<Pair>, passing: seq<Identity>, failing: seq<Identity>)
    ensures var form := CompactForm(summary, cases, passing, failing);
            HeaderErrors(form) + When(form.kind != Str(KIND), UnsupportedKind) == []
  {
    var form := CompactForm(summary, cases, passing, failing);
    assert EqInt(form.schemaVersion, SCHEMA) && Compact(form) && form.requiredModes == List(Strings(MODES));
  }

  lemma BucketsReadBack(expected: set<Pair>, passing: seq<Identity>, failing: seq<Identity>, results: Results)
    requires AllWellFormed(expected, results)
    requires NoDuplicates(passing) && NoDuplicates(failing)
    requires Elements(passing) == Succeeded(results) && Elements(failing) == Failed(results)
    ensures ReadBuckets(expected, Read([], expected, map[]), Some(Buckets(Some(ToRecords(passing)), Some(ToRecords(failing)))))
         == Read([], expected, results)
  {
    assert forall id :: id in passing ==> id in Elements(passing);
    assert forall id :: id in failing ==> id in Elements(failing);
    var named := Read([], expected, map[]);
    RecordsReadBack(expected, true, named, passing);
    RecordsReadBack(expected, false, named.(results := Put(map[], Succeeded(results), true)), failing);
    BothLists(results);
  }

  lemma ListsReadBack(expected: set<Pair>, summary: Option<Summary>, cases: seq<Pair>, passing: seq<Identity>, failing: seq<Identity>, results: Results)
    requires AllWellFormed(expected, results)
    requires NoDuplicates(cases) && NoDuplicates(passing) && NoDuplicates(failing)
    requires Elements(cases) == expected && Elements(passing) == Succeeded(results) && Elements(failing) == Failed(results)
    ensures ReadBody(expected, CompactForm(summary, cases, passing, failing)) == Read([], expected, results)
  {
    FormHeader(summary, cases, passing, failing);
    NamesReadBack([], cases);
    BucketsReadBack(expected, passing, failing, results);
  }

  lemma FormReadsBack(expected: set<Pair>, r: Report, results: Results)
    requires AllWellFormed(expected, results)
    ensures ReadBody(expected, FormOf(expected, r, results)) == Read([], expected, results)
  {
    ListedPairsAre(expected);
    ListedAre(Succeeded(results));
    ListedAre(Failed(results));
    ListsReadBack(expected, r.summary, ListedPairs(expected), Listed(Succeeded(results)), Listed(Failed(results)), results);
  }

  lemma ClosedMeans(expected: set<Pair>, r: Report)
    requires Valid(expected, r)
    ensures ReadBody(expected, r).errors == [] && ReadBody(expected, r).observed == expected
    ensures TotalsMatch(r.summary, expected, ReadReport(expected, r).results)
  {
    var s := ReadBody(expected, r);
    assert ClosingErrors(expected, r, s) == [];
    assert expected - s.observed == {} && s.observed - expected == {};
    assert s.observed == expected;
  }

  /** Every report that compacts reads back from its compact form without problems, with exactly the same
      outcome for every check and with totals that agree with them. */
  lemma CompactReadsBack(expected: set<Pair>, r: Report)
    requires CompactReport(expected, r).Ok?
    ensures var form, results := CompactReport(expected, r).value, ReadReport(expected, r).results;
            && ReadReport(expected, form) == Read([], expected, results)
            && TotalsMatch(form.summary, expected, results)
  {
    var results := ReadReport(expected, r).results;
    BodyIsWellFormed(expected, r);
    ClosedMeans(expected, r);
    FormReadsBack(expected, r, results);
    assert expected - expected == {};
  }

  /** Compacting a compact form again returns it unchanged. */
  lemma CompactIsIdempotent(expected: set<Pair>, r: Report)
    requires CompactReport(expected, r).Ok?
    ensures CompactReport(expected, CompactReport(expected, r).value) == CompactReport(expected, r)
  {
    CompactReadsBack(expected, r);
  }

  // ----- the gate -----

  datatype Label = Baseline | Candidate

  datatype GateResult = GateResult(
    errors: seq<(Label, Problem)>,
    knownFailures: seq<Identity>,
    newFailures: seq<Identity>,
    missingChecks: seq<Identity>,
    fixedChecks: seq<Identity>)
  {
    predicate Success() {
      errors == [] && newFailures == [] && missingChecks == []
    }
  }

  function Labelled(whose: Label, problems: seq<Problem>): seq<(Label, Problem)> {
    seq(|problems|, i requires 0 <= i < |problems| => (whose, problems[i]))
  }

  function KnownFailures(b: Results, c: Results): set<Identity> {
    set id | id in c && Has(c, id, false) && Has(b, id, false)
  }

  function NewFailures(b: Results, c: Results): set<Identity> {
    set id | id in c && Has(c, id, false) && !Has(b, id, false)
  }

  function MissingChecks(b: Results, c: Results): set<Identity> {
    set id | id in b && id !in c
  }

  function FixedChecks(b: Results, c: Results): set<Identity> {
    set id | id in b && Has(b, id, false) && Has(c, id, true)
  }

  /** `_evaluate_review_regression_gate` */
  ghost function Gate(expected: set<Pair>, candidate: Report, baseline: Report): GateResult {
    var b, c := ReadReport(expected, baseline), ReadReport(expected, candidate);
    GateResult(
      Labelled(Baseline, b.errors) + Labelled(Candidate, c.errors),
      Listed(KnownFailures(b.results, c.results)),
      Listed(NewFailures(b.results, c.results)),
      Listed(MissingChecks(b.results, c.results)),
      Listed(FixedChecks(b.results, c.results)))
  }

  /** The gate gives the same result, in all its lists, with either form of the baseline. */
  lemma EitherFormGates(expected: set<Pair>, candidate: Report, baseline: Report)
    requires CompactReport(expected, baseline).Ok?
    ensures Gate(expected, candidate, CompactReport(expected, baseline).value) == Gate(expected, candidate, baseline)
  {
    CompactReadsBack(expected, baseline);
  }

  ghost predicate Accepts(expected: set<Pair>, candidate: Report, baseline: Report) {
    Gate(expected, candidate, baseline).Success()
  }

  /** Every check of the baseline ran again, and none fails that did not fail before. */
  ghost predicate NoWorse(b: Results, c: Results) {
    forall id :: (id in b ==> id in c) && (Has(c, id, false) ==> Has(b, id, false))
  }

  lemma NoWorseMeans(b: Results, c: Results)
    ensures NewFailures(b, c) == {} && MissingChecks(b, c) == {} <==> NoWorse(b, c)
  {
    if NewFailures(b, c) == {} && MissingChecks(b, c) == {} {
      forall id ensures (id in b ==> id in c) && (Has(c, id, false) ==> Has(b, id, false)) {
        assert id !in NewFailures(b, c) && id !in MissingChecks(b, c);
      }
    }
  }

  /** The gate accepts exactly when both reports are valid and the candidate is no worse. */
  lemma AcceptsMeans(expected: set<Pair>, candidate: Report, baseline: Report)
    ensures Accepts(expected, candidate, baseline) <==>
              && Valid(expected, baseline) && Valid(expected, candidate)
              && NoWorse(ReadReport(expected, baseline).results, ReadReport(expected, candidate).results)
  {
    var b, c := ReadReport(expected, baseline).results, ReadReport(expected, candidate).results;
    ListedAre(NewFailures(b, c));
    ListedAre(MissingChecks(b, c));
    NoWorseMeans(b, c);
  }

  lemma AcceptanceIsTransitive(expected: set<Pair>, a: Report, b: Report, c: Report)
    requires Accepts(expected, b, a) && Accepts(expected, c, b)
    ensures Accepts(expected, c, a)
  {
    AcceptsMeans(expected, b, a);
    AcceptsMeans(expected, c, b);
    AcceptsMeans(expected, c, a);
  }

  /** A report is accepted against itself exactly when it is valid, that is, when it compacts. */
  lemma AcceptanceIsReflexive(expected: set<Pair>, r: Report)
    ensures Accepts(expected, r, r) <==> Valid(expected, r)
    ensures Accepts(expected, r, r) <==> CompactReport(expected, r).Ok?
  {
    AcceptsMeans(expected, r, r);
  }

  ghost predicate Chain(expected: set<Pair>, rs: seq<Report>) {
    forall i :: 0 < i < |rs| ==> Accepts(expected, rs[i], rs[i - 1])
  }

  /** No chain of accepted baselines hides a failure or loses a passing check. */
  lemma ChainsHideNothing(expected: set<Pair>, rs: seq<Report>)
    requires |rs| > 1 && Chain(expected, rs)
    ensures Accepts(expected, rs[|rs| - 1], rs[0])
    ensures var first, last := ReadReport(expected, rs[0]).results, ReadReport(expected, rs[|rs| - 1]).results;
            && NoWorse(first, last)
            && forall id :: Has(first, id, true) ==> Has(last, id, true)
  {
    var n := |rs| - 1;
    var accepts := (baseline: Report, candidate: Report) => Accepts(expected, candidate, baseline);
    forall a, b, c | accepts(a, b) && accepts(b, c) ensures accepts(a, c) {
      AcceptanceIsTransitive(expected, a, b, c);
    }
    ChainEnds(accepts, rs);
    AcceptsMeans(expected, rs[n], rs[0]);
    PassingStaysPassing(ReadReport(expected, rs[0]).results, ReadReport(expected, rs[n]).results);
  }

  lemma PassingStaysPassing(b: Results, c: Results)
    requires NoWorse(b, c)
    ensures forall id :: Has(b, id, true) ==> Has(c, id, true)
  {
    forall id | Has(b, id, true) ensures Has(c, id, true) {
      assert !Has(c, id, false);
    }
  }
}
