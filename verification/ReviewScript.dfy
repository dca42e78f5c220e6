/** The script that reads, compacts and gates review reports, with its loops. */
module ReviewScript {
  import opened Common
  import opened PyValues
  import opened Sorting
  import opened ReviewReader
  import opened ReviewGate

  method CollectNames(begun: Reading, names: seq<Option<CaseName>>) returns (s: Reading)
    ensures s == ReadNames(begun, names)
  {
    var errors, observed := begun.errors, begun.observed;
    for i := 0 to |names|
      invariant Read(errors, observed, begun.results) == ReadNames(begun, names[..i])
    {
      assert names[..i + 1][..i] == names[..i];
      if names[i].None? || !names[i].value.mode.Str? || !names[i].value.transport.Str? {
        errors := errors + [BadCase];
      } else {
        var pair := (names[i].value.mode.s, names[i].value.transport.s);
        if pair in observed {
          errors := errors + [RepeatedCase];
        } else {
          observed := observed + {pair};
        }
      }
    }
    assert names[..|names|] == names;
    s := Read(errors, observed, begun.results);
  }

  method CollectRecords(expected: set<Pair>, success: bool, begun: Reading, records: seq<Option<Record>>) returns (s: Reading)
    ensures s == ReadRecords(expected, success, begun, records)
  {
    var errors, results := begun.errors, begun.results;
    for i := 0 to |records|
      invariant Read(errors, begun.observed, results) == ReadRecords(expected, success, begun, records[..i])
    {
      assert records[..i + 1][..i] == records[..i];
      match RecordIdentity(expected, records[i])
      case None => errors := errors + [BadRecord(success)];
      case Some(id) =>
        if id in results {
          errors := errors + [RepeatedCheck];
        } else {
          results := results[id := success];
        }
    }
    assert records[..|records|] == records;
    s := Read(errors, begun.observed, results);
  }

  method CollectBucket(expected: set<Pair>, success: bool, begun: Reading, records: Option<seq<Option<Record>>>) returns (s: Reading)
    ensures s == ReadBucket(expected, success, begun, records)
  {
    match records
    case None => s := Complain(begun, NoBucket(success));
    case Some(rs) => s := CollectRecords(expected, success, begun, rs);
  }

  method CollectChecks(pair: Pair, begun: Reading, checks: seq<Option<Check>>) returns (c: InCase)
    ensures c == ReadChecks(pair, InCase(begun, true), checks)
  {
    var errors, results, success := begun.errors, begun.results, true;
    for i := 0 to |checks|
      invariant InCase(Read(errors, begun.observed, results), success) == ReadChecks(pair, InCase(begun, true), checks[..i])
    {
      assert checks[..i + 1][..i] == checks[..i];
      match CheckIdentity(pair, checks[i])
      case None => errors := errors + [BadCheck];
      case Some(id) =>
        if id in results {
          errors := errors + [RepeatedCheck];
        } else {
          results := results[id := checks[i].value.success.b];
          success := success && checks[i].value.success.b;
        }
    }
    assert checks[..|checks|] == checks;
    c := InCase(Read(errors, begun.observed, results), success);
  }

  method CollectCase(expected: set<Pair>, begun: Reading, given: Option<Case>) returns (s: Reading)
    ensures s == CaseStep(expected, begun, given)
  {
    if given.None? {
      return Complain(begun, BadCase);
    }
    var c := given.value;
    if !c.mode.Str? || !c.transport.Str? || (c.mode.s, c.transport.s) !in expected {
      return Complain(begun, UnexpectedCase);
    }
    var pair := (c.mode.s, c.transport.s);
    if pair in begun.observed {
      return Complain(begun, RepeatedCase);
    }
    s := begun.(observed := begun.observed + {pair});
    if c.checks.None? || c.checks.value == [] {
      return Complain(s, NoChecks(pair.0, pair.1));
    }
    var done := CollectChecks(pair, s, c.checks.value);
    s := done.s;
    if c.success != Bool(done.success) {
      s := Complain(s, InconsistentCase(pair.0, pair.1));
    }
  }

  method CollectCases(expected: set<Pair>, begun: Reading, cases: seq<Option<Case>>) returns (s: Reading)
    ensures s == ReadCases(expected, begun, cases)
  {
    s := begun;
    for i := 0 to |cases|
      invariant s == ReadCases(expected, begun, cases[..i])
    {
      assert cases[..i + 1][..i] == cases[..i];
      s := CollectCase(expected, s, cases[i]);
    }
    assert cases[..|cases|] == cases;
  }

  method RequiredReviewChecks(expected: set<Pair>, r: Report) returns (s: Reading)
    ensures s == ReadReport(expected, r)
  {
    s := Read(HeaderErrors(r), {}, map[]);
    if Compact(r) {
      s := s.(errors := s.errors + When(r.kind != Str(KIND), UnsupportedKind));
      match r.requiredCases {
        case None => s := Complain(s, NoRequiredCases);
        case Some(names) => s := CollectNames(s, names);
      }
      var buckets := Buckets(None, None);
      match r.checks {
        case None => s := Complain(s, NoCheckIdentities);
        case Some(given) => buckets := given;
      }
      s := CollectBucket(expected, true, s, buckets.passing);
      s := CollectBucket(expected, false, s, buckets.failing);
    } else {
      match r.cases {
        case None => s := Complain(s, NoCases);
        case Some(cases) => s := CollectCases(expected, s, cases);
      }
    }
    s := s.(errors := s.errors + ClosingErrors(expected, r, s));
  }

  method ListIdentities(ids: set<Identity>) returns (q: seq<Identity>)
    ensures q == Listed(ids)
  {
    Orders();
    q := ListSorted(IdentityLe, ids);
  }

  method CompactReviewBaseline(expected: set<Pair>, r: Report) returns (c: Result<Report, seq<Problem>>)
    ensures c == CompactReport(expected, r)
  {
    var reading := RequiredReviewChecks(expected, r);
    if reading.errors != [] {
      return Err(reading.errors);
    }
    Orders();
    var cases := ListSorted(PairLe, expected);
    var passing := ListIdentities(Succeeded(reading.results));
    var failing := ListIdentities(Failed(reading.results));
    c := Ok(CompactForm(r.summary, cases, passing, failing));
  }

  // ----- the gate -----

  method JudgeCandidate(b: Results, c: Results, order: seq<Identity>) returns (known: seq<Identity>, newOnes: seq<Identity>)
    requires forall id :: id in order ==> id in c
    ensures known == Filter(id => Has(c, id, false) && Has(b, id, false), order)
    ensures newOnes == Filter(id => Has(c, id, false) && !Has(b, id, false), order)
  {
    ghost var isKnown, isNew := id => Has(c, id, false) && Has(b, id, false), id => Has(c, id, false) && !Has(b, id, false);
    known, newOnes := [], [];
    for i := 0 to |order|
      invariant known == Filter(isKnown, order[..i]) && newOnes == Filter(isNew, order[..i])
    {
      FilterNext(isKnown, order, i);
      FilterNext(isNew, order, i);
      if !c[order[i]] {
        if order[i] in b && !b[order[i]] {
          known := known + [order[i]];
        } else {
          newOnes := newOnes + [order[i]];
        }
      }
    }
    assert order[..|order|] == order;
  }

  method JudgeBaseline(b: Results, c: Results, order: seq<Identity>) returns (missing: seq<Identity>, fixed: seq<Identity>)
    requires forall id :: id in order ==> id in b
    ensures missing == Filter(id => id !in c, order)
    ensures fixed == Filter(id => Has(b, id, false) && Has(c, id, true), order)
  {
    ghost var isMissing, isFixed := (id: Identity) => id !in c, id => Has(b, id, false) && Has(c, id, true);
    missing, fixed := [], [];
    for i := 0 to |order|
      invariant missing == Filter(isMissing, order[..i]) && fixed == Filter(isFixed, order[..i])
    {
      FilterNext(isMissing, order, i);
      FilterNext(isFixed, order, i);
      if order[i] !in c {
        missing := missing + [order[i]];
      } else if !b[order[i]] && c[order[i]] {
        fixed := fixed + [order[i]];
      }
    }
    assert order[..|order|] == order;
  }

  lemma ListsAreCompared(b: Results, c: Results)
    ensures Filter(id => Has(c, id, false) && Has(b, id, false), Listed(c.Keys)) == Listed(KnownFailures(b, c))
    ensures Filter(id => Has(c, id, false) && !Has(b, id, false), Listed(c.Keys)) == Listed(NewFailures(b, c))
    ensures Filter(id => id !in c, Listed(b.Keys)) == Listed(MissingChecks(b, c))
    ensures Filter(id => Has(b, id, false) && Has(c, id, true), Listed(b.Keys)) == Listed(FixedChecks(b, c))
  {
    FilterListed(c.Keys, id => Has(c, id, false) && Has(b, id, false), KnownFailures(b, c));
    FilterListed(c.Keys, id => Has(c, id, false) && !Has(b, id, false), NewFailures(b, c));
    FilterListed(b.Keys, id => id !in c, MissingChecks(b, c));
    FilterListed(b.Keys, id => Has(b, id, false) && Has(c, id, true), FixedChecks(b, c));
  }

  method EvaluateReviewGate(expected: set<Pair>, candidate: Report, baseline: Report) returns (result: GateResult)
    ensures result == Gate(expected, candidate, baseline)
  {
    var b := RequiredReviewChecks(expected, baseline);
    var c := RequiredReviewChecks(expected, candidate);
    var candidates := ListIdentities(c.results.Keys);
    var baselines := ListIdentities(b.results.Keys);
    ListedAre(c.results.Keys);
    ListedAre(b.results.Keys);
    ListsAreCompared(b.results, c.results);
    var known, newOnes := JudgeCandidate(b.results, c.results, candidates);
    var missing, fixed := JudgeBaseline(b.results, c.results, baselines);
    result := GateResult(Labelled(Baseline, b.errors) + Labelled(Candidate, c.errors), known, newOnes, missing, fixed);
  }
}
