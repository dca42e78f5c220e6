/**
 What a check of a report says, on its own fields: which check it is, and whether it passed. Two
 checks of a case are the same one if their source, scenario and effective id agree.
 */
module ComplianceChecks {
  import opened Common
  import opened PyValues
  import opened ComplianceReport
  import opened ComplianceReader

  // ----- the effective id -----

  /** The number that the upstream runner gives to a repeated observation. */
  predicate IsNumber(env: Env, number: string) {
    number != "" && forall i :: 0 <= i < |number| ==> env.decimal(number[i]) && number[i] != '#'
  }

  ghost predicate NumberedAs(env: Env, name: string, stem: string) {
    stem != "" && exists number :: IsNumber(env, number) && name == stem + "#" + number
  }

  /** The name without its trailing number, if it has one. */
  ghost predicate IsStem(env: Env, name: string, stem: string) {
    NumberedAs(env, name, stem) || (stem == name && forall s :: !NumberedAs(env, name, s))
  }

  lemma {:induction false} AfterLastHash(name: string)
    ensures var k := LastHash(name); (k >= 0 ==> name[k] == '#') && forall i :: k < i < |name| ==> name[i] != '#'
  {
    if name != "" && name[|name| - 1] != '#' {
      var front := name[..|name| - 1];
      AfterLastHash(front);
      assert forall i :: 0 <= i < |front| ==> front[i] == name[i];
    }
  }

  lemma NumberedMeans(env: Env, name: string, stem: string)
    ensures NumberedAs(env, name, stem) <==>
              var k := LastHash(name); k > 0 && Decimal(env, name[k + 1..]) && stem == name[..k]
  {
    var k := LastHash(name);
    AfterLastHash(name);
    if NumberedAs(env, name, stem) {
      var number :| IsNumber(env, number) && name == stem + "#" + number;
      LastHashIsLast(stem, number);
      assert name[k + 1..] == number && name[..k] == stem;
    }
    if k > 0 && Decimal(env, name[k + 1..]) && stem == name[..k] {
      var number := name[k + 1..];
      assert name == stem + "#" + number;
      assert forall i :: 0 <= i < |number| ==> number[i] == name[k + 1 + i];
      assert IsNumber(env, number);
    }
  }

  lemma StableNameIsStem(env: Env, name: string, stem: string)
    ensures IsStem(env, name, stem) <==> stem == StableName(env, name)
  {
    forall s ensures NumberedAs(env, name, s) <==> var k := LastHash(name); k > 0 && Decimal(env, name[k + 1..]) && s == name[..k] {
      NumberedMeans(env, name, s);
    }
    var k := LastHash(name);
    if k > 0 && Decimal(env, name[k + 1..]) {
      assert NumberedAs(env, name, name[..k]);
    }
  }

  /** The id under which a check is compared: its own if it gives one, and otherwise the stem of its name. */
  ghost predicate EffectiveId(env: Env, check: Check, id: string) {
    check.checkId == Str(id) || (check.checkId.Null? && check.name.Str? && IsStem(env, check.name.s, id))
  }

  // ----- one check, one record -----

  ghost predicate IsScenario(v: Value, scenario: string) {
    (v == Str(scenario) && scenario != "") || (v.Null? && scenario == "")
  }

  ghost predicate IsStatus(check: Check, status: Status) {
    match status
    case Pass => check.status == Str("PASS") && check.success == Bool(true)
    case Skip => check.status == Str("SKIP") && check.success == Bool(true)
    case Fail => check.status == Str("FAIL") && check.success == Bool(false)
  }

  /** A check says that the check `id` of its case had the status. */
  ghost predicate Attests(env: Env, check: Option<Check>, id: Identity, status: Status) {
    && check.Some? && check.value.name.Str? && check.value.name.s != "" && check.value.checkId != Str("")
    && check.value.source == Str(id.source) && id.source in ["official", "harness", "supplemental"]
    && IsScenario(check.value.scenario, id.scenario) && EffectiveId(env, check.value, id.checkId) && IsStatus(check.value, status)
  }

  lemma IdentityMeans(env: Env, mode: string, transport: string, check: Check, id: Identity)
    ensures IdentityOf(env, mode, transport, check) == One(id) <==>
              && id.mode == mode && id.transport == transport
              && check.name.Str? && check.name.s != "" && check.checkId != Str("")
              && check.source == Str(id.source) && id.source in ["official", "harness", "supplemental"]
              && IsScenario(check.scenario, id.scenario) && EffectiveId(env, check, id.checkId)
  {
    assert forall s :: s in SOURCES <==> s in ["official", "harness", "supplemental"];
    if check.name.Str? { StableNameIsStem(env, check.name.s, id.checkId); }
  }

  lemma StatusMeans(check: Check, status: Status)
    ensures IsStatus(check, status) <==> StatusOf(check.status) == Some(status) && check.success == Bool(!status.Fail?)
  {
    assert "PASS"[0] == 'P' && "FAIL"[0] == 'F' && "SKIP"[0] == 'S';
  }

  lemma JudgeIs(env: Env, mode: string, transport: string, check: Option<Check>, id: Identity, status: Status)
    ensures Judge(env, mode, transport, check) == Good(id, status) <==>
              id.mode == mode && id.transport == transport && Attests(env, check, id, status)
  {
    if check.Some? {
      IdentityMeans(env, mode, transport, check.value, id);
      StatusMeans(check.value, status);
    }
  }

  /** Two good checks of a case are compared as the same one if and only if their source, scenario and effective id agree. */
  lemma SameCheckIff(env: Env, mode: string, transport: string, a: Option<Check>, b: Option<Check>)
    requires Judge(env, mode, transport, a).Good? && Judge(env, mode, transport, b).Good?
    ensures Judge(env, mode, transport, a).id == Judge(env, mode, transport, b).id <==>
              && a.value.source == b.value.source && a.value.scenario == b.value.scenario
              && forall id :: EffectiveId(env, a.value, id) <==> EffectiveId(env, b.value, id)
  {
    var x, y := Judge(env, mode, transport, a), Judge(env, mode, transport, b);
    JudgeIs(env, mode, transport, a, x.id, x.status);
    JudgeIs(env, mode, transport, b, y.id, y.status);
    forall id ensures EffectiveId(env, a.value, id) <==> id == x.id.checkId { OneEffectiveId(env, a.value, x.id.checkId, id); }
    forall id ensures EffectiveId(env, b.value, id) <==> id == y.id.checkId { OneEffectiveId(env, b.value, y.id.checkId, id); }
  }

  lemma OneEffectiveId(env: Env, check: Check, id: string, other: string)
    requires EffectiveId(env, check, id)
    ensures EffectiveId(env, check, other) <==> other == id
  {
    if check.name.Str? {
      StableNameIsStem(env, check.name.s, id);
      StableNameIsStem(env, check.name.s, other);
    }
  }

  /** A record of a compact report names the check. */
  ghost predicate Records(record: Option<Record>, id: Identity) {
    && record == Some(Record(Str(id.mode), Str(id.transport), Str(id.source), Str(id.scenario), Str(id.checkId)))
    && id.mode in ["2025-06-18", "2025-11-25", "2026-07-28"] && id.transport in ["stdio", "official-http"]
    && id.source in ["official", "harness", "supplemental"] && id.checkId != ""
  }

  lemma RecordIs(record: Option<Record>, id: Identity)
    ensures RecordIdentity(record) == One(id) <==> Records(record, id)
  {
    assert forall s :: s in SOURCES <==> s in ["official", "harness", "supplemental"];
    assert forall s :: s in MODES <==> s in ["2025-06-18", "2025-11-25", "2026-07-28"];
    assert forall s :: s in TRANSPORTS <==> s in ["stdio", "official-http"];
  }
}
