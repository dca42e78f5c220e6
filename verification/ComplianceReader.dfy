/**
 The validator of conformance reports. It reads the full and the compact form into the same thing: the
 problems found, and for each check identity the statuses it was seen with.
 */
module ComplianceReader {
  import opened Common
  import opened PyValues
  import opened Sorting
  import opened ComplianceReport

  datatype Problem =
    | WrongSchema | NoVersionCheck | NotModern
    | NoOfficial | WrongRepository | WrongRevision | NoAuthentication | NoCatalog
    | UnsupportedKind | WrongModes | WrongTransports | NoIdentities
    | NoBucket(bucket: Status) | BadRecord(bucket: Status) | RepeatedRecord(bucket: Status)
    | NoCases | BadCase | BadRequiredCase | RepeatedCase(mode: string, transport: string)
    | IncompleteCatalog(mode: string) | MissingCase(mode: string, transport: string)
    | NoChecks(mode: string, transport: string) | BadCheck(mode: string, transport: string)
    | NotObserved(mode: string, scenarios: set<string>) | Unexpected(mode: string, scenarios: set<string>)
    | NoAuthPolicy | ShippingRegression

  /** A finished reading; looking up an unhashable value in a set ends it with an exception. */
  datatype Reading = Raised | Read(errors: seq<Problem>, identities: Statuses)

  /** `identities.setdefault(identity, set()).add(status)` */
  function Add(ids: Statuses, id: Identity, status: Status): Statuses {
    ids[id := (if id in ids then ids[id] else {}) + {status}]
  }

  // ----- what both forms share -----

  function When(bad: bool, problem: Problem): seq<Problem> {
    if bad then [problem] else []
  }

  function HeaderErrors(r: Report): seq<Problem> {
    When(!EqInt(r.schemaVersion, SCHEMA), WrongSchema)
    + When(r.versionCheck != Some(Bool(true)), NoVersionCheck)
    + When(r.modern != Bool(true), NotModern)
    + match r.official
      case None => [NoOfficial]
      case Some(o) =>
        When(o.repository != Str(REPOSITORY), WrongRepository)
        + When(o.gitRef != Str(GIT_REF), WrongRevision)
        + When(o.authenticated != Bool(true), NoAuthentication)
        + When(o.scenarios.None?, NoCatalog)
  }

  /** The scenarios a report says it selected for a mode. */
  function Selected(r: Report, mode: string): Value {
    if r.official.Some? && r.official.value.scenarios.Some? && mode in r.official.value.scenarios.value
    then r.official.value.scenarios.value[mode] else Null
  }

  predicate CatalogMatches(env: Env, r: Report, mode: string) {
    Selected(r, mode) == List(Strings(env.catalog(mode)))
  }

  function ScenarioErrors(env: Env, mode: string, observed: set<string>): seq<Problem> {
    var expected := Elements(env.catalog(mode));
    When(expected - observed != {}, NotObserved(mode, expected - observed))
    + When(observed - expected != {}, Unexpected(mode, observed - expected))
  }

  predicate Counts(id: Identity) {
    id.transport == HTTP && (id.source == OFFICIAL || id.source == HARNESS)
  }

  // ----- the compact form -----

  datatype Gathered = GatherRaised | Gathered(errors: seq<Problem>, seen: set<Identity>, identities: Statuses)

  function RecordIdentity(record: Option<Record>): Identified {
    if record.None? || !OneOf(record.value.mode, MODES) then NotOne
    else
      var r := record.value;
      if !Hashable(r.transport) then Unhashable
      else if !OneOf(r.transport, TRANSPORTS) then NotOne
      else if !Hashable(r.source) then Unhashable
      else if !OneOf(r.source, SOURCES) || !r.scenario.Str? || !r.checkId.Str? || r.checkId.s == "" then NotOne
      else One(Identity(r.mode.s, r.transport.s, r.source.s, r.scenario.s, r.checkId.s))
  }

  function RecordStep(status: Status, g: Gathered, record: Option<Record>): Gathered {
    if g.GatherRaised? then g
    else
      match RecordIdentity(record)
      case Unhashable => GatherRaised
      case NotOne => g.(errors := g.errors + [BadRecord(status)])
      case One(id) =>
        if id in g.seen then g.(errors := g.errors + [RepeatedRecord(status)])
        else g.(seen := g.seen + {id}, identities := Add(g.identities, id, status))
  }

  function GatherRecords(status: Status, g: Gathered, records: seq<Option<Record>>): Gathered {
    if records == [] then g
    else RecordStep(status, GatherRecords(status, g, records[..|records| - 1]), records[|records| - 1])
  }

  function GatherBucket(status: Status, g: Gathered, records: Option<seq<Option<Record>>>): Gathered {
    if g.GatherRaised? then g
    else
      match records
      case None => g.(errors := g.errors + [NoBucket(status)])
      case Some(rs) => GatherRecords(status, g.(seen := {}), rs)
  }

  /** `any(identity.mode == mode and identity.transport == transport for identity in identities)` */
  predicate Present(ids: Statuses, mode: string, transport: string) {
    exists id :: id in ids && id.mode == mode && id.transport == transport
  }

  function Observed(ids: Statuses, mode: string): set<string> {
    set id | id in ids && id.mode == mode && Counts(id) :: id.scenario
  }

  function CoverageErrors(env: Env, r: Report, ids: Statuses, mode: string): seq<Problem> {
    When(!CatalogMatches(env, r, mode), IncompleteCatalog(mode))
    + When(!Present(ids, mode, STDIO), MissingCase(mode, STDIO))
    + When(!Present(ids, mode, HTTP), MissingCase(mode, HTTP))
    + ScenarioErrors(env, mode, Observed(ids, mode))
  }

  function Coverage(env: Env, r: Report, ids: Statuses): string -> seq<Problem> {
    mode => CoverageErrors(env, r, ids, mode)
  }

  function Concat(f: string -> seq<Problem>, modes: seq<string>): seq<Problem> {
    if modes == [] then []
    else
      var n := |modes| - 1;
      Concat(f, modes[..n]) + f(modes[n])
  }

  /** `set(transports)` is built only for a list of two. */
  predicate TransportsRaise(v: Value) {
    v.List? && |v.items| == 2 && !(Hashable(v.items[0]) && Hashable(v.items[1]))
  }

  predicate TransportsMatch(v: Value) {
    v == List([Str(STDIO), Str(HTTP)]) || v == List([Str(HTTP), Str(STDIO)])
  }

  function CompactHeaderErrors(r: Report): seq<Problem> {
    HeaderErrors(r)
    + When(r.requiredModes != List(Strings(MODES)), WrongModes)
    + When(!TransportsMatch(r.transports), WrongTransports)
  }

  function GatherBuckets(errors: seq<Problem>, buckets: Buckets): Gathered {
    GatherBucket(Fail, GatherBucket(Pass, Gathered(errors, {}, map[]), buckets.passing), buckets.failing)
  }

  function CoverModes(env: Env, r: Report, g: Gathered, modes: seq<string>): Reading {
    if g.GatherRaised? then Raised else Read(g.errors + Concat(Coverage(env, r, g.identities), modes), g.identities)
  }

  function CompactReading(env: Env, r: Report): Reading {
    if r.kind != Str(KIND) then Read(HeaderErrors(r) + [UnsupportedKind], map[])
    else if TransportsRaise(r.transports) then Raised
    else if r.checks.None? then Read(CompactHeaderErrors(r) + [NoIdentities], map[])
    else CoverModes(env, r, GatherBuckets(CompactHeaderErrors(r), r.checks.value), MODES)
  }

  // ----- the full form -----

  datatype CaseTable = CaseTable(errors: seq<Problem>, cases: map<(string, string), Case>)

  function CaseStep(t: CaseTable, given: Option<Case>): CaseTable {
    if given.None? then t.(errors := t.errors + [BadCase])
    else
      var c := given.value;
      if !OneOf(c.mode, MODES) then t
      else if !c.transport.Str? then t.(errors := t.errors + [BadRequiredCase])
      else
        var key := (c.mode.s, c.transport.s);
        if key in t.cases then t.(errors := t.errors + [RepeatedCase(key.0, key.1)])
        else t.(cases := t.cases[key := c])
  }

  function CollectCases(t: CaseTable, cases: seq<Option<Case>>): CaseTable {
    if cases == [] then t
    else CaseStep(CollectCases(t, cases[..|cases| - 1]), cases[|cases| - 1])
  }

  function StatusOf(v: Value): Option<Status> {
    if v == Str("PASS") then Some(Pass)
    else if v == Str("FAIL") then Some(Fail)
    else if v == Str("SKIP") then Some(Skip)
    else None
  }

  datatype Judged = JudgeRaised | Malformed | Good(id: Identity, status: Status)

  /** One check of a case: its identity and status, if it is well formed and its `success` agrees with the status. */
  function Judge(env: Env, mode: string, transport: string, check: Option<Check>): Judged {
    if check.None? then Malformed
    else
      match IdentityOf(env, mode, transport, check.value)
      case Unhashable => JudgeRaised
      case NotOne => Malformed
      case One(id) =>
        if !Hashable(check.value.status) then JudgeRaised
        else
          match StatusOf(check.value.status)
          case None => Malformed
          case Some(status) => if check.value.success == Bool(!status.Fail?) then Good(id, status) else Malformed
  }

  datatype Tally = TallyRaised | Tally(errors: seq<Problem>, identities: Statuses, observed: set<string>)

  function CheckStep(env: Env, mode: string, transport: string, t: Tally, check: Option<Check>): Tally {
    if t.TallyRaised? then t
    else
      match Judge(env, mode, transport, check)
      case JudgeRaised => TallyRaised
      case Malformed => t.(errors := t.errors + [BadCheck(mode, transport)])
      case Good(id, status) =>
        t.(identities := Add(t.identities, id, status),
           observed := if Counts(id) then t.observed + {id.scenario} else t.observed)
  }

  function TallyChecks(env: Env, mode: string, transport: string, t: Tally, checks: seq<Option<Check>>): Tally {
    if checks == [] then t
    else CheckStep(env, mode, transport, TallyChecks(env, mode, transport, t, checks[..|checks| - 1]), checks[|checks| - 1])
  }

  function TransportStep(env: Env, cases: map<(string, string), Case>, mode: string, transport: string, reading: Reading): Reading {
    if reading.Raised? then reading
    else if (mode, transport) !in cases then reading.(errors := reading.errors + [MissingCase(mode, transport)])
    else
      var checks := cases[(mode, transport)].checks;
      if checks.None? || checks.value == [] then reading.(errors := reading.errors + [NoChecks(mode, transport)])
      else
        match TallyChecks(env, mode, transport, Tally(reading.errors, reading.identities, {}), checks.value)
        case TallyRaised => Raised
        case Tally(errors, ids, observed) =>
          Read(errors + if transport == HTTP then ScenarioErrors(env, mode, observed) else [], ids)
  }

  function ModeStep(env: Env, r: Report, cases: map<(string, string), Case>, reading: Reading, mode: string): Reading {
    if reading.Raised? then reading
    else
      var begun := reading.(errors := reading.errors + When(!CatalogMatches(env, r, mode), IncompleteCatalog(mode)));
      TransportStep(env, cases, mode, HTTP, TransportStep(env, cases, mode, STDIO, begun))
  }

  function ReadModes(env: Env, r: Report, cases: map<(string, string), Case>, reading: Reading, modes: seq<string>): Reading {
    if modes == [] then reading
    else ModeStep(env, r, cases, ReadModes(env, r, cases, reading, modes[..|modes| - 1]), modes[|modes| - 1])
  }

  function FullReading(env: Env, r: Report): Reading {
    var table := match r.cases
                 case None => CaseTable(HeaderErrors(r) + [NoCases], map[])
                 case Some(cases) => CollectCases(CaseTable(HeaderErrors(r), map[]), cases);
    ReadModes(env, r, table.cases, Read(table.errors, map[]), MODES)
  }

  /** `_required_regression_checks` */
  function ReadReport(env: Env, r: Report): Reading {
    if r.kind != Null then CompactReading(env, r) else FullReading(env, r)
  }
}
