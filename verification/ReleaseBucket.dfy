/**
 The release bucket and every way a run of the publisher can change it.

 A bucket maps object keys to stored objects. A publisher run is a process that takes one
 atomic step at a time (one upload or one metadata request); a crash is a process that
 takes no further step. Any number of processes, for any releases and in either stage,
 may interleave. SHA-256, the CRC and the JSON printer are parameters of the model.
 */
module ReleaseBucket {
  import opened Common
  import ReleaseVersion

  newtype Byte = x: int | 0 <= x < 256

  type Bytes = seq<Byte>

  datatype Asset = Asset(name: string, size: int, sha256: string)

  /** An entry of the installer-facing metadata; the download URL is a function of the other
      two fields and the tag. */
  datatype Listing = Listing(name: string, digest: string)

  datatype Document = Document(tag: string, assets: seq<Listing>)

  datatype Codec = Codec(sha256: Bytes -> string, crc64: Bytes -> string, render: Document -> Bytes)

  /** A stored object with the metadata that a head request returns. */
  datatype Stored = Stored(body: Bytes, sha256: string, crc64: Option<string>)

  type Objects = map<string, Stored>

  const METADATA_NAME := "release.json"
  const INSTALLERS: seq<string> := ["install.sh", "install.ps1"]
  const MAX_WORKERS: nat := 8
  const LATEST := "codex/channels/latest"
  const PRERELEASE := "codex/channels/prerelease"

  function AssetKey(version: string, name: string): string {
    "codex/releases/" + version + "/" + name
  }

  function InstallerKey(name: string): string {
    "codex/" + name
  }

  function ChannelKey(channel: string): string {
    "codex/channels/" + channel
  }

  /** Keys of objects that belong to one release and must never change. */
  predicate Versioned(key: string) {
    "codex/releases/" <= key
  }

  predicate Mutable(key: string) {
    key in {InstallerKey("install.sh"), InstallerKey("install.ps1"), ChannelKey("latest"), ChannelKey("prerelease")}
  }

  lemma KeysAreApart(version: string, name: string)
    ensures Versioned(AssetKey(version, name))
    ensures forall key :: Mutable(key) ==> !Versioned(key)
  {
    var p := "codex/releases/";
    assert AssetKey(version, name)[..|p|] == p;
    assert p[6] == 'r';
    assert InstallerKey("install.sh")[6] == 'i' && InstallerKey("install.ps1")[6] == 'i';
    assert ChannelKey("latest")[6] == 'c' && ChannelKey("prerelease")[6] == 'c';
    assert forall key :: Versioned(key) ==> key[6] == 'r';
  }

  // ----- requests -----

  predicate Base64Char(c: char) {
    'A' <= c <= 'Z' || 'a' <= c <= 'z' || '0' <= c <= '9' || c == '+' || c == '/'
  }

  /** CRC64_RE */
  predicate ValidCrc(crc: Option<string>) {
    && crc.Some? && |crc.value| == 12 && crc.value[11] == '='
    && forall i :: 0 <= i < 11 ==> Base64Char(crc.value[i])
  }

  datatype Head = Match | Mismatch | Missing

  /** The object at `key` has the expected size, digest metadata and a checksum. */
  predicate Agrees(b: Objects, key: string, size: int, sha256: string) {
    key in b && |b[key].body| == size && b[key].sha256 == sha256 && ValidCrc(b[key].crc64)
  }

  function VerifyRemote(b: Objects, key: string, size: int, sha256: string): Head {
    if key !in b then Missing
    else if Agrees(b, key, size, sha256) then Match
    else Mismatch
  }

  function Upload(c: Codec, body: Bytes, sha256: string): Stored {
    Stored(body, sha256, Some(c.crc64(body)))
  }

  function Put(c: Codec, b: Objects, key: string, body: Bytes, sha256: string, noOverwrite: bool): Objects {
    if noOverwrite && key in b then b else b[key := Upload(c, body, sha256)]
  }

  predicate ValidFile(c: Codec, asset: Asset, body: Bytes) {
    |body| == asset.size && c.sha256(body) == asset.sha256
  }

  // ----- one run of the publisher -----

  datatype Stage = AssetsStage | FinalizeStage

  datatype Job = Job(version: string, stage: Stage, makeLatest: bool, prerelease: bool,
                     assets: seq<Asset>, files: map<string, Bytes>) {

    function Key(i: nat): string
      requires i < |assets|
    {
      AssetKey(version, assets[i].name)
    }

    predicate Has(i: nat) {
      i < |assets|
    }

    function Indices(): (indices: set<nat>)
      ensures forall i: nat :: i in indices <==> i < |assets|
    {
      set i: nat | i < |assets| && Has(i)
    }

    predicate FileOk(c: Codec, i: nat) {
      i < |assets| && assets[i].name in files && ValidFile(c, assets[i], files[assets[i].name])
    }

    function Describe(): Document {
      Document("rust-v" + version, seq(|assets|, i requires 0 <= i < |assets| => Listing(assets[i].name, "sha256:" + assets[i].sha256)))
    }

    function Metadata(c: Codec): Bytes {
      c.render(Describe())
    }

    function MetadataKey(): string {
      AssetKey(version, METADATA_NAME)
    }

    function Channels(): seq<string> {
      (if makeLatest then ["latest"] else []) + (if prerelease then ["prerelease"] else [])
    }

    predicate HasAsset(name: string) {
      exists i :: 0 <= i < |assets| && assets[i].name == name
    }

    /** `{asset.path.name: asset for asset in assets}[name]` */
    function Find(name: string): (i: nat)
      requires HasAsset(name)
      ensures i < |assets| && assets[i].name == name
      ensures forall j :: i < j < |assets| ==> assets[j].name != name
    {
      FindFrom(name, |assets|)
    }

    function FindFrom(name: string, n: nat): (i: nat)
      requires n <= |assets|
      requires exists i :: 0 <= i < n && assets[i].name == name
      ensures i < n && assets[i].name == name
      ensures forall j :: i < j < n ==> assets[j].name != name
    {
      if assets[n - 1].name == name then n - 1 else FindFrom(name, n - 1)
    }

    predicate HasInstallers() {
      forall k :: 0 <= k < |INSTALLERS| ==> HasAsset(INSTALLERS[k])
    }

    /** The files that finalisation must download: the missing assets, and the installers. */
    predicate Downloaded(missing: set<nat>) {
      && (forall i <- missing :: i < |assets| ==> assets[i].name in files)
      && (!prerelease ==> forall i: nat :: i < |assets| && assets[i].name in INSTALLERS ==> assets[i].name in files)
    }
  }

  datatype Phase =
    | Finding(found: set<nat>, missing: set<nat>)
    | Uploading(todo: set<nat>, uploaded: set<nat>, confirmed: set<nat>, failed: set<nat>)
    | PutMetadata
    | VerifyMetadata
    | PutInstaller(k: nat)
    | VerifyInstaller(k: nat)
    | PutChannel(k: nat)
    | VerifyChannel(k: nat)
    | Done
    | Failed

  datatype Process = Process(job: Job, phase: Phase)

  function StartPhase(job: Job): Phase {
    if job.stage.AssetsStage? then Uploading(job.Indices(), {}, {}, {}) else Finding({}, {})
  }

  /** Steps of one process. `HeadAsset`, `PutAsset` and `ConfirmAsset` are steps of a worker thread
      on one asset; `BreakAsset` is a worker that fails; `Advance` is the next step of
      the main thread; `Abort` is any other error. */
  datatype Action = HeadAsset(i: nat) | PutAsset(i: nat) | ConfirmAsset(i: nat) | BreakAsset(i: nat) | Advance | Abort

  function InFlight(p: Phase): set<nat>
    requires p.Uploading?
  {
    p.uploaded - p.confirmed - p.failed
  }

  function Step(c: Codec, b: Objects, p: Process, a: Action): (Objects, Process) {
    var job := p.job;
    match a
    case HeadAsset(i) =>
      if p.phase.Finding? && i < |job.assets| && i !in p.phase.found + p.phase.missing then
        match VerifyRemote(b, job.Key(i), job.assets[i].size, job.assets[i].sha256)
        case Match => (b, p.(phase := p.phase.(found := p.phase.found + {i})))
        case Missing => (b, p.(phase := p.phase.(missing := p.phase.missing + {i})))
        case Mismatch => (b, p.(phase := Failed))
      else (b, p)
    case PutAsset(i) =>
      if p.phase.Uploading? && i in p.phase.todo && i < |job.assets| && i !in p.phase.uploaded + p.phase.failed
        && |InFlight(p.phase)| < MAX_WORKERS then
        if job.FileOk(c, i) then
          var b' := Put(c, b, job.Key(i), job.files[job.assets[i].name], job.assets[i].sha256, true);
          var confirmed := if job.stage.AssetsStage? then p.phase.confirmed + {i} else p.phase.confirmed;
          (b', p.(phase := p.phase.(uploaded := p.phase.uploaded + {i}, confirmed := confirmed)))
        else (b, p.(phase := p.phase.(failed := p.phase.failed + {i})))
      else (b, p)
    case ConfirmAsset(i) =>
      if p.phase.Uploading? && i in InFlight(p.phase) && i < |job.assets| then
        if VerifyRemote(b, job.Key(i), job.assets[i].size, job.assets[i].sha256).Match?
        then (b, p.(phase := p.phase.(confirmed := p.phase.confirmed + {i})))
        else (b, p.(phase := p.phase.(failed := p.phase.failed + {i})))
      else (b, p)
    case BreakAsset(i) =>
      if p.phase.Uploading? && i in p.phase.todo && (i !in p.phase.confirmed || job.stage.AssetsStage?)
      then (b, p.(phase := p.phase.(failed := p.phase.failed + {i})))
      else (b, p)
    case Advance => AdvanceStep(c, b, p)
    case Abort => if p.phase.Done? then (b, p) else (b, p.(phase := Failed))
  }

  function AdvanceStep(c: Codec, b: Objects, p: Process): (Objects, Process) {
    var job := p.job;
    match p.phase
    case Finding(found, missing) =>
      if found + missing != job.Indices() then (b, p)
      else if job.Downloaded(missing) then (b, p.(phase := Uploading(missing, {}, {}, {})))
      else (b, p.(phase := Failed))
    case Uploading(todo, uploaded, confirmed, failed) =>
      if todo <= confirmed && failed == {} then (b, p.(phase := if job.stage.AssetsStage? then Done else PutMetadata))
      else if todo <= confirmed + failed then (b, p.(phase := Failed))
      else (b, p)
    case PutMetadata =>
      var body := job.Metadata(c);
      (Put(c, b, job.MetadataKey(), body, c.sha256(body), true), p.(phase := VerifyMetadata))
    case VerifyMetadata =>
      var body := job.Metadata(c);
      if !VerifyRemote(b, job.MetadataKey(), |body|, c.sha256(body)).Match? then (b, p.(phase := Failed))
      else if job.prerelease then (b, p.(phase := PutChannel(0)))
      else if job.HasInstallers() then (b, p.(phase := PutInstaller(0)))
      else (b, p.(phase := Failed))
    case PutInstaller(k) =>
      if k < |INSTALLERS| && job.HasAsset(INSTALLERS[k]) && job.FileOk(c, job.Find(INSTALLERS[k])) then
        var i := job.Find(INSTALLERS[k]);
        (Put(c, b, InstallerKey(INSTALLERS[k]), job.files[INSTALLERS[k]], job.assets[i].sha256, false), p.(phase := VerifyInstaller(k)))
      else (b, p.(phase := Failed))
    case VerifyInstaller(k) =>
      if k < |INSTALLERS| && job.HasAsset(INSTALLERS[k])
        && VerifyRemote(b, InstallerKey(INSTALLERS[k]), job.assets[job.Find(INSTALLERS[k])].size, job.assets[job.Find(INSTALLERS[k])].sha256).Match?
      then (b, p.(phase := if k + 1 < |INSTALLERS| then PutInstaller(k + 1) else PutChannel(0)))
      else (b, p.(phase := Failed))
    case PutChannel(k) =>
      if k < |job.Channels()| then
        var body := job.Metadata(c);
        (Put(c, b, ChannelKey(job.Channels()[k]), body, c.sha256(body), false), p.(phase := VerifyChannel(k)))
      else (b, p.(phase := Done))
    case VerifyChannel(k) =>
      var body := job.Metadata(c);
      if k < |job.Channels()| && VerifyRemote(b, ChannelKey(job.Channels()[k]), |body|, c.sha256(body)).Match?
      then (b, p.(phase := PutChannel(k + 1)))
      else (b, p.(phase := Failed))
    case Done => (b, p)
    case Failed => (b, p)
  }

  // ----- many runs -----

  datatype System = System(objects: Objects, processes: seq<Process>)

  datatype Event = Start(job: Job) | Act(pid: nat, action: Action)

  /** `main` starts a run only for a tag in the publisher's grammar. */
  ghost function Next(c: Codec, s: System, e: Event): System {
    match e
    case Start(job) =>
      if ReleaseVersion.Publishable(job.version) then s.(processes := s.processes + [Process(job, StartPhase(job))]) else s
    case Act(pid, action) =>
      if pid < |s.processes| then
        var (objects, p) := Step(c, s.objects, s.processes[pid], action);
        System(objects, s.processes[pid := p])
      else s
  }

  /** The system after a sequence of events: an event that is not possible changes nothing. */
  ghost function Run(c: Codec, s: System, events: seq<Event>): System {
    if events == [] then s else Next(c, Run(c, s, events[..|events| - 1]), events[|events| - 1])
  }

  // ----- safety -----

  /** Every versioned object of `b` is still there, unchanged. */
  ghost predicate Preserves(b: Objects, b': Objects) {
    forall key :: Versioned(key) && key in b ==> key in b' && b'[key] == b[key]
  }

  ghost predicate AssetHeld(b: Objects, version: string, asset: Asset) {
    Agrees(b, AssetKey(version, asset.name), asset.size, asset.sha256)
  }

  ghost predicate Held(b: Objects, job: Job, which: set<nat>) {
    forall i <- which :: i < |job.assets| ==> AssetHeld(b, job.version, job.assets[i])
  }

  ghost predicate AllHeld(b: Objects, job: Job) {
    forall i :: 0 <= i < |job.assets| ==> AssetHeld(b, job.version, job.assets[i])
  }

  /** What a process has established by the time it reaches a phase. */
  ghost predicate Established(c: Codec, b: Objects, p: Process) {
    match p.phase
    case Finding(found, missing) => p.job.stage.FinalizeStage? && Held(b, p.job, found)
    case Uploading(todo, uploaded, confirmed, failed) =>
      && |InFlight(p.phase)| <= MAX_WORKERS
      && (p.job.stage.FinalizeStage? ==> Held(b, p.job, p.job.Indices() - todo) && Held(b, p.job, confirmed))
    case PutMetadata => AllHeld(b, p.job)
    case VerifyMetadata => AllHeld(b, p.job)
    case PutInstaller(_) => AllHeld(b, p.job) && MetadataHeld(c, b, p.job)
    case VerifyInstaller(_) => AllHeld(b, p.job) && MetadataHeld(c, b, p.job)
    case PutChannel(_) => AllHeld(b, p.job) && MetadataHeld(c, b, p.job)
    case VerifyChannel(_) => AllHeld(b, p.job) && MetadataHeld(c, b, p.job)
    case Done => p.job.stage.FinalizeStage? ==> AllHeld(b, p.job) && MetadataHeld(c, b, p.job)
    case Failed => true
  }

  ghost predicate MetadataHeld(c: Codec, b: Objects, job: Job) {
    Agrees(b, job.MetadataKey(), |job.Metadata(c)|, c.sha256(job.Metadata(c)))
  }

  /** The channel pointer is the metadata of a release all of whose assets, and whose
      versioned metadata, are in the bucket. */
  ghost predicate PointsAt(c: Codec, b: Objects, key: string, job: Job) {
    && key in b && b[key].body == job.Metadata(c) && ReleaseVersion.Publishable(job.version)
    && AllHeld(b, job) && MetadataHeld(c, b, job)
  }

  ghost predicate ChannelSafe(c: Codec, b: Objects, key: string) {
    key in b ==> exists job :: PointsAt(c, b, key, job)
  }

  ghost predicate ChannelsSafe(c: Codec, b: Objects) {
    ChannelSafe(c, b, ChannelKey("latest")) && ChannelSafe(c, b, ChannelKey("prerelease"))
  }

  ghost predicate Safe(c: Codec, s: System) {
    ChannelsSafe(c, s.objects) && ProcessesSafe(c, s.objects, s.processes)
  }

  lemma StepPreserves(c: Codec, b: Objects, p: Process, a: Action)
    ensures Preserves(b, Step(c, b, p, a).0)
  {
    KeysAreApart("", "");
    assert forall k :: 0 <= k < |INSTALLERS| ==> Mutable(InstallerKey(INSTALLERS[k]));
    ChannelsAreMutable(p.job);
  }

  lemma ChannelsAreMutable(job: Job)
    ensures forall k :: 0 <= k < |job.Channels()| ==> Mutable(ChannelKey(job.Channels()[k]))
  {
  }

  lemma HeldStable(b: Objects, b': Objects, job: Job)
    requires Preserves(b, b')
    ensures forall which :: Held(b, job, which) ==> Held(b', job, which)
    ensures AllHeld(b, job) ==> AllHeld(b', job)
    ensures forall c :: MetadataHeld(c, b, job) ==> MetadataHeld(c, b', job)
  {
    forall i | 0 <= i < |job.assets| ensures Versioned(job.Key(i)) { KeysAreApart(job.version, job.assets[i].name); }
    KeysAreApart(job.version, METADATA_NAME);
  }

  /** What one process has established no step of another can undo. */
  lemma EstablishedStable(c: Codec, b: Objects, b': Objects, p: Process)
    requires Preserves(b, b') && Established(c, b, p)
    ensures Established(c, b', p)
  {
    HeldStable(b, b', p.job);
  }

  lemma PointsAtStable(c: Codec, b: Objects, b': Objects, key: string)
    requires Preserves(b, b') && ChannelSafe(c, b, key)
    requires key in b' ==> key in b && b'[key].body == b[key].body
    ensures ChannelSafe(c, b', key)
  {
    if key in b' {
      var job :| PointsAt(c, b, key, job);
      HeldStable(b, b', job);
      assert PointsAt(c, b', key, job);
    }
  }

  lemma FindingAdvances(c: Codec, b: Objects, p: Process)
    requires Established(c, b, p) && p.phase.Finding?
    ensures var (b', p') := AdvanceStep(c, b, p); b' == b && Established(c, b', p')
  {
    var (b', p') := AdvanceStep(c, b, p);
    if p'.phase.Uploading? {
      assert p.job.Indices() - p.phase.missing <= p.phase.found;
      assert InFlight(p'.phase) == {};
    }
  }

  lemma AdvanceEstablishes(c: Codec, b: Objects, p: Process)
    requires Established(c, b, p)
    ensures var (b', p') := AdvanceStep(c, b, p); Established(c, b', p')
  {
    if p.phase.Finding? {
      FindingAdvances(c, b, p);
    } else if p.phase.Uploading? {
      UploadingAdvances(c, b, p);
    } else {
      var (b', p') := AdvanceStep(c, b, p);
      StepPreserves(c, b, p, Advance);
      HeldStable(b, b', p.job);
    }
  }

  lemma UploadingAdvances(c: Codec, b: Objects, p: Process)
    requires Established(c, b, p) && p.phase.Uploading?
    ensures var (b', p') := AdvanceStep(c, b, p); b' == b && Established(c, b', p')
  {
    var (b', p') := AdvanceStep(c, b, p);
    if p'.phase.PutMetadata? {
      forall i | 0 <= i < |p.job.assets| ensures AssetHeld(b, p.job.version, p.job.assets[i]) {
        assert i in p.job.Indices();
      }
    }
  }

  /** A step of a process keeps what the process has established and establishes what its
      next phase relies on. */
  lemma StepEstablishes(c: Codec, b: Objects, p: Process, a: Action)
    requires Established(c, b, p)
    ensures var (b', p') := Step(c, b, p, a); Established(c, b', p')
  {
    var (b', p') := Step(c, b, p, a);
    if a.Advance? {
      AdvanceEstablishes(c, b, p);
    } else if p.phase.Uploading? {
      UploadingStep(c, b, p, a);
    } else {
      StepPreserves(c, b, p, a);
      EstablishedStable(c, b, b', p);
    }
  }

  lemma UploadingStep(c: Codec, b: Objects, p: Process, a: Action)
    requires Established(c, b, p) && p.phase.Uploading? && !a.Advance?
    ensures var (b', p') := Step(c, b, p, a); Established(c, b', p')
  {
    var (b', p') := Step(c, b, p, a);
    StepPreserves(c, b, p, a);
    EstablishedStable(c, b, b', p);
    if p'.phase.Uploading? {
      UploadingChanges(c, b, p, a);
      InFlightGrowsByOne(p.phase, p'.phase, a);
      if p.job.stage.FinalizeStage? {
        HeldStable(b, b', p.job);
        assert Held(b', p.job, p'.phase.confirmed) by { HeldGrows(b, b', p.job, p.phase.confirmed, p'.phase.confirmed); }
      }
    }
  }

  lemma HeldGrows(b: Objects, b': Objects, job: Job, s: set<nat>, s': set<nat>)
    requires Preserves(b, b') && Held(b', job, s) && forall i :: i in s' && i !in s ==> Held(b, job, {i})
    ensures Held(b', job, s')
  {
    HeldStable(b, b', job);
    forall i | i in s' && i !in s ensures Held(b', job, {i}) { }
  }

  /** What a worker's step changes: a body is written by a PUT within the limit, and an asset is
      confirmed after a matching HEAD. */
  lemma UploadingChanges(c: Codec, b: Objects, p: Process, a: Action)
    requires p.phase.Uploading? && !a.Advance? && Step(c, b, p, a).1.phase.Uploading?
    ensures var (q, q') := (p.phase, Step(c, b, p, a).1.phase);
            && Step(c, b, p, a).1.job == p.job && q'.todo == q.todo && q.confirmed <= q'.confirmed && q.failed <= q'.failed
            && (q'.uploaded == q.uploaded || (a.PutAsset? && |InFlight(q)| < MAX_WORKERS && q'.uploaded == q.uploaded + {a.i}))
            && (p.job.stage.FinalizeStage? ==> forall i :: i in q'.confirmed && i !in q.confirmed ==> Held(b, p.job, {i}))
  {
  }

  lemma InFlightGrowsByOne(q: Phase, q': Phase, a: Action)
    requires q.Uploading? && q'.Uploading? && !a.Advance? && |InFlight(q)| <= MAX_WORKERS
    requires q.confirmed <= q'.confirmed && q.failed <= q'.failed
    requires q'.uploaded == q.uploaded || (a.PutAsset? && |InFlight(q)| < MAX_WORKERS && q'.uploaded == q.uploaded + {a.i})
    ensures |InFlight(q')| <= MAX_WORKERS
  {
    if q'.uploaded == q.uploaded {
      SubsetSize(InFlight(q'), InFlight(q));
    } else {
      SubsetSize(InFlight(q'), InFlight(q) + {a.i});
    }
  }

  lemma {:induction false} SubsetSize(a: set<nat>, b: set<nat>)
    requires a <= b
    ensures |a| <= |b|
  {
    if a != {} {
      var x :| x in a;
      SubsetSize(a - {x}, b - {x});
    }
  }

  lemma StepKeepsChannel(c: Codec, b: Objects, p: Process, a: Action, key: string)
    requires key == ChannelKey("latest") || key == ChannelKey("prerelease")
    requires ReleaseVersion.Publishable(p.job.version) && Established(c, b, p) && ChannelSafe(c, b, key)
    ensures ChannelSafe(c, Step(c, b, p, a).0, key)
  {
    var (b', p') := Step(c, b, p, a);
    StepPreserves(c, b, p, a);
    if a.Advance? && p.phase.PutChannel? && p.phase.k < |p.job.Channels()| && key == ChannelKey(p.job.Channels()[p.phase.k]) {
      HeldStable(b, b', p.job);
      assert PointsAt(c, b', key, p.job);
    } else {
      OtherStepsLeaveChannel(c, b, p, a, key);
      PointsAtStable(c, b, b', key);
    }
  }

  lemma OtherStepsLeaveChannel(c: Codec, b: Objects, p: Process, a: Action, key: string)
    requires key == ChannelKey("latest") || key == ChannelKey("prerelease")
    requires !(a.Advance? && p.phase.PutChannel? && p.phase.k < |p.job.Channels()| && key == ChannelKey(p.job.Channels()[p.phase.k]))
    ensures var b' := Step(c, b, p, a).0; key in b' ==> key in b && b'[key] == b[key]
  {
    match a
    case PutAsset(i) => if i < |p.job.assets| { KeysAreApart(p.job.version, p.job.assets[i].name); }
    case Advance => OtherAdvancesLeaveChannel(c, b, p, key);
    case _ =>
  }

  lemma OtherAdvancesLeaveChannel(c: Codec, b: Objects, p: Process, key: string)
    requires key == ChannelKey("latest") || key == ChannelKey("prerelease")
    requires !(p.phase.PutChannel? && p.phase.k < |p.job.Channels()| && key == ChannelKey(p.job.Channels()[p.phase.k]))
    ensures var b' := AdvanceStep(c, b, p).0; key in b' ==> key in b && b'[key] == b[key]
  {
    KeysAreApart(p.job.version, METADATA_NAME);
    assert Mutable(key) && key[6] == 'c';
    assert InstallerKey(INSTALLERS[0])[6] == 'i' && InstallerKey(INSTALLERS[1])[6] == 'i';
  }

  lemma StepKeeps(c: Codec, b: Objects, p: Process, a: Action)
    requires Established(c, b, p)
    ensures var (b', p') := Step(c, b, p, a); Preserves(b, b') && p'.job == p.job && Established(c, b', p')
  {
    StepPreserves(c, b, p, a);
    StepEstablishes(c, b, p, a);
  }

  ghost predicate ProcessesSafe(c: Codec, b: Objects, ps: seq<Process>) {
    forall i :: 0 <= i < |ps| ==> ReleaseVersion.Publishable(ps[i].job.version) && Established(c, b, ps[i])
  }

  lemma OthersUnaffected(c: Codec, b: Objects, b': Objects, ps: seq<Process>, pid: nat, p': Process)
    requires pid < |ps| && ProcessesSafe(c, b, ps) && Preserves(b, b')
    requires p'.job == ps[pid].job && Established(c, b', p')
    ensures ProcessesSafe(c, b', ps[pid := p'])
  {
    forall i | 0 <= i < |ps| && i != pid ensures Established(c, b', ps[i]) {
      EstablishedStable(c, b, b', ps[i]);
    }
  }

  /** Whatever the channels hold, each event keeps what every process has established and every versioned object. */
  lemma NextKeepsProcesses(c: Codec, s: System, e: Event)
    requires ProcessesSafe(c, s.objects, s.processes)
    ensures var s' := Next(c, s, e); ProcessesSafe(c, s'.objects, s'.processes) && Preserves(s.objects, s'.objects)
  {
    match e
    case Start(job) =>
    case Act(pid, action) =>
      if pid < |s.processes| {
        StepKeeps(c, s.objects, s.processes[pid], action);
        var (b', p') := Step(c, s.objects, s.processes[pid], action);
        OthersUnaffected(c, s.objects, b', s.processes, pid, p');
      }
  }

  /** From any bucket, over any run: every process has established what its phase relies on, and no versioned object changes. */
  lemma {:induction false} EveryRunEstablishes(c: Codec, s: System, events: seq<Event>)
    requires ProcessesSafe(c, s.objects, s.processes)
    ensures var s' := Run(c, s, events); ProcessesSafe(c, s'.objects, s'.processes) && Preserves(s.objects, s'.objects)
  {
    if events != [] {
      var n := |events| - 1;
      EveryRunEstablishes(c, s, events[..n]);
      NextKeepsProcesses(c, Run(c, s, events[..n]), events[n]);
    }
  }

  lemma NextIsSafe(c: Codec, s: System, e: Event)
    requires Safe(c, s)
    ensures Safe(c, Next(c, s, e)) && Preserves(s.objects, Next(c, s, e).objects)
  {
    NextKeepsProcesses(c, s, e);
    if e.Act? && e.pid < |s.processes| {
      var p := s.processes[e.pid];
      StepKeepsChannel(c, s.objects, p, e.action, ChannelKey("latest"));
      StepKeepsChannel(c, s.objects, p, e.action, ChannelKey("prerelease"));
    }
  }

  /** Whatever runs happen, in whatever order and wherever they stop: a channel always points at
      a complete release, and no versioned object changes. */
  lemma {:induction false} EveryRunIsSafe(c: Codec, s: System, events: seq<Event>)
    requires Safe(c, s)
    ensures Safe(c, Run(c, s, events)) && Preserves(s.objects, Run(c, s, events).objects)
  {
    if events != [] {
      var n := |events| - 1;
      EveryRunIsSafe(c, s, events[..n]);
      NextIsSafe(c, Run(c, s, events[..n]), events[n]);
    }
  }

  // ----- releases do not meet -----

  /** The key of a versioned object tells its release and its name. */
  lemma KeysIdentify(v: string, n: string, w: string, m: string)
    requires ReleaseVersion.Publishable(v) && ReleaseVersion.Publishable(w) && AssetKey(v, n) == AssetKey(w, m)
    ensures v == w && n == m
  {
    var p := "codex/releases/";
    assert AssetKey(v, n)[|p|..] == v + ['/'] + n && AssetKey(w, m)[|p|..] == w + ['/'] + m;
    ReleaseVersion.PublishableHasNoSlash(v);
    ReleaseVersion.PublishableHasNoSlash(w);
    ReleaseVersion.SplitFirst('/', v, n, w, m);
  }

  /** The objects of release `version` are the same in both buckets, none more and none fewer. */
  ghost predicate SameRelease(b: Objects, b': Objects, version: string) {
    forall name :: (AssetKey(version, name) in b <==> AssetKey(version, name) in b')
                   && (AssetKey(version, name) in b ==> b'[AssetKey(version, name)] == b[AssetKey(version, name)])
  }

  /** A key that a run of this release may write. */
  ghost predicate Writable(version: string, key: string) {
    Mutable(key) || exists name :: key == AssetKey(version, name)
  }

  /** The step writes one object at most, and only under a key of its own release or a mutable one. */
  lemma StepWritesOwn(c: Codec, b: Objects, p: Process, a: Action, key: string)
    requires !Writable(p.job.version, key)
    ensures var b' := Step(c, b, p, a).0; (key in b <==> key in b') && (key in b ==> b'[key] == b[key])
  {
    match a
    case PutAsset(i) => if i < |p.job.assets| { assert Writable(p.job.version, p.job.Key(i)); }
    case Advance => AdvanceWritesOwn(c, b, p, key);
    case _ =>
  }

  lemma AdvanceWritesOwn(c: Codec, b: Objects, p: Process, key: string)
    requires !Writable(p.job.version, key)
    ensures var b' := AdvanceStep(c, b, p).0; (key in b <==> key in b') && (key in b ==> b'[key] == b[key])
  {
    match p.phase
    case PutMetadata => assert Writable(p.job.version, p.job.MetadataKey());
    case PutInstaller(k) => if k < |INSTALLERS| { assert Mutable(InstallerKey(INSTALLERS[k])); }
    case PutChannel(k) => ChannelsAreMutable(p.job);
    case _ =>
  }

  /** A step of one release's run leaves every other release alone. */
  lemma StepLeavesOthers(c: Codec, b: Objects, p: Process, a: Action, version: string)
    requires ReleaseVersion.Publishable(p.job.version) && ReleaseVersion.Publishable(version) && p.job.version != version
    ensures SameRelease(b, Step(c, b, p, a).0, version) && Step(c, b, p, a).1.job == p.job
  {
    forall name ensures !Writable(p.job.version, AssetKey(version, name)) {
      KeysAreApart(version, name);
      if own :| AssetKey(version, name) == AssetKey(p.job.version, own) {
        KeysIdentify(version, name, p.job.version, own);
      }
    }
    forall name
      ensures var b' := Step(c, b, p, a).0; var key := AssetKey(version, name); (key in b <==> key in b') && (key in b ==> b'[key] == b[key])
    {
      StepWritesOwn(c, b, p, a, AssetKey(version, name));
    }
  }

  lemma NextLeavesOthers(c: Codec, s: System, e: Event, version: string)
    requires ReleaseVersion.Publishable(version) && ProcessesElsewhere(s.processes, version)
    requires e.Start? ==> e.job.version != version
    ensures ProcessesElsewhere(Next(c, s, e).processes, version) && SameRelease(s.objects, Next(c, s, e).objects, version)
  {
    if e.Act? && e.pid < |s.processes| {
      StepLeavesOthers(c, s.objects, s.processes[e.pid], e.action, version);
    }
  }

  /** No run of any other releases adds, changes or removes an object of this one. */
  lemma {:induction false} OtherReleasesUntouched(c: Codec, s: System, events: seq<Event>, version: string)
    requires ReleaseVersion.Publishable(version) && ProcessesElsewhere(s.processes, version)
    requires forall i :: 0 <= i < |events| && events[i].Start? ==> events[i].job.version != version
    ensures ProcessesElsewhere(Run(c, s, events).processes, version) && SameRelease(s.objects, Run(c, s, events).objects, version)
  {
    if events != [] {
      var n := |events| - 1;
      OtherReleasesUntouched(c, s, events[..n], version);
      NextLeavesOthers(c, Run(c, s, events[..n]), events[n], version);
    }
  }

  ghost predicate ProcessesElsewhere(ps: seq<Process>, version: string) {
    forall i :: 0 <= i < |ps| ==> ReleaseVersion.Publishable(ps[i].job.version) && ps[i].job.version != version
  }

  // ----- what a client of a channel can rely on -----

  /** The digest recorded with every object is the digest of its bytes. */
  ghost predicate Honest(c: Codec, b: Objects) {
    forall key :: key in b ==> b[key].sha256 == c.sha256(b[key].body)
  }

  lemma StepIsHonest(c: Codec, b: Objects, p: Process, a: Action)
    requires Honest(c, b)
    ensures Honest(c, Step(c, b, p, a).0)
  {
  }

  lemma {:induction false} EveryRunIsHonest(c: Codec, s: System, events: seq<Event>)
    requires Honest(c, s.objects)
    ensures Honest(c, Run(c, s, events).objects)
  {
    if events != [] {
      var n := |events| - 1;
      EveryRunIsHonest(c, s, events[..n]);
      var r := Run(c, s, events[..n]);
      match events[n]
      case Start(_) =>
      case Act(pid, action) =>
        if pid < |r.processes| { StepIsHonest(c, r.objects, r.processes[pid], action); }
    }
  }

  ghost predicate Readable(c: Codec) {
    forall d, d' :: c.render(d) == c.render(d') ==> d == d'
  }

  /** The bucket serves the release of `job`: each asset with the size and digest that the job was given, and a
      release.json of the size and digest of its document. */
  ghost predicate Serves(c: Codec, b: Objects, job: Job) {
    && (forall k :: 0 <= k < |job.assets| ==>
          var key := AssetKey(job.version, job.assets[k].name);
          key in b && |b[key].body| == job.assets[k].size && c.sha256(b[key].body) == job.assets[k].sha256)
    && var key := AssetKey(job.version, METADATA_NAME);
       key in b && |b[key].body| == |c.render(job.Describe())| && c.sha256(b[key].body) == c.sha256(c.render(job.Describe()))
  }

  /** The process has put what the channel holds: the document of its own job, with all assets verified and the flag
      of the channel set. */
  ghost predicate PutBy(c: Codec, s: System, key: string, pid: nat) {
    pid < |s.processes| && PointsAt(c, s.objects, key, s.processes[pid].job) && Selects(s.processes[pid].job, key)
  }

  /** The flag of the channel is set. */
  predicate Selects(job: Job, key: string) {
    (key == LATEST && job.makeLatest) || (key == PRERELEASE && job.prerelease)
  }

  lemma ChannelsAreSelected(job: Job, k: nat)
    requires k < |job.Channels()|
    ensures Selects(job, ChannelKey(job.Channels()[k]))
  {
    assert ChannelKey("latest") == LATEST && ChannelKey("prerelease") == PRERELEASE;
  }

  /** What a channel holds was there at the start, or is the document of a process of the run. */
  ghost predicate ChannelFrom(c: Codec, start: Objects, s: System, key: string) {
    key in s.objects ==> (key in start && s.objects[key] == start[key]) || exists pid: nat :: PutBy(c, s, key, pid)
  }

  lemma StepKeepsOrigin(c: Codec, start: Objects, s: System, pid: nat, a: Action, key: string)
    requires key == ChannelKey("latest") || key == ChannelKey("prerelease")
    requires ProcessesSafe(c, s.objects, s.processes) && pid < |s.processes| && ChannelFrom(c, start, s, key)
    ensures ChannelFrom(c, start, Next(c, s, Act(pid, a)), key)
  {
    var p := s.processes[pid];
    var s' := Next(c, s, Act(pid, a));
    StepKeeps(c, s.objects, p, a);
    if a.Advance? && p.phase.PutChannel? && p.phase.k < |p.job.Channels()| && key == ChannelKey(p.job.Channels()[p.phase.k]) {
      HeldStable(s.objects, s'.objects, p.job);
      ChannelsAreSelected(p.job, p.phase.k);
      assert PutBy(c, s', key, pid);
    } else {
      OtherStepsLeaveChannel(c, s.objects, p, a, key);
      if q: nat :| PutBy(c, s, key, q) && key in s'.objects {
        HeldStable(s.objects, s'.objects, s.processes[q].job);
        assert PutBy(c, s', key, q);
      }
    }
  }

  lemma StartKeepsOrigin(c: Codec, start: Objects, s: System, job: Job, key: string)
    requires ChannelFrom(c, start, s, key)
    ensures ChannelFrom(c, start, Next(c, s, Start(job)), key)
  {
    if q: nat :| PutBy(c, s, key, q) {
      assert PutBy(c, Next(c, s, Start(job)), key, q);
    }
  }

  /** From any bucket, over any run: a channel holds what it held at the start, or the document of a process of the run
      that has the flag of this channel and whose assets are in the bucket with the sizes and digests that it was given. */
  lemma {:induction false} ChannelHasOrigin(c: Codec, s: System, events: seq<Event>, key: string)
    requires key == LATEST || key == PRERELEASE
    requires ProcessesSafe(c, s.objects, s.processes)
    ensures ChannelFrom(c, s.objects, Run(c, s, events), key)
  {
    assert ChannelKey("latest") == LATEST && ChannelKey("prerelease") == PRERELEASE;
    if events != [] {
      var n := |events| - 1;
      ChannelHasOrigin(c, s, events[..n], key);
      EveryRunEstablishes(c, s, events[..n]);
      match events[n]
      case Start(job) => StartKeepsOrigin(c, s.objects, Run(c, s, events[..n]), job, key);
      case Act(pid, a) =>
        if pid < |Run(c, s, events[..n]).processes| {
          StepKeepsOrigin(c, s.objects, Run(c, s, events[..n]), pid, a, key);
        }
    }
  }

  ghost predicate InRun(s: System, job: Job) {
    exists i :: 0 <= i < |s.processes| && s.processes[i].job == job
  }

  ghost predicate Describes(c: Codec, s: System, job: Job, doc: Document) {
    ReleaseVersion.Publishable(job.version) && job.Describe() == doc && Serves(c, s.objects, job)
  }

  /** At any moment of any run, the document that a channel holds describes a release that the bucket serves: that of a
      process of the run, unless the channel is as it was at the start. */
  lemma ChannelIsServable(c: Codec, s: System, events: seq<Event>, channel: string, doc: Document)
    requires Safe(c, s) && Honest(c, s.objects) && Readable(c)
    requires channel == "latest" || channel == "prerelease"
    requires var b := Run(c, s, events).objects; ChannelKey(channel) in b && b[ChannelKey(channel)].body == c.render(doc)
    ensures var r := Run(c, s, events);
            var key := ChannelKey(channel);
            exists job: Job :: Describes(c, r, job, doc) && ((InRun(r, job) && Selects(job, key)) || (key in s.objects && r.objects[key] == s.objects[key]))
  {
    EveryRunIsSafe(c, s, events);
    EveryRunIsHonest(c, s, events);
    var key := ChannelKey(channel);
    assert ChannelKey("latest") == LATEST && ChannelKey("prerelease") == PRERELEASE;
    ChannelHasOrigin(c, s, events, key);
    ChannelIsDescribed(c, s.objects, Run(c, s, events), key, doc);
  }

  lemma ChannelIsDescribed(c: Codec, start: Objects, r: System, key: string, doc: Document)
    requires Honest(c, r.objects) && Readable(c) && ChannelSafe(c, r.objects, key) && ChannelFrom(c, start, r, key)
    requires key in r.objects && r.objects[key].body == c.render(doc)
    ensures exists job: Job :: Describes(c, r, job, doc) && ((InRun(r, job) && Selects(job, key)) || (key in start && r.objects[key] == start[key]))
  {
    var job :| PointsAt(c, r.objects, key, job);
    if pid: nat :| PutBy(c, r, key, pid) {
      job := r.processes[pid].job;
      assert InRun(r, job);
    }
    HeldIsServed(c, r.objects, job);
    assert Describes(c, r, job, doc);
  }

  lemma HeldIsServed(c: Codec, b: Objects, job: Job)
    requires Honest(c, b) && AllHeld(b, job) && MetadataHeld(c, b, job)
    ensures Serves(c, b, job)
  {
    forall k | 0 <= k < |job.assets|
      ensures var key := AssetKey(job.version, job.assets[k].name);
              key in b && |b[key].body| == job.assets[k].size && c.sha256(b[key].body) == job.assets[k].sha256
    {
      assert AssetHeld(b, job.version, job.assets[k]);
    }
  }
}
