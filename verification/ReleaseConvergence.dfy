/**
 Re-running the publisher converges: after any mixture of interrupted and concurrent runs
 for one release, a finalisation that completes leaves exactly the bucket that a single
 uninterrupted run would have left.
 */
module ReleaseConvergence {
  import opened ReleaseBucket

  predicate DistinctNames(assets: seq<Asset>) {
    forall i, j :: 0 <= i < j < |assets| ==> assets[i].name != assets[j].name
  }

  /** What get_release_metadata guarantees of the asset list it returns. */
  ghost predicate WellFormed(r: Job) {
    && ReleaseVersion.Publishable(r.version)
    && DistinctNames(r.assets)
    && forall i :: 0 <= i < |r.assets| ==> r.assets[i].name != METADATA_NAME
  }

  function Content(r: Job, name: string): Bytes {
    if name in r.files then r.files[name] else []
  }

  function AssetObject(c: Codec, r: Job, i: nat): Stored
    requires i < |r.assets|
  {
    Upload(c, Content(r, r.assets[i].name), r.assets[i].sha256)
  }

  function MetadataObject(c: Codec, r: Job): Stored {
    Upload(c, r.Metadata(c), c.sha256(r.Metadata(c)))
  }

  /** The first `n` assets of a release as versioned objects. */
  function AssetObjects(c: Codec, r: Job, n: nat): Objects
    requires n <= |r.assets|
  {
    if n == 0 then map[] else AssetObjects(c, r, n - 1)[r.Key(n - 1) := AssetObject(c, r, n - 1)]
  }

  /** Objects that are written only if nothing is stored under their key. */
  function WriteOnce(c: Codec, r: Job): Objects {
    AssetObjects(c, r, |r.assets|)[r.MetadataKey() := MetadataObject(c, r)]
  }

  function InstallerObjects(c: Codec, r: Job, n: nat): Objects
    requires n <= |INSTALLERS|
  {
    if n == 0 then map[]
    else if r.HasAsset(INSTALLERS[n - 1]) then
      InstallerObjects(c, r, n - 1)[InstallerKey(INSTALLERS[n - 1]) := AssetObject(c, r, r.Find(INSTALLERS[n - 1]))]
    else InstallerObjects(c, r, n - 1)
  }

  function ChannelObjects(c: Codec, r: Job, n: nat): Objects
    requires n <= |r.Channels()|
  {
    if n == 0 then map[] else ChannelObjects(c, r, n - 1)[ChannelKey(r.Channels()[n - 1]) := MetadataObject(c, r)]
  }

  /** Objects that are replaced whatever was there. */
  function Overwrite(c: Codec, r: Job): Objects {
    (if r.prerelease then map[] else InstallerObjects(c, r, |INSTALLERS|)) + ChannelObjects(c, r, |r.Channels()|)
  }

  /** The bucket left by one uninterrupted finalisation that starts from `b0`. */
  function Target(c: Codec, r: Job, b0: Objects): Objects {
    WriteOnce(c, r) + b0 + Overwrite(c, r)
  }

  // ----- the target, key by key -----

  lemma AssetKeyInjective(version: string, n: string, m: string)
    ensures AssetKey(version, n) == AssetKey(version, m) ==> n == m
  {
    var p := "codex/releases/" + version + "/";
    assert AssetKey(version, n)[|p|..] == n && AssetKey(version, m)[|p|..] == m;
  }

  lemma {:induction false} AssetObjectsAt(c: Codec, r: Job, n: nat)
    requires n <= |r.assets| && DistinctNames(r.assets)
    ensures forall i: nat :: i < n ==> r.Key(i) in AssetObjects(c, r, n) && AssetObjects(c, r, n)[r.Key(i)] == AssetObject(c, r, i)
    ensures forall key :: key in AssetObjects(c, r, n) ==> exists i: nat :: i < n && key == r.Key(i)
  {
    if n > 0 {
      AssetObjectsAt(c, r, n - 1);
      forall i: nat | i < n - 1 ensures r.Key(i) != r.Key(n - 1) {
        AssetKeyInjective(r.version, r.assets[i].name, r.assets[n - 1].name);
      }
    }
  }

  lemma WriteOnceAt(c: Codec, r: Job)
    requires WellFormed(r)
    ensures forall i: nat :: i < |r.assets| ==> r.Key(i) in WriteOnce(c, r) && WriteOnce(c, r)[r.Key(i)] == AssetObject(c, r, i)
    ensures r.MetadataKey() in WriteOnce(c, r) && WriteOnce(c, r)[r.MetadataKey()] == MetadataObject(c, r)
    ensures forall key :: key in WriteOnce(c, r) ==> Versioned(key) && (key == r.MetadataKey() || exists i: nat :: i < |r.assets| && key == r.Key(i))
  {
    AssetObjectsAt(c, r, |r.assets|);
    KeysAreApart(r.version, METADATA_NAME);
    forall i: nat | i < |r.assets| ensures Versioned(r.Key(i)) && r.Key(i) != r.MetadataKey() {
      KeysAreApart(r.version, r.assets[i].name);
      AssetKeyInjective(r.version, r.assets[i].name, METADATA_NAME);
    }
  }

  ghost predicate IsInstallerKey(r: Job, key: string) {
    exists k: nat :: k < |INSTALLERS| && r.HasAsset(INSTALLERS[k]) && key == InstallerKey(INSTALLERS[k])
  }

  ghost predicate IsChannelKey(r: Job, key: string) {
    exists k: nat :: k < |r.Channels()| && key == ChannelKey(r.Channels()[k])
  }

  lemma InstallerKeysDiffer()
    ensures InstallerKey(INSTALLERS[0]) != InstallerKey(INSTALLERS[1])
  {
    assert |InstallerKey(INSTALLERS[0])| == 16 && |InstallerKey(INSTALLERS[1])| == 17;
  }

  lemma InstallerObjectsAt(c: Codec, r: Job)
    ensures var m := InstallerObjects(c, r, |INSTALLERS|);
            && (forall k: nat :: k < |INSTALLERS| && r.HasAsset(INSTALLERS[k]) ==>
                  InstallerKey(INSTALLERS[k]) in m && m[InstallerKey(INSTALLERS[k])] == AssetObject(c, r, r.Find(INSTALLERS[k])))
            && (forall key :: key in m ==> IsInstallerKey(r, key))
  {
    InstallerKeysDiffer();
    assert |INSTALLERS| == 2;
    assert InstallerObjects(c, r, 0) == map[];
    var m1 := InstallerObjects(c, r, 1);
    assert forall key :: key in m1 ==> key == InstallerKey(INSTALLERS[0]) && r.HasAsset(INSTALLERS[0]);
  }

  lemma {:induction false} ChannelObjectsAt(c: Codec, r: Job, n: nat)
    requires n <= |r.Channels()|
    ensures forall k: nat :: k < n ==> ChannelKey(r.Channels()[k]) in ChannelObjects(c, r, n)
    ensures forall key :: key in ChannelObjects(c, r, n) ==>
              ChannelObjects(c, r, n)[key] == MetadataObject(c, r) && IsChannelKey(r, key)
  {
    if n > 0 { ChannelObjectsAt(c, r, n - 1); }
  }

  lemma OverwriteAt(c: Codec, r: Job)
    ensures forall k: nat :: k < |INSTALLERS| && !r.prerelease && r.HasAsset(INSTALLERS[k]) ==>
              InstallerKey(INSTALLERS[k]) in Overwrite(c, r) && Overwrite(c, r)[InstallerKey(INSTALLERS[k])] == AssetObject(c, r, r.Find(INSTALLERS[k]))
    ensures forall k: nat :: k < |r.Channels()| ==>
              ChannelKey(r.Channels()[k]) in Overwrite(c, r) && Overwrite(c, r)[ChannelKey(r.Channels()[k])] == MetadataObject(c, r)
    ensures forall key :: key in Overwrite(c, r) ==> (!r.prerelease && IsInstallerKey(r, key)) || IsChannelKey(r, key)
    ensures forall key :: key in Overwrite(c, r) ==> !Versioned(key)
  {
    InstallerObjectsAt(c, r);
    ChannelObjectsAt(c, r, |r.Channels()|);
    OverwrittenKeys(r);
  }

  lemma OverwrittenKeys(r: Job)
    ensures forall key :: IsInstallerKey(r, key) ==> !Versioned(key) && !IsChannelKey(r, key)
    ensures forall key :: IsChannelKey(r, key) ==> !Versioned(key)
  {
    ChannelsAreMutable(r);
    KeysAreApart("", "");
    forall k: nat | k < |INSTALLERS| ensures Mutable(InstallerKey(INSTALLERS[k])) && InstallerKey(INSTALLERS[k])[6] == 'i' {
    }
    forall k: nat | k < |r.Channels()| ensures ChannelKey(r.Channels()[k])[6] == 'c' {
    }
  }

  // ----- runs for one release -----

  ghost predicate SameAssets(r: Job, job: Job) {
    if job.stage.FinalizeStage? then job.assets == r.assets && job.makeLatest == r.makeLatest && job.prerelease == r.prerelease
    else forall i :: 0 <= i < |job.assets| ==> job.assets[i] in r.assets
  }

  /** What this run downloaded and found valid is the content of the release. */
  ghost predicate DownloadsAreContent(c: Codec, r: Job, job: Job) {
    forall i :: 0 <= i < |job.assets| && job.FileOk(c, i) ==> job.files[job.assets[i].name] == Content(r, job.assets[i].name)
  }

  /** A run for release `r`: the assets stage may see only part of its assets, because some
      are still being uploaded; what it downloads may differ as long as validation notices. */
  ghost predicate RunOf(c: Codec, r: Job, job: Job) {
    job.version == r.version && SameAssets(r, job) && DownloadsAreContent(c, r, job)
  }

  ghost predicate AtTarget(c: Codec, r: Job, b0: Objects, b: Objects, key: string) {
    key in b && key in Target(c, r, b0) && b[key] == Target(c, r, b0)[key]
  }

  /** Every object is what it was at first or what the release makes of it. */
  ghost predicate Between(c: Codec, r: Job, b0: Objects, b: Objects) {
    && b0.Keys <= b.Keys
    && forall key :: key in b ==> AtTarget(c, r, b0, b, key) || (key in b0 && b[key] == b0[key])
  }

  /** A step either leaves the bucket alone or brings one object to its target. */
  ghost predicate WritesTarget(c: Codec, r: Job, b0: Objects, b: Objects, b': Objects) {
    b' == b || exists key :: key in Target(c, r, b0) && b' == b[key := Target(c, r, b0)[key]]
  }

  lemma VersionedTarget(c: Codec, r: Job, b0: Objects, key: string)
    requires WellFormed(r) && Versioned(key)
    ensures key in b0 ==> key in Target(c, r, b0) && Target(c, r, b0)[key] == b0[key]
    ensures key !in b0 && key in WriteOnce(c, r) ==> key in Target(c, r, b0) && Target(c, r, b0)[key] == WriteOnce(c, r)[key]
  {
    OverwriteAt(c, r);
  }

  lemma ChannelTarget(c: Codec, r: Job, b0: Objects, k: nat)
    requires k < |r.Channels()|
    ensures ChannelKey(r.Channels()[k]) in Target(c, r, b0) && Target(c, r, b0)[ChannelKey(r.Channels()[k])] == MetadataObject(c, r)
  {
    OverwriteAt(c, r);
  }

  lemma InstallerTarget(c: Codec, r: Job, b0: Objects, k: nat)
    requires k < |INSTALLERS| && !r.prerelease && r.HasAsset(INSTALLERS[k])
    ensures InstallerKey(INSTALLERS[k]) in Target(c, r, b0)
    ensures Target(c, r, b0)[InstallerKey(INSTALLERS[k])] == AssetObject(c, r, r.Find(INSTALLERS[k]))
  {
    OverwriteAt(c, r);
  }

  /** Storing the target object under its key is a target write. */
  lemma PutTarget(c: Codec, r: Job, b0: Objects, b: Objects, key: string, o: Stored)
    requires key in Target(c, r, b0) && Target(c, r, b0)[key] == o
    ensures WritesTarget(c, r, b0, b, b[key := o]) && AtTarget(c, r, b0, b[key := o], key)
  {
  }

  lemma PutOnceWritesTarget(c: Codec, r: Job, b0: Objects, b: Objects, key: string, o: Stored)
    requires WellFormed(r) && Between(c, r, b0, b) && key in WriteOnce(c, r) && WriteOnce(c, r)[key] == o && Versioned(key)
    ensures WritesTarget(c, r, b0, b, if key in b then b else b[key := o])
  {
    VersionedTarget(c, r, b0, key);
  }

  lemma StepWritesTarget(c: Codec, r: Job, b0: Objects, b: Objects, p: Process, a: Action)
    requires WellFormed(r) && RunOf(c, r, p.job) && Between(c, r, b0, b)
    requires p.job.stage.FinalizeStage? || p.phase.Uploading? || p.phase.Done? || p.phase.Failed?
    requires p.phase.PutInstaller? ==> !r.prerelease
    ensures WritesTarget(c, r, b0, b, Step(c, b, p, a).0)
  {
    if a.PutAsset? {
      PutAssetWritesTarget(c, r, b0, b, p, a.i);
    } else if a.Advance? {
      AdvanceWritesTarget(c, r, b0, b, p);
    } else {
      OthersWriteNothing(c, b, p, a);
    }
  }

  lemma OthersWriteNothing(c: Codec, b: Objects, p: Process, a: Action)
    requires !a.PutAsset? && !a.Advance?
    ensures Step(c, b, p, a).0 == b
  {
  }

  lemma PutAssetWritesTarget(c: Codec, r: Job, b0: Objects, b: Objects, p: Process, i: nat)
    requires WellFormed(r) && RunOf(c, r, p.job) && Between(c, r, b0, b)
    ensures WritesTarget(c, r, b0, b, Step(c, b, p, PutAsset(i)).0)
  {
    var job := p.job;
    if Step(c, b, p, PutAsset(i)).0 != b {
      assert job.FileOk(c, i);
      assert job.assets[i] in r.assets;
      var j :| 0 <= j < |r.assets| && r.assets[j] == job.assets[i];
      WriteOnceAt(c, r);
      assert job.Key(i) == r.Key(j);
      assert Upload(c, job.files[job.assets[i].name], job.assets[i].sha256) == AssetObject(c, r, j);
      PutOnceWritesTarget(c, r, b0, b, r.Key(j), AssetObject(c, r, j));
    }
  }

  lemma AdvanceWritesTarget(c: Codec, r: Job, b0: Objects, b: Objects, p: Process)
    requires WellFormed(r) && RunOf(c, r, p.job) && Between(c, r, b0, b)
    requires p.job.stage.FinalizeStage? || p.phase.Uploading? || p.phase.Done? || p.phase.Failed?
    requires p.phase.PutInstaller? ==> !r.prerelease
    ensures WritesTarget(c, r, b0, b, AdvanceStep(c, b, p).0)
  {
    if p.phase.PutMetadata? {
      PutMetadataWritesTarget(c, r, b0, b, p);
    } else if p.phase.PutInstaller? {
      PutInstallerWritesTarget(c, r, b0, b, p);
    } else if p.phase.PutChannel? {
      PutChannelWritesTarget(c, r, b0, b, p);
    } else {
      WaitingWritesNothing(c, b, p);
    }
  }

  lemma WaitingWritesNothing(c: Codec, b: Objects, p: Process)
    requires !Writes(p.phase)
    ensures AdvanceStep(c, b, p).0 == b
  {
  }

  lemma SameDocument(c: Codec, r: Job, job: Job)
    requires RunOf(c, r, job) && job.stage.FinalizeStage?
    ensures job.Metadata(c) == r.Metadata(c) && job.Channels() == r.Channels() && job.MetadataKey() == r.MetadataKey()
  {
    assert job.Describe() == r.Describe();
  }

  lemma PutMetadataWritesTarget(c: Codec, r: Job, b0: Objects, b: Objects, p: Process)
    requires WellFormed(r) && RunOf(c, r, p.job) && Between(c, r, b0, b)
    requires p.job.stage.FinalizeStage? && p.phase.PutMetadata?
    ensures WritesTarget(c, r, b0, b, AdvanceStep(c, b, p).0)
  {
    SameDocument(c, r, p.job);
    WriteOnceAt(c, r);
    PutOnceWritesTarget(c, r, b0, b, r.MetadataKey(), MetadataObject(c, r));
  }

  lemma PutChannelWritesTarget(c: Codec, r: Job, b0: Objects, b: Objects, p: Process)
    requires RunOf(c, r, p.job) && p.job.stage.FinalizeStage? && p.phase.PutChannel?
    ensures WritesTarget(c, r, b0, b, AdvanceStep(c, b, p).0)
    ensures p.phase.k < |r.Channels()| ==> AtTarget(c, r, b0, AdvanceStep(c, b, p).0, ChannelKey(r.Channels()[p.phase.k]))
  {
    SameDocument(c, r, p.job);
    if p.phase.k < |r.Channels()| {
      ChannelTarget(c, r, b0, p.phase.k);
      PutTarget(c, r, b0, b, ChannelKey(r.Channels()[p.phase.k]), MetadataObject(c, r));
    }
  }

  lemma InstallerObject(c: Codec, r: Job, job: Job, k: nat)
    requires DownloadsAreContent(c, r, job) && job.assets == r.assets && k < |INSTALLERS|
    requires job.HasAsset(INSTALLERS[k]) && job.FileOk(c, job.Find(INSTALLERS[k]))
    ensures r.HasAsset(INSTALLERS[k])
    ensures Upload(c, job.files[INSTALLERS[k]], job.assets[job.Find(INSTALLERS[k])].sha256) == AssetObject(c, r, r.Find(INSTALLERS[k]))
  {
    var i := job.Find(INSTALLERS[k]);
    assert r.assets[i].name == INSTALLERS[k];
    assert ValidFile(c, r.assets[i], job.files[INSTALLERS[k]]);
  }

  lemma PutInstallerWritesTarget(c: Codec, r: Job, b0: Objects, b: Objects, p: Process)
    requires DownloadsAreContent(c, r, p.job) && p.job.assets == r.assets && p.phase.PutInstaller? && !r.prerelease
    ensures WritesTarget(c, r, b0, b, AdvanceStep(c, b, p).0)
    ensures AdvanceStep(c, b, p).1.phase.VerifyInstaller? ==>
              p.phase.k < |INSTALLERS| && r.HasAsset(INSTALLERS[p.phase.k]) && AtTarget(c, r, b0, AdvanceStep(c, b, p).0, InstallerKey(INSTALLERS[p.phase.k]))
  {
    var k := p.phase.k;
    if k < |INSTALLERS| && p.job.HasAsset(INSTALLERS[k]) && p.job.FileOk(c, p.job.Find(INSTALLERS[k])) {
      InstallerObject(c, r, p.job, k);
      InstallerTarget(c, r, b0, k);
      PutTarget(c, r, b0, b, InstallerKey(INSTALLERS[k]), AssetObject(c, r, r.Find(INSTALLERS[k])));
    }
  }

  // ----- progress of one process -----

  ghost predicate InstallersAt(c: Codec, r: Job, b0: Objects, b: Objects, n: nat) {
    !r.prerelease ==> forall k: nat :: k < n && k < |INSTALLERS| ==> r.HasAsset(INSTALLERS[k]) && AtTarget(c, r, b0, b, InstallerKey(INSTALLERS[k]))
  }

  ghost predicate ChannelsAt(c: Codec, r: Job, b0: Objects, b: Objects, n: nat) {
    forall k: nat :: k < n && k < |r.Channels()| ==> AtTarget(c, r, b0, b, ChannelKey(r.Channels()[k]))
  }

  ghost predicate Progress(c: Codec, r: Job, b0: Objects, b: Objects, p: Process) {
    && RunOf(c, r, p.job)
    && (p.phase.Uploading? || p.phase.Done? || p.phase.Failed? || p.job.stage.FinalizeStage?)
    && match p.phase {
        case PutInstaller(k) => !r.prerelease && InstallersAt(c, r, b0, b, k)
        case VerifyInstaller(k) => !r.prerelease && InstallersAt(c, r, b0, b, k + 1)
        case PutChannel(k) => InstallersAt(c, r, b0, b, |INSTALLERS|) && ChannelsAt(c, r, b0, b, k)
        case VerifyChannel(k) => InstallersAt(c, r, b0, b, |INSTALLERS|) && ChannelsAt(c, r, b0, b, k + 1)
        case Done => p.job.stage.FinalizeStage? ==> InstallersAt(c, r, b0, b, |INSTALLERS|) && ChannelsAt(c, r, b0, b, |r.Channels()|)
        case _ => true
      }
  }

  lemma TargetStable(c: Codec, r: Job, b0: Objects, b: Objects, b': Objects)
    requires Between(c, r, b0, b) && WritesTarget(c, r, b0, b, b')
    ensures Between(c, r, b0, b')
    ensures forall key :: AtTarget(c, r, b0, b, key) ==> AtTarget(c, r, b0, b', key)
  {
  }

  lemma ProgressStable(c: Codec, r: Job, b0: Objects, b: Objects, b': Objects, p: Process)
    requires Between(c, r, b0, b) && WritesTarget(c, r, b0, b, b') && Progress(c, r, b0, b, p)
    ensures Progress(c, r, b0, b', p)
  {
    TargetStable(c, r, b0, b, b');
  }

  predicate Writes(phase: Phase) {
    phase.PutMetadata? || phase.PutInstaller? || phase.PutChannel?
  }

  lemma WaitingAdvances(c: Codec, r: Job, b0: Objects, b: Objects, p: Process)
    requires Progress(c, r, b0, b, p) && !Writes(p.phase)
    ensures var (b', p') := AdvanceStep(c, b, p); b' == b && Progress(c, r, b0, b', p')
  {
    if p.phase.VerifyInstaller? {
      InstallerVerified(c, r, b0, b, p);
    } else if p.phase.VerifyChannel? {
      ChannelVerified(c, r, b0, b, p);
    } else if p.phase.VerifyMetadata? {
      MetadataVerified(c, r, b0, b, p);
    } else {
      AssetsAdvance(c, r, b0, b, p);
    }
  }

  lemma AssetsAdvance(c: Codec, r: Job, b0: Objects, b: Objects, p: Process)
    requires Progress(c, r, b0, b, p) && (p.phase.Finding? || p.phase.Uploading? || p.phase.Done? || p.phase.Failed?)
    ensures var (b', p') := AdvanceStep(c, b, p); b' == b && Progress(c, r, b0, b', p')
  {
  }

  lemma MetadataVerified(c: Codec, r: Job, b0: Objects, b: Objects, p: Process)
    requires Progress(c, r, b0, b, p) && p.phase.VerifyMetadata?
    ensures var (b', p') := AdvanceStep(c, b, p); b' == b && Progress(c, r, b0, b', p')
  {
  }

  lemma InstallerVerified(c: Codec, r: Job, b0: Objects, b: Objects, p: Process)
    requires Progress(c, r, b0, b, p) && p.phase.VerifyInstaller?
    ensures var (b', p') := AdvanceStep(c, b, p); b' == b && Progress(c, r, b0, b', p')
  {
  }

  lemma ChannelVerified(c: Codec, r: Job, b0: Objects, b: Objects, p: Process)
    requires Progress(c, r, b0, b, p) && p.phase.VerifyChannel?
    ensures var (b', p') := AdvanceStep(c, b, p); b' == b && Progress(c, r, b0, b', p')
  {
    SameDocument(c, r, p.job);
  }

  lemma MetadataAdvances(c: Codec, r: Job, b0: Objects, b: Objects, p: Process)
    requires Progress(c, r, b0, b, p) && p.phase.PutMetadata?
    ensures var (b', p') := AdvanceStep(c, b, p); Progress(c, r, b0, b', p')
  {
  }

  lemma AdvanceProgresses(c: Codec, r: Job, b0: Objects, b: Objects, p: Process)
    requires WellFormed(r) && Between(c, r, b0, b) && Progress(c, r, b0, b, p)
    ensures var (b', p') := AdvanceStep(c, b, p); Progress(c, r, b0, b', p')
  {
    if p.phase.PutInstaller? {
      InstallerAdvances(c, r, b0, b, p);
    } else if p.phase.PutChannel? {
      ChannelAdvances(c, r, b0, b, p);
    } else if p.phase.PutMetadata? {
      MetadataAdvances(c, r, b0, b, p);
    } else {
      WaitingAdvances(c, r, b0, b, p);
    }
  }

  lemma InstallerAdvances(c: Codec, r: Job, b0: Objects, b: Objects, p: Process)
    requires Between(c, r, b0, b) && Progress(c, r, b0, b, p) && p.phase.PutInstaller?
    ensures var (b', p') := AdvanceStep(c, b, p); Progress(c, r, b0, b', p')
  {
    PutInstallerWritesTarget(c, r, b0, b, p);
    TargetStable(c, r, b0, b, AdvanceStep(c, b, p).0);
  }

  lemma ChannelAdvances(c: Codec, r: Job, b0: Objects, b: Objects, p: Process)
    requires Between(c, r, b0, b) && Progress(c, r, b0, b, p) && p.phase.PutChannel?
    ensures var (b', p') := AdvanceStep(c, b, p); Progress(c, r, b0, b', p')
  {
    PutChannelWritesTarget(c, r, b0, b, p);
    SameDocument(c, r, p.job);
    TargetStable(c, r, b0, b, AdvanceStep(c, b, p).0);
  }

  lemma StepProgresses(c: Codec, r: Job, b0: Objects, b: Objects, p: Process, a: Action)
    requires WellFormed(r) && Between(c, r, b0, b) && Progress(c, r, b0, b, p)
    ensures var (b', p') := Step(c, b, p, a); WritesTarget(c, r, b0, b, b') && Between(c, r, b0, b') && Progress(c, r, b0, b', p')
  {
    var (b', p') := Step(c, b, p, a);
    StepWritesTarget(c, r, b0, b, p, a);
    TargetStable(c, r, b0, b, b');
    if a.Advance? {
      AdvanceProgresses(c, r, b0, b, p);
    } else {
      WorkersProgress(c, r, b0, b, p, a);
    }
  }

  lemma WorkersProgress(c: Codec, r: Job, b0: Objects, b: Objects, p: Process, a: Action)
    requires Between(c, r, b0, b) && Progress(c, r, b0, b, p) && !a.Advance? && WritesTarget(c, r, b0, b, Step(c, b, p, a).0)
    ensures var (b', p') := Step(c, b, p, a); Progress(c, r, b0, b', p')
  {
    ProgressStable(c, r, b0, b, Step(c, b, p, a).0, p);
    PhaseUnlessWorking(c, b, p, a);
  }

  lemma PhaseUnlessWorking(c: Codec, b: Objects, p: Process, a: Action)
    requires !a.Advance?
    ensures var p' := Step(c, b, p, a).1;
            p'.job == p.job && (p'.phase == p.phase || p'.phase.Failed? || (p.phase.Finding? && p'.phase.Finding?) || (p.phase.Uploading? && p'.phase.Uploading?))
  {
  }

  // ----- whole runs -----

  ghost predicate AllProgress(c: Codec, r: Job, b0: Objects, b: Objects, ps: seq<Process>) {
    forall i :: 0 <= i < |ps| ==> Progress(c, r, b0, b, ps[i])
  }

  ghost predicate Converging(c: Codec, r: Job, b0: Objects, s: System) {
    Between(c, r, b0, s.objects) && AllProgress(c, r, b0, s.objects, s.processes)
  }

  ghost predicate EventsOf(c: Codec, r: Job, events: seq<Event>) {
    forall i :: 0 <= i < |events| ==> events[i].Start? ==> RunOf(c, r, events[i].job)
  }

  lemma NextConverges(c: Codec, r: Job, b0: Objects, s: System, e: Event)
    requires WellFormed(r) && Converging(c, r, b0, s)
    requires e.Start? ==> RunOf(c, r, e.job)
    ensures Converging(c, r, b0, Next(c, s, e))
  {
    match e
    case Start(job) =>
    case Act(pid, action) =>
      if pid < |s.processes| {
        var p := s.processes[pid];
        StepProgresses(c, r, b0, s.objects, p, action);
        var (b', p') := Step(c, s.objects, p, action);
        OthersProgress(c, r, b0, s.objects, b', s.processes, pid, p');
      }
  }

  lemma OthersProgress(c: Codec, r: Job, b0: Objects, b: Objects, b': Objects, ps: seq<Process>, pid: nat, p': Process)
    requires pid < |ps| && Between(c, r, b0, b) && WritesTarget(c, r, b0, b, b')
    requires AllProgress(c, r, b0, b, ps) && Progress(c, r, b0, b', p')
    ensures AllProgress(c, r, b0, b', ps[pid := p'])
  {
    forall i | 0 <= i < |ps| && i != pid ensures Progress(c, r, b0, b', ps[i]) {
      ProgressStable(c, r, b0, b, b', ps[i]);
    }
  }

  lemma {:induction false} RunsConverge(c: Codec, r: Job, b0: Objects, events: seq<Event>)
    requires WellFormed(r) && EventsOf(c, r, events)
    ensures Converging(c, r, b0, Run(c, System(b0, []), events))
  {
    if events != [] {
      var n := |events| - 1;
      RunsConverge(c, r, b0, events[..n]);
      NextConverges(c, r, b0, Run(c, System(b0, []), events[..n]), events[n]);
    }
  }

  lemma CompleteIsTarget(c: Codec, r: Job, b0: Objects, b: Objects)
    requires WellFormed(r) && Between(c, r, b0, b)
    requires forall i: nat :: i < |r.assets| ==> r.Key(i) in b
    requires r.MetadataKey() in b
    requires InstallersAt(c, r, b0, b, |INSTALLERS|) && ChannelsAt(c, r, b0, b, |r.Channels()|)
    ensures b == Target(c, r, b0)
  {
    OverwrittenAtTarget(c, r, b0, b);
    forall key | key in b ensures AtTarget(c, r, b0, b, key) { }
    CompleteHasAllKeys(c, r, b0, b);
  }

  lemma CompleteHasAllKeys(c: Codec, r: Job, b0: Objects, b: Objects)
    requires WellFormed(r) && b0.Keys <= b.Keys
    requires (forall i: nat :: i < |r.assets| ==> r.Key(i) in b) && r.MetadataKey() in b
    requires forall key :: key in Overwrite(c, r) ==> key in b
    ensures Target(c, r, b0).Keys <= b.Keys
  {
    WriteOnceAt(c, r);
  }

  lemma OverwrittenAtTarget(c: Codec, r: Job, b0: Objects, b: Objects)
    requires InstallersAt(c, r, b0, b, |INSTALLERS|) && ChannelsAt(c, r, b0, b, |r.Channels()|)
    ensures forall key :: key in Overwrite(c, r) ==> AtTarget(c, r, b0, b, key)
  {
    OverwriteAt(c, r);
    forall key | key in Overwrite(c, r) ensures AtTarget(c, r, b0, b, key) {
      if IsChannelKey(r, key) {
        var k: nat :| k < |r.Channels()| && key == ChannelKey(r.Channels()[k]);
      } else {
        var k: nat :| k < |INSTALLERS| && r.HasAsset(INSTALLERS[k]) && key == InstallerKey(INSTALLERS[k]);
      }
    }
  }

  /** Once one finalisation of a release completes, the bucket is the one that a single
      uninterrupted run would have produced, however many interrupted or concurrent runs
      of that release came before or continue after it. */
  lemma FinalizeConverges(c: Codec, r: Job, b0: Objects, events: seq<Event>, pid: nat)
    requires WellFormed(r) && EventsOf(c, r, events)
    requires var s := Run(c, System(b0, []), events);
             pid < |s.processes| && s.processes[pid].job.stage.FinalizeStage? && s.processes[pid].phase.Done?
    ensures Run(c, System(b0, []), events).objects == Target(c, r, b0)
  {
    var s := Run(c, System(b0, []), events);
    RunsConverge(c, r, b0, events);
    EveryRunEstablishes(c, System(b0, []), events);
    var p := s.processes[pid];
    assert Established(c, s.objects, p) && Progress(c, r, b0, s.objects, p);
    assert p.job.MetadataKey() == r.MetadataKey();
    forall i: nat | i < |r.assets| ensures r.Key(i) in s.objects {
      assert AssetHeld(s.objects, p.job.version, p.job.assets[i]);
    }
    CompleteIsTarget(c, r, b0, s.objects);
  }
}
