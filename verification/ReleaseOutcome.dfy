/**
 What a completed finalisation leaves in the bucket, said from the command-line flags, the release
 and the object keys, without the functions that compute it.
 */
module ReleaseOutcome {
  import opened Common
  import opened ReleaseBucket
  import opened ReleaseConvergence

  ghost predicate Unchanged(b: Objects, b': Objects, key: string) {
    (key in b <==> key in b') && (key in b ==> b'[key] == b[key])
  }

  /** The key holds an upload of the body, recorded with a digest and its checksum. */
  ghost predicate HoldsUpload(c: Codec, b: Objects, key: string, body: Bytes, sha256: string) {
    key in b && b[key].body == body && b[key].sha256 == sha256 && b[key].crc64 == Some(c.crc64(body))
  }

  /** The document has the tag of the release, and one entry for each asset in order with its name and digest. */
  ghost predicate IsDocument(doc: Document, job: Job) {
    && doc.tag == "rust-v" + job.version && |doc.assets| == |job.assets|
    && forall i :: 0 <= i < |job.assets| ==> doc.assets[i].name == job.assets[i].name && doc.assets[i].digest == "sha256:" + job.assets[i].sha256
  }

  ghost predicate HoldsDocument(c: Codec, b: Objects, key: string, doc: Document) {
    HoldsUpload(c, b, key, c.render(doc), c.sha256(c.render(doc)))
  }

  /** A channel is overwritten if its flag is set, and left alone otherwise. */
  ghost predicate ChannelsDelivered(c: Codec, job: Job, doc: Document, b: Objects, b': Objects) {
    && (if job.makeLatest then HoldsDocument(c, b', LATEST, doc) else Unchanged(b, b', LATEST))
    && (if job.prerelease then HoldsDocument(c, b', PRERELEASE, doc) else Unchanged(b, b', PRERELEASE))
  }

  /** An installer is overwritten by that of a stable release, and left alone otherwise. */
  ghost predicate InstallerDelivered(c: Codec, job: Job, name: string, b: Objects, b': Objects) {
    if job.prerelease then Unchanged(b, b', "codex/" + name)
    else exists i: nat :: InstallerIs(c, job, name, b', i)
  }

  ghost predicate InstallerIs(c: Codec, job: Job, name: string, b: Objects, i: nat) {
    i < |job.assets| && job.assets[i].name == name && name in job.files && HoldsUpload(c, b, "codex/" + name, job.files[name], job.assets[i].sha256)
  }

  /** Assets and metadata of the release are added where there is nothing, and nothing is replaced. */
  ghost predicate VersionedDelivered(c: Codec, job: Job, doc: Document, b: Objects, b': Objects) {
    && (forall i :: 0 <= i < |job.assets| ==> AssetDelivered(c, job, job.assets[i], b, b'))
    && var key := "codex/releases/" + job.version + "/" + "release.json";
       if key in b then Unchanged(b, b', key) else HoldsDocument(c, b', key, doc)
  }

  ghost predicate AssetDelivered(c: Codec, job: Job, asset: Asset, b: Objects, b': Objects) {
    var key := "codex/releases/" + job.version + "/" + asset.name;
    if key in b then Unchanged(b, b', key)
    else asset.name in job.files && HoldsUpload(c, b', key, job.files[asset.name], asset.sha256)
  }

  ghost predicate Concerns(job: Job, key: string) {
    || key in [LATEST, PRERELEASE, "codex/install.sh", "codex/install.ps1", "codex/releases/" + job.version + "/" + "release.json"]
    || exists i :: 0 <= i < |job.assets| && key == "codex/releases/" + job.version + "/" + job.assets[i].name
  }

  /** All that a completed finalisation does to the bucket. */
  ghost predicate Delivers(c: Codec, job: Job, doc: Document, b: Objects, b': Objects) {
    && ChannelsDelivered(c, job, doc, b, b')
    && InstallerDelivered(c, job, "install.sh", b, b') && InstallerDelivered(c, job, "install.ps1", b, b')
    && VersionedDelivered(c, job, doc, b, b')
    && forall key :: !Concerns(job, key) ==> Unchanged(b, b', key)
  }

  ghost predicate Delivered(c: Codec, job: Job, b: Objects, b': Objects) {
    exists doc :: IsDocument(doc, job) && Delivers(c, job, doc, b, b')
  }

  // ----- the target delivers the release -----

  lemma KeysAre()
    ensures ChannelKey("latest") == LATEST && ChannelKey("prerelease") == PRERELEASE
    ensures InstallerKey("install.sh") == "codex/install.sh" && InstallerKey("install.ps1") == "codex/install.ps1"
    ensures INSTALLERS == ["install.sh", "install.ps1"]
    ensures LATEST[6] == 'c' && PRERELEASE[6] == 'c' && "codex/install.sh"[6] == 'i' && "codex/install.ps1"[6] == 'i'
    ensures LATEST != PRERELEASE && "codex/install.sh" != "codex/install.ps1"
  {
    assert |LATEST| == 21 && |PRERELEASE| == 25 && |"codex/install.sh"| == 16 && |"codex/install.ps1"| == 17;
  }

  /** Which channels the flags select. */
  lemma ChannelsSelected(job: Job, key: string)
    ensures IsChannelKey(job, key) <==> (key == LATEST && job.makeLatest) || (key == PRERELEASE && job.prerelease)
  {
    KeysAre();
    var channels := job.Channels();
    if key == LATEST && job.makeLatest {
      assert channels[0] == "latest" && key == ChannelKey(channels[0]);
    }
    if key == PRERELEASE && job.prerelease {
      var k := if job.makeLatest then 1 else 0;
      assert channels[k] == "prerelease" && key == ChannelKey(channels[k]);
    }
  }

  lemma DescribeIsDocument(job: Job)
    ensures IsDocument(job.Describe(), job)
  {
  }

  /** A key of the target: the overwriting object if there is one, else what was there, else the write-once object. */
  lemma TargetAt(c: Codec, job: Job, b: Objects, key: string)
    ensures var t, once, over := Target(c, job, b), WriteOnce(c, job), Overwrite(c, job);
            && (key in t <==> key in over || key in b || key in once)
            && (key in t ==> t[key] == if key in over then over[key] else if key in b then b[key] else once[key])
  {
  }

  lemma {:induction false} AssetKeysOnly(c: Codec, job: Job, n: nat)
    requires n <= |job.assets|
    ensures forall key :: key in AssetObjects(c, job, n) ==> exists i: nat :: i < n && key == job.Key(i)
  {
    if n > 0 { AssetKeysOnly(c, job, n - 1); }
  }

  /** A mutable key is never among the write-once ones. */
  lemma MutableIsNotOnce(c: Codec, job: Job, key: string)
    requires |key| > 6 && key[6] != 'r'
    ensures key !in WriteOnce(c, job)
  {
    AssetKeysOnly(c, job, |job.assets|);
    assert forall v, n :: AssetKey(v, n)[6] == "codex/releases/"[6] == 'r';
  }

  lemma ChannelOverwrite(c: Codec, job: Job, key: string)
    requires key == LATEST || key == PRERELEASE
    ensures key in Overwrite(c, job) <==> IsChannelKey(job, key)
    ensures key in Overwrite(c, job) ==> Overwrite(c, job)[key] == MetadataObject(c, job)
  {
    KeysAre();
    OverwriteAt(c, job);
    assert key[6] == 'c';
    if IsChannelKey(job, key) {
      var k: nat :| k < |job.Channels()| && key == ChannelKey(job.Channels()[k]);
    }
    assert !IsInstallerKey(job, key) by {
      forall k: nat | k < |INSTALLERS| ensures InstallerKey(INSTALLERS[k])[6] == 'i' { assert k == 0 || k == 1; }
    }
  }

  lemma ChannelOfTarget(c: Codec, job: Job, b: Objects, key: string)
    requires key == LATEST || key == PRERELEASE
    ensures if IsChannelKey(job, key) then HoldsDocument(c, Target(c, job, b), key, job.Describe()) else Unchanged(b, Target(c, job, b), key)
  {
    KeysAre();
    ChannelOverwrite(c, job, key);
    MutableIsNotOnce(c, job, key);
    TargetAt(c, job, b, key);
  }

  lemma ChannelsOfTarget(c: Codec, job: Job, b: Objects)
    ensures ChannelsDelivered(c, job, job.Describe(), b, Target(c, job, b))
  {
    ChannelOfTarget(c, job, b, LATEST);
    ChannelOfTarget(c, job, b, PRERELEASE);
    ChannelsSelected(job, LATEST);
    ChannelsSelected(job, PRERELEASE);
    KeysAre();
  }

  lemma InstallerKeyIs(k: nat)
    requires k < |INSTALLERS|
    ensures InstallerKey(INSTALLERS[k])[6] == 'i' && InstallerKey(INSTALLERS[k]) != LATEST && InstallerKey(INSTALLERS[k]) != PRERELEASE
    ensures forall j: nat :: j < |INSTALLERS| && InstallerKey(INSTALLERS[j]) == InstallerKey(INSTALLERS[k]) ==> j == k
  {
    KeysAre();
    assert k == 0 || k == 1;
  }

  lemma InstallerOverwrite(c: Codec, job: Job, k: nat)
    requires k < |INSTALLERS|
    ensures var key := InstallerKey(INSTALLERS[k]);
            && (key in Overwrite(c, job) <==> !job.prerelease && job.HasAsset(INSTALLERS[k]))
            && (key in Overwrite(c, job) ==> Overwrite(c, job)[key] == AssetObject(c, job, job.Find(INSTALLERS[k])))
  {
    var key := InstallerKey(INSTALLERS[k]);
    InstallerKeyIs(k);
    OverwriteAt(c, job);
    ChannelsSelected(job, key);
    if key in Overwrite(c, job) {
      var j: nat :| j < |INSTALLERS| && job.HasAsset(INSTALLERS[j]) && key == InstallerKey(INSTALLERS[j]);
      assert j == k;
    }
  }

  lemma InstallerOfTarget(c: Codec, job: Job, b: Objects, k: nat)
    requires k < |INSTALLERS| && (!job.prerelease ==> job.HasAsset(INSTALLERS[k]) && job.FileOk(c, job.Find(INSTALLERS[k])))
    ensures InstallerDelivered(c, job, INSTALLERS[k], b, Target(c, job, b))
  {
    var key := InstallerKey(INSTALLERS[k]);
    InstallerKeyIs(k);
    InstallerOverwrite(c, job, k);
    MutableIsNotOnce(c, job, key);
    TargetAt(c, job, b, key);
    if !job.prerelease {
      assert InstallerIs(c, job, INSTALLERS[k], Target(c, job, b), job.Find(INSTALLERS[k]));
    }
  }

  lemma VersionedOfTarget(c: Codec, job: Job, b: Objects, key: string)
    requires WellFormed(job) && Versioned(key)
    ensures if key in b then Unchanged(b, Target(c, job, b), key)
            else (key in Target(c, job, b) <==> key in WriteOnce(c, job)) && (key in WriteOnce(c, job) ==> Target(c, job, b)[key] == WriteOnce(c, job)[key])
  {
    OverwriteAt(c, job);
    TargetAt(c, job, b, key);
  }

  lemma VersionedOfTargetAll(c: Codec, job: Job, b: Objects)
    requires WellFormed(job) && forall i: nat :: i < |job.assets| ==> job.Key(i) in b || job.FileOk(c, i)
    ensures VersionedDelivered(c, job, job.Describe(), b, Target(c, job, b))
  {
    var t := Target(c, job, b);
    WriteOnceAt(c, job);
    forall i | 0 <= i < |job.assets| ensures AssetDelivered(c, job, job.assets[i], b, t) {
      KeysAreApart(job.version, job.assets[i].name);
      VersionedOfTarget(c, job, b, job.Key(i));
    }
    KeysAreApart(job.version, METADATA_NAME);
    VersionedOfTarget(c, job, b, job.MetadataKey());
  }

  lemma OnceConcerns(c: Codec, job: Job, key: string)
    requires WellFormed(job) && key in WriteOnce(c, job)
    ensures Concerns(job, key)
  {
    WriteOnceAt(c, job);
    if key != job.MetadataKey() {
      var i: nat :| i < |job.assets| && key == job.Key(i);
      assert key == "codex/releases/" + job.version + "/" + job.assets[i].name;
    }
  }

  lemma OverwriteConcerns(c: Codec, job: Job, key: string)
    requires key in Overwrite(c, job)
    ensures Concerns(job, key)
  {
    KeysAre();
    OverwriteAt(c, job);
    ChannelsSelected(job, key);
    if IsInstallerKey(job, key) {
      var k: nat :| k < |INSTALLERS| && job.HasAsset(INSTALLERS[k]) && key == InstallerKey(INSTALLERS[k]);
      assert k == 0 || k == 1;
    }
  }

  lemma OthersOfTarget(c: Codec, job: Job, b: Objects, key: string)
    requires WellFormed(job) && !Concerns(job, key)
    ensures Unchanged(b, Target(c, job, b), key)
  {
    TargetAt(c, job, b, key);
    if key in WriteOnce(c, job) { OnceConcerns(c, job, key); }
    if key in Overwrite(c, job) { OverwriteConcerns(c, job, key); }
  }

  /** The bucket of an uninterrupted finalisation delivers the release. */
  lemma TargetDelivers(c: Codec, job: Job, b: Objects)
    requires WellFormed(job) && forall i: nat :: i < |job.assets| ==> job.Key(i) in b || job.FileOk(c, i)
    requires !job.prerelease ==> forall k: nat :: k < |INSTALLERS| ==> job.HasAsset(INSTALLERS[k]) && job.FileOk(c, job.Find(INSTALLERS[k]))
    ensures Delivers(c, job, job.Describe(), b, Target(c, job, b))
  {
    KeysAre();
    ChannelsOfTarget(c, job, b);
    InstallerOfTarget(c, job, b, 0);
    InstallerOfTarget(c, job, b, 1);
    VersionedOfTargetAll(c, job, b);
    forall key | !Concerns(job, key) ensures Unchanged(b, Target(c, job, b), key) {
      OthersOfTarget(c, job, b, key);
    }
  }

  /** Uploading the channels alone delivers them. */
  lemma ChannelObjectsDeliver(c: Codec, job: Job, b: Objects)
    ensures ChannelsDelivered(c, job, job.Describe(), b, b + ChannelObjects(c, job, |job.Channels()|))
  {
    ChannelObjectsAt(c, job, |job.Channels()|);
    ChannelsSelected(job, LATEST);
    ChannelsSelected(job, PRERELEASE);
  }

  /** After any mixture of interrupted and concurrent runs of a release, a finalisation that completes has set the channels
      that its flags select, and no other. */
  lemma FinalizeSetsChannels(c: Codec, r: Job, b0: Objects, events: seq<Event>, pid: nat)
    requires WellFormed(r) && EventsOf(c, r, events)
    requires var s := Run(c, System(b0, []), events);
             pid < |s.processes| && s.processes[pid].job.stage.FinalizeStage? && s.processes[pid].phase.Done?
    ensures ChannelsDelivered(c, r, r.Describe(), b0, Run(c, System(b0, []), events).objects)
  {
    FinalizeConverges(c, r, b0, events, pid);
    ChannelsOfTarget(c, r, b0);
  }
}
