/**
 One uninterrupted run of the publisher, as the script executes it: a bucket that uploads
 change in place, and loops over assets in whatever order the worker threads complete.
 */
module ReleasePublisher {
  import opened Common
  import opened Sorting
  import opened ReleaseBucket
  import opened ReleaseConvergence
  import opened ReleaseOutcome

  datatype Published = Published(key: string, name: string, sha256: string, size: int)

  function Entry(job: Job, i: nat): Published
    requires i < |job.assets|
  {
    Published(job.Key(i), job.assets[i].name, job.assets[i].sha256, job.assets[i].size)
  }

  /** The store computes a well-formed checksum for every upload. */
  ghost predicate Checksums(c: Codec) {
    forall body :: ValidCrc(Some(c.crc64(body)))
  }

  /** A completion order of the tasks `todo`. */
  ghost predicate CompletionOrder(order: seq<nat>, todo: set<nat>) {
    NoDuplicates(order) && Elements(order) == todo
  }

  /** stream_digest: the digest of a file read in chunks is the digest of the file. */
  method StreamDigest(c: Codec, source: Bytes, chunk: nat) returns (size: nat, sha256: string)
    requires chunk > 0
    ensures size == |source| && sha256 == c.sha256(source)
  {
    var pos, hashed := 0, [];
    size := 0;
    while pos < |source|
      invariant 0 <= pos <= |source| && size == pos && hashed == source[..pos]
    {
      var end := if pos + chunk < |source| then pos + chunk else |source|;
      hashed := hashed + source[pos..end];
      size := size + |source[pos..end]|;
      pos := end;
    }
    assert source[..pos] == source;
    sha256 := c.sha256(hashed);
  }

  // ----- uploads as a function of the bucket -----

  predicate Within(job: Job, todo: seq<nat>) {
    forall k :: 0 <= k < |todo| ==> todo[k] < |job.assets|
  }

  /** One entry for each asset in order, with its key, name, digest and size. */
  ghost predicate Reports(job: Job, entries: seq<Published>) {
    |entries| == |job.assets| &&
    forall i :: 0 <= i < |entries| ==>
      && entries[i].key == "codex/releases/" + job.version + "/" + job.assets[i].name
      && entries[i].name == job.assets[i].name && entries[i].sha256 == job.assets[i].sha256 && entries[i].size == job.assets[i].size
  }

  /** The published entries of the listed assets, in that order. */
  function Entries(job: Job, todo: seq<nat>): (entries: seq<Published>)
    requires Within(job, todo)
    ensures |entries| == |todo|
  {
    seq(|todo|, k requires 0 <= k < |todo| => Entry(job, todo[k]))
  }

  /** The bucket after one asset was validated and uploaded unless its key was taken. */
  function PutOne(c: Codec, job: Job, b: Objects, i: nat): Objects
    requires i < |job.assets|
  {
    if job.FileOk(c, i) then Put(c, b, job.Key(i), job.files[job.assets[i].name], job.assets[i].sha256, true) else b
  }

  /** The bucket after the listed assets were validated and uploaded, in that order. */
  function PutAll(c: Codec, job: Job, b: Objects, todo: seq<nat>): Objects
    requires Within(job, todo)
  {
    if todo == [] then b else PutOne(c, job, PutAll(c, job, b, todo[..|todo| - 1]), todo[|todo| - 1])
  }

  /** Uploads add exactly the valid missing assets, whatever the order. */
  ghost predicate Added(c: Codec, job: Job, b: Objects, b': Objects, done: set<nat>) {
    && (forall key :: key in b ==> key in b' && b'[key] == b[key])
    && (forall i <- done :: i < |job.assets| && job.FileOk(c, i) && job.Key(i) !in b ==> job.Key(i) in b' && b'[job.Key(i)] == AssetObject(c, job, i))
    && (forall key :: key in b' && key !in b ==> exists i <- done :: i < |job.assets| && job.FileOk(c, i) && key == job.Key(i))
  }

  lemma {:induction false} PutAllAdds(c: Codec, job: Job, b: Objects, todo: seq<nat>)
    requires DistinctNames(job.assets) && Within(job, todo)
    ensures Added(c, job, b, PutAll(c, job, b, todo), Elements(todo))
  {
    if todo != [] {
      var n := |todo| - 1;
      PutAllAdds(c, job, b, todo[..n]);
      assert Elements(todo) == Elements(todo[..n]) + {todo[n]};
      AddOne(c, job, b, PutAll(c, job, b, todo[..n]), Elements(todo[..n]), todo[n]);
    }
  }

  lemma AddOne(c: Codec, job: Job, b: Objects, b': Objects, done: set<nat>, i: nat)
    requires DistinctNames(job.assets) && Added(c, job, b, b', done) && i < |job.assets|
    ensures Added(c, job, b, PutOne(c, job, b', i), done + {i})
  {
    KeysDiffer(job, i);
    if job.FileOk(c, i) && job.Key(i) !in b' {
      AddNew(c, job, b, b', done, i);
    }
  }

  lemma AddNew(c: Codec, job: Job, b: Objects, b': Objects, done: set<nat>, i: nat)
    requires Added(c, job, b, b', done) && i < |job.assets| && job.FileOk(c, i) && job.Key(i) !in b'
    requires forall j: nat :: j < |job.assets| && job.Key(j) == job.Key(i) ==> j == i
    ensures Added(c, job, b, b'[job.Key(i) := AssetObject(c, job, i)], done + {i})
  {
  }

  lemma KeysDiffer(job: Job, i: nat)
    requires DistinctNames(job.assets) && i < |job.assets|
    ensures forall j: nat :: j < |job.assets| && job.Key(j) == job.Key(i) ==> j == i
  {
    forall j: nat | j < |job.assets| && job.Key(j) == job.Key(i) ensures j == i {
      AssetKeyInjective(job.version, job.assets[j].name, job.assets[i].name);
    }
  }

  /** An asset that can be published: already stored as listed, or missing with a valid download. */
  ghost predicate Publishes(c: Codec, job: Job, b: Objects, i: nat)
    requires i < |job.assets|
  {
    job.FileOk(c, i) && (job.Key(i) in b ==> AssetHeld(b, job.version, job.assets[i]))
  }

  ghost predicate TaskOk(c: Codec, job: Job, b: Objects, i: nat, verify: bool)
    requires i < |job.assets|
  {
    if verify then Publishes(c, job, b, i) else job.FileOk(c, i)
  }

  /** The place of the first task to fail, in the order of completion. */
  ghost predicate FirstFailure(c: Codec, job: Job, b: Objects, order: seq<nat>, verify: bool, failure: Option<nat>)
    requires Within(job, order)
  {
    match failure
    case None => TasksOk(c, job, b, order, verify)
    case Some(n) => n < |order| && TasksOk(c, job, b, order[..n], verify) && !TaskOk(c, job, b, order[n], verify)
  }

  ghost predicate TasksOk(c: Codec, job: Job, b: Objects, todo: seq<nat>, verify: bool)
    requires Within(job, todo)
  {
    forall k :: 0 <= k < |todo| ==> TaskOk(c, job, b, todo[k], verify)
  }

  lemma VerifiedAfterUpload(c: Codec, job: Job, b: Objects, b': Objects, done: set<nat>, i: nat)
    requires Checksums(c) && Added(c, job, b, b', done) && i in done && i < |job.assets| && job.FileOk(c, i)
    ensures AssetHeld(b', job.version, job.assets[i]) <==> Publishes(c, job, b, i)
  {
    assert |Upload(c, job.files[job.assets[i].name], job.assets[i].sha256).body| == job.assets[i].size;
  }

  ghost predicate AssetsReady(c: Codec, job: Job, b: Objects) {
    forall i: nat :: i < |job.assets| ==> if job.Key(i) in b then AssetHeld(b, job.version, job.assets[i]) else job.FileOk(c, i)
  }

  /** The whole release can be finalised from `b`: no stored object conflicts with it, what is
      missing was downloaded intact, and a stable release has both installers. */
  ghost predicate Accepts(c: Codec, job: Job, b: Objects) {
    && AssetsReady(c, job, b)
    && (job.MetadataKey() in b ==> MetadataHeld(c, b, job))
    && (!job.prerelease ==> InstallersReady(c, job))
  }

  class Publisher {
    const codec: Codec
    var objects: Objects

    constructor (codec: Codec, objects: Objects)
      ensures this.codec == codec && this.objects == objects
    {
      this.codec := codec;
      this.objects := objects;
    }

    method PutObject(key: string, body: Bytes, sha256: string, noOverwrite: bool)
      modifies this
      ensures objects == Put(codec, old(objects), key, body, sha256, noOverwrite)
    {
      if !(noOverwrite && key in objects) {
        objects := objects[key := Upload(codec, body, sha256)];
      }
    }

    /** publish_asset: validate the download, upload it unless the key is taken, then compare. */
    method PublishAsset(job: Job, i: nat, verify: bool) returns (r: Result<Published, string>)
      requires i < |job.assets|
      modifies this
      ensures objects == PutOne(codec, job, old(objects), i)
      ensures r.Ok? <==> job.FileOk(codec, i) && (verify ==> AssetHeld(objects, job.version, job.assets[i]))
      ensures r.Ok? ==> r.value == Entry(job, i)
    {
      var asset := job.assets[i];
      if !job.FileOk(codec, i) {
        return Err("GitHub asset mismatch");
      }
      PutObject(job.Key(i), job.files[asset.name], asset.sha256, true);
      if verify && !VerifyRemote(objects, job.Key(i), asset.size, asset.sha256).Match? {
        return Err("object metadata mismatch");
      }
      r := Ok(Entry(job, i));
    }

    /** The worker threads: every one runs to its end even if another has failed. */
    method RunWorkers(job: Job, order: seq<nat>, verify: bool) returns (failure: Option<nat>, published: map<string, Published>)
      requires DistinctNames(job.assets) && Checksums(codec) && Within(job, order) && NoDuplicates(order)
      modifies this
      ensures objects == PutAll(codec, job, old(objects), order)
      ensures FirstFailure(codec, job, old(objects), order, verify, failure)
      ensures failure.None? ==> Recorded(job, order, published)
    {
      ghost var before := objects;
      failure, published := None, map[];
      for n := 0 to |order|
        invariant objects == PutAll(codec, job, before, order[..n])
        invariant failure.None? ==> Recorded(job, order[..n], published)
        invariant FirstFailure(codec, job, before, order[..n], verify, failure)
      {
        var entry := PublishAsset(job, order[n], verify);
        NextFailure(codec, job, before, order, n, verify, failure);
        if entry.Err? {
          failure := failure.Or(Some(n));
        } else {
          if failure.None? {
            RecordOne(job, order, n, published);
          }
          published := published[job.assets[order[n]].name := entry.value];
        }
      }
      assert order[..|order|] == order;
    }

    /** publish_assets: the published entries come back in asset order whatever the order in which
        the workers complete. */
    method PublishAssets(job: Job, todo: seq<nat>, order: seq<nat>, verify: bool) returns (r: Result<seq<Published>, string>)
      requires DistinctNames(job.assets) && Checksums(codec)
      requires Within(job, todo) && Within(job, order) && CompletionOrder(order, Elements(todo))
      modifies this
      ensures objects == PutAll(codec, job, old(objects), order)
      ensures r.Ok? ==> r.value == Entries(job, todo)
      ensures r.Ok? <==> TasksOk(codec, job, old(objects), todo, verify)
    {
      OrderCovers(order, todo);
      var failure, published := RunWorkers(job, order, verify);
      if failure.None? {
        var list := InAssetOrder(job, todo, order, published);
        r := Ok(list);
      } else {
        r := Err("publish failed");
      }
    }

    /** find_published_assets: which assets are already stored as listed. */
    method FindPublishedAssets(job: Job, order: seq<nat>) returns (r: Result<map<string, Published>, string>)
      requires DistinctNames(job.assets) && Within(job, order) && CompletionOrder(order, job.Indices())
      ensures r.Ok? <==> forall i: nat :: i < |job.assets| ==> job.Key(i) in objects ==> AssetHeld(objects, job.version, job.assets[i])
      ensures r.Ok? ==> forall i: nat :: i < |job.assets| ==>
                (job.assets[i].name in r.value <==> job.Key(i) in objects) && (job.assets[i].name in r.value ==> r.value[job.assets[i].name] == Entry(job, i))
    {
      var published: map<string, Published> := map[];
      for n := 0 to |order|
        invariant forall m :: 0 <= m < n ==> job.Key(order[m]) in objects ==> AssetHeld(objects, job.version, job.assets[order[m]])
        invariant forall m :: 0 <= m < n ==> (job.assets[order[m]].name in published <==> job.Key(order[m]) in objects)
        invariant forall m :: 0 <= m < n && job.Key(order[m]) in objects ==> published[job.assets[order[m]].name] == Entry(job, order[m])
        invariant forall name :: name in published ==> exists m :: 0 <= m < n && job.assets[order[m]].name == name
      {
        var i := order[n];
        var asset := job.assets[i];
        OtherNamesKept(job, order, n);
        match VerifyRemote(objects, job.Key(i), asset.size, asset.sha256)
        case Match => published := published[asset.name := Entry(job, i)];
        case Missing =>
        case Mismatch =>
          assert !AssetHeld(objects, job.version, asset);
          return Err("object metadata mismatch");
      }
      forall i: nat | i < |job.assets|
        ensures job.Key(i) in objects ==> AssetHeld(objects, job.version, job.assets[i])
        ensures job.assets[i].name in published <==> job.Key(i) in objects
        ensures job.assets[i].name in published ==> published[job.assets[i].name] == Entry(job, i)
      {
        assert i in Elements(order);
        var m :| 0 <= m < |order| && order[m] == i;
      }
      r := Ok(published);
    }

    method PublishInstallers(job: Job) returns (ok: bool)
      requires Checksums(codec)
      modifies this
      ensures ok <==> InstallersReady(codec, job)
      ensures ok ==> objects == old(objects) + InstallerObjects(codec, job, |INSTALLERS|)
      ensures Preserves(old(objects), objects)
    {
      if !job.HasInstallers() {
        return false;
      }
      ghost var before := objects;
      for k := 0 to |INSTALLERS|
        invariant objects == before + InstallerObjects(codec, job, k)
        invariant forall m: nat :: m < k ==> job.FileOk(codec, job.Find(INSTALLERS[m]))
        invariant Preserves(before, objects)
      {
        var i := job.Find(INSTALLERS[k]);
        var asset := job.assets[i];
        if !job.FileOk(codec, i) {
          return false;
        }
        PutObject(InstallerKey(INSTALLERS[k]), job.files[asset.name], asset.sha256, false);
        KeysAreApart("", "");
        assert Mutable(InstallerKey(INSTALLERS[k]));
        if !VerifyRemote(objects, InstallerKey(INSTALLERS[k]), asset.size, asset.sha256).Match? {
          assert false;
        }
      }
      ok := true;
    }

    method PublishChannels(job: Job)
      requires Checksums(codec)
      modifies this
      ensures objects == old(objects) + ChannelObjects(codec, job, |job.Channels()|)
      ensures ChannelsDelivered(codec, job, job.Describe(), old(objects), objects)
    {
      ghost var before := objects;
      var body := job.Metadata(codec);
      for k := 0 to |job.Channels()|
        invariant objects == before + ChannelObjects(codec, job, k)
      {
        PutObject(ChannelKey(job.Channels()[k]), body, codec.sha256(body), false);
        if !VerifyRemote(objects, ChannelKey(job.Channels()[k]), |body|, codec.sha256(body)).Match? {
          assert false;
        }
      }
      ChannelObjectsDeliver(codec, job, before);
    }

    /** The asset part of the finalize stage: find what is stored, publish the rest. */
    method PublishMissing(job: Job, heads: seq<nat>, uploads: seq<nat>) returns (r: Result<seq<Published>, string>)
      requires DistinctNames(job.assets) && Checksums(codec)
      requires Within(job, heads) && CompletionOrder(heads, job.Indices())
      requires Within(job, uploads) && CompletionOrder(uploads, Unstored(job, objects))
      modifies this
      ensures r.Ok? <==> AssetsReady(codec, job, old(objects)) && job.Downloaded(Unstored(job, old(objects)))
      ensures r.Ok? ==> objects == PutAll(codec, job, old(objects), uploads)
      ensures MissesDownload(job, old(objects)) ==> r.Err? && objects == old(objects)
      ensures r.Ok? ==> r.value == Entries(job, InOrder(job))
      ensures Preserves(old(objects), objects)
    {
      var found := FindPublishedAssets(job, heads);
      if found.Err? {
        return Err(found.error);
      }
      var previously := found.value;
      var remaining: seq<nat> := [];
      for i := 0 to |job.assets|
        invariant forall k :: 0 <= k < |remaining| ==> remaining[k] < i && job.assets[remaining[k]].name !in previously
        invariant forall j: nat :: j < i && job.assets[j].name !in previously ==> j in remaining
      {
        if job.assets[i].name !in previously {
          remaining := remaining + [i];
        }
      }
      RemainingAreUnstored(job, objects, remaining, previously);
      MissingIsNotDownloaded(job, objects);
      if !job.Downloaded(Elements(remaining)) {
        return Err("GitHub returned invalid release assets");
      }
      UploadsPreserve(codec, job, objects, uploads);
      ReadyMeansTasksOk(codec, job, objects, remaining);
      var uploaded := PublishAssets(job, remaining, uploads, true);
      if uploaded.Err? {
        return Err(uploaded.error);
      }
      var published := Assemble(job, previously, remaining, uploaded.value);
      r := Ok(published);
    }

    /** The mutable objects: installers of a stable release, then the channels. */
    method PublishPointers(job: Job) returns (ok: bool)
      requires Checksums(codec)
      modifies this
      ensures ok <==> (!job.prerelease ==> InstallersReady(codec, job))
      ensures ok ==> objects == old(objects) + Overwrite(codec, job)
      ensures Preserves(old(objects), objects)
    {
      ghost var before := objects;
      if !job.prerelease {
        ok := PublishInstallers(job);
        if !ok {
          return;
        }
      }
      PublishChannels(job);
      assert objects == before + Overwrite(codec, job);
      OverwriteAt(codec, job);
      ok := true;
    }

    /** The finalize stage: it completes exactly when nothing stored conflicts with the release and
        what it must download is intact; then the bucket is the release's target, and the
        published entries are listed in asset order. */
    method Finalize(job: Job, heads: seq<nat>, uploads: seq<nat>) returns (r: Result<seq<Published>, string>)
      requires WellFormed(job) && Checksums(codec)
      requires Within(job, heads) && CompletionOrder(heads, job.Indices())
      requires Within(job, uploads) && CompletionOrder(uploads, Unstored(job, objects))
      modifies this
      ensures r.Ok? <==> Accepts(codec, job, old(objects))
      ensures r.Ok? ==> objects == Target(codec, job, old(objects))
      ensures r.Ok? ==> Delivered(codec, job, old(objects), objects)
      ensures MissesDownload(job, old(objects)) ==> r.Err? && objects == old(objects)
      ensures r.Ok? ==> r.value == Entries(job, InOrder(job)) && Reports(job, r.value)
      ensures Preserves(old(objects), objects)
    {
      ghost var before := objects;
      AcceptsMeansDownloaded(codec, job, before);
      r := PublishMissing(job, heads, uploads);
      if r.Err? {
        return;
      }
      var body := job.Metadata(codec);
      PutObject(job.MetadataKey(), body, codec.sha256(body), true);
      StoredRelease(codec, job, before, uploads);
      if !VerifyRemote(objects, job.MetadataKey(), |body|, codec.sha256(body)).Match? {
        return Err("object metadata mismatch");
      }
      var ok := PublishPointers(job);
      if !ok {
        return Err("installer assets");
      }
      TargetPreserves(codec, job, before);
      AcceptedDelivers(codec, job, before);
    }
  }

  /** A file that must be downloaded is not there: that of an asset which is not stored, or an installer of a stable release. */
  ghost predicate MissesDownload(job: Job, b: Objects) {
    exists i :: 0 <= i < |job.assets| && job.assets[i].name !in job.files
      && ("codex/releases/" + job.version + "/" + job.assets[i].name !in b
          || (!job.prerelease && job.assets[i].name in ["install.sh", "install.ps1"]))
  }

  lemma MissingIsNotDownloaded(job: Job, b: Objects)
    ensures MissesDownload(job, b) <==> !job.Downloaded(Unstored(job, b))
  {
    assert INSTALLERS == ["install.sh", "install.ps1"];
    forall i: nat | i < |job.assets| ensures i in Unstored(job, b) <==> "codex/releases/" + job.version + "/" + job.assets[i].name !in b {
    }
  }

  lemma AcceptedDelivers(c: Codec, job: Job, b: Objects)
    requires WellFormed(job) && Accepts(c, job, b)
    ensures Delivered(c, job, b, Target(c, job, b)) && Reports(job, Entries(job, InOrder(job)))
  {
    TargetDelivers(c, job, b);
    DescribeIsDocument(job);
  }

  /** All assets, in the order of the release. */
  function InOrder(job: Job): (s: seq<nat>)
    ensures Within(job, s)
  {
    seq(|job.assets|, i => i)
  }

  /** `[previously.get(name) or additionally[name] for each asset]` */
  method Assemble(job: Job, previously: map<string, Published>, remaining: seq<nat>, uploaded: seq<Published>) returns (list: seq<Published>)
    requires DistinctNames(job.assets) && Within(job, remaining) && uploaded == Entries(job, remaining)
    requires forall i: nat :: i < |job.assets| ==> if job.assets[i].name in previously then previously[job.assets[i].name] == Entry(job, i) else i in remaining
    ensures list == Entries(job, InOrder(job))
  {
    var additionally: map<string, Published> := map[];
    for k := 0 to |uploaded|
      invariant forall m :: 0 <= m < k ==> job.assets[remaining[m]].name in additionally && additionally[job.assets[remaining[m]].name] == Entry(job, remaining[m])
    {
      additionally := additionally[uploaded[k].name := uploaded[k]];
    }
    list := [];
    for i := 0 to |job.assets|
      invariant list == Entries(job, InOrder(job))[..i]
    {
      var name := job.assets[i].name;
      list := list + [if name in previously then previously[name] else additionally[name]];
    }
  }

  /** The assets with nothing stored under their key. */
  ghost function Unstored(job: Job, b: Objects): set<nat> {
    set i <- job.Indices() | i < |job.assets| && job.Key(i) !in b
  }

  ghost predicate InstallersReady(c: Codec, job: Job) {
    job.HasInstallers() && forall k: nat :: k < |INSTALLERS| ==> job.FileOk(c, job.Find(INSTALLERS[k]))
  }

  /** `[published[asset.path.name] for asset in assets]` */
  method InAssetOrder(job: Job, todo: seq<nat>, ghost order: seq<nat>, published: map<string, Published>) returns (list: seq<Published>)
    requires Within(job, todo) && Within(job, order) && Recorded(job, order, published)
    requires forall k :: 0 <= k < |todo| ==> todo[k] in order
    ensures list == Entries(job, todo)
  {
    list := [];
    for k := 0 to |todo|
      invariant list == Entries(job, todo)[..k]
    {
      assert todo[k] in order;
      list := list + [published[job.assets[todo[k]].name]];
    }
  }

  ghost predicate Recorded(job: Job, done: seq<nat>, published: map<string, Published>)
    requires Within(job, done)
  {
    forall m :: 0 <= m < |done| ==> job.assets[done[m]].name in published && published[job.assets[done[m]].name] == Entry(job, done[m])
  }

  lemma TasksNext(c: Codec, job: Job, b: Objects, order: seq<nat>, n: nat, verify: bool)
    requires Within(job, order) && n < |order|
    ensures TasksOk(c, job, b, order[..n + 1], verify) <==> TasksOk(c, job, b, order[..n], verify) && TaskOk(c, job, b, order[n], verify)
  {
    var done := order[..n + 1];
    assert done[n] == order[n] && forall k :: 0 <= k < n ==> done[k] == order[..n][k];
  }

  /** Whether the upload passes its verification is decided by the bucket before all uploads. */
  lemma OwnOutcome(c: Codec, job: Job, b: Objects, done: seq<nat>, i: nat, verify: bool)
    requires DistinctNames(job.assets) && Checksums(c) && Within(job, done) && i in done && i < |job.assets|
    ensures TaskOk(c, job, b, i, verify) <==> job.FileOk(c, i) && (verify ==> AssetHeld(PutAll(c, job, b, done), job.version, job.assets[i]))
  {
    PutAllAdds(c, job, b, done);
    if job.FileOk(c, i) {
      VerifiedAfterUpload(c, job, b, PutAll(c, job, b, done), Elements(done), i);
    }
  }

  /** What a worker sees after its upload depends only on the bucket before all of them. */
  lemma NextFailure(c: Codec, job: Job, b: Objects, order: seq<nat>, n: nat, verify: bool, failure: Option<nat>)
    requires DistinctNames(job.assets) && Checksums(c) && Within(job, order) && n < |order|
    requires FirstFailure(c, job, b, order[..n], verify, failure)
    ensures PutAll(c, job, b, order[..n + 1]) == PutOne(c, job, PutAll(c, job, b, order[..n]), order[n])
    ensures var ok := job.FileOk(c, order[n]) && (verify ==> AssetHeld(PutAll(c, job, b, order[..n + 1]), job.version, job.assets[order[n]]));
            FirstFailure(c, job, b, order[..n + 1], verify, if ok then failure else failure.Or(Some(n)))
  {
    WorkerOutcome(c, job, b, order, n, verify);
    var after := order[..n + 1];
    assert forall k :: 0 <= k <= n ==> after[..k] == order[..n][..k];
    assert after[..n + 1] == after;
    if failure.Some? {
      assert after[..failure.value + 1] == order[..n][..failure.value + 1];
    }
  }

  lemma WorkerOutcome(c: Codec, job: Job, b: Objects, order: seq<nat>, n: nat, verify: bool)
    requires DistinctNames(job.assets) && Checksums(c) && Within(job, order) && n < |order|
    ensures PutAll(c, job, b, order[..n + 1]) == PutOne(c, job, PutAll(c, job, b, order[..n]), order[n])
    ensures TasksOk(c, job, b, order[..n + 1], verify) <==>
              TasksOk(c, job, b, order[..n], verify) && job.FileOk(c, order[n]) && (verify ==> AssetHeld(PutAll(c, job, b, order[..n + 1]), job.version, job.assets[order[n]]))
  {
    assert order[..n + 1][..n] == order[..n] && order[..n + 1][n] == order[n];
    TasksNext(c, job, b, order, n, verify);
    OwnOutcome(c, job, b, order[..n + 1], order[n], verify);
  }

  lemma RecordOne(job: Job, order: seq<nat>, n: nat, published: map<string, Published>)
    requires DistinctNames(job.assets) && NoDuplicates(order) && n < |order| && Within(job, order)
    requires Recorded(job, order[..n], published)
    ensures Recorded(job, order[..n + 1], published[job.assets[order[n]].name := Entry(job, order[n])])
  {
    OtherNamesKept(job, order, n);
  }

  lemma OtherNamesKept(job: Job, order: seq<nat>, n: nat)
    requires DistinctNames(job.assets) && NoDuplicates(order) && n < |order| && Within(job, order)
    ensures forall m :: 0 <= m < n ==> job.assets[order[m]].name != job.assets[order[n]].name
  {
    forall m | 0 <= m < n ensures job.assets[order[m]].name != job.assets[order[n]].name {
      assert order[m] != order[n];
    }
  }

  lemma OrderCovers(order: seq<nat>, todo: seq<nat>)
    requires Elements(order) == Elements(todo)
    ensures forall k :: 0 <= k < |todo| ==> todo[k] in order
    ensures forall m :: 0 <= m < |order| ==> order[m] in todo
  {
    forall k | 0 <= k < |todo| ensures todo[k] in order { assert todo[k] in Elements(order); }
    forall m | 0 <= m < |order| ensures order[m] in todo { assert order[m] in Elements(todo); }
  }

  lemma RemainingAreUnstored(job: Job, b: Objects, remaining: seq<nat>, found: map<string, Published>)
    requires Within(job, remaining)
    requires forall k :: 0 <= k < |remaining| ==> job.assets[remaining[k]].name !in found
    requires forall j: nat :: j < |job.assets| && job.assets[j].name !in found ==> j in remaining
    requires forall i: nat :: i < |job.assets| ==> (job.assets[i].name in found <==> job.Key(i) in b)
    ensures Elements(remaining) == Unstored(job, b)
  {
  }

  lemma AcceptsMeansDownloaded(c: Codec, job: Job, b: Objects)
    requires DistinctNames(job.assets)
    ensures Accepts(c, job, b) ==> job.Downloaded(Unstored(job, b))
  {
    if Accepts(c, job, b) && !job.prerelease {
      forall i: nat | i < |job.assets| && job.assets[i].name in INSTALLERS ensures job.assets[i].name in job.files {
        var k: nat :| k < |INSTALLERS| && INSTALLERS[k] == job.assets[i].name;
        assert job.FileOk(c, job.Find(INSTALLERS[k]));
      }
    }
  }

  lemma ReadyMeansTasksOk(c: Codec, job: Job, b: Objects, remaining: seq<nat>)
    requires Within(job, remaining) && Elements(remaining) == Unstored(job, b)
    requires forall i: nat :: i < |job.assets| ==> job.Key(i) in b ==> AssetHeld(b, job.version, job.assets[i])
    ensures AssetsReady(c, job, b) <==> TasksOk(c, job, b, remaining, true)
  {
    forall k | 0 <= k < |remaining| ensures job.Key(remaining[k]) !in b { assert remaining[k] in Elements(remaining); }
    forall i: nat | i < |job.assets| && job.Key(i) !in b ensures i in remaining { assert i in Unstored(job, b); }
  }

  lemma UploadsPreserve(c: Codec, job: Job, b: Objects, uploads: seq<nat>)
    requires DistinctNames(job.assets) && Within(job, uploads)
    ensures Preserves(b, PutAll(c, job, b, uploads))
  {
    PutAllAdds(c, job, b, uploads);
  }

  /** After the uploads and the versioned metadata, the bucket is the old one plus the write-once
      objects, and the metadata verifies unless a different object was already there. */
  lemma StoredRelease(c: Codec, job: Job, b: Objects, uploads: seq<nat>)
    requires WellFormed(job) && Checksums(c) && AssetsReady(c, job, b)
    requires Within(job, uploads) && Elements(uploads) == Unstored(job, b)
    ensures var body := job.Metadata(c);
            var b' := Put(c, PutAll(c, job, b, uploads), job.MetadataKey(), body, c.sha256(body), true);
            && b' == WriteOnce(c, job) + b
            && (MetadataHeld(c, b', job) <==> (job.MetadataKey() in b ==> MetadataHeld(c, b, job)))
  {
    var b1 := PutAll(c, job, b, uploads);
    PutAllAdds(c, job, b, uploads);
    UploadedKeys(c, job, b, b1, uploads);
    MetadataKeyIsOwn(job);
    assert job.MetadataKey() in b1 <==> job.MetadataKey() in b;
    StoredObjects(c, job, b, b1);
    var body := job.Metadata(c);
    assert Upload(c, body, c.sha256(body)) == MetadataObject(c, job);
  }

  lemma MetadataKeyIsOwn(job: Job)
    requires WellFormed(job)
    ensures forall i: nat :: i < |job.assets| ==> job.Key(i) != job.MetadataKey()
  {
    forall i: nat | i < |job.assets| ensures job.Key(i) != job.MetadataKey() {
      AssetKeyInjective(job.version, job.assets[i].name, METADATA_NAME);
    }
  }

  lemma StoredObjects(c: Codec, job: Job, b: Objects, b1: Objects)
    requires WellFormed(job)
    requires forall key :: key in b ==> key in b1 && b1[key] == b[key]
    requires forall i: nat :: i < |job.assets| && job.Key(i) !in b ==> job.Key(i) in b1 && b1[job.Key(i)] == AssetObject(c, job, i)
    requires forall key :: key in b1 && key !in b ==> exists i: nat :: i < |job.assets| && key == job.Key(i)
    requires job.MetadataKey() in b1 <==> job.MetadataKey() in b
    ensures (if job.MetadataKey() in b1 then b1 else b1[job.MetadataKey() := MetadataObject(c, job)]) == WriteOnce(c, job) + b
  {
    WriteOnceAt(c, job);
    var w := WriteOnce(c, job);
    forall key | key in w && key != job.MetadataKey() && key !in b ensures key in b1 && b1[key] == w[key] {
      var i: nat :| i < |job.assets| && key == job.Key(i);
    }
    forall key | key in b1 && key !in b ensures key in w {
      var i: nat :| i < |job.assets| && key == job.Key(i);
    }
    MergeMaps(w, b, b1, job.MetadataKey());
  }

  lemma MergeMaps(w: Objects, b: Objects, b1: Objects, k: string)
    requires k in w && (k in b1 <==> k in b)
    requires forall key :: key in b ==> key in b1 && b1[key] == b[key]
    requires forall key :: key in w && key != k && key !in b ==> key in b1 && b1[key] == w[key]
    requires forall key :: key in b1 && key !in b ==> key in w
    ensures (if k in b1 then b1 else b1[k := w[k]]) == w + b
  {
  }

  lemma UploadedKeys(c: Codec, job: Job, b: Objects, b1: Objects, uploads: seq<nat>)
    requires AssetsReady(c, job, b) && Elements(uploads) == Unstored(job, b) && Added(c, job, b, b1, Elements(uploads))
    ensures forall i: nat :: i < |job.assets| && job.Key(i) !in b ==> job.Key(i) in b1 && b1[job.Key(i)] == AssetObject(c, job, i)
  {
    forall i: nat | i < |job.assets| && job.Key(i) !in b ensures job.Key(i) in b1 && b1[job.Key(i)] == AssetObject(c, job, i) {
      assert i in Unstored(job, b);
    }
  }

  lemma TargetPreserves(c: Codec, job: Job, b: Objects)
    requires WellFormed(job)
    ensures Preserves(b, Target(c, job, b))
  {
    OverwriteAt(c, job);
  }
}
