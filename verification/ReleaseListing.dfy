/** Reading the asset list of a GitHub release, whose asset names are bare file names. */
module ReleaseListing {
  import opened Common
  import opened PyValues
  import opened Sorting
  import opened ReleaseBucket
  import opened ReleaseConvergence

  /** One element of the list that GitHub returned. */
  datatype Record = NotDict | Record(name: Value, size: Value, state: Value, digest: Value)

  predicate HexDigit(c: char) {
    '0' <= c <= '9' || 'a' <= c <= 'f'
  }

  /** SHA256_RE */
  function Sha256Of(digest: Value): Option<string> {
    if digest.Str? && |digest.s| == 71 && digest.s[..7] == "sha256:" && forall i :: 7 <= i < 71 ==> HexDigit(digest.s[i])
    then Some(digest.s[7..]) else None
  }

  function AssetOf(rec: Record): Option<Asset> {
    if rec.Record? && rec.name.Str? && rec.name.s != "" && rec.name.s != METADATA_NAME
      && rec.size.Int? && rec.size.i >= 0 && rec.state == Str("uploaded") && Sha256Of(rec.digest).Some?
    then Some(Asset(rec.name.s, rec.size.i, Sha256Of(rec.digest).value)) else None
  }

  /** An element of the list is an uploaded asset with this name, size and SHA-256 digest. */
  ghost predicate Lists(rec: Record, a: Asset) {
    && rec == Record(Str(a.name), Int(a.size), Str("uploaded"), Str("sha256:" + a.sha256))
    && a.name != "" && a.name != "release.json" && a.size >= 0
    && |a.sha256| == 64 && forall i :: 0 <= i < 64 ==> '0' <= a.sha256[i] <= '9' || 'a' <= a.sha256[i] <= 'f'
  }

  lemma AssetIsListed(rec: Record, a: Asset)
    ensures AssetOf(rec) == Some(a) <==> Lists(rec, a)
  {
    if rec.Record? && rec.digest.Str? {
      DigestMeans(rec.digest.s, a.sha256);
    }
  }

  lemma DigestMeans(digest: string, sha256: string)
    ensures Sha256Of(Str(digest)) == Some(sha256) <==>
              && digest == "sha256:" + sha256 && |sha256| == 64 && forall i :: 0 <= i < 64 ==> '0' <= sha256[i] <= '9' || 'a' <= sha256[i] <= 'f'
  {
    if Sha256Of(Str(digest)) == Some(sha256) {
      assert digest == digest[..7] + digest[7..];
      assert forall i :: 0 <= i < 64 ==> sha256[i] == digest[i + 7];
    }
    if digest == "sha256:" + sha256 && |sha256| == 64 {
      assert digest[..7] == "sha256:" && digest[7..] == sha256;
      assert forall i :: 7 <= i < 71 ==> digest[i] == sha256[i - 7];
    }
  }

  /** The assets stage leaves out what is still being uploaded. */
  predicate Skipped(rec: Record, stage: Stage) {
    rec.Record? && stage.AssetsStage? && rec.state != Str("uploaded")
  }

  ghost predicate Acceptable(records: seq<Record>, stage: Stage) {
    && (forall k :: 0 <= k < |records| ==> Skipped(records[k], stage) || AssetOf(records[k]).Some?)
    && (forall j, k :: 0 <= j < k < |records| && !Skipped(records[j], stage) && !Skipped(records[k], stage) ==> records[j].name != records[k].name)
  }

  ghost predicate Named(records: seq<Record>, stage: Stage, name: string) {
    exists k :: 0 <= k < |records| && !Skipped(records[k], stage) && records[k].Record? && records[k].name == Str(name)
  }

  ghost predicate Collected(records: seq<Record>, stage: Stage, expected: map<string, Asset>) {
    && (forall k :: 0 <= k < |records| && !Skipped(records[k], stage) ==>
          AssetOf(records[k]).Some? && records[k].name.s in expected && expected[records[k].name.s] == AssetOf(records[k]).value)
    && (forall name :: name in expected ==> expected[name].name == name && name != METADATA_NAME && Named(records, stage, name))
  }

  ghost predicate AssetsSorted(assets: seq<Asset>) {
    forall i, j :: 0 <= i < j < |assets| ==> StringLe(assets[i].name, assets[j].name) && assets[i].name != assets[j].name
  }

  /** The loop over the list: exactly the assets that are not left out. */
  method CollectAssets(records: seq<Record>, stage: Stage) returns (r: Result<seq<Asset>, string>)
    ensures r.Ok? <==> Acceptable(records, stage) && exists k :: 0 <= k < |records| && !Skipped(records[k], stage)
    ensures r.Ok? ==> AssetsSorted(r.value) && DistinctNames(r.value)
    ensures r.Ok? ==> forall i :: 0 <= i < |r.value| ==> r.value[i].name != METADATA_NAME
    ensures r.Ok? ==> Contents(records, stage, r.value)
  {
    var expected: map<string, Asset> := map[];
    for n := 0 to |records|
      invariant Acceptable(records[..n], stage)
      invariant Collected(records[..n], stage, expected)
    {
      var rec := records[n];
      CollectOne(records, stage, expected, n);
      if !Skipped(rec, stage) {
        var asset := AssetOf(rec);
        if asset.None? || asset.value.name in expected {
          Rejected(records, stage, expected, n);
          return Err("GitHub returned invalid release metadata");
        }
        expected := expected[asset.value.name := asset.value];
      }
    }
    assert records[..|records|] == records;
    if expected == map[] {
      return Err("GitHub Release has no assets");
    }
    var assets := ByName(expected);
    NonEmpty(records, stage, expected);
    Listed(records, stage, expected, assets);
    r := Ok(assets);
  }

  ghost predicate Contents(records: seq<Record>, stage: Stage, assets: seq<Asset>) {
    forall a :: a in assets <==> exists k :: 0 <= k < |records| && !Skipped(records[k], stage) && AssetOf(records[k]) == Some(a)
  }

  /** Every asset that is not left out is well formed, no name is listed twice, and there is one. */
  ghost predicate WellListed(records: seq<Record>, stage: Stage) {
    && (forall k :: 0 <= k < |records| && !LeftOut(records[k], stage) ==> exists a :: Lists(records[k], a))
    && (forall j, k :: 0 <= j < k < |records| && !LeftOut(records[j], stage) && !LeftOut(records[k], stage) ==> records[j].name != records[k].name)
    && (exists k :: 0 <= k < |records| && !LeftOut(records[k], stage))
  }

  /** An asset that is still being uploaded is left to the finalize stage. */
  ghost predicate LeftOut(rec: Record, stage: Stage) {
    stage == AssetsStage && rec.Record? && rec.state != Str("uploaded")
  }

  ghost predicate ListedAs(records: seq<Record>, stage: Stage, a: Asset) {
    exists k :: 0 <= k < |records| && !LeftOut(records[k], stage) && Lists(records[k], a)
  }

  /** get_release_metadata: it accepts a list exactly when every asset it does not leave out is
      well formed, no name repeats and something is left; it returns those assets by name. */
  method GetReleaseMetadata(records: seq<Record>, stage: Stage) returns (r: Result<seq<Asset>, string>)
    ensures r.Ok? <==> WellListed(records, stage)
    ensures r.Ok? ==> AssetsSorted(r.value) && DistinctNames(r.value) && forall a :: a in r.value <==> ListedAs(records, stage, a)
    ensures r.Ok? ==> forall i :: 0 <= i < |r.value| ==> r.value[i].name != METADATA_NAME
  {
    r := CollectAssets(records, stage);
    WellListedIs(records, stage);
    if r.Ok? {
      forall a ensures a in r.value <==> ListedAs(records, stage, a) { ContentsMean(records, stage, r.value, a); }
    }
  }

  lemma WellListedIs(records: seq<Record>, stage: Stage)
    ensures WellListed(records, stage) <==> Acceptable(records, stage) && exists k :: 0 <= k < |records| && !Skipped(records[k], stage)
  {
    forall k | 0 <= k < |records|
      ensures Skipped(records[k], stage) <==> LeftOut(records[k], stage)
      ensures AssetOf(records[k]).Some? <==> exists a :: Lists(records[k], a)
    {
      SomeAsset(records[k]);
    }
  }

  lemma SomeAsset(rec: Record)
    ensures AssetOf(rec).Some? <==> exists a :: Lists(rec, a)
  {
    if AssetOf(rec).Some? { AssetIsListed(rec, AssetOf(rec).value); }
    if a :| Lists(rec, a) { AssetIsListed(rec, a); }
  }

  lemma ContentsMean(records: seq<Record>, stage: Stage, assets: seq<Asset>, a: Asset)
    requires Contents(records, stage, assets)
    ensures a in assets <==> ListedAs(records, stage, a)
  {
    forall k | 0 <= k < |records|
      ensures Skipped(records[k], stage) <==> LeftOut(records[k], stage)
      ensures AssetOf(records[k]) == Some(a) <==> Lists(records[k], a)
    {
      AssetIsListed(records[k], a);
    }
  }

  lemma CollectOne(records: seq<Record>, stage: Stage, expected: map<string, Asset>, n: nat)
    requires n < |records| && Acceptable(records[..n], stage) && Collected(records[..n], stage, expected)
    ensures Skipped(records[n], stage) ==> Acceptable(records[..n + 1], stage) && Collected(records[..n + 1], stage, expected)
    ensures var asset := AssetOf(records[n]);
            !Skipped(records[n], stage) && asset.Some? && asset.value.name !in expected ==>
              Acceptable(records[..n + 1], stage) && Collected(records[..n + 1], stage, expected[asset.value.name := asset.value])
  {
    assert records[..n + 1] == records[..n] + [records[n]];
    AcceptOne(records[..n], records[n], stage, expected);
    RecordOne(records[..n], records[n], stage, expected);
  }

  lemma AcceptOne(before: seq<Record>, rec: Record, stage: Stage, expected: map<string, Asset>)
    requires Acceptable(before, stage) && Collected(before, stage, expected)
    ensures Skipped(rec, stage) ==> Acceptable(before + [rec], stage)
    ensures !Skipped(rec, stage) && AssetOf(rec).Some? && rec.name.s !in expected ==> Acceptable(before + [rec], stage)
  {
  }

  lemma RecordOne(before: seq<Record>, rec: Record, stage: Stage, expected: map<string, Asset>)
    requires Collected(before, stage, expected)
    ensures Skipped(rec, stage) ==> Collected(before + [rec], stage, expected)
    ensures !Skipped(rec, stage) && AssetOf(rec).Some? && rec.name.s !in expected ==>
              Collected(before + [rec], stage, expected[rec.name.s := AssetOf(rec).value])
  {
    var after := before + [rec];
    forall name | Named(before, stage, name) ensures Named(after, stage, name) {
      var k :| 0 <= k < |before| && !Skipped(before[k], stage) && before[k].Record? && before[k].name == Str(name);
      assert after[k] == before[k];
    }
    if !Skipped(rec, stage) && AssetOf(rec).Some? {
      assert after[|before|] == rec;
      assert Named(after, stage, rec.name.s);
    }
  }

  lemma Rejected(records: seq<Record>, stage: Stage, expected: map<string, Asset>, n: nat)
    requires n < |records| && !Skipped(records[n], stage) && Collected(records[..n], stage, expected)
    requires AssetOf(records[n]).None? || records[n].name.s in expected
    ensures !Acceptable(records, stage)
  {
    if AssetOf(records[n]).Some? {
      assert Named(records[..n], stage, records[n].name.s);
      var k :| 0 <= k < n && !Skipped(records[..n][k], stage) && records[..n][k].Record? && records[..n][k].name == records[n].name;
      assert records[..n][k] == records[k];
    }
  }

  lemma NonEmpty(records: seq<Record>, stage: Stage, expected: map<string, Asset>)
    requires Collected(records, stage, expected) && expected != map[]
    ensures exists k :: 0 <= k < |records| && !Skipped(records[k], stage)
  {
    var name :| name in expected;
    assert Named(records, stage, name);
  }

  /** `sorted(expected.values(), key=name)` */
  method ByName(expected: map<string, Asset>) returns (assets: seq<Asset>)
    requires forall name :: name in expected ==> expected[name].name == name
    ensures AssetsSorted(assets)
    ensures forall a :: a in assets <==> a.name in expected && expected[a.name] == a
  {
    var names := ListStrings(expected.Keys);
    SortedStringsAre(expected.Keys);
    assets := [];
    for i := 0 to |names|
      invariant |assets| == i
      invariant forall k :: 0 <= k < i ==> names[k] in expected && assets[k] == expected[names[k]]
    {
      assert names[i] in Elements(names);
      assets := assets + [expected[names[i]]];
    }
    forall a: Asset | a.name in expected && expected[a.name] == a ensures a in assets {
      assert a.name in Elements(names);
      var k :| 0 <= k < |names| && names[k] == a.name;
      assert assets[k] == a;
    }
  }

  lemma Listed(records: seq<Record>, stage: Stage, expected: map<string, Asset>, assets: seq<Asset>)
    requires Collected(records, stage, expected)
    requires forall a :: a in assets <==> a.name in expected && expected[a.name] == a
    ensures forall a :: a in assets <==> exists k :: 0 <= k < |records| && !Skipped(records[k], stage) && AssetOf(records[k]) == Some(a)
  {
    forall a | a in assets ensures exists k :: 0 <= k < |records| && !Skipped(records[k], stage) && AssetOf(records[k]) == Some(a) {
      var k :| 0 <= k < |records| && !Skipped(records[k], stage) && records[k].Record? && records[k].name == Str(a.name);
    }
  }
}
