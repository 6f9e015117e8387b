/** The per-module manifest (ModuleABConfig) that ABEditor.SaveModuleABConfig
    assembles before it is written as JSON, and the properties a manifest built
    from a scan has.

    ModuleABConfig, BundleInfo and AssetInfo are records here. The bundle table
    is a dictionary keyed by bundle name; it is kept as the ordered sequence of
    its values, whose names are distinct. The asset table is keyed 0..n-1 and is
    kept as a sequence indexed by that key. */
module Manifest {
  import opened Util
  import opened ScanSpec
  import opened DependencySpec

  datatype BundleInfo = BundleInfo(bundleName: string, assets: seq<string>, crc: int, size: int)

  datatype AssetInfo = AssetInfo(assetPath: string, bundleName: string, dependencies: seq<string>)

  /** `assetCount` is the capacity the constructor is given (the number of assets). */
  datatype ModuleABConfig = ModuleABConfig(assetCount: nat, bundles: seq<BundleInfo>, assets: seq<AssetInfo>)

  function Names(bs: seq<BundleInfo>): (r: seq<string>)
    ensures |r| == |bs|
  {
    seq(|bs|, i requires 0 <= i < |bs| => bs[i].bundleName)
  }

  /** The position of the record named `n`, or -1. */
  function FindName(bs: seq<BundleInfo>, n: string): (r: int)
    ensures -1 <= r < |bs|
    ensures r == -1 <==> n !in Names(bs)
    ensures r >= 0 ==> bs[r].bundleName == n
    decreases |bs|
  {
    if bs == [] then -1
    else if bs[|bs| - 1].bundleName == n then
      assert Names(bs)[|bs| - 1] == n;
      |bs| - 1
    else
      assert Names(bs) == Names(bs[..|bs| - 1]) + [bs[|bs| - 1].bundleName];
      FindName(bs[..|bs| - 1], n)
  }

  /** `BundleArray[info.bundle_name] = info`: replaces the record of that name
      in its place, or appends a new one. */
  function Put(bs: seq<BundleInfo>, info: BundleInfo): (r: seq<BundleInfo>)
    requires Distinct(Names(bs))
    ensures Distinct(Names(r))
    ensures info.bundleName !in Names(bs) ==> r == bs + [info]
  {
    var n := info.bundleName;
    var k := FindName(bs, n);
    if k < 0 then
      var r := bs + [info];
      assert Names(r) == Names(bs) + [n];
      DistinctConcat(Names(bs), [n]);
      r
    else
      var r := bs[k := info];
      assert Names(r) == Names(bs);
      r
  }

  /** After `Put` the table holds the new record and every record of another
      name, and nothing else. */
  lemma PutContents(bs: seq<BundleInfo>, info: BundleInfo)
    requires Distinct(Names(bs))
    ensures info in Put(bs, info)
    ensures forall b :: b in Put(bs, info) ==> b == info || (b in bs && b.bundleName != info.bundleName)
    ensures forall b :: b in bs && b.bundleName != info.bundleName ==> b in Put(bs, info)
  {
    var n := info.bundleName;
    var k := FindName(bs, n);
    if k >= 0 {
      var r := bs[k := info];
      assert r == Put(bs, info);
      assert r[k] == info;
      OthersKeepName(bs, k);
      forall b | b in r ensures b == info || (b in bs && b.bundleName != n) {
        var i :| 0 <= i < |r| && r[i] == b;
        if i != k {
          assert b == bs[i];
        }
      }
      forall b | b in bs && b.bundleName != n ensures b in r {
        var i :| 0 <= i < |bs| && bs[i] == b;
        assert r[i] == b;
      }
    } else {
      forall b | b in bs ensures b.bundleName != n {
        InNames(bs, b);
      }
    }
  }

  lemma PutKeeps(bs: seq<BundleInfo>, info: BundleInfo, b: BundleInfo)
    requires Distinct(Names(bs))
    requires b in bs && b.bundleName != info.bundleName
    ensures b in Put(bs, info)
  {
    PutContents(bs, info);
  }

  lemma OthersKeepName(bs: seq<BundleInfo>, k: nat)
    requires Distinct(Names(bs)) && k < |bs|
    ensures forall i :: 0 <= i < |bs| && i != k ==> bs[i].bundleName != bs[k].bundleName
  {
    forall i | 0 <= i < |bs| && i != k ensures bs[i].bundleName != bs[k].bundleName {
      DistinctIndex(Names(bs), i, k);
    }
  }

  function InfoOf(b: Build, crcOf: string -> int, sizeOf: string -> int): BundleInfo {
    BundleInfo(b.name, b.assets, crcOf(b.name), sizeOf(b.name))
  }

  /** The bundle table after `AddBundle` for each build in order. */
  function BundleTable(builds: seq<Build>, crcOf: string -> int, sizeOf: string -> int): (r: seq<BundleInfo>)
    ensures Distinct(Names(r))
    decreases |builds|
  {
    if builds == [] then []
    else Put(BundleTable(builds[..|builds| - 1], crcOf, sizeOf), InfoOf(builds[|builds| - 1], crcOf, sizeOf))
  }

  /** The record of asset number `i`: its path, its bundle, and a copy of its
      dependency list, empty when it has no entry. */
  function AssetRecord(e: Entry, deps: map<string, seq<string>>): AssetInfo {
    AssetInfo(e.asset, e.bundle, if e.asset in deps then deps[e.asset] else [])
  }

  /** The asset table after `AddAsset(assetIndex, ...)` for each entry in order. */
  function AssetRecords(entries: seq<Entry>, deps: map<string, seq<string>>): (r: seq<AssetInfo>)
    ensures |r| == |entries|
    ensures forall i :: 0 <= i < |r| ==> r[i].assetPath == entries[i].asset && r[i].bundleName == entries[i].bundle
    decreases |entries|
  {
    if entries == [] then []
    else AssetRecords(entries[..|entries| - 1], deps) + [AssetRecord(entries[|entries| - 1], deps)]
  }

  /** The manifest `SaveModuleABConfig` writes: the asset count is the number
      of asset records, and no two bundle records share a name. */
  function ManifestOf(builds: seq<Build>, entries: seq<Entry>, deps: map<string, seq<string>>,
                      crcOf: string -> int, sizeOf: string -> int): (r: ModuleABConfig)
    ensures r.assetCount == |r.assets| && Distinct(Names(r.bundles))
  {
    ModuleABConfig(|entries|, BundleTable(builds, crcOf, sizeOf), AssetRecords(entries, deps))
  }

  /** The manifest of one module directory, built from nothing but that
      directory and the external oracles. */
  function ModuleManifest(moduleDir: Dir, relDir: string, oracle: string -> seq<string>,
                          crcOf: string -> int, sizeOf: string -> int): (r: ModuleABConfig)
    ensures r.assetCount == |AllAssets(ScanBuilds(moduleDir, relDir))|
    ensures Distinct(Names(r.bundles))
  {
    var builds := ScanBuilds(moduleDir, relDir);
    var entries := Entries(builds);
    KeysOfEntries(builds);
    ManifestOf(builds, entries, DepTable(entries, entries, oracle), crcOf, sizeOf)
  }

  /** The bundle table has a record of a name exactly when some build has
      that name. */
  lemma BundleTableNames(builds: seq<Build>, crcOf: string -> int, sizeOf: string -> int, n: string)
    ensures n in Names(BundleTable(builds, crcOf, sizeOf)) <==> n in BuildNames(builds)
  {
    RecordNamesFromBuilds(builds, crcOf, sizeOf, n);
    BuildNamesHaveRecords(builds, crcOf, sizeOf, n);
  }

  lemma {:induction false} RecordNamesFromBuilds(builds: seq<Build>, crcOf: string -> int, sizeOf: string -> int, n: string)
    ensures n in Names(BundleTable(builds, crcOf, sizeOf)) ==> n in BuildNames(builds)
    decreases |builds|
  {
    if builds != [] {
      var init, last := builds[..|builds| - 1], builds[|builds| - 1];
      RecordNamesFromBuilds(init, crcOf, sizeOf, n);
      var t := BundleTable(init, crcOf, sizeOf);
      var info := InfoOf(last, crcOf, sizeOf);
      var r := Put(t, info);
      assert BundleTable(builds, crcOf, sizeOf) == r;
      if n in Names(r) {
        PutContents(t, info);
        if n == last.name {
          assert BuildNames(builds)[|builds| - 1] == n;
        } else {
          var i :| 0 <= i < |r| && Names(r)[i] == n;
          InNames(t, r[i]);
          var j :| 0 <= j < |init| && BuildNames(init)[j] == n;
          assert BuildNames(builds)[j] == n;
        }
      }
    }
  }

  lemma {:induction false} BuildNamesHaveRecords(builds: seq<Build>, crcOf: string -> int, sizeOf: string -> int, n: string)
    ensures n in BuildNames(builds) ==> n in Names(BundleTable(builds, crcOf, sizeOf))
    decreases |builds|
  {
    if builds != [] {
      var init, last := builds[..|builds| - 1], builds[|builds| - 1];
      BuildNamesHaveRecords(init, crcOf, sizeOf, n);
      var t := BundleTable(init, crcOf, sizeOf);
      var info := InfoOf(last, crcOf, sizeOf);
      var r := Put(t, info);
      assert BundleTable(builds, crcOf, sizeOf) == r;
      if n in BuildNames(builds) {
        if n == last.name {
          PutContents(t, info);
          InNames(r, info);
        } else {
          NameInInit(builds, n);
          var b := Named(t, n);
          PutKeeps(t, info, b);
          InNames(r, b);
        }
      }
    }
  }

  /** A name of some builds other than the last one's is a name of the others. */
  lemma NameInInit(builds: seq<Build>, n: string)
    requires builds != [] && n in BuildNames(builds) && n != builds[|builds| - 1].name
    ensures n in BuildNames(builds[..|builds| - 1])
  {
    var j :| 0 <= j < |builds| && BuildNames(builds)[j] == n;
    assert j < |builds| - 1 && BuildNames(builds[..|builds| - 1])[j] == n;
  }

  /** The record holding a name that occurs among some records. */
  lemma Named(bs: seq<BundleInfo>, n: string) returns (b: BundleInfo)
    requires n in Names(bs)
    ensures b in bs && b.bundleName == n
  {
    var i :| 0 <= i < |bs| && Names(bs)[i] == n;
    b := bs[i];
  }

  lemma InNames(bs: seq<BundleInfo>, b: BundleInfo)
    requires b in bs
    ensures b.bundleName in Names(bs)
  {
    var i :| 0 <= i < |bs| && bs[i] == b;
    assert Names(bs)[i] == b.bundleName;
  }

  /** Every bundle record is the record of some build (its name, members,
      crc and size). */
  lemma {:induction false} BundleTableFromBuilds(builds: seq<Build>, crcOf: string -> int, sizeOf: string -> int, x: BundleInfo)
    requires x in BundleTable(builds, crcOf, sizeOf)
    ensures exists b :: b in builds && x == InfoOf(b, crcOf, sizeOf)
    decreases |builds|
  {
    var init, last := builds[..|builds| - 1], builds[|builds| - 1];
    var t := BundleTable(init, crcOf, sizeOf);
    PutContents(t, InfoOf(last, crcOf, sizeOf));
    if x != InfoOf(last, crcOf, sizeOf) {
      BundleTableFromBuilds(init, crcOf, sizeOf, x);
      var b :| b in init && x == InfoOf(b, crcOf, sizeOf);
      assert b in builds;
    }
  }

  /** When build names are distinct there is one bundle record per build,
      in build order. */
  lemma {:induction false} BundleTableInOrder(builds: seq<Build>, crcOf: string -> int, sizeOf: string -> int)
    requires Distinct(BuildNames(builds))
    ensures |BundleTable(builds, crcOf, sizeOf)| == |builds|
    ensures forall k :: 0 <= k < |builds| ==> BundleTable(builds, crcOf, sizeOf)[k] == InfoOf(builds[k], crcOf, sizeOf)
    decreases |builds|
  {
    if builds != [] {
      var init, last := builds[..|builds| - 1], builds[|builds| - 1];
      assert BuildNames(builds) == BuildNames(init) + [last.name];
      DistinctConcat(BuildNames(init), [last.name]);
      BundleTableInOrder(init, crcOf, sizeOf);
      BundleTableNames(init, crcOf, sizeOf, last.name);
    }
  }

  function BuildNames(builds: seq<Build>): (r: seq<string>)
    ensures |r| == |builds|
  {
    seq(|builds|, i requires 0 <= i < |builds| => builds[i].name)
  }

  /** Asset records are keyed 0..n-1 in asset2bundle order. */
  lemma {:induction false} AssetRecordsIndexed(entries: seq<Entry>, deps: map<string, seq<string>>)
    ensures |AssetRecords(entries, deps)| == |entries|
    ensures forall i :: 0 <= i < |entries| ==> AssetRecords(entries, deps)[i] == AssetRecord(entries[i], deps)
    decreases |entries|
  {
    if entries != [] {
      AssetRecordsIndexed(entries[..|entries| - 1], deps);
    }
  }

  /** With distinct asset paths, looking an asset up finds its own entry. */
  lemma {:induction false} LookupOwnEntry(table: seq<Entry>, i: nat)
    requires Distinct(Keys(table)) && i < |table|
    ensures Lookup(table, table[i].asset) == Some(table[i].bundle)
    decreases |table|
  {
    var init := table[..|table| - 1];
    if i < |table| - 1 {
      assert Keys(table)[i] != Keys(table)[|table| - 1];
      assert Keys(init) == Keys(table)[..|table| - 1];
      LookupOwnEntry(init, i);
    }
  }

  /** Every unit name in any asset's dependency list is a key of the bundle table. */
  lemma ManifestReferentialIntegrity(moduleDir: Dir, relDir: string, oracle: string -> seq<string>,
                                     crcOf: string -> int, sizeOf: string -> int, i: nat, n: string)
    requires i < |ModuleManifest(moduleDir, relDir, oracle, crcOf, sizeOf).assets|
    requires n in ModuleManifest(moduleDir, relDir, oracle, crcOf, sizeOf).assets[i].dependencies
    ensures n in Names(ModuleManifest(moduleDir, relDir, oracle, crcOf, sizeOf).bundles)
  {
    var builds := ScanBuilds(moduleDir, relDir);
    var entries := Entries(builds);
    var deps := DepTable(entries, entries, oracle);
    AssetRecordsIndexed(entries, deps);
    var e := entries[i];
    assert e.asset in deps;
    DependencyIntegrity(entries, entries, oracle, e.asset);
    var owner :| owner in entries && owner.bundle == n;
    EntryOwnedByBuild(builds, owner);
    var k :| 0 <= k < |builds| && builds[k].name == n && owner.asset in builds[k].assets;
    assert BuildNames(builds)[k] == n;
    BundleTableNames(builds, crcOf, sizeOf, n);
  }

  /** No asset record lists its own bundle, provided asset paths are unique
      (which `asset2bundle.Add` enforces by throwing). */
  lemma ManifestNoSelfDependency(moduleDir: Dir, relDir: string, oracle: string -> seq<string>,
                                 crcOf: string -> int, sizeOf: string -> int, i: nat)
    requires Distinct(AllAssets(ScanBuilds(moduleDir, relDir)))
    requires i < |ModuleManifest(moduleDir, relDir, oracle, crcOf, sizeOf).assets|
    ensures ModuleManifest(moduleDir, relDir, oracle, crcOf, sizeOf).assets[i].bundleName
            !in ModuleManifest(moduleDir, relDir, oracle, crcOf, sizeOf).assets[i].dependencies
  {
    var builds := ScanBuilds(moduleDir, relDir);
    var entries := Entries(builds);
    var deps := DepTable(entries, entries, oracle);
    AssetRecordsIndexed(entries, deps);
    KeysOfEntries(builds);
    var e := entries[i];
    if e.asset in deps {
      LookupOwnEntry(entries, i);
      NoSelfDependency(entries, oracle, e.asset);
    }
  }
}
