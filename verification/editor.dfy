/** The packing state of the editor script (class ABEditor): the static
    build list, the ordered asset-to-bundle table and the dependency table,
    and the methods that fill them for one module and assemble its manifest. */
module Packing {
  import opened Util
  import opened Naming
  import opened ScanSpec
  import opened DependencySpec
  import opened Manifest

  class ABEditor {
    /** One AssetBundleBuild per directory that holds packable files. */
    var assetBundleBuildList: seq<Build>
    /** asset2bundle, as its entries in insertion order. */
    var asset2bundle: seq<Entry>
    var asset2Dependencies: map<string, seq<string>>

    /** asset2bundle records exactly the members of the builds, each under
        its build's name, and no asset twice. */
    ghost predicate Valid()
      reads this
    {
      asset2bundle == Entries(assetBundleBuildList) && Distinct(Keys(asset2bundle))
    }

    constructor ()
      ensures Valid()
      ensures assetBundleBuildList == [] && asset2bundle == [] && asset2Dependencies == map[]
    {
      assetBundleBuildList := [];
      asset2bundle := [];
      asset2Dependencies := map[];
    }

    /** The per-module reset done before a module is scanned. */
    method Reset()
      modifies this
      ensures Valid()
      ensures assetBundleBuildList == [] && asset2bundle == [] && asset2Dependencies == map[]
    {
      assetBundleBuildList := [];
      asset2bundle := [];
      asset2Dependencies := map[];
    }

    /** Packs the non-`.meta` files directly in `d` into one build, if there
        are any, and records each of them in asset2bundle. */
    method ScanCurrDirectory(d: Dir, relDir: string)
      requires Valid()
      requires Distinct(AllAssets(assetBundleBuildList + CurrBuild(d, relDir)))
      modifies this`assetBundleBuildList, this`asset2bundle
      ensures Valid()
      ensures assetBundleBuildList == old(assetBundleBuildList) + CurrBuild(d, relDir)
    {
      var assetNames := CollectAssetNames(d, relDir);
      if |assetNames| > 0 {
        var name := BundleName(relDir);
        var members := FillBuild(name, assetNames);
        var build := Build(name, members);
        assert [build] == CurrBuild(d, relDir);
        AppendBuild(assetBundleBuildList, build);
        assetBundleBuildList := assetBundleBuildList + [build];
      }
    }

    /** The project paths of the files of `d` that are not `.meta` files, in
        enumeration order. */
    method CollectAssetNames(d: Dir, relDir: string) returns (assetNames: seq<string>)
      ensures assetNames == Members(relDir, d.files)
    {
      assetNames := [];
      for i := 0 to |d.files|
        invariant assetNames == Members(relDir, d.files[..i])
      {
        assert d.files[..i + 1][..i] == d.files[..i];
        var f := d.files[i];
        if EndsWith(f, MetaSuffix) {
          continue;
        }
        assetNames := assetNames + [AssetPath(relDir, f)];
      }
      assert d.files[..|d.files|] == d.files;
    }

    /** Copies the asset names into a new build's member array, recording each
        of them in asset2bundle under `name` on the way. */
    method FillBuild(name: string, assetNames: seq<string>) returns (members: seq<string>)
      modifies this`asset2bundle
      ensures members == assetNames
      ensures asset2bundle == old(asset2bundle) + EntriesOf(name, assetNames)
    {
      members := [];
      for i := 0 to |assetNames|
        invariant members == assetNames[..i]
        invariant asset2bundle == old(asset2bundle) + EntriesOf(name, assetNames[..i])
      {
        assert assetNames[..i + 1][..i] == assetNames[..i];
        members := members + [assetNames[i]];
        asset2bundle := asset2bundle + [Entry(assetNames[i], name)];
      }
      assert assetNames[..|assetNames|] == assetNames;
    }

    /** Scans `d` and, unless its name ends in "CSProject~", every directory
        below it, in pre-order. */
    method ScanChildDirectories(d: Dir, relDir: string)
      requires Valid()
      requires Distinct(AllAssets(assetBundleBuildList + ScanBuilds(d, relDir)))
      modifies this`assetBundleBuildList, this`asset2bundle
      ensures Valid()
      ensures assetBundleBuildList == old(assetBundleBuildList) + ScanBuilds(d, relDir)
      decreases d
    {
      if EndsWith(d.name, ExcludedSuffix) {
        assert old(assetBundleBuildList) + [] == old(assetBundleBuildList);
        return;
      }
      ghost var all := old(assetBundleBuildList) + ScanBuilds(d, relDir);
      ghost var head := old(assetBundleBuildList) + CurrBuild(d, relDir);
      assert all == head + ScanAll(d.subdirs, relDir);
      DistinctAssetsPrefix(head, all);
      ScanCurrDirectory(d, relDir);
      for i := 0 to |d.subdirs|
        invariant Valid()
        invariant assetBundleBuildList == head + ScanAll(d.subdirs[..i], relDir)
      {
        var sub := d.subdirs[i];
        ScanAllStep(head, d.subdirs, i, relDir);
        ScanChildDirectories(sub, ChildPath(relDir, sub.name));
      }
      assert d.subdirs[..|d.subdirs|] == d.subdirs;
    }
  
    /** Records, for every asset in asset2bundle order, the bundles of its
        dependencies; an asset gets an entry exactly when some dependency
        survives the filter. */
    method CalculateDependencies(oracle: string -> seq<string>)
      requires Valid()
      requires forall a :: a in asset2Dependencies ==> a !in Keys(asset2bundle)
      modifies this`asset2Dependencies
      ensures Valid()
      ensures asset2Dependencies == old(asset2Dependencies) + DepTable(asset2bundle, asset2bundle, oracle)
    {
      for i := 0 to |asset2bundle|
        invariant asset2Dependencies == old(asset2Dependencies) + DepTable(asset2bundle[..i], asset2bundle, oracle)
      {
        DepTableStep(asset2bundle, i, oracle);
        var asset := asset2bundle[i].asset;
        var assetBundle := asset2bundle[i].bundle;
        var dependencies := oracle(asset);
        var assetList := FilterDependencies(asset, dependencies);
        if |assetList| > 0 {
          var abList := ResolveBundles(assetBundle, assetList);
          assert Keys(asset2bundle)[i] == asset;
          DepTableFresh(asset2bundle, i, oracle);
          assert asset !in asset2Dependencies;
          UnionUpdate(old(asset2Dependencies), DepTable(asset2bundle[..i], asset2bundle, oracle), asset, abList);
          asset2Dependencies := asset2Dependencies[asset := abList];
        }
      }
      assert asset2bundle[..|asset2bundle|] == asset2bundle;
    }

    /** The dependencies other than the asset itself and scripts, in order. */
    method FilterDependencies(asset: string, dependencies: seq<string>) returns (assetList: seq<string>)
      ensures assetList == Filtered(asset, dependencies)
    {
      assetList := [];
      for j := 0 to |dependencies|
        invariant assetList == Filtered(asset, dependencies[..j])
      {
        assert dependencies[..j + 1][..j] == dependencies[..j];
        var oneAsset := dependencies[j];
        if oneAsset == asset || EndsWith(oneAsset, ScriptSuffix) {
          continue;
        }
        assetList := assetList + [oneAsset];
      }
      assert dependencies[..|dependencies|] == dependencies;
    }

    /** The bundles, other than `assetBundle`, that hold the given assets;
        assets in no bundle are skipped. */
    method ResolveBundles(assetBundle: string, assetList: seq<string>) returns (abList: seq<string>)
      ensures abList == Resolve(asset2bundle, assetBundle, assetList)
    {
      abList := [];
      for j := 0 to |assetList|
        invariant abList == Resolve(asset2bundle, assetBundle, assetList[..j])
      {
        assert assetList[..j + 1][..j] == assetList[..j];
        var result := Lookup(asset2bundle, assetList[j]);
        if result.Some? {
          if result.value != assetBundle {
            abList := abList + [result.value];
          }
        }
      }
      assert assetList[..|assetList|] == assetList;
    }

    /** The manifest of the current tables: one bundle record per build,
        then one asset record per asset2bundle entry under keys 0, 1, ... */
    method SaveModuleABConfig(crcOf: string -> int, sizeOf: string -> int) returns (config: ModuleABConfig)
      ensures config == ManifestOf(assetBundleBuildList, asset2bundle, asset2Dependencies, crcOf, sizeOf)
      ensures config.assetCount == |asset2bundle| == |config.assets|
      ensures forall i :: 0 <= i < |asset2bundle| ==> config.assets[i] == AssetRecord(asset2bundle[i], asset2Dependencies)
      ensures forall x :: x in config.bundles ==> exists b :: b in assetBundleBuildList && x == InfoOf(b, crcOf, sizeOf)
    {
      var bundles := RecordBundles(crcOf, sizeOf);
      var records := RecordAssets();
      config := ModuleABConfig(|asset2bundle|, bundles, records);
      AssetRecordsIndexed(asset2bundle, asset2Dependencies);
      forall x | x in config.bundles
        ensures exists b :: b in assetBundleBuildList && x == InfoOf(b, crcOf, sizeOf)
      {
        BundleTableFromBuilds(assetBundleBuildList, crcOf, sizeOf, x);
      }
    }

    /** The bundle records: one `BundleInfo` per build, in order, added to
        the manifest by name. */
    method RecordBundles(crcOf: string -> int, sizeOf: string -> int) returns (bundles: seq<BundleInfo>)
      ensures bundles == BundleTable(assetBundleBuildList, crcOf, sizeOf)
    {
      bundles := [];
      for i := 0 to |assetBundleBuildList|
        invariant bundles == BundleTable(assetBundleBuildList[..i], crcOf, sizeOf)
      {
        assert assetBundleBuildList[..i + 1][..i] == assetBundleBuildList[..i];
        var build := assetBundleBuildList[i];
        var assets := CopyNames(build.assets);
        var info := BundleInfo(build.name, assets, crcOf(build.name), sizeOf(build.name));
        bundles := Put(bundles, info);
      }
      assert assetBundleBuildList[..|assetBundleBuildList|] == assetBundleBuildList;
    }

    /** The asset records: one `AssetInfo` per table entry, at consecutive
        indices, with a copy of its dependency list when it has one. */
    method RecordAssets() returns (records: seq<AssetInfo>)
      ensures records == AssetRecords(asset2bundle, asset2Dependencies)
    {
      records := [];
      var assetIndex := 0;
      for k := 0 to |asset2bundle|
        invariant assetIndex == k == |records|
        invariant records == AssetRecords(asset2bundle[..k], asset2Dependencies)
      {
        assert asset2bundle[..k + 1][..k] == asset2bundle[..k];
        var item := asset2bundle[k];
        var dependencies: seq<string> := [];
        if item.asset in asset2Dependencies {
          dependencies := CopyNames(asset2Dependencies[item.asset]);
        }
        records := records + [AssetInfo(item.asset, item.bundle, dependencies)];
        assetIndex := assetIndex + 1;
      }
      assert asset2bundle[..|asset2bundle|] == asset2bundle;
    }

    /** An element-by-element copy of a list of names. */
    method CopyNames(names: seq<string>) returns (copy: seq<string>)
      ensures copy == names
    {
      copy := [];
      for i := 0 to |names|
        invariant copy == names[..i]
      {
        copy := copy + [names[i]];
      }
    }

    /** Packs one module: resets the three tables, scans the module tree,
        resolves dependencies and assembles the manifest. Nothing from an
        earlier module survives into this one. */
    method PackModule(moduleDir: Dir, oracle: string -> seq<string>, crcOf: string -> int, sizeOf: string -> int)
      returns (config: ModuleABConfig)
      requires Distinct(AllAssets(ScanBuilds(moduleDir, ModulePath(moduleDir.name))))
      modifies this
      ensures Valid()
      ensures config == ModuleManifest(moduleDir, ModulePath(moduleDir.name), oracle, crcOf, sizeOf)
    {
      Reset();
      var relDir := ModulePath(moduleDir.name);
      ghost var builds := ScanBuilds(moduleDir, relDir);
      assert [] + builds == builds;
      ScanChildDirectories(moduleDir, relDir);
      ghost var entries := Entries(builds);
      assert asset2bundle == entries;
      CalculateDependencies(oracle);
      assert asset2Dependencies == DepTable(entries, entries, oracle);
      config := SaveModuleABConfig(crcOf, sizeOf);
    }
  }
}
