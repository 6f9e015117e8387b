/** What a scan of one module directory produces (ABEditor.ScanChildDireations
    and ABEditor.ScanCurrDirectory), as functions the scanning methods are
    proved against.

    A directory is a value: its name, the names of its files in enumeration
    order, and its subdirectories in enumeration order. */
module ScanSpec {
  import opened Util
  import opened Naming

  datatype Dir = Dir(name: string, files: seq<string>, subdirs: seq<Dir>)

  /** One AssetBundleBuild: a bundle name and its member asset paths. */
  datatype Build = Build(name: string, assets: seq<string>)

  /** One asset2bundle entry. */
  datatype Entry = Entry(asset: string, bundle: string)

  /** Directories whose name ends so are skipped with all they contain. */
  const ExcludedSuffix: string := "CSProject~"

  /** Unity's sidecar metadata files, never packed. */
  const MetaSuffix: string := ".meta"

  /** The folder holding every module, relative to the Unity data folder. */
  const ModuleRoot: string := "GAssets"

  function ChildPath(relDir: string, name: string): string {
    relDir + [WinSep] + name
  }

  /** Relative path of the module directory called `name`. */
  function ModulePath(name: string): string {
    ChildPath(ModuleRoot, name)
  }

  /** Asset paths of the files that are not `.meta` files, in enumeration order. */
  function Members(relDir: string, files: seq<string>): (r: seq<string>)
    ensures |r| <= |files|
    ensures forall a :: a in r ==> exists f :: f in files && !EndsWith(f, MetaSuffix) && a == AssetPath(relDir, f)
    ensures forall f :: f in files && !EndsWith(f, MetaSuffix) ==> AssetPath(relDir, f) in r
    decreases |files|
  {
    if files == [] then []
    else
      var f := files[|files| - 1];
      Members(relDir, files[..|files| - 1]) + (if EndsWith(f, MetaSuffix) then [] else [AssetPath(relDir, f)])
  }

  /** The build a single directory contributes: none when every file is a `.meta` file. */
  function CurrBuild(d: Dir, relDir: string): (r: seq<Build>)
    ensures |r| <= 1
    ensures r != [] <==> exists f :: f in d.files && !EndsWith(f, MetaSuffix)
    ensures r != [] ==> r[0].name == BundleName(relDir) && r[0].assets == Members(relDir, d.files)
  {
    var members := Members(relDir, d.files);
    assert |members| > 0 ==> members[0] in members;
    if |members| > 0 then [Build(BundleName(relDir), members)] else []
  }

  /** All builds of a directory tree, in pre-order: a pruned tree gives
      none, otherwise the directory's own build comes first. No build is
      empty. */
  function ScanBuilds(d: Dir, relDir: string): (r: seq<Build>)
    ensures EndsWith(d.name, ExcludedSuffix) ==> r == []
    ensures !EndsWith(d.name, ExcludedSuffix) ==> CurrBuild(d, relDir) <= r
    ensures forall i :: 0 <= i < |r| ==> r[i].assets != []
    decreases d, 1
  {
    if EndsWith(d.name, ExcludedSuffix) then []
    else
      var own := CurrBuild(d, relDir);
      assert own != [] ==> own[0].assets != [] by {
        if own != [] {
          var f :| f in d.files && !EndsWith(f, MetaSuffix);
          assert AssetPath(relDir, f) in own[0].assets;
        }
      }
      own + ScanAll(d.subdirs, relDir)
  }

  /** The builds of sibling subdirectories of `relDir`, one after another.
      No build is empty. */
  function ScanAll(ds: seq<Dir>, relDir: string): (r: seq<Build>)
    ensures forall i :: 0 <= i < |r| ==> r[i].assets != []
    decreases ds, 0
  {
    if ds == [] then []
    else
      var last := ds[|ds| - 1];
      ScanAll(ds[..|ds| - 1], relDir) + ScanBuilds(last, ChildPath(relDir, last.name))
  }

  /** The entries `asset2bundle.Add` records for one build. */
  function EntriesOf(name: string, assets: seq<string>): seq<Entry>
    decreases |assets|
  {
    if assets == [] then []
    else EntriesOf(name, assets[..|assets| - 1]) + [Entry(assets[|assets| - 1], name)]
  }

  /** The entries recorded for a sequence of builds, in order. */
  function Entries(bs: seq<Build>): seq<Entry>
    decreases |bs|
  {
    if bs == [] then []
    else
      var last := bs[|bs| - 1];
      Entries(bs[..|bs| - 1]) + EntriesOf(last.name, last.assets)
  }

  /** Every member of every build, in order. */
  function AllAssets(bs: seq<Build>): seq<string>
    decreases |bs|
  {
    if bs == [] then [] else AllAssets(bs[..|bs| - 1]) + bs[|bs| - 1].assets
  }

  /** The keys of an ordered table, in order. */
  function Keys(es: seq<Entry>): (r: seq<string>)
    ensures |r| == |es|
  {
    seq(|es|, i requires 0 <= i < |es| => es[i].asset)
  }

  lemma {:induction false} EntriesOfShape(name: string, assets: seq<string>)
    ensures |EntriesOf(name, assets)| == |assets|
    ensures forall i :: 0 <= i < |assets| ==> EntriesOf(name, assets)[i] == Entry(assets[i], name)
    decreases |assets|
  {
    if assets != [] {
      EntriesOfShape(name, assets[..|assets| - 1]);
    }
  }

  lemma {:induction false} EntriesAppend(a: seq<Build>, b: seq<Build>)
    ensures Entries(a + b) == Entries(a) + Entries(b)
    decreases |b|
  {
    if b == [] {
      assert a + b == a;
    } else {
      var b', last := b[..|b| - 1], b[|b| - 1];
      assert (a + b)[..|a + b| - 1] == a + b' && (a + b)[|a + b| - 1] == last;
      EntriesAppend(a, b');
      var tail := EntriesOf(last.name, last.assets);
      assert Entries(a + b) == Entries(a + b') + tail;
      assert Entries(b) == Entries(b') + tail;
      assert (Entries(a) + Entries(b')) + tail == Entries(a) + (Entries(b') + tail);
    }
  }

  lemma {:induction false} AllAssetsAppend(a: seq<Build>, b: seq<Build>)
    ensures AllAssets(a + b) == AllAssets(a) + AllAssets(b)
    decreases |b|
  {
    if b == [] {
      assert a + b == a;
    } else {
      var b', last := b[..|b| - 1], b[|b| - 1];
      assert (a + b)[..|a + b| - 1] == a + b' && (a + b)[|a + b| - 1] == last;
      AllAssetsAppend(a, b');
      assert AllAssets(a + b) == AllAssets(a + b') + last.assets;
      assert AllAssets(b) == AllAssets(b') + last.assets;
      assert (AllAssets(a) + AllAssets(b')) + last.assets == AllAssets(a) + (AllAssets(b') + last.assets);
    }
  }

  /** The keys of the entries of some builds are exactly their members, in order. */
  lemma {:induction false} KeysOfEntries(bs: seq<Build>)
    ensures Keys(Entries(bs)) == AllAssets(bs)
    decreases |bs|
  {
    if bs != [] {
      var last := bs[|bs| - 1];
      KeysOfEntries(bs[..|bs| - 1]);
      EntriesOfShape(last.name, last.assets);
      var es := Entries(bs[..|bs| - 1]);
      var tail := EntriesOf(last.name, last.assets);
      assert Keys(es + tail) == Keys(es) + last.assets;
    }
  }

  /** Every entry maps an asset to the name of a build that holds it. */
  lemma {:induction false} EntryOwnedByBuild(bs: seq<Build>, e: Entry)
    requires e in Entries(bs)
    ensures exists k :: 0 <= k < |bs| && bs[k].name == e.bundle && e.asset in bs[k].assets
    decreases |bs|
  {
    var last := bs[|bs| - 1];
    var init := bs[..|bs| - 1];
    if e in Entries(init) {
      EntryOwnedByBuild(init, e);
      var k :| 0 <= k < |init| && init[k].name == e.bundle && e.asset in init[k].assets;
      assert bs[k] == init[k];
    } else {
      EntriesOfShape(last.name, last.assets);
      assert bs[|bs| - 1] == last;
    }
  }

  /** The builds of the first `j` subdirectories come first among the builds of all of them. */
  lemma {:induction false} ScanAllPrefix(ds: seq<Dir>, j: nat, relDir: string)
    requires j <= |ds|
    ensures ScanAll(ds[..j], relDir) <= ScanAll(ds, relDir)
    decreases |ds|
  {
    if j < |ds| {
      assert ds[..|ds| - 1][..j] == ds[..j];
      ScanAllPrefix(ds[..|ds| - 1], j, relDir);
    } else {
      assert ds[..j] == ds;
    }
  }

  /** The builds of the first `i + 1` subdirectories: those of the first `i`,
      then those of the next one. */
  lemma ScanAllSnoc(ds: seq<Dir>, i: nat, relDir: string)
    requires i < |ds|
    ensures ScanAll(ds[..i + 1], relDir) == ScanAll(ds[..i], relDir) + ScanBuilds(ds[i], ChildPath(relDir, ds[i].name))
  {
    assert ds[..i + 1][..i] == ds[..i] && ds[..i + 1][i] == ds[i];
  }

  /** Scanning the subdirectories one at a time: after the first `i`, the
      next one adds its own builds, and the members gathered so far, with the
      next directory's, are still distinct when all of them are. */
  lemma ScanAllStep(head: seq<Build>, ds: seq<Dir>, i: nat, relDir: string)
    requires i < |ds| && Distinct(AllAssets(head + ScanAll(ds, relDir)))
    ensures head + ScanAll(ds[..i + 1], relDir)
         == head + ScanAll(ds[..i], relDir) + ScanBuilds(ds[i], ChildPath(relDir, ds[i].name))
    ensures Distinct(AllAssets(head + ScanAll(ds[..i + 1], relDir)))
  {
    ScanAllSnoc(ds, i, relDir);
    ScanAllPrefix(ds, i + 1, relDir);
    var pre, all := head + ScanAll(ds[..i + 1], relDir), head + ScanAll(ds, relDir);
    assert pre <= all;
    DistinctAssetsPrefix(pre, all);
  }

  /** Distinct members of some builds stay distinct in any prefix of them. */
  lemma DistinctAssetsPrefix(a: seq<Build>, b: seq<Build>)
    requires a <= b && Distinct(AllAssets(b))
    ensures Distinct(AllAssets(a))
  {
    assert b == a + b[|a|..];
    AllAssetsAppend(a, b[|a|..]);
    DistinctConcat(AllAssets(a), AllAssets(b[|a|..]));
  }

  lemma KeysPrefix(es: seq<Entry>, i: nat)
    requires i <= |es|
    ensures Keys(es[..i]) == Keys(es)[..i]
  {
  }

  lemma EntriesSnoc(bs: seq<Build>, b: Build)
    ensures Entries(bs + [b]) == Entries(bs) + EntriesOf(b.name, b.assets)
  {
    assert (bs + [b])[..|bs|] == bs;
  }

  /** Appending a build appends its entries, and keeps the keys distinct
      when the members stay distinct. */
  lemma AppendBuild(bs: seq<Build>, b: Build)
    requires Distinct(AllAssets(bs + [b]))
    ensures Entries(bs + [b]) == Entries(bs) + EntriesOf(b.name, b.assets)
    ensures Distinct(Keys(Entries(bs + [b])))
  {
    EntriesSnoc(bs, b);
    DistinctEntries(bs + [b]);
  }

  /** Entries of builds with distinct members have distinct keys. */
  lemma DistinctEntries(bs: seq<Build>)
    requires Distinct(AllAssets(bs))
    ensures Distinct(Keys(Entries(bs)))
  {
    KeysOfEntries(bs);
  }
}
