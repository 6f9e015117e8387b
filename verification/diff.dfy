/** The update-build differ (ABEditor.Calculate and the removal loop of
    ABEditor.BuildAssetBundle_Update): bundles of the update build that are
    identical to a bundle of the base build are dropped from the update.

    Two bundle files count as identical when they have the same name and
    the same crc. The editor script compares the text "<name>|<crc>"; since
    the decimal text of a crc contains no '|', that text determines the pair
    and the pair is compared here directly. */
module PatchDiff {
  import opened Util
  import opened Manifest

  datatype BundleId = BundleId(name: string, crc: int)

  function IdOf(b: BundleInfo): BundleId {
    BundleId(b.bundleName, b.crc)
  }

  /** The identities of some bundle records. */
  function Ids(bs: seq<BundleInfo>): (r: set<BundleId>)
    ensures |r| <= |bs|
    decreases |bs|
  {
    if bs == [] then {} else Ids(bs[..|bs| - 1]) + {IdOf(bs[|bs| - 1])}
  }

  /** The identities of the base build's bundles; none when there is no base
      manifest. */
  function BaseIds(base: Option<ModuleABConfig>): set<BundleId> {
    if base.None? then {} else Ids(base.value.bundles)
  }

  /** The names of some bundle records. */
  function NameSet(bs: seq<BundleInfo>): (r: set<string>)
    ensures |r| <= |bs|
    decreases |bs|
  {
    if bs == [] then {} else NameSet(bs[..|bs| - 1]) + {bs[|bs| - 1].bundleName}
  }

  /** The update bundles whose identity is among `ids`, in update order: a
      record is selected exactly when it is an update record whose identity
      is among `ids`. */
  function Unchanged(ids: set<BundleId>, update: seq<BundleInfo>): (r: seq<BundleInfo>)
    ensures |r| <= |update|
    ensures forall i :: 0 <= i < |r| ==> IdOf(r[i]) in ids
    decreases |update|
  {
    if update == [] then []
    else
      var b := update[|update| - 1];
      Unchanged(ids, update[..|update| - 1]) + (if IdOf(b) in ids then [b] else [])
  }

  /** `BundleArray.Remove(name)`: the records of other names, in order; a
      record survives exactly when it is there and named otherwise. */
  function RemoveName(bs: seq<BundleInfo>, n: string): (r: seq<BundleInfo>)
    ensures |r| <= |bs|
    ensures forall i :: 0 <= i < |r| ==> r[i].bundleName != n
    decreases |bs|
  {
    if bs == [] then []
    else
      var b := bs[|bs| - 1];
      RemoveName(bs[..|bs| - 1], n) + (if b.bundleName == n then [] else [b])
  }

  /** The records whose name is not in `names`, in order; a record is kept
      exactly when it is there and its name is not removed. */
  function Without(bs: seq<BundleInfo>, names: set<string>): (r: seq<BundleInfo>)
    ensures |r| <= |bs|
    ensures forall i :: 0 <= i < |r| ==> r[i].bundleName !in names
    decreases |bs|
  {
    if bs == [] then []
    else
      var b := bs[|bs| - 1];
      Without(bs[..|bs| - 1], names) + (if b.bundleName in names then [] else [b])
  }

  /** An identity is among those of some records exactly when one of them has it. */
  lemma {:induction false} IdsMember(bs: seq<BundleInfo>, id: BundleId)
    ensures id in Ids(bs) <==> exists i :: 0 <= i < |bs| && IdOf(bs[i]) == id
    decreases |bs|
  {
    if bs != [] {
      var init := bs[..|bs| - 1];
      IdsMember(init, id);
      if id in Ids(init) {
        var i :| 0 <= i < |init| && IdOf(init[i]) == id;
        assert bs[i] == init[i];
      }
      if exists i :: 0 <= i < |bs| && IdOf(bs[i]) == id {
        var i :| 0 <= i < |bs| && IdOf(bs[i]) == id;
        if i < |init| {
          assert init[i] == bs[i];
        }
      }
    }
  }

  /** A name is among those of some records exactly when one of them has it. */
  lemma {:induction false} NameSetMember(bs: seq<BundleInfo>, n: string)
    ensures n in NameSet(bs) <==> exists b :: b in bs && b.bundleName == n
    decreases |bs|
  {
    if bs != [] {
      var init, last := bs[..|bs| - 1], bs[|bs| - 1];
      NameSetMember(init, n);
      assert bs == init + [last];
    }
  }

  /** A record is selected exactly when it is an update record whose identity
      is among `ids`. */
  lemma {:induction false} UnchangedMember(ids: set<BundleId>, update: seq<BundleInfo>, b: BundleInfo)
    ensures b in Unchanged(ids, update) <==> b in update && IdOf(b) in ids
    decreases |update|
  {
    if update != [] {
      var init, last := update[..|update| - 1], update[|update| - 1];
      UnchangedMember(ids, init, b);
      assert update == init + [last];
    }
  }

  /** A record survives `Remove(n)` exactly when it is there and named otherwise. */
  lemma {:induction false} RemoveNameMember(bs: seq<BundleInfo>, n: string, b: BundleInfo)
    ensures b in RemoveName(bs, n) <==> b in bs && b.bundleName != n
    decreases |bs|
  {
    if bs != [] {
      var init, last := bs[..|bs| - 1], bs[|bs| - 1];
      RemoveNameMember(init, n, b);
      assert bs == init + [last];
    }
  }

  /** A record is kept exactly when it is there and its name is not removed. */
  lemma {:induction false} WithoutMember(bs: seq<BundleInfo>, names: set<string>, b: BundleInfo)
    ensures b in Without(bs, names) <==> b in bs && b.bundleName !in names
    decreases |bs|
  {
    if bs != [] {
      var init, last := bs[..|bs| - 1], bs[|bs| - 1];
      WithoutMember(init, names, b);
      assert bs == init + [last];
    }
  }

  /** Removing no name keeps every record, in order. */
  lemma {:induction false} WithoutNothing(bs: seq<BundleInfo>)
    ensures Without(bs, {}) == bs
    decreases |bs|
  {
    if bs != [] {
      WithoutNothing(bs[..|bs| - 1]);
    }
  }

  /** The base build's bundles keyed by identity (`baseBundleDic`); empty
      without a base manifest. */
  method BaseBundles(base: Option<ModuleABConfig>) returns (baseBundleDic: map<BundleId, BundleInfo>)
    requires base.Some? ==> Distinct(Names(base.value.bundles))
    ensures baseBundleDic.Keys == BaseIds(base)
    ensures forall id :: id in baseBundleDic ==> IdOf(baseBundleDic[id]) == id
  {
    baseBundleDic := map[];
    if base.Some? {
      var bundles := base.value.bundles;
      for i := 0 to |bundles|
        invariant baseBundleDic.Keys == Ids(bundles[..i])
        invariant forall id :: id in baseBundleDic ==> IdOf(baseBundleDic[id]) == id
      {
        assert bundles[..i + 1][..i] == bundles[..i];
        var id := IdOf(bundles[i]);
        DistinctIdsBefore(bundles, i);
        assert id !in baseBundleDic;
        baseBundleDic := baseBundleDic[id := bundles[i]];
      }
      assert bundles[..|bundles|] == bundles;
    }
  }

  /** The records to remove from the update build, in update order. */
  method Calculate(base: Option<ModuleABConfig>, update: ModuleABConfig) returns (removeList: seq<BundleInfo>)
    requires base.Some? ==> Distinct(Names(base.value.bundles))
    ensures removeList == Unchanged(BaseIds(base), update.bundles)
  {
    var baseBundleDic := BaseBundles(base);
    ghost var ids := BaseIds(base);
    assert baseBundleDic.Keys == ids;
    removeList := [];
    for i := 0 to |update.bundles|
      invariant removeList == Unchanged(ids, update.bundles[..i])
    {
      var bundleInfo := update.bundles[i];
      UnchangedSnoc(ids, update.bundles, i);
      if IdOf(bundleInfo) in baseBundleDic {
        removeList := removeList + [bundleInfo];
      }
    }
    assert update.bundles[..|update.bundles|] == update.bundles;
  }

  /** Selecting from one more update record adds that record when its
      identity is among `ids`. */
  lemma UnchangedSnoc(ids: set<BundleId>, update: seq<BundleInfo>, i: nat)
    requires i < |update|
    ensures Unchanged(ids, update[..i + 1])
         == Unchanged(ids, update[..i]) + (if IdOf(update[i]) in ids then [update[i]] else [])
  {
    assert update[..i + 1][..i] == update[..i] && update[..i + 1][i] == update[i];
  }

  /** With distinct names, the record at position `i` has an identity no
      earlier record has, so `baseBundleDic.Add` does not throw. */
  lemma DistinctIdsBefore(bs: seq<BundleInfo>, i: nat)
    requires Distinct(Names(bs)) && i < |bs|
    ensures IdOf(bs[i]) !in Ids(bs[..i])
  {
    IdsMember(bs[..i], IdOf(bs[i]));
    if IdOf(bs[i]) in Ids(bs[..i]) {
      var j :| 0 <= j < i && IdOf(bs[..i][j]) == IdOf(bs[i]);
      assert Names(bs)[j] == Names(bs)[i];
      DistinctIndex(Names(bs), j, i);
    }
  }

  /** The removal loop: deletes the file of each listed bundle from the
      module's output folder and removes its record from the bundle table;
      the asset records are left as they are. */
  method StripUnchanged(update: ModuleABConfig, files: set<string>, removeList: seq<BundleInfo>)
    returns (stripped: ModuleABConfig, remaining: set<string>)
    ensures stripped == update.(bundles := Without(update.bundles, NameSet(removeList)))
    ensures remaining == files - NameSet(removeList)
  {
    stripped := update;
    remaining := files;
    WithoutNothing(update.bundles);
    for i := 0 to |removeList|
      invariant stripped == update.(bundles := Without(update.bundles, NameSet(removeList[..i])))
      invariant remaining == files - NameSet(removeList[..i])
    {
      assert removeList[..i + 1][..i] == removeList[..i];
      var info := removeList[i];
      remaining := remaining - {info.bundleName};
      RemoveFromWithout(update.bundles, NameSet(removeList[..i]), info.bundleName);
      stripped := stripped.(bundles := RemoveName(stripped.bundles, info.bundleName));
    }
    assert removeList[..|removeList|] == removeList;
  }

  /** Removing one more name from the records left after removing a set of
      names is removing the larger set. */
  lemma {:induction false} RemoveFromWithout(bs: seq<BundleInfo>, names: set<string>, n: string)
    ensures RemoveName(Without(bs, names), n) == Without(bs, names + {n})
    decreases |bs|
  {
    if bs != [] {
      var init, b := bs[..|bs| - 1], bs[|bs| - 1];
      RemoveFromWithout(init, names, n);
      var w := Without(init, names);
      var rest := Without(init, names + {n});
      assert RemoveName(w, n) == rest;
      if b.bundleName in names {
        assert Without(bs, names) == w;
        assert Without(bs, names + {n}) == rest;
      } else {
        var tail := if b.bundleName == n then [] else [b];
        assert Without(bs, names) == w + [b];
        assert Without(bs, names + {n}) == rest + tail;
        assert (w + [b])[..|w + [b]| - 1] == w && (w + [b])[|w + [b]| - 1] == b;
        assert RemoveName(w + [b], n) == RemoveName(w, n) + tail;
      }
    }
  }

  /** Without a base manifest nothing is removed. */
  lemma {:induction false} NoBaseRemovesNothing(update: seq<BundleInfo>)
    ensures Unchanged(BaseIds(None), update) == []
    decreases |update|
  {
    if update != [] {
      NoBaseRemovesNothing(update[..|update| - 1]);
    }
  }

  /** The selection keeps update order: selecting from two parts one after
      another selects from each. */
  lemma {:induction false} UnchangedAppend(ids: set<BundleId>, a: seq<BundleInfo>, b: seq<BundleInfo>)
    ensures Unchanged(ids, a + b) == Unchanged(ids, a) + Unchanged(ids, b)
    decreases |b|
  {
    if b == [] {
      assert a + b == a;
    } else {
      var b', last := b[..|b| - 1], b[|b| - 1];
      assert (a + b)[..|a + b| - 1] == a + b' && (a + b)[|a + b| - 1] == last;
      UnchangedAppend(ids, a, b');
      var tail := if IdOf(last) in ids then [last] else [];
      assert Unchanged(ids, a + b) == Unchanged(ids, a + b') + tail;
      assert Unchanged(ids, b) == Unchanged(ids, b') + tail;
      assert (Unchanged(ids, a) + Unchanged(ids, b')) + tail == Unchanged(ids, a) + (Unchanged(ids, b') + tail);
    }
  }

  /** After the removal loop, with distinct update names, an update bundle
      keeps its record exactly when no base bundle has its name and crc. */
  lemma StripKeepsChanged(base: Option<ModuleABConfig>, update: seq<BundleInfo>, b: BundleInfo)
    requires Distinct(Names(update)) && b in update
    ensures b in Without(update, NameSet(Unchanged(BaseIds(base), update))) <==> IdOf(b) !in BaseIds(base)
  {
    var removed := Unchanged(BaseIds(base), update);
    WithoutMember(update, NameSet(removed), b);
    NameSetMember(removed, b.bundleName);
    UnchangedMember(BaseIds(base), update, b);
    if b.bundleName in NameSet(removed) {
      var x :| x in removed && x.bundleName == b.bundleName;
      UnchangedMember(BaseIds(base), update, x);
      var i :| 0 <= i < |update| && update[i] == x;
      var j :| 0 <= j < |update| && update[j] == b;
      assert Names(update)[i] == Names(update)[j];
      if i != j {
        DistinctIndex(Names(update), i, j);
      }
    }
  }

  /** Base {a: crc 1, b: crc 2} against update {a: crc 1, b: crc 3, c: crc 4}:
      only a is listed for removal; b (changed crc) and c (new) are not. */
  lemma ExampleDiff()
    ensures var base := ModuleABConfig(0, [BundleInfo("a", [], 1, 10), BundleInfo("b", [], 2, 10)], []);
            var update := [BundleInfo("a", [], 1, 10), BundleInfo("b", [], 3, 10), BundleInfo("c", [], 4, 10)];
            Unchanged(BaseIds(Some(base)), update) == [BundleInfo("a", [], 1, 10)]
  {
    var bs := [BundleInfo("a", [], 1, 10), BundleInfo("b", [], 2, 10)];
    var us := [BundleInfo("a", [], 1, 10), BundleInfo("b", [], 3, 10), BundleInfo("c", [], 4, 10)];
    assert bs[..1] == [bs[0]] && us[..2] == [us[0], us[1]] && us[..2][..1] == [us[0]];
    var ids := Ids(bs);
    assert ids == Ids([bs[0]]) + {BundleId("b", 2)};
    assert Ids([bs[0]]) == {BundleId("a", 1)};
    assert IdOf(us[0]) in ids && IdOf(us[1]) !in ids && IdOf(us[2]) !in ids;
    assert Unchanged(ids, [us[0]]) == [us[0]];
    assert Unchanged(ids, us[..2]) == [us[0]];
  }

  /** Stripping the name a from that update leaves the records of b and c, in order. */
  lemma ExampleStrip()
    ensures var update := [BundleInfo("a", [], 1, 10), BundleInfo("b", [], 3, 10), BundleInfo("c", [], 4, 10)];
            Without(update, NameSet([BundleInfo("a", [], 1, 10)])) == [BundleInfo("b", [], 3, 10), BundleInfo("c", [], 4, 10)]
  {
    var us := [BundleInfo("a", [], 1, 10), BundleInfo("b", [], 3, 10), BundleInfo("c", [], 4, 10)];
    assert us[..2] == [us[0], us[1]] && us[..2][..1] == [us[0]];
    assert NameSet([us[0]]) == {"a"};
    assert Without([us[0]], {"a"}) == [];
    assert Without(us[..2], {"a"}) == [us[1]];
  }
}
