/** Paths and subtrees of the file system the staging steps work on.

    A path is the sequence of its segments, so "Assets/GAssets/Launch/Src" is
    ["Assets", "GAssets", "Launch", "Src"]. The file system is a map from the
    path of each file to its text, plus the set of paths of the directories
    that exist. */
module FileSystem {
  import opened Util

  type Path = seq<string>

  type Files = map<Path, string>

  /** `p` lies strictly inside directory `dir`. */
  predicate Under(dir: Path, p: Path) {
    |dir| < |p| && p[..|dir|] == dir
  }

  /** `p` is `dir` or lies inside it. */
  predicate AtOrUnder(dir: Path, p: Path) {
    |dir| <= |p| && p[..|dir|] == dir
  }

  /** Neither directory contains the other. */
  predicate Apart(a: Path, b: Path) {
    !AtOrUnder(a, b) && !AtOrUnder(b, a)
  }

  /** `p` is a file directly in `dir`, not in a subdirectory of it. */
  predicate Child(dir: Path, p: Path) {
    |p| == |dir| + 1 && p[..|dir|] == dir
  }

  /** The last segment of a path: the file or directory name. */
  function Name(p: Path): string
    requires p != []
  {
    p[|p| - 1]
  }

  /** The files outside `dir` are the same, with the same contents. */
  ghost predicate SameOutside(fs: Files, fs0: Files, dir: Path) {
    forall p :: !Under(dir, p) ==> (p in fs <==> p in fs0) && (p in fs ==> fs[p] == fs0[p])
  }

  /** The directories other than `dir` and those inside it are the same. */
  ghost predicate SameDirsOutside(ds: set<Path>, ds0: set<Path>, dir: Path) {
    forall d :: !AtOrUnder(dir, d) ==> (d in ds <==> d in ds0)
  }

  /** The files inside `a` in `fs` are those inside `b` in `fs0`, at the same
      relative paths and with the same contents. */
  ghost predicate SameTree(fs: Files, a: Path, fs0: Files, b: Path) {
    forall r :: r != [] ==> (a + r in fs <==> b + r in fs0) && (a + r in fs ==> fs[a + r] == fs0[b + r])
  }

  /** The directories inside `a` in `ds` are those inside `b` in `ds0`. */
  ghost predicate SameDirTree(ds: set<Path>, a: Path, ds0: set<Path>, b: Path) {
    forall r :: r != [] ==> (a + r in ds <==> b + r in ds0)
  }

  /** No file lies inside `a`. */
  ghost predicate EmptyTree(fs: Files, a: Path) {
    forall p :: Under(a, p) ==> p !in fs
  }

  /** No directory lies inside `a`. */
  ghost predicate NoSubdirs(ds: set<Path>, a: Path) {
    forall d :: Under(a, d) ==> d !in ds
  }

  /** The directories a path lies in, from the outermost: every non-empty
      proper prefix of it. */
  function Ancestors(p: Path): (r: set<Path>)
    ensures forall k :: 0 < k < |p| ==> p[..k] in r
    ensures forall d :: d in r ==> 0 < |d| < |p| && p[..|d|] == d
  {
    set k | 0 < k < |p| :: p[..k]
  }

  /** What a real file system guarantees: every directory a file or a
      directory lies in exists. */
  ghost predicate Rooted(fs: Files, ds: set<Path>) {
    (forall p, k :: p in fs && 0 < k < |p| ==> p[..k] in ds)
    && (forall d, k :: d in ds && 0 < k < |d| ==> d[..k] in ds)
  }

  /** Nothing lies inside a directory that does not exist. */
  lemma RootedAbsent(fs: Files, ds: set<Path>, dir: Path)
    requires Rooted(fs, ds) && dir != [] && dir !in ds
    ensures EmptyTree(fs, dir) && NoSubdirs(ds, dir)
  {
    forall p | Under(dir, p)
      ensures p !in fs && p !in ds
    {
      assert p[..|dir|] == dir;
    }
  }

  /** A path inside `a` is `a` followed by a non-empty relative path. */
  lemma UnderSplit(a: Path, p: Path)
    requires Under(a, p)
    ensures p == a + p[|a|..] && p[|a|..] != []
  {
  }

  lemma UnderJoin(a: Path, r: Path)
    requires r != []
    ensures Under(a, a + r) && (a + r)[|a|..] == r
  {
    assert (a + r)[..|a|] == a;
  }

  /** Two directories that both contain a path are nested one in the other. */
  lemma {:induction false} CommonPrefix(a: Path, b: Path, p: Path)
    requires AtOrUnder(a, p) && AtOrUnder(b, p)
    ensures AtOrUnder(a, b) || AtOrUnder(b, a)
  {
    if |a| <= |b| {
      assert b[..|a|] == p[..|b|][..|a|] == p[..|a|];
    } else {
      assert a[..|b|] == p[..|a|][..|b|] == p[..|b|];
    }
  }

  /** Nothing lies inside two directories that are apart. */
  lemma ApartExclusive(a: Path, b: Path, p: Path)
    requires Apart(a, b) && AtOrUnder(a, p)
    ensures !AtOrUnder(b, p) && !Under(b, p)
  {
    if AtOrUnder(b, p) {
      CommonPrefix(a, b, p);
    }
  }

  /** Directories stay apart when their paths are extended. */
  lemma ApartExtend(a: Path, b: Path, x: Path, y: Path)
    requires Apart(a, b)
    ensures Apart(a + x, b + y)
  {
    NotInsideExtended(a, b, x, y);
    NotInsideExtended(b, a, y, x);
  }

  lemma NotInsideExtended(a: Path, b: Path, x: Path, y: Path)
    requires Apart(a, b)
    ensures !AtOrUnder(a + x, b + y)
  {
    if AtOrUnder(a + x, b + y) {
      assert (a + x)[..|a|] == a;
      assert AtOrUnder(a, b + y);
      assert AtOrUnder(b, b + y);
      CommonPrefix(a, b, b + y);
    }
  }

  /** Two directories of the same parent with different names are apart. */
  lemma SiblingsApart(base: Path, m1: string, m2: string, x: Path, y: Path)
    requires m1 != m2
    ensures Apart(base + [m1] + x, base + [m2] + y)
  {
    var a, b := base + [m1] + x, base + [m2] + y;
    assert a[|base|] == m1 && b[|base|] == m2;
  }

  /** The files inside `dir` are the same, with the same contents. */
  ghost predicate SameInside(fs: Files, fs0: Files, dir: Path) {
    forall p :: Under(dir, p) ==> (p in fs <==> p in fs0) && (p in fs ==> fs[p] == fs0[p])
  }

  /** Changes confined to one directory leave every directory apart from it alone. */
  lemma InsideApart(fs: Files, fs0: Files, d: Path, dir: Path)
    requires SameOutside(fs, fs0, d) && Apart(d, dir)
    ensures SameInside(fs, fs0, dir)
  {
    forall p | Under(dir, p)
      ensures !Under(d, p)
    {
      ApartExclusive(dir, d, p);
    }
  }

  /** A copy stays a copy while the files inside it stay the same. */
  lemma TreeKeep(fs: Files, fs1: Files, a: Path, fs0: Files, b: Path)
    requires SameTree(fs1, a, fs0, b) && SameInside(fs, fs1, a)
    ensures SameTree(fs, a, fs0, b)
  {
    forall r | r != []
      ensures Under(a, a + r)
    {
      UnderJoin(a, r);
    }
  }

  /** A copy stays a copy of an original whose files stay the same. */
  lemma TreeFrom(fs: Files, a: Path, fs1: Files, fs0: Files, b: Path)
    requires SameTree(fs, a, fs1, b) && SameInside(fs1, fs0, b)
    ensures SameTree(fs, a, fs0, b)
  {
    forall r | r != []
      ensures Under(b, b + r)
    {
      UnderJoin(b, r);
    }
  }

  /** A copy of a copy is a copy of the original. */
  lemma SameTreeTrans(fs2: Files, a: Path, fs1: Files, b: Path, fs0: Files, c: Path)
    requires SameTree(fs2, a, fs1, b) && SameTree(fs1, b, fs0, c)
    ensures SameTree(fs2, a, fs0, c)
  {
  }

  /** `fs` without the files inside `dir`. */
  function RemoveTree(fs: Files, dir: Path): (r: Files)
    ensures forall p :: p in r <==> p in fs && !Under(dir, p)
    ensures forall p :: p in r ==> r[p] == fs[p]
  {
    map p | p in fs && !Under(dir, p) :: fs[p]
  }

  /** `ds` without `dir` and the directories inside it. */
  function RemoveDirs(ds: set<Path>, dir: Path): (r: set<Path>)
    ensures forall d :: d in r <==> d in ds && !AtOrUnder(dir, d)
  {
    set d | d in ds && !AtOrUnder(dir, d)
  }

  /** A prefix of a path inside `dir` that reaches into `dir` is inside it too. */
  lemma PrefixInside(dir: Path, p: Path, k: nat)
    requires k <= |p| && AtOrUnder(dir, p[..k])
    ensures AtOrUnder(dir, p)
  {
    assert p[..k][..|dir|] == p[..|dir|];
  }

  /** Removing a directory with everything inside it keeps the file system rooted. */
  lemma RootedRemove(fs: Files, ds: set<Path>, dir: Path)
    requires Rooted(fs, ds)
    ensures Rooted(RemoveTree(fs, dir), RemoveDirs(ds, dir))
  {
    var fs', ds' := RemoveTree(fs, dir), RemoveDirs(ds, dir);
    forall p, k | p in fs' && 0 < k < |p|
      ensures p[..k] in ds'
    {
      if AtOrUnder(dir, p[..k]) {
        PrefixInside(dir, p, k);
      }
    }
    forall d, k | d in ds' && 0 < k < |d|
      ensures d[..k] in ds'
    {
      if AtOrUnder(dir, d[..k]) {
        PrefixInside(dir, d, k);
      }
    }
  }

  /** Creating a directory with all its ancestors keeps the file system rooted. */
  lemma RootedCreate(fs: Files, ds: set<Path>, dir: Path)
    requires Rooted(fs, ds)
    ensures Rooted(fs, ds + Ancestors(dir) + {dir})
  {
    var ds' := ds + Ancestors(dir) + {dir};
    forall d, k | d in ds' && 0 < k < |d|
      ensures d[..k] in ds'
    {
      if d !in ds {
        assert d == dir[..|d|];
        assert d[..k] == dir[..k];
      }
    }
  }

  /** A prefix of `dst + r` is a prefix of `dst` or `dst` followed by a
      prefix of `r`, and the latter mirrors the same prefix of `src + r`. */
  lemma CopyPrefix(src: Path, dst: Path, r: Path, k: nat)
    requires |dst| < k <= |dst + r|
    ensures (dst + r)[..k] == dst + r[..k - |dst|]
    ensures (src + r)[..|src| + k - |dst|] == src + r[..k - |dst|]
    ensures r[..k - |dst|] != []
  {
    assert |r[..k - |dst|]| == k - |dst|;
  }

  /** The directories a copy of `src` into `dst` adds are rooted when `dst`
      and all it mirrors exist. */
  lemma RootedCopyDir(ds: set<Path>, ds0: set<Path>, src: Path, dst: Path, r: Path, k: nat)
    requires Rooted(map[], ds0) && ds0 <= ds && dst in ds0 && src + r in ds0 && r != [] && 0 < k < |dst + r|
    requires forall r' :: r' != [] && src + r' in ds0 ==> dst + r' in ds
    ensures (dst + r)[..k] in ds
  {
    if k < |dst| {
      assert (dst + r)[..k] == dst[..k];
    } else if k == |dst| {
      assert (dst + r)[..k] == dst;
    } else {
      CopyPrefix(src, dst, r, k);
      assert (src + r)[..|src| + k - |dst|] in ds0;
    }
  }

  /** The files a copy of `src` into `dst` adds are rooted when `dst` and
      the directories it mirrors exist. */
  lemma RootedCopyFile(fs: Files, ds: set<Path>, src: Path, dst: Path, r: Path, k: nat)
    requires Rooted(fs, ds) && dst in ds && src + r in fs && r != [] && 0 < k < |dst + r|
    requires forall r' :: r' != [] && src + r' in ds ==> dst + r' in ds
    ensures (dst + r)[..k] in ds
  {
    if k < |dst| {
      assert (dst + r)[..k] == dst[..k];
    } else if k == |dst| {
      assert (dst + r)[..k] == dst;
    } else {
      CopyPrefix(src, dst, r, k);
      assert (src + r)[..|src| + k - |dst|] in ds;
    }
  }

  /** Nothing inside `src` is `dst` or a directory `dst` lies in. */
  lemma SourceNotAncestor(src: Path, dst: Path, p: Path)
    requires Apart(src, dst) && AtOrUnder(src, p)
    ensures p !in Ancestors(dst) && !AtOrUnder(dst, p)
  {
    ApartExclusive(src, dst, p);
  }

  /** `dst` was refilled from `src`: it holds what `src` held in `fs0`, or
      nothing when `src` did not exist in `ds0`. */
  ghost predicate RefilledFrom(fs: Files, dst: Path, fs0: Files, ds0: set<Path>, src: Path) {
    (src in ds0 ==> SameTree(fs, dst, fs0, src)) && (src !in ds0 ==> EmptyTree(fs, dst))
  }

  /** Every directory an existing directory lies in exists. */
  lemma AncestorsExist(fs: Files, ds: set<Path>, dir: Path)
    requires Rooted(fs, ds) && dir in ds
    ensures Ancestors(dir) <= ds
  {
  }

  /** Deleting `dir` and copying another folder into it leaves the files
      outside it alone and refills it from the copy's source as it was. */
  lemma RefillFiles(fs2: Files, fs1: Files, fs0: Files, ds1: set<Path>, ds0: set<Path>, dir: Path, src: Path)
    requires Apart(src, dir) && fs1 == RemoveTree(fs0, dir) && ds1 == RemoveDirs(ds0, dir)
    requires SameOutside(fs2, fs1, dir)
    requires src in ds1 ==> SameTree(fs2, dir, fs1, src)
    requires src !in ds1 ==> EmptyTree(fs2, dir)
    ensures SameOutside(fs2, fs0, dir) && RefilledFrom(fs2, dir, fs0, ds0, src)
  {
    SourceNotAncestor(src, dir, src);
    if src in ds1 {
      InsideApart(fs1, fs0, dir, src);
      TreeFrom(fs2, dir, fs1, fs0, src);
    }
  }

  /** Deleting an existing `dir` and creating it again, with the directories
      it lies in, leaves every directory outside it as it was. */
  lemma RefillDirs(fs0: Files, ds2: set<Path>, ds1: set<Path>, ds0: set<Path>, dir: Path)
    requires Rooted(fs0, ds0) && dir in ds0 && ds1 == RemoveDirs(ds0, dir)
    requires forall d :: !AtOrUnder(dir, d) ==> (d in ds2 <==> d in ds1 || d in Ancestors(dir))
    ensures SameDirsOutside(ds2, ds0, dir)
  {
    AncestorsExist(fs0, ds0, dir);
  }

  /** A refilled folder stays refilled while the files inside it stay the same. */
  lemma RefillKept(fs: Files, fs1: Files, dst: Path, fs0: Files, ds0: set<Path>, src: Path)
    requires RefilledFrom(fs1, dst, fs0, ds0, src) && SameInside(fs, fs1, dst)
    ensures RefilledFrom(fs, dst, fs0, ds0, src)
  {
    if src in ds0 {
      TreeKeep(fs, fs1, dst, fs0, src);
    }
  }

  /** A folder refilled from a source read in one state is refilled from
      it in any state where that source held the same. */
  lemma RefillSource(fs: Files, dst: Path, fs1: Files, ds1: set<Path>, fs0: Files, ds0: set<Path>, src: Path)
    requires RefilledFrom(fs, dst, fs1, ds1, src) && SameInside(fs1, fs0, src) && (src in ds1 <==> src in ds0)
    ensures RefilledFrom(fs, dst, fs0, ds0, src)
  {
    if src in ds0 {
      TreeFrom(fs, dst, fs1, fs0, src);
    }
  }
}
