/** What the staging steps around packing promise, as predicates on file
    system states and lemmas about them: the stage folders of a module
    (`Src` and `Res/Proto`), their encrypted `.bytes` twins, their copies in
    the temporary folder, and the frames that say what a step leaves alone.
    The steps themselves are the methods of `Staging.FileTree`. */
module StageSpec {
  import opened Util
  import opened FileSystem

  const LuaSuffix: string := ".lua"
  const ProtoSuffix: string := ".proto"
  const CipherSuffix: string := ".bytes"
  const ManifestSuffix: string := ".manifest"

  /** The two folders of a module that hold plaintext sources. */
  const SrcDir: Path := ["Src"]
  const ProtoDir: Path := ["Res", "Proto"]

  predicate IsStage(s: Path) {
    s == SrcDir || s == ProtoDir
  }

  /** The folder `s` of module `m` under `base` (the module root or the
      temporary folder). */
  function StageDir(base: Path, m: string, s: Path): Path {
    base + [m] + s
  }

  /** A plaintext source that is encrypted: a `.lua` or `.proto` file. It is
      never a ciphertext file, and the plaintext deletion removes it. */
  predicate Plain(p: Path)
    ensures Plain(p) ==> !IsTwin(p) && Doomed(p)
  {
    p != [] && (NotCipher(Name(p)); EndsWith(Name(p), LuaSuffix) || EndsWith(Name(p), ProtoSuffix))
  }

  /** A file the plaintext deletion removes: a source or its Unity `.meta`
      file, never a ciphertext file. */
  predicate Doomed(p: Path)
    ensures Doomed(p) ==> !IsTwin(p)
  {
    p != [] && (NotCipher(Name(p));
                EndsWith(Name(p), LuaSuffix) || EndsWith(Name(p), LuaSuffix + ".meta")
                || EndsWith(Name(p), ProtoSuffix) || EndsWith(Name(p), ProtoSuffix + ".meta"))
  }

  /** A name with a plaintext or `.meta` suffix does not end in `.bytes`:
      their last characters differ. */
  lemma NotCipher(n: string)
    ensures (EndsWith(n, LuaSuffix) || EndsWith(n, LuaSuffix + ".meta") || EndsWith(n, ProtoSuffix)
             || EndsWith(n, ProtoSuffix + ".meta")) ==> !EndsWith(n, CipherSuffix)
  {
    if EndsWith(n, CipherSuffix) {
      assert n[|n| - 1] == CipherSuffix[|CipherSuffix| - 1] == 's';
      assert LuaSuffix[|LuaSuffix| - 1] == 'a' && ProtoSuffix[|ProtoSuffix| - 1] == 'o';
      assert (LuaSuffix + ".meta")[|LuaSuffix + ".meta"| - 1] == 'a';
      assert (ProtoSuffix + ".meta")[|ProtoSuffix + ".meta"| - 1] == 'a';
    }
  }

  /** The ciphertext file written next to a plaintext file. */
  function Twin(p: Path): (r: Path)
    requires p != []
    ensures |r| == |p| && r[..|p| - 1] == p[..|p| - 1] && Name(r) == Name(p) + CipherSuffix
  {
    p[..|p| - 1] + [Name(p) + CipherSuffix]
  }

  /** A ciphertext file: its name ends in `.bytes`. */
  predicate IsTwin(p: Path) {
    p != [] && EndsWith(Name(p), CipherSuffix)
  }

  /** The plaintext file a ciphertext file belongs to. */
  function Untwin(p: Path): (r: Path)
    requires IsTwin(p)
    ensures |r| == |p| && r[..|p| - 1] == p[..|p| - 1]
  {
    p[..|p| - 1] + [Name(p)[..|Name(p)| - |CipherSuffix|]]
  }

  lemma TwinRoundTrip(p: Path)
    requires p != []
    ensures IsTwin(Twin(p)) && Untwin(Twin(p)) == p
  {
    var n := Name(p) + CipherSuffix;
    assert n[..|n| - |CipherSuffix|] == Name(p);
    assert n[|n| - |CipherSuffix|..] == CipherSuffix;
  }

  lemma UntwinRoundTrip(p: Path)
    requires IsTwin(p)
    ensures Untwin(p) != [] && Twin(Untwin(p)) == p
  {
    var n := Name(p);
    assert n[..|n| - |CipherSuffix|] + CipherSuffix == n;
  }

  /** Ciphertext files are neither encrypted nor deleted again. */
  lemma TwinSurvives(p: Path)
    requires p != []
    ensures !Plain(Twin(p)) && !Doomed(Twin(p))
  {
    var n := Name(Twin(p));
    assert n[|n| - 1] == 's';
    assert LuaSuffix[|LuaSuffix| - 1] == 'a' && ProtoSuffix[|ProtoSuffix| - 1] == 'o';
    assert (LuaSuffix + ".meta")[|LuaSuffix + ".meta"| - 1] == 'a';
    assert (ProtoSuffix + ".meta")[|ProtoSuffix + ".meta"| - 1] == 'a';
  }

  /** A ciphertext file lies in the same directory as its plaintext. */
  lemma TwinUnder(dir: Path, p: Path)
    requires p != []
    ensures Under(dir, Twin(p)) <==> Under(dir, p)
  {
    if Under(dir, p) {
      assert Twin(p)[..|dir|] == Twin(p)[..|p| - 1][..|dir|];
    }
    if Under(dir, Twin(p)) {
      assert p[..|dir|] == p[..|p| - 1][..|dir|];
    }
  }

  /** Every plaintext file inside `dir` can get its twin: none exists yet. */
  ghost predicate NoTwinClash(fs: Files, dir: Path) {
    forall q :: q in fs && Under(dir, q) && Plain(q) ==> Twin(q) !in fs
  }

  /** Inside `dir`, `fs` is `fs0` with an encrypted twin added for every
      plaintext file. */
  ghost predicate EncryptedIn(fs: Files, fs0: Files, dir: Path, encrypt: string -> string)
    ensures EncryptedIn(fs, fs0, dir, encrypt) ==> forall p :: Under(dir, p) && p in fs0 ==> p in fs && fs[p] == fs0[p]
  {
    (forall p :: Under(dir, p) ==> (p in fs <==> p in fs0 || (IsTwin(p) && Untwin(p) in fs0 && Plain(Untwin(p)))))
    && (forall p :: Under(dir, p) && p in fs ==> fs[p] == if p in fs0 then fs0[p] else encrypt(fs0[Untwin(p)]))
  }

  /** Inside `dir`, `fs` is `fs0` without the doomed files. */
  ghost predicate PurgedIn(fs: Files, fs0: Files, dir: Path)
    ensures PurgedIn(fs, fs0, dir) ==> forall p :: Under(dir, p) && p in fs ==> p in fs0 && !Doomed(p)
  {
    forall p :: Under(dir, p) ==> (p in fs <==> p in fs0 && !Doomed(p)) && (p in fs ==> fs[p] == fs0[p])
  }

  /** Inside `dir`, `fs` is `fs0` after both steps: every plaintext file has
      its encrypted twin, and no plaintext or `.meta` file of one is left. */
  ghost predicate SealedIn(fs: Files, fs0: Files, dir: Path, encrypt: string -> string) {
    (forall p :: Under(dir, p) ==> (p in fs <==> (p in fs0 && !Doomed(p)) || (IsTwin(p) && Untwin(p) in fs0 && Plain(Untwin(p)))))
    && (forall p :: Under(dir, p) && p in fs ==> fs[p] == if p in fs0 then fs0[p] else encrypt(fs0[Untwin(p)]))
  }

  /** Encrypting and then deleting the plaintext seals a directory. */
  lemma Seal(fs2: Files, fs1: Files, fs0: Files, dir: Path, encrypt: string -> string)
    requires EncryptedIn(fs1, fs0, dir, encrypt) && PurgedIn(fs2, fs1, dir)
    ensures SealedIn(fs2, fs0, dir, encrypt)
  {
    forall p | Under(dir, p) && IsTwin(p)
      ensures !Doomed(p)
    {
      UntwinRoundTrip(p);
      TwinSurvives(Untwin(p));
    }
  }

  /** A twin lies in the same directories as its plaintext. */
  lemma UntwinUnder(dir: Path, p: Path)
    requires IsTwin(p)
    ensures Under(dir, Untwin(p)) <==> Under(dir, p)
  {
    UntwinRoundTrip(p);
    TwinUnder(dir, Untwin(p));
  }

  /** Sealing is judged against a state that agrees inside the directory. */
  lemma SealedFrom(fs: Files, fs1: Files, fs0: Files, dir: Path, encrypt: string -> string)
    requires SealedIn(fs, fs1, dir, encrypt) && SameInside(fs1, fs0, dir)
    ensures SealedIn(fs, fs0, dir, encrypt)
  {
    forall p | Under(dir, p) && IsTwin(p)
      ensures Under(dir, Untwin(p))
    {
      UntwinUnder(dir, p);
    }
  }

  lemma EncryptedFrom(fs: Files, fs1: Files, fs0: Files, dir: Path, encrypt: string -> string)
    requires EncryptedIn(fs, fs1, dir, encrypt) && SameInside(fs1, fs0, dir)
    ensures EncryptedIn(fs, fs0, dir, encrypt)
  {
    forall p | Under(dir, p) && IsTwin(p)
      ensures Under(dir, Untwin(p))
    {
      UntwinUnder(dir, p);
    }
  }

  /** Whether a twin clashes depends only on the files inside the directory. */
  lemma ClashInside(fs1: Files, fs0: Files, dir: Path)
    requires SameInside(fs1, fs0, dir)
    ensures NoTwinClash(fs1, dir) <==> NoTwinClash(fs0, dir)
  {
    forall q | Under(dir, q) && Plain(q)
      ensures Under(dir, Twin(q))
    {
      TwinUnder(dir, q);
    }
  }

  /** A twin lies in the directories its plaintext lies in, so adding it
      keeps the file system rooted. */
  lemma TwinRooted(fs: Files, ds: set<Path>, p: Path, text: string)
    requires Rooted(fs, ds) && p in fs && p != []
    ensures Rooted(fs[Twin(p) := text], ds)
  {
    forall k | 0 < k < |Twin(p)|
      ensures Twin(p)[..k] in ds
    {
      assert Twin(p)[..k] == Twin(p)[..|p| - 1][..k] == p[..|p| - 1][..k] == p[..k];
    }
  }

  /** `fs` is `fs0` with an encrypted twin added for each plaintext file of `done`. */
  ghost predicate TwinsFor(fs: Files, fs0: Files, done: set<Path>, encrypt: string -> string) {
    (forall q :: q in done ==> q in fs0 && Plain(q))
    && (forall p :: p in fs <==> p in fs0 || (IsTwin(p) && Untwin(p) in done))
    && (forall p :: p in fs ==> fs[p] == if p in fs0 then fs0[p] else encrypt(fs0[Untwin(p)]))
  }

  /** Adding one more twin. */
  lemma TwinStep(fs: Files, fs0: Files, done: set<Path>, encrypt: string -> string, p: Path)
    requires TwinsFor(fs, fs0, done, encrypt) && p in fs0 && Plain(p) && Twin(p) !in fs
    ensures TwinsFor(fs[Twin(p) := encrypt(fs[p])], fs0, done + {p}, encrypt)
  {
    var t := Twin(p);
    var fs' := fs[t := encrypt(fs[p])];
    TwinRoundTrip(p);
    forall q
      ensures q in fs' <==> q in fs0 || (IsTwin(q) && Untwin(q) in done + {p})
    {
      if q != t && IsTwin(q) && Untwin(q) == p {
        UntwinRoundTrip(q);
      }
    }
    forall q | q in fs'
      ensures fs'[q] == if q in fs0 then fs0[q] else encrypt(fs0[Untwin(q)])
    {
    }
  }

  /** The state of `EncryptOnePath` part-way: the plaintext files inside
      `path` (`all`) that are no longer to do have their twins, none of
      which existed before, and nothing outside `path` changed. */
  ghost predicate Encrypting(fs: Files, fs0: Files, all: set<Path>, todo: set<Path>, path: Path,
                             encrypt: string -> string) {
    todo <= all
    && (forall p :: p in all <==> p in fs0 && Under(path, p) && Plain(p))
    && TwinsFor(fs, fs0, all - todo, encrypt)
    && (forall q :: q in all - todo ==> Twin(q) !in fs0)
    && SameOutside(fs, fs0, path)
  }

  /** Writing the twin of one more plaintext file, when it does not exist yet. */
  lemma EncryptingStep(fs: Files, fs0: Files, all: set<Path>, todo: set<Path>, path: Path,
                       encrypt: string -> string, p: Path)
    requires Encrypting(fs, fs0, all, todo, path, encrypt) && p in todo && Twin(p) !in fs
    ensures p in fs && Encrypting(fs[Twin(p) := encrypt(fs[p])], fs0, all, todo - {p}, path, encrypt)
  {
    var done := all - todo;
    assert all - (todo - {p}) == done + {p};
    TwinStep(fs, fs0, done, encrypt, p);
    FreshTwins(fs, fs0, done, p);
    TwinOutside(fs, fs0, path, p, encrypt(fs[p]));
  }

  /** The twins written so far, and the next one, did not exist before. */
  lemma FreshTwins(fs: Files, fs0: Files, done: set<Path>, p: Path)
    requires forall q :: q in done ==> q != [] && Twin(q) !in fs0
    requires fs0.Keys <= fs.Keys && p != [] && Twin(p) !in fs
    ensures forall q :: q in done + {p} ==> q != [] && Twin(q) !in fs0
  {
  }

  /** A twin written inside `path` keeps the files outside `path`. */
  lemma TwinOutside(fs: Files, fs0: Files, path: Path, p: Path, text: string)
    requires SameOutside(fs, fs0, path) && p != [] && Under(path, p)
    ensures SameOutside(fs[Twin(p) := text], fs0, path)
  {
    TwinUnder(path, p);
  }

  /** The twin of a plaintext file not yet encrypted exists only if it existed before. */
  lemma TwinPresent(fs: Files, fs0: Files, done: set<Path>, encrypt: string -> string, p: Path)
    requires TwinsFor(fs, fs0, done, encrypt) && p != [] && p !in done && Twin(p) in fs
    ensures Twin(p) in fs0
  {
    TwinRoundTrip(p);
  }

  /** Twins of all the plaintext files inside `path` are the encryption of `path`. */
  lemma TwinsInside(fs: Files, fs0: Files, all: set<Path>, path: Path, encrypt: string -> string)
    requires TwinsFor(fs, fs0, all, encrypt)
    requires forall p :: p in all <==> p in fs0 && Under(path, p) && Plain(p)
    requires forall q :: q in all ==> Twin(q) !in fs0
    ensures NoTwinClash(fs0, path)
    ensures EncryptedIn(fs, fs0, path, encrypt)
  {
    forall q | IsTwin(q)
      ensures Under(path, Untwin(q)) <==> Under(path, q)
    {
      UntwinUnder(path, q);
    }
  }

  /** The files outside both directories are the same, with the same contents. */
  ghost predicate SameOutside2(fs: Files, fs0: Files, a: Path, b: Path) {
    forall p :: !Under(a, p) && !Under(b, p) ==> (p in fs <==> p in fs0) && (p in fs ==> fs[p] == fs0[p])
  }

  /** Changes confined to two directories leave every directory apart from both alone. */
  lemma Inside2(fs: Files, fs0: Files, a: Path, b: Path, dir: Path)
    requires SameOutside2(fs, fs0, a, b) && Apart(a, dir) && Apart(b, dir)
    ensures SameInside(fs, fs0, dir)
  {
    forall p | Under(dir, p)
      ensures !Under(a, p) && !Under(b, p)
    {
      ApartExclusive(dir, a, p);
      ApartExclusive(dir, b, p);
    }
  }

  /** A stage folder of module `m` starts with `base` and then `m`, and so
      does everything inside it. */
  lemma StageHead(base: Path, m: string, s: Path, p: Path)
    requires AtOrUnder(StageDir(base, m, s), p)
    ensures |base| < |p| && p[..|base|] == base && p[|base|] == m
  {
    var x := StageDir(base, m, s);
    assert p[..|x|][..|base|] == p[..|base|];
    assert x[..|base|] == base && x[|base|] == m;
    assert p[|base|] == p[..|x|][|base|];
  }

  /** `p` is a stage folder of a module of `ms` under `base`, or lies inside one. */
  predicate InStages(base: Path, ms: seq<string>, p: Path) {
    |base| < |p| && p[..|base|] == base && p[|base|] in ms
    && (AtOrUnder(StageDir(base, p[|base|], SrcDir), p) || AtOrUnder(StageDir(base, p[|base|], ProtoDir), p))
  }

  lemma StageMember(base: Path, ms: seq<string>, i: nat, s: Path, p: Path)
    requires i < |ms| && IsStage(s) && AtOrUnder(StageDir(base, ms[i], s), p)
    ensures InStages(base, ms, p)
  {
    StageHead(base, ms[i], s, p);
  }

  /** The stage folders of a module are not those of the modules before it,
      since module names are distinct. */
  lemma NotEarlier(base: Path, ms: seq<string>, i: nat, s: Path, p: Path)
    requires Distinct(ms) && i < |ms| && AtOrUnder(StageDir(base, ms[i], s), p)
    ensures !InStages(base, ms[..i], p)
  {
    StageHead(base, ms[i], s, p);
    DistinctNotBefore(ms, i);
  }

  /** The two stage folders of a module are apart. */
  lemma StageSiblings(base: Path, m: string)
    ensures Apart(StageDir(base, m, SrcDir), StageDir(base, m, ProtoDir))
  {
    SiblingsApart(base + [m], "Src", "Res", [], ["Proto"]);
    assert StageDir(base, m, SrcDir) == base + [m] + ["Src"] + [];
    assert StageDir(base, m, ProtoDir) == base + [m] + ["Res"] + ["Proto"];
  }

  /** Stage folders of different modules are apart. */
  lemma ModulesApart(base: Path, m1: string, m2: string, s1: Path, s2: Path)
    requires m1 != m2
    ensures Apart(StageDir(base, m1, s1), StageDir(base, m2, s2))
  {
    SiblingsApart(base, m1, m2, s1, s2);
  }

  /** A stage folder in the module root is apart from anything in the
      temporary folder. */
  lemma RootTempApart(root: Path, temp: Path, m: string, s: Path, x: Path)
    requires Apart(root, temp)
    ensures Apart(StageDir(root, m, s), temp + x)
  {
    ApartExtend(root, temp, [m] + s, x);
    assert StageDir(root, m, s) == root + ([m] + s);
  }

  /** The directories that creating a folder inside an existing `temp`
      adds outside `temp` existed already. */
  lemma TempAncestors(fs: Files, ds: set<Path>, temp: Path, x: Path)
    requires Rooted(fs, ds) && temp in ds
    ensures forall d :: d in Ancestors(temp + x) && !Under(temp, d) ==> d in ds
  {
    forall d | d in Ancestors(temp + x) && !Under(temp, d)
      ensures d in ds
    {
      assert d == (temp + x)[..|d|];
      if |d| < |temp| {
        assert d == temp[..|d|];
      } else {
        assert d == temp;
      }
    }
  }

  /** Whatever lies at or inside `dir + x`, for a non-empty `x`, lies inside `dir`. */
  lemma ExtendedInside(dir: Path, x: Path, d: Path)
    requires x != [] && AtOrUnder(dir + x, d)
    ensures Under(dir, d)
  {
    assert d[..|dir|] == d[..|dir + x|][..|dir|];
  }

  /** The files outside all three directories are the same, with the same contents. */
  ghost predicate SameOutside3(fs: Files, fs0: Files, a: Path, b: Path, c: Path) {
    forall p :: !Under(a, p) && !Under(b, p) && !Under(c, p) ==> (p in fs <==> p in fs0) && (p in fs ==> fs[p] == fs0[p])
  }

  lemma Inside3(fs: Files, fs0: Files, a: Path, b: Path, c: Path, dir: Path)
    requires SameOutside3(fs, fs0, a, b, c) && Apart(a, dir) && Apart(b, dir) && Apart(c, dir)
    ensures SameInside(fs, fs0, dir)
  {
    forall p | Under(dir, p)
      ensures !Under(a, p) && !Under(b, p) && !Under(c, p)
    {
      ApartExclusive(dir, a, p);
      ApartExclusive(dir, b, p);
      ApartExclusive(dir, c, p);
    }
  }

  /** The files outside the stage folders of the modules `ms` and outside
      `temp` are the same, with the same contents. */
  ghost predicate SameOutsideStages(fs: Files, fs0: Files, root: Path, temp: Path, ms: seq<string>) {
    forall p :: !InStages(root, ms, p) && !Under(temp, p) ==> (p in fs <==> p in fs0) && (p in fs ==> fs[p] == fs0[p])
  }

  /** Both stage folders of module `m` exist and none of their plaintext
      files has a twin yet, so that encrypting them does not throw. */
  ghost predicate Stageable(fs: Files, ds: set<Path>, root: Path, m: string) {
    StageDir(root, m, SrcDir) in ds && StageDir(root, m, ProtoDir) in ds
    && NoTwinClash(fs, StageDir(root, m, SrcDir)) && NoTwinClash(fs, StageDir(root, m, ProtoDir))
  }

  /** Module `m` is staged: the temporary folder holds a copy of each of its
      stage folders as they were in `fs0`, and each of them is sealed. */
  ghost predicate Staged(fs: Files, fs0: Files, root: Path, temp: Path, m: string, encrypt: string -> string) {
    SameTree(fs, StageDir(temp, m, SrcDir), fs0, StageDir(root, m, SrcDir))
    && SameTree(fs, StageDir(temp, m, ProtoDir), fs0, StageDir(root, m, ProtoDir))
    && SealedIn(fs, fs0, StageDir(root, m, SrcDir), encrypt)
    && SealedIn(fs, fs0, StageDir(root, m, ProtoDir), encrypt)
  }

  /** The temporary folder holds a copy folder for both stage folders of module `m`. */
  ghost predicate CopiesExist(ds: set<Path>, temp: Path, m: string) {
    StageDir(temp, m, SrcDir) in ds && StageDir(temp, m, ProtoDir) in ds
  }

  /** A directory inside `temp` that a folder of module `m` lies in is the
      module's own folder or lies inside it. */
  lemma AncestorInModule(temp: Path, m: string, y: Path, d: Path)
    requires d in Ancestors(temp + [m] + y) && Under(temp, d)
    ensures AtOrUnder(temp + [m], d)
  {
    var x := temp + [m] + y;
    assert d == x[..|d|];
    assert d[..|temp| + 1] == x[..|temp| + 1] == temp + [m];
  }

  /** A stage folder of a module not yet staged still holds what it held at the start. */
  lemma FreshStage(fs: Files, fs0: Files, root: Path, temp: Path, ms: seq<string>, i: nat, s: Path)
    requires i < |ms| && SameOutsideStages(fs, fs0, root, temp, ms[..i]) && Distinct(ms) && Apart(root, temp)
    ensures SameInside(fs, fs0, StageDir(root, ms[i], s))
  {
    var stage := StageDir(root, ms[i], s);
    RootTempApart(root, temp, ms[i], s, []);
    assert temp + [] == temp;
    forall p | Under(stage, p)
      ensures !InStages(root, ms[..i], p) && !Under(temp, p)
    {
      NotEarlier(root, ms, i, s, p);
      ApartExclusive(stage, temp, p);
    }
  }

  /** Before module `ms[i]` is staged, its stage folders are as they were
      at the start, and so is whether they can be staged. */
  lemma FreshModule(fs: Files, fs0: Files, ds: set<Path>, ds0: set<Path>, root: Path, temp: Path, ms: seq<string>, i: nat)
    requires i < |ms| && SameOutsideStages(fs, fs0, root, temp, ms[..i]) && Distinct(ms) && Apart(root, temp)
    requires SameDirsOutside(ds, ds0, temp)
    ensures SameInside(fs, fs0, StageDir(root, ms[i], SrcDir)) && SameInside(fs, fs0, StageDir(root, ms[i], ProtoDir))
    ensures Stageable(fs, ds, root, ms[i]) <==> Stageable(fs0, ds0, root, ms[i])
  {
    FreshStage(fs, fs0, root, temp, ms, i, SrcDir);
    FreshStage(fs, fs0, root, temp, ms, i, ProtoDir);
    ClashInside(fs, fs0, StageDir(root, ms[i], SrcDir));
    ClashInside(fs, fs0, StageDir(root, ms[i], ProtoDir));
    RootTempApart(root, temp, ms[i], SrcDir, []);
    RootTempApart(root, temp, ms[i], ProtoDir, []);
    assert temp + [] == temp;
  }

  /** Staging one module keeps the result of staging another. */
  lemma StageKeeps(fs: Files, fs1: Files, fs0: Files, root: Path, temp: Path, mi: string, mj: string,
                   encrypt: string -> string)
    requires SameOutside3(fs, fs1, temp + [mi], StageDir(root, mi, SrcDir), StageDir(root, mi, ProtoDir))
    requires Apart(root, temp) && mi != mj
    requires Staged(fs1, fs0, root, temp, mj, encrypt)
    ensures Staged(fs, fs0, root, temp, mj, encrypt)
  {
    StageKeepsDir(fs, fs1, fs0, root, temp, mi, mj, SrcDir, encrypt);
    StageKeepsDir(fs, fs1, fs0, root, temp, mi, mj, ProtoDir, encrypt);
  }

  lemma StageKeepsDir(fs: Files, fs1: Files, fs0: Files, root: Path, temp: Path, mi: string, mj: string, s: Path,
                      encrypt: string -> string)
    requires SameOutside3(fs, fs1, temp + [mi], StageDir(root, mi, SrcDir), StageDir(root, mi, ProtoDir))
    requires Apart(root, temp) && mi != mj
    requires SameTree(fs1, StageDir(temp, mj, s), fs0, StageDir(root, mj, s))
    requires SealedIn(fs1, fs0, StageDir(root, mj, s), encrypt)
    ensures SameTree(fs, StageDir(temp, mj, s), fs0, StageDir(root, mj, s))
    ensures SealedIn(fs, fs0, StageDir(root, mj, s), encrypt)
  {
    var tj, rj := StageDir(temp, mj, s), StageDir(root, mj, s);
    SiblingsApart(temp, mi, mj, [], s);
    assert temp + [mi] + [] == temp + [mi];
    RootTempApart(root, temp, mi, SrcDir, [mj] + s);
    RootTempApart(root, temp, mi, ProtoDir, [mj] + s);
    assert tj == temp + ([mj] + s);
    Inside3(fs, fs1, temp + [mi], StageDir(root, mi, SrcDir), StageDir(root, mi, ProtoDir), tj);
    TreeKeep(fs, fs1, tj, fs0, rj);
    RootTempApart(root, temp, mj, s, [mi]);
    ModulesApart(root, mi, mj, SrcDir, s);
    ModulesApart(root, mi, mj, ProtoDir, s);
    Inside3(fs, fs1, temp + [mi], StageDir(root, mi, SrcDir), StageDir(root, mi, ProtoDir), rj);
  }

  /** Staging is judged against a state that agrees inside the stage folders. */
  lemma StagedFrom(fs: Files, fs1: Files, fs0: Files, root: Path, temp: Path, m: string, encrypt: string -> string)
    requires Staged(fs, fs1, root, temp, m, encrypt)
    requires SameInside(fs1, fs0, StageDir(root, m, SrcDir)) && SameInside(fs1, fs0, StageDir(root, m, ProtoDir))
    ensures Staged(fs, fs0, root, temp, m, encrypt)
  {
    TreeFrom(fs, StageDir(temp, m, SrcDir), fs1, fs0, StageDir(root, m, SrcDir));
    TreeFrom(fs, StageDir(temp, m, ProtoDir), fs1, fs0, StageDir(root, m, ProtoDir));
    SealedFrom(fs, fs1, fs0, StageDir(root, m, SrcDir), encrypt);
    SealedFrom(fs, fs1, fs0, StageDir(root, m, ProtoDir), encrypt);
  }

  /** Recreating the temporary folder changes no stage folder, nor whether
      it can be staged. */
  lemma StartOf(fs0: Files, ds0: set<Path>, fs: Files, ds: set<Path>, root: Path, temp: Path, m: string)
    requires Apart(root, temp)
    requires fs0 == RemoveTree(fs, temp) && ds0 == RemoveDirs(ds, temp) + Ancestors(temp) + {temp}
    ensures SameInside(fs0, fs, StageDir(root, m, SrcDir)) && SameInside(fs0, fs, StageDir(root, m, ProtoDir))
    ensures Stageable(fs0, ds0, root, m) <==> Stageable(fs, ds, root, m)
  {
    StartOfDir(fs0, ds0, fs, ds, root, temp, m, SrcDir);
    StartOfDir(fs0, ds0, fs, ds, root, temp, m, ProtoDir);
  }

  lemma StartOfDir(fs0: Files, ds0: set<Path>, fs: Files, ds: set<Path>, root: Path, temp: Path, m: string, s: Path)
    requires Apart(root, temp)
    requires fs0 == RemoveTree(fs, temp) && ds0 == RemoveDirs(ds, temp) + Ancestors(temp) + {temp}
    ensures SameInside(fs0, fs, StageDir(root, m, s))
    ensures (StageDir(root, m, s) in ds0 <==> StageDir(root, m, s) in ds)
    ensures NoTwinClash(fs0, StageDir(root, m, s)) <==> NoTwinClash(fs, StageDir(root, m, s))
  {
    var stage := StageDir(root, m, s);
    RootTempApart(root, temp, m, s, []);
    assert temp + [] == temp;
    InsideApart(fs0, fs, temp, stage);
    ClashInside(fs0, fs, stage);
    SourceNotAncestor(stage, temp, stage);
  }

  /** Recreating the temporary folder changes nothing outside it. */
  lemma FrameFromStart(fs: Files, fs0: Files, fsOld: Files, root: Path, temp: Path, ms: seq<string>)
    requires SameOutsideStages(fs, fs0, root, temp, ms) && fs0 == RemoveTree(fsOld, temp)
    ensures SameOutsideStages(fs, fsOld, root, temp, ms)
  {
  }

  /** A frame around the stage folders of some modules is a frame around
      those of more modules. */
  lemma FramePrefix(fs: Files, fs0: Files, root: Path, temp: Path, ms: seq<string>, i: nat)
    requires i <= |ms| && SameOutsideStages(fs, fs0, root, temp, ms[..i])
    ensures SameOutsideStages(fs, fs0, root, temp, ms)
  {
    forall p | !InStages(root, ms, p)
      ensures !InStages(root, ms[..i], p)
    {
    }
  }

  /** The frame grows by the stage folders of one more module. */
  lemma FrameStep(fs: Files, fs1: Files, fs0: Files, root: Path, temp: Path, ms: seq<string>, i: nat)
    requires i < |ms| && SameOutsideStages(fs1, fs0, root, temp, ms[..i])
    requires SameOutside3(fs, fs1, temp + [ms[i]], StageDir(root, ms[i], SrcDir), StageDir(root, ms[i], ProtoDir))
    ensures SameOutsideStages(fs, fs0, root, temp, ms[..i + 1])
  {
    forall p | !InStages(root, ms[..i + 1], p) && !Under(temp, p)
      ensures !InStages(root, ms[..i], p) && !Under(temp + [ms[i]], p)
      ensures !Under(StageDir(root, ms[i], SrcDir), p) && !Under(StageDir(root, ms[i], ProtoDir), p)
    {
      if Under(temp + [ms[i]], p) {
        ExtendedInside(temp, [ms[i]], p);
      }
      if Under(StageDir(root, ms[i], SrcDir), p) {
        StageMember(root, ms[..i + 1], i, SrcDir, p);
      }
      if Under(StageDir(root, ms[i], ProtoDir), p) {
        StageMember(root, ms[..i + 1], i, ProtoDir, p);
      }
    }
  }

  /** Staging module `ms[i]` keeps the modules before it staged and adds it. */
  lemma StagedStep(fs: Files, fs1: Files, fs0: Files, root: Path, temp: Path, ms: seq<string>, i: nat,
                   encrypt: string -> string)
    requires i < |ms| && Distinct(ms) && Apart(root, temp)
    requires forall j :: 0 <= j < i ==> Staged(fs1, fs0, root, temp, ms[j], encrypt)
    requires Staged(fs, fs1, root, temp, ms[i], encrypt)
    requires SameOutside3(fs, fs1, temp + [ms[i]], StageDir(root, ms[i], SrcDir), StageDir(root, ms[i], ProtoDir))
    requires SameInside(fs1, fs0, StageDir(root, ms[i], SrcDir)) && SameInside(fs1, fs0, StageDir(root, ms[i], ProtoDir))
    ensures forall j :: 0 <= j < i + 1 ==> Staged(fs, fs0, root, temp, ms[j], encrypt)
  {
    forall j | 0 <= j < i + 1
      ensures Staged(fs, fs0, root, temp, ms[j], encrypt)
    {
      if j < i {
        DistinctIndex(ms, i, j);
        StageKeeps(fs, fs1, fs0, root, temp, ms[i], ms[j], encrypt);
      } else {
        StagedFrom(fs, fs1, fs0, root, temp, ms[i], encrypt);
      }
    }
  }

  /** Copying module `ms[i]` aside keeps the copies of the modules before it
      and every directory outside the temporary folder. */
  lemma CopiesStep(ds: set<Path>, ds1: set<Path>, ds0: set<Path>, temp: Path, ms: seq<string>, i: nat)
    requires i < |ms| && Distinct(ms)
    requires forall j :: 0 <= j < i ==> CopiesExist(ds1, temp, ms[j])
    requires SameDirsOutside(ds, ds1, temp + [ms[i]]) && CopiesExist(ds, temp, ms[i])
    ensures forall j :: 0 <= j < i + 1 ==> CopiesExist(ds, temp, ms[j])
  {
    forall j | 0 <= j < i
      ensures CopiesExist(ds, temp, ms[j])
    {
      DistinctIndex(ms, i, j);
      SiblingsApart(temp, ms[i], ms[j], [], SrcDir);
      SiblingsApart(temp, ms[i], ms[j], [], ProtoDir);
      assert temp + [ms[i]] + [] == temp + [ms[i]];
    }
  }

  /** Changes to the directories inside a module's temporary folder are
      changes inside the temporary folder. */
  lemma DirsStep(ds: set<Path>, ds1: set<Path>, ds0: set<Path>, temp: Path, m: string)
    requires SameDirsOutside(ds1, ds0, temp) && SameDirsOutside(ds, ds1, temp + [m])
    ensures SameDirsOutside(ds, ds0, temp)
  {
    forall d | !AtOrUnder(temp, d)
      ensures !AtOrUnder(temp + [m], d)
    {
      if AtOrUnder(temp + [m], d) {
        ExtendedInside(temp, [m], d);
      }
    }
  }

  /** The state of the loop of `EncryptLuaAndProto` after the first `i`
      modules, from `fs0` and `ds0`: all of them could be staged and are
      staged, their copies exist, and nothing outside their stage folders
      and the temporary folder changed. */
  ghost predicate StagedUpTo(fs: Files, ds: set<Path>, fs0: Files, ds0: set<Path>, root: Path, temp: Path,
                             ms: seq<string>, i: nat, encrypt: string -> string) {
    i <= |ms| && temp in ds
    && (forall j :: 0 <= j < i ==> Stageable(fs0, ds0, root, ms[j]))
    && (forall j :: 0 <= j < i ==> Staged(fs, fs0, root, temp, ms[j], encrypt))
    && (forall j :: 0 <= j < i ==> CopiesExist(ds, temp, ms[j]))
    && SameOutsideStages(fs, fs0, root, temp, ms[..i])
    && SameDirsOutside(ds, ds0, temp)
  }

  /** One pass of the loop of `EncryptLuaAndProto` that staged module `ms[i]`:
      one more module is staged. */
  lemma StagedUpToNext(fs: Files, ds: set<Path>, fs1: Files, ds1: set<Path>, fs0: Files, ds0: set<Path>,
                       root: Path, temp: Path, ms: seq<string>, i: nat, encrypt: string -> string)
    requires Apart(root, temp) && Distinct(ms) && i < |ms|
    requires StagedUpTo(fs1, ds1, fs0, ds0, root, temp, ms, i, encrypt)
    requires Stageable(fs1, ds1, root, ms[i]) && Staged(fs, fs1, root, temp, ms[i], encrypt)
    requires SameOutside3(fs, fs1, temp + [ms[i]], StageDir(root, ms[i], SrcDir), StageDir(root, ms[i], ProtoDir))
    requires SameDirsOutside(ds, ds1, temp + [ms[i]]) && CopiesExist(ds, temp, ms[i])
    ensures StagedUpTo(fs, ds, fs0, ds0, root, temp, ms, i + 1, encrypt)
  {
    FilesNext(fs, fs1, fs0, ds1, ds0, root, temp, ms, i, encrypt);
    DirsNext(ds, ds1, ds0, temp, ms, i);
  }

  /** The file part of `StagedUpToNext`. */
  lemma FilesNext(fs: Files, fs1: Files, fs0: Files, ds1: set<Path>, ds0: set<Path>,
                  root: Path, temp: Path, ms: seq<string>, i: nat, encrypt: string -> string)
    requires Apart(root, temp) && Distinct(ms) && i < |ms|
    requires forall j :: 0 <= j < i ==> Stageable(fs0, ds0, root, ms[j])
    requires forall j :: 0 <= j < i ==> Staged(fs1, fs0, root, temp, ms[j], encrypt)
    requires SameOutsideStages(fs1, fs0, root, temp, ms[..i]) && SameDirsOutside(ds1, ds0, temp)
    requires Stageable(fs1, ds1, root, ms[i]) && Staged(fs, fs1, root, temp, ms[i], encrypt)
    requires SameOutside3(fs, fs1, temp + [ms[i]], StageDir(root, ms[i], SrcDir), StageDir(root, ms[i], ProtoDir))
    ensures forall j :: 0 <= j < i + 1 ==> Stageable(fs0, ds0, root, ms[j])
    ensures forall j :: 0 <= j < i + 1 ==> Staged(fs, fs0, root, temp, ms[j], encrypt)
    ensures SameOutsideStages(fs, fs0, root, temp, ms[..i + 1])
  {
    FreshModule(fs1, fs0, ds1, ds0, root, temp, ms, i);
    FrameStep(fs, fs1, fs0, root, temp, ms, i);
    StagedStep(fs, fs1, fs0, root, temp, ms, i, encrypt);
  }

  /** The directory part of `StagedUpToNext`. */
  lemma DirsNext(ds: set<Path>, ds1: set<Path>, ds0: set<Path>, temp: Path, ms: seq<string>, i: nat)
    requires Distinct(ms) && i < |ms| && temp in ds1
    requires forall j :: 0 <= j < i ==> CopiesExist(ds1, temp, ms[j])
    requires SameDirsOutside(ds1, ds0, temp)
    requires SameDirsOutside(ds, ds1, temp + [ms[i]]) && CopiesExist(ds, temp, ms[i])
    ensures temp in ds
    ensures forall j :: 0 <= j < i + 1 ==> CopiesExist(ds, temp, ms[j])
    ensures SameDirsOutside(ds, ds0, temp)
  {
    DirsStep(ds, ds1, ds0, temp, ms[i]);
    assert !AtOrUnder(temp + [ms[i]], temp);
    CopiesStep(ds, ds1, ds0, temp, ms, i);
  }

  /** One pass of the loop of `EncryptLuaAndProto` that could not stage
      module `ms[i]`: it could not be staged from the start either, and the
      frame still holds. */
  lemma StagedUpToStop(fs: Files, ds: set<Path>, fs1: Files, ds1: set<Path>, fs0: Files, ds0: set<Path>,
                       root: Path, temp: Path, ms: seq<string>, i: nat, encrypt: string -> string)
    requires Apart(root, temp) && Distinct(ms) && i < |ms|
    requires StagedUpTo(fs1, ds1, fs0, ds0, root, temp, ms, i, encrypt)
    requires !Stageable(fs1, ds1, root, ms[i])
    requires SameOutside3(fs, fs1, temp + [ms[i]], StageDir(root, ms[i], SrcDir), StageDir(root, ms[i], ProtoDir))
    requires SameDirsOutside(ds, ds1, temp + [ms[i]])
    ensures !Stageable(fs0, ds0, root, ms[i]) && temp in ds
    ensures SameOutsideStages(fs, fs0, root, temp, ms) && SameDirsOutside(ds, ds0, temp)
  {
    FreshModule(fs1, fs0, ds1, ds0, root, temp, ms, i);
    FrameStep(fs, fs1, fs0, root, temp, ms, i);
    DirsStep(ds, ds1, ds0, temp, ms[i]);
    assert !AtOrUnder(temp + [ms[i]], temp);
    FramePrefix(fs, fs0, root, temp, ms, i + 1);
  }

  /** Both stage folders of module `m` exist. */
  ghost predicate StagesExist(ds: set<Path>, root: Path, m: string) {
    StageDir(root, m, SrcDir) in ds && StageDir(root, m, ProtoDir) in ds
  }

  /** Both stage folders of module `m` were refilled from their copies in
      the temporary folder as it was in `fs0` and `ds0`. */
  ghost predicate Restored(fs: Files, fs0: Files, ds0: set<Path>, root: Path, temp: Path, m: string) {
    RefilledFrom(fs, StageDir(root, m, SrcDir), fs0, ds0, StageDir(temp, m, SrcDir))
    && RefilledFrom(fs, StageDir(root, m, ProtoDir), fs0, ds0, StageDir(temp, m, ProtoDir))
  }

  /** The directories outside `a` and outside `b` are the same. */
  ghost predicate SameDirsOutside2(ds: set<Path>, ds0: set<Path>, a: Path, b: Path) {
    forall d :: !AtOrUnder(a, d) && !AtOrUnder(b, d) ==> (d in ds <==> d in ds0)
  }

  /** The files outside the stage folders of the modules `ms` are the same,
      with the same contents. */
  ghost predicate SameOutsideRoots(fs: Files, fs0: Files, root: Path, ms: seq<string>) {
    forall p :: !InStages(root, ms, p) ==> (p in fs <==> p in fs0) && (p in fs ==> fs[p] == fs0[p])
  }

  /** The directories outside the stage folders of the modules `ms` are the same. */
  ghost predicate SameDirsOutsideRoots(ds: set<Path>, ds0: set<Path>, root: Path, ms: seq<string>) {
    forall d :: !InStages(root, ms, d) ==> (d in ds <==> d in ds0)
  }

  /** Nothing at or inside the temporary folder is in a stage folder. */
  lemma TempNotStage(root: Path, temp: Path, ms: seq<string>, p: Path)
    requires Apart(root, temp) && AtOrUnder(temp, p)
    ensures !InStages(root, ms, p)
  {
    if InStages(root, ms, p) {
      ApartExclusive(temp, root, p);
    }
  }

  /** Before module `ms[i]` is restored, whether its stage folders exist and
      what its copies in the temporary folder hold are as at the start. */
  lemma RestoreFresh(fs: Files, fs0: Files, ds: set<Path>, ds0: set<Path>, root: Path, temp: Path, ms: seq<string>, i: nat)
    requires i < |ms| && Distinct(ms) && Apart(root, temp)
    requires SameOutsideRoots(fs, fs0, root, ms[..i]) && SameDirsOutsideRoots(ds, ds0, root, ms[..i])
    ensures StagesExist(ds, root, ms[i]) <==> StagesExist(ds0, root, ms[i])
    ensures SameInside(fs, fs0, StageDir(temp, ms[i], SrcDir)) && SameInside(fs, fs0, StageDir(temp, ms[i], ProtoDir))
    ensures StageDir(temp, ms[i], SrcDir) in ds <==> StageDir(temp, ms[i], SrcDir) in ds0
    ensures StageDir(temp, ms[i], ProtoDir) in ds <==> StageDir(temp, ms[i], ProtoDir) in ds0
  {
    NotEarlier(root, ms, i, SrcDir, StageDir(root, ms[i], SrcDir));
    NotEarlier(root, ms, i, ProtoDir, StageDir(root, ms[i], ProtoDir));
    forall p | AtOrUnder(temp, p)
      ensures !InStages(root, ms[..i], p)
    {
      TempNotStage(root, temp, ms[..i], p);
    }
    forall s, p | IsStage(s) && AtOrUnder(StageDir(temp, ms[i], s), p)
      ensures AtOrUnder(temp, p)
    {
      assert StageDir(temp, ms[i], s) == temp + ([ms[i]] + s);
      ExtendedInside(temp, [ms[i]] + s, p);
    }
  }

  /** Restoring module `ms[i]` keeps the modules before it restored and adds it. */
  lemma RestoreStep(fs: Files, fs1: Files, fs0: Files, ds1: set<Path>, ds0: set<Path>, root: Path, temp: Path,
                    ms: seq<string>, i: nat)
    requires i < |ms| && Distinct(ms) && Apart(root, temp)
    requires forall j :: 0 <= j < i ==> Restored(fs1, fs0, ds0, root, temp, ms[j])
    requires Restored(fs, fs1, ds1, root, temp, ms[i])
    requires SameOutside2(fs, fs1, StageDir(root, ms[i], SrcDir), StageDir(root, ms[i], ProtoDir))
    requires SameInside(fs1, fs0, StageDir(temp, ms[i], SrcDir)) && SameInside(fs1, fs0, StageDir(temp, ms[i], ProtoDir))
    requires StageDir(temp, ms[i], SrcDir) in ds1 <==> StageDir(temp, ms[i], SrcDir) in ds0
    requires StageDir(temp, ms[i], ProtoDir) in ds1 <==> StageDir(temp, ms[i], ProtoDir) in ds0
    ensures forall j :: 0 <= j < i + 1 ==> Restored(fs, fs0, ds0, root, temp, ms[j])
  {
    var src, proto := StageDir(root, ms[i], SrcDir), StageDir(root, ms[i], ProtoDir);
    forall j | 0 <= j < i + 1
      ensures Restored(fs, fs0, ds0, root, temp, ms[j])
    {
      if j < i {
        DistinctIndex(ms, i, j);
        RestoreKeepsDir(fs, fs1, fs0, ds0, root, temp, ms[i], ms[j], SrcDir);
        RestoreKeepsDir(fs, fs1, fs0, ds0, root, temp, ms[i], ms[j], ProtoDir);
      } else {
        RefillSource(fs, src, fs1, ds1, fs0, ds0, StageDir(temp, ms[i], SrcDir));
        RefillSource(fs, proto, fs1, ds1, fs0, ds0, StageDir(temp, ms[i], ProtoDir));
      }
    }
  }

  /** Restoring module `mi` leaves the refilled folder `s` of module `mj` alone. */
  lemma RestoreKeepsDir(fs: Files, fs1: Files, fs0: Files, ds0: set<Path>, root: Path, temp: Path,
                        mi: string, mj: string, s: Path)
    requires mi != mj
    requires SameOutside2(fs, fs1, StageDir(root, mi, SrcDir), StageDir(root, mi, ProtoDir))
    requires RefilledFrom(fs1, StageDir(root, mj, s), fs0, ds0, StageDir(temp, mj, s))
    ensures RefilledFrom(fs, StageDir(root, mj, s), fs0, ds0, StageDir(temp, mj, s))
  {
    ModulesApart(root, mi, mj, SrcDir, s);
    ModulesApart(root, mi, mj, ProtoDir, s);
    Inside2(fs, fs1, StageDir(root, mi, SrcDir), StageDir(root, mi, ProtoDir), StageDir(root, mj, s));
    RefillKept(fs, fs1, StageDir(root, mj, s), fs0, ds0, StageDir(temp, mj, s));
  }

  /** The frame around the stage folders grows by those of one more module. */
  lemma RestoreFrame(fs: Files, fs1: Files, fs0: Files, ds: set<Path>, ds1: set<Path>, ds0: set<Path>,
                     root: Path, ms: seq<string>, i: nat)
    requires i < |ms|
    requires SameOutsideRoots(fs1, fs0, root, ms[..i]) && SameDirsOutsideRoots(ds1, ds0, root, ms[..i])
    requires SameOutside2(fs, fs1, StageDir(root, ms[i], SrcDir), StageDir(root, ms[i], ProtoDir))
    requires SameDirsOutside2(ds, ds1, StageDir(root, ms[i], SrcDir), StageDir(root, ms[i], ProtoDir))
    ensures SameOutsideRoots(fs, fs0, root, ms[..i + 1]) && SameDirsOutsideRoots(ds, ds0, root, ms[..i + 1])
  {
    forall p | !InStages(root, ms[..i + 1], p)
      ensures !InStages(root, ms[..i], p)
      ensures !AtOrUnder(StageDir(root, ms[i], SrcDir), p) && !AtOrUnder(StageDir(root, ms[i], ProtoDir), p)
    {
      if AtOrUnder(StageDir(root, ms[i], SrcDir), p) {
        StageMember(root, ms[..i + 1], i, SrcDir, p);
      }
      if AtOrUnder(StageDir(root, ms[i], ProtoDir), p) {
        StageMember(root, ms[..i + 1], i, ProtoDir, p);
      }
    }
  }

  /** A frame around the stage folders of the first `k` modules is a frame
      around those of all of them. */
  lemma RootsPrefix(fs: Files, fs0: Files, ds: set<Path>, ds0: set<Path>, root: Path, ms: seq<string>, k: nat)
    requires k <= |ms| && SameOutsideRoots(fs, fs0, root, ms[..k]) && SameDirsOutsideRoots(ds, ds0, root, ms[..k])
    ensures SameOutsideRoots(fs, fs0, root, ms) && SameDirsOutsideRoots(ds, ds0, root, ms)
  {
    forall p | !InStages(root, ms, p)
      ensures !InStages(root, ms[..k], p)
    {
    }
  }

  /** A frame around the stage folders is a frame around them and the
      temporary folder. */
  lemma RootsToStages(fs: Files, fs0: Files, root: Path, temp: Path, ms: seq<string>)
    requires SameOutsideRoots(fs, fs0, root, ms)
    ensures SameOutsideStages(fs, fs0, root, temp, ms)
  {
  }

  /** Deleting the temporary folder leaves every restored stage folder alone. */
  lemma RestoredAfterDelete(fs: Files, fs1: Files, fs0: Files, ds0: set<Path>, root: Path, temp: Path, m: string)
    requires Apart(root, temp) && fs == RemoveTree(fs1, temp)
    requires Restored(fs1, fs0, ds0, root, temp, m)
    ensures Restored(fs, fs0, ds0, root, temp, m)
  {
    RootTempApart(root, temp, m, SrcDir, []);
    RootTempApart(root, temp, m, ProtoDir, []);
    assert temp + [] == temp;
    InsideApart(fs, fs1, temp, StageDir(root, m, SrcDir));
    InsideApart(fs, fs1, temp, StageDir(root, m, ProtoDir));
    RefillKept(fs, fs1, StageDir(root, m, SrcDir), fs0, ds0, StageDir(temp, m, SrcDir));
    RefillKept(fs, fs1, StageDir(root, m, ProtoDir), fs0, ds0, StageDir(temp, m, ProtoDir));
  }

  /** The packing done inside the `try` block of `BuildAssetBundle`, as a
      change of the file system: the new files, the new directories, and
      whether it completed without throwing. */
  type Pack = (Files, set<Path>) -> (Files, set<Path>, bool)

  /** Packing keeps the file system rooted, as any real file system is. */
  ghost predicate PackRooted(pack: Pack) {
    forall fs, ds :: Rooted(fs, ds) ==> Rooted(pack(fs, ds).0, pack(fs, ds).1)
  }

  /** Packing writes nowhere but inside the bundle output folder `out`. */
  ghost predicate PackConfined(pack: Pack, out: Path) {
    forall fs, ds :: SameOutside(pack(fs, ds).0, fs, out) && SameDirsOutside(pack(fs, ds).1, ds, out)
  }

  /** Both stage folders of module `m` hold in `fs` exactly the files they
      held in `fs0`. */
  ghost predicate StagesAsBefore(fs: Files, fs0: Files, root: Path, m: string) {
    SameTree(fs, StageDir(root, m, SrcDir), fs0, StageDir(root, m, SrcDir))
    && SameTree(fs, StageDir(root, m, ProtoDir), fs0, StageDir(root, m, ProtoDir))
  }

  /** After staging, a packing confined to an output folder apart from the
      module root and the temporary folder keeps the stage folders and the
      copies of module `m`. */
  lemma PackKeeps(fs: Files, ds: set<Path>, fs1: Files, ds1: set<Path>, root: Path, temp: Path, out: Path, m: string)
    requires Apart(out, root) && Apart(out, temp)
    requires SameOutside(fs, fs1, out) && SameDirsOutside(ds, ds1, out)
    requires StagesExist(ds1, root, m) && CopiesExist(ds1, temp, m) && temp in ds1
    ensures StagesExist(ds, root, m) && CopiesExist(ds, temp, m) && temp in ds
    ensures SameInside(fs, fs1, StageDir(temp, m, SrcDir)) && SameInside(fs, fs1, StageDir(temp, m, ProtoDir))
  {
    var rs, rp := StageDir(root, m, SrcDir), StageDir(root, m, ProtoDir);
    var ts, tp := StageDir(temp, m, SrcDir), StageDir(temp, m, ProtoDir);
    assert rs == root + ([m] + SrcDir) && rp == root + ([m] + ProtoDir);
    assert ts == temp + ([m] + SrcDir) && tp == temp + ([m] + ProtoDir);
    ApartExtend(out, root, [], [m] + SrcDir);
    ApartExtend(out, root, [], [m] + ProtoDir);
    ApartExtend(out, temp, [], [m] + SrcDir);
    ApartExtend(out, temp, [], [m] + ProtoDir);
    assert out + [] == out;
    InsideApart(fs, fs1, out, ts);
    InsideApart(fs, fs1, out, tp);
  }

  /** The round trip of one module: staged, packed and restored, its stage
      folders hold exactly the plaintext files they held at the start. */
  lemma RoundTrip(fs: Files, fsP: Files, dsP: set<Path>, fsE: Files, fs0: Files, root: Path, temp: Path, m: string,
                  encrypt: string -> string)
    requires Staged(fsE, fs0, root, temp, m, encrypt) && CopiesExist(dsP, temp, m)
    requires SameInside(fsP, fsE, StageDir(temp, m, SrcDir)) && SameInside(fsP, fsE, StageDir(temp, m, ProtoDir))
    requires Restored(fs, fsP, dsP, root, temp, m)
    ensures StagesAsBefore(fs, fs0, root, m)
  {
    var ts, tp := StageDir(temp, m, SrcDir), StageDir(temp, m, ProtoDir);
    TreeFrom(fs, StageDir(root, m, SrcDir), fsP, fsE, ts);
    TreeFrom(fs, StageDir(root, m, ProtoDir), fsP, fsE, tp);
    SameTreeTrans(fs, StageDir(root, m, SrcDir), fsE, ts, fs0, StageDir(root, m, SrcDir));
    SameTreeTrans(fs, StageDir(root, m, ProtoDir), fsE, tp, fs0, StageDir(root, m, ProtoDir));
  }

  /** Staging keeps the stage folders of a module that could be staged. */
  lemma StagesKept(ds: set<Path>, ds0: set<Path>, fs0: Files, root: Path, temp: Path, m: string)
    requires Apart(root, temp) && Stageable(fs0, ds0, root, m)
    requires forall d :: !AtOrUnder(temp, d) ==> (d in ds <==> d in ds0 || d in Ancestors(temp))
    ensures StagesExist(ds, root, m)
  {
    RootTempApart(root, temp, m, SrcDir, []);
    RootTempApart(root, temp, m, ProtoDir, []);
    assert temp + [] == temp;
  }

  /** The files outside the stage folders of the modules `ms`, the
      temporary folder and the output folder are the same. */
  ghost predicate SameOutsideBuild(fs: Files, fs0: Files, root: Path, temp: Path, out: Path, ms: seq<string>) {
    forall p :: !InStages(root, ms, p) && !Under(temp, p) && !Under(out, p) ==>
      (p in fs <==> p in fs0) && (p in fs ==> fs[p] == fs0[p])
  }
}
