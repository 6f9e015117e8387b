/** The staging steps around packing (ABEditor.EncryptLuaAndProto,
    CopyFolder, EncryptOnePath, DeleteOnePath, RestoreModules, DeleteManifest
    and the try/finally of ABEditor.BuildAssetBundle): the Lua and Proto
    sources of every module are copied aside, replaced in place by encrypted
    `.bytes` twins while the bundles are built, and copied back afterwards.

    The file system is a `FileTree` object whose two fields the steps update
    in place. A step that throws in the editor script returns `false` here.
    The recursive walks over subdirectories visit every path inside the
    directory; the order of the visit does not change the final state. */
module Staging {
  import opened Util
  import opened FileSystem
  import opened StageSpec

  class FileTree {
    var files: Files
    var dirs: set<Path>

    /** Every directory a file or a directory lies in exists. */
    ghost predicate Valid()
      reads this
    {
      Rooted(files, dirs)
    }

    constructor (files0: Files, dirs0: set<Path>)
      requires Rooted(files0, dirs0)
      ensures Valid() && files == files0 && dirs == dirs0
    {
      files := files0;
      dirs := dirs0;
    }

    /** `Directory.Delete(dir, true)`: removes the directory and all it
        contains; throws when it does not exist. */
    method DeleteDirectory(dir: Path) returns (ok: bool)
      requires Valid()
      modifies this
      ensures Valid()
      ensures ok == (dir in old(dirs))
      ensures ok ==> files == RemoveTree(old(files), dir) && dirs == RemoveDirs(old(dirs), dir)
      ensures !ok ==> files == old(files) && dirs == old(dirs)
    {
      if dir !in dirs {
        return false;
      }
      RootedRemove(files, dirs, dir);
      files := RemoveTree(files, dir);
      dirs := RemoveDirs(dirs, dir);
      return true;
    }

    /** `Directory.CreateDirectory(dir)`: creates the directory and every
        missing directory it lies in. */
    method CreateDirectory(dir: Path)
      requires Valid()
      modifies this
      ensures Valid()
      ensures files == old(files) && dirs == old(dirs) + Ancestors(dir) + {dir}
    {
      RootedCreate(files, dirs, dir);
      dirs := dirs + Ancestors(dir) + {dir};
    }

    /** `CopyFolder(src, dst)`: `dst` becomes an exact copy of `src`, whatever
        it held before. When `src` does not exist the exception is caught
        after `dst` was recreated, which leaves `dst` empty. */
    method CopyFolder(src: Path, dst: Path)
      requires Valid() && Apart(src, dst)
      modifies this
      ensures Valid()
      ensures SameOutside(files, old(files), dst)
      ensures src in old(dirs) ==> SameTree(files, dst, old(files), src)
      ensures src !in old(dirs) ==> EmptyTree(files, dst)
      ensures dst in dirs
      ensures forall d :: !AtOrUnder(dst, d) ==> (d in dirs <==> d in old(dirs) || d in Ancestors(dst))
      ensures src in old(dirs) ==> SameDirTree(dirs, dst, old(dirs), src)
      ensures src !in old(dirs) ==> NoSubdirs(dirs, dst)
    {
      if dst in dirs {
        var _ := DeleteDirectory(dst);
      } else {
        RootedAbsent(files, dirs, dst);
      }
      CreateDirectory(dst);
      ghost var files1, dirs1 := files, dirs;
      forall r | r != []
        ensures (src + r in dirs1 <==> src + r in old(dirs)) && (src + r in files1 <==> src + r in old(files))
        ensures src + r in files1 ==> files1[src + r] == old(files)[src + r]
      {
        UnderJoin(src, r);
        ApartExclusive(src, dst, src + r);
        SourceNotAncestor(src, dst, src + r);
      }
      SourceNotAncestor(src, dst, src);
      if src !in dirs {
        return;
      }
      CopySubdirs(src, dst);
      CopyFiles(src, dst);
    }

    /** The file part of a copy into an empty `dst` whose directories
        already mirror those of `src`. */
    method CopyFiles(src: Path, dst: Path)
      requires Valid() && Apart(src, dst) && EmptyTree(files, dst) && dst in dirs
      requires forall r :: r != [] && src + r in dirs ==> dst + r in dirs
      modifies this`files
      ensures Valid()
      ensures SameOutside(files, old(files), dst)
      ensures SameTree(files, dst, old(files), src)
    {
      var todo := set p | p in files && Under(src, p);
      ghost var all := todo;
      while todo != {}
        invariant todo <= all
        invariant forall p :: p in all <==> p in old(files) && Under(src, p)
        invariant SameOutside(files, old(files), dst)
        invariant forall r :: r != [] ==> (dst + r in files <==> src + r in all && src + r !in todo)
        invariant forall r :: r != [] && dst + r in files ==> files[dst + r] == old(files)[src + r]
        decreases |todo|
      {
        var p :| p in todo;
        UnderSplit(src, p);
        ApartExclusive(src, dst, p);
        var r := p[|src|..];
        UnderJoin(dst, r);
        files := files[dst + r := files[p]];
        todo := todo - {p};
      }
      forall r | r != []
        ensures (dst + r in files <==> src + r in old(files))
      {
        UnderJoin(src, r);
      }
      forall p, k | p in files && 0 < k < |p|
        ensures p[..k] in dirs
      {
        if Under(dst, p) {
          UnderSplit(dst, p);
          RootedCopyFile(old(files), dirs, src, dst, p[|dst|..], k);
        }
      }
    }

    /** The directory part of a copy into a `dst` with no subdirectories. */
    method CopySubdirs(src: Path, dst: Path)
      requires Valid() && Apart(src, dst) && NoSubdirs(dirs, dst) && dst in dirs
      modifies this`dirs
      ensures Valid()
      ensures forall d :: !Under(dst, d) ==> (d in dirs <==> d in old(dirs))
      ensures SameDirTree(dirs, dst, old(dirs), src)
    {
      var todo := set d | d in dirs && Under(src, d);
      ghost var all := todo;
      while todo != {}
        invariant todo <= all
        invariant forall d :: d in all <==> d in old(dirs) && Under(src, d)
        invariant forall d :: !Under(dst, d) ==> (d in dirs <==> d in old(dirs))
        invariant forall r :: r != [] ==> (dst + r in dirs <==> src + r in all && src + r !in todo)
        decreases |todo|
      {
        var d :| d in todo;
        UnderSplit(src, d);
        ApartExclusive(src, dst, d);
        var r := d[|src|..];
        UnderJoin(dst, r);
        dirs := dirs + {dst + r};
        todo := todo - {d};
      }
      forall r | r != []
        ensures (dst + r in dirs <==> src + r in old(dirs))
      {
        UnderJoin(src, r);
        ApartExclusive(src, dst, src + r);
      }
      forall d, k | d in dirs && 0 < k < |d|
        ensures d[..k] in dirs
      {
        if Under(dst, d) {
          UnderSplit(dst, d);
          RootedCopyDir(dirs, old(dirs), src, dst, d[|dst|..], k);
        }
      }
    }

    /** `EncryptOnePath(path)`: writes an encrypted `.bytes` twin next to
        every `.lua` and `.proto` file inside `path`, at any depth. Listing a
        missing directory throws, and so does creating a twin that already
        exists (`FileMode.CreateNew`). */
    method EncryptOnePath(path: Path, encrypt: string -> string) returns (ok: bool)
      requires Valid()
      modifies this`files
      ensures Valid()
      ensures ok == (path in old(dirs) && NoTwinClash(old(files), path))
      ensures ok ==> EncryptedIn(files, old(files), path, encrypt)
      ensures SameOutside(files, old(files), path)
    {
      if path !in dirs {
        return false;
      }
      ghost var files0 := files;
      var todo := set p | p in files && Under(path, p) && Plain(p);
      ghost var all := todo;
      while todo != {}
        invariant Valid()
        invariant Encrypting(files, files0, all, todo, path, encrypt)
        decreases |todo|
      {
        var p :| p in todo;
        if Twin(p) in files {
          TwinPresent(files, files0, all - todo, encrypt, p);
          assert !NoTwinClash(files0, path);
          return false;
        }
        var text := encrypt(files[p]);
        TwinRooted(files, dirs, p, text);
        EncryptingStep(files, files0, all, todo, path, encrypt, p);
        files := files[Twin(p) := text];
        todo := todo - {p};
      }
      TwinsInside(files, files0, all, path, encrypt);
      return true;
    }

    /** `DeleteOnePath(path)`: deletes every `.lua`, `.proto` and matching
        `.meta` file inside `path`, at any depth; listing a missing
        directory throws. */
    method DeleteOnePath(path: Path) returns (ok: bool)
      requires Valid()
      modifies this`files
      ensures Valid()
      ensures ok == (path in old(dirs))
      ensures ok ==> PurgedIn(files, old(files), path)
      ensures SameOutside(files, old(files), path)
    {
      if path !in dirs {
        return false;
      }
      var todo := set p | p in files && Under(path, p) && Doomed(p);
      ghost var all := todo;
      while todo != {}
        invariant todo <= all
        invariant forall p :: p in all <==> p in old(files) && Under(path, p) && Doomed(p)
        invariant forall p :: p in files <==> p in old(files) && (p !in all || p in todo)
        invariant forall p :: p in files ==> files[p] == old(files)[p]
        invariant Valid()
        decreases |todo|
      {
        var p :| p in todo;
        files := files - {p};
        todo := todo - {p};
      }
      return true;
    }

    /** `DeleteManifest(dir)`: deletes the `.manifest` files directly in
        `dir`, not those in its subdirectories; listing a missing directory
        throws. */
    method DeleteManifest(dir: Path) returns (ok: bool)
      requires Valid()
      modifies this`files
      ensures Valid()
      ensures ok == (dir in old(dirs))
      ensures ok ==> forall p :: p in files <==> p in old(files) && !(Child(dir, p) && EndsWith(Name(p), ManifestSuffix))
      ensures forall p :: p in files ==> p in old(files) && files[p] == old(files)[p]
    {
      if dir !in dirs {
        return false;
      }
      var todo := set p | p in files && Child(dir, p) && EndsWith(Name(p), ManifestSuffix);
      ghost var all := todo;
      while todo != {}
        invariant todo <= all
        invariant forall p :: p in all <==> p in old(files) && Child(dir, p) && EndsWith(Name(p), ManifestSuffix)
        invariant forall p :: p in files <==> p in old(files) && (p !in all || p in todo)
        invariant forall p :: p in files ==> files[p] == old(files)[p]
        invariant Valid()
        decreases |todo|
      {
        var p :| p in todo;
        files := files - {p};
        todo := todo - {p};
      }
      return true;
    }

    /** `CreateTempGAssets`: the temporary folder is recreated empty. */
    method CreateTempGAssets(temp: Path)
      requires Valid() && temp != []
      modifies this
      ensures Valid()
      ensures files == RemoveTree(old(files), temp)
      ensures dirs == RemoveDirs(old(dirs), temp) + Ancestors(temp) + {temp}
    {
      if temp in dirs {
        var _ := DeleteDirectory(temp);
      } else {
        RootedAbsent(files, dirs, temp);
        assert files == RemoveTree(files, temp);
        forall d | d in dirs
          ensures !AtOrUnder(temp, d)
        {
          if |d| == |temp| {
            assert d[..|temp|] == d;
          }
        }
        assert dirs == RemoveDirs(dirs, temp);
      }
      CreateDirectory(temp);
    }

    /** `CopyOneModule`: both stage folders of module `m` are copied into
        the temporary folder. */
    method CopyOneModule(root: Path, temp: Path, m: string)
      requires Valid() && Apart(root, temp) && temp in dirs
      modifies this
      ensures Valid()
      ensures SameOutside(files, old(files), temp + [m])
      ensures SameDirsOutside(dirs, old(dirs), temp + [m])
      ensures CopiesExist(dirs, temp, m)
      ensures forall s :: IsStage(s) && StageDir(root, m, s) in old(dirs)
                ==> SameTree(files, StageDir(temp, m, s), old(files), StageDir(root, m, s))
    {
      var src, proto := StageDir(root, m, SrcDir), StageDir(root, m, ProtoDir);
      var tsrc, tproto := StageDir(temp, m, SrcDir), StageDir(temp, m, ProtoDir);
      RootTempApart(root, temp, m, SrcDir, [m] + SrcDir);
      RootTempApart(root, temp, m, ProtoDir, [m] + ProtoDir);
      RootTempApart(root, temp, m, ProtoDir, [m] + SrcDir);
      StageSiblings(temp, m);
      assert tsrc == temp + ([m] + SrcDir) && tproto == temp + ([m] + ProtoDir);
      CopyFolder(src, tsrc);
      ghost var files1, dirs1 := files, dirs;
      TempAncestors(old(files), old(dirs), temp, [m] + SrcDir);
      CopyFolder(proto, tproto);
      TempAncestors(files1, dirs1, temp, [m] + ProtoDir);
      assert tsrc == temp + [m] + SrcDir && tproto == temp + [m] + ProtoDir;
      forall d | !AtOrUnder(temp + [m], d)
        ensures d in dirs <==> d in old(dirs)
      {
        if AtOrUnder(tsrc, d) {
          ExtendedInside(temp + [m], SrcDir, d);
        }
        if AtOrUnder(tproto, d) {
          ExtendedInside(temp + [m], ProtoDir, d);
        }
        if d in Ancestors(tsrc) && Under(temp, d) {
          AncestorInModule(temp, m, SrcDir, d);
        }
        if d in Ancestors(tproto) && Under(temp, d) {
          AncestorInModule(temp, m, ProtoDir, d);
        }
      }
      forall p | !Under(temp + [m], p)
        ensures !Under(tsrc, p) && !Under(tproto, p)
      {
        if Under(tsrc, p) {
          PrefixInside(temp + [m], p, |tsrc|);
        }
        if Under(tproto, p) {
          PrefixInside(temp + [m], p, |tproto|);
        }
      }
      InsideApart(files, files1, tproto, tsrc);
      if src in old(dirs) {
        TreeKeep(files, files1, tsrc, old(files), src);
      }
      InsideApart(files1, old(files), tsrc, proto);
      if proto in old(dirs) {
        TreeFrom(files, tproto, files1, old(files), proto);
      }
    }

    /** `EncryptOneModule`: both stage folders of module `m` get their
        encrypted twins; the first exception ends the step. */
    method EncryptOneModule(root: Path, m: string, encrypt: string -> string) returns (ok: bool)
      requires Valid()
      modifies this`files
      ensures Valid()
      ensures ok == (StageDir(root, m, SrcDir) in dirs && StageDir(root, m, ProtoDir) in dirs
                     && NoTwinClash(old(files), StageDir(root, m, SrcDir))
                     && NoTwinClash(old(files), StageDir(root, m, ProtoDir)))
      ensures ok ==> (EncryptedIn(files, old(files), StageDir(root, m, SrcDir), encrypt)
                      && EncryptedIn(files, old(files), StageDir(root, m, ProtoDir), encrypt))
      ensures SameOutside2(files, old(files), StageDir(root, m, SrcDir), StageDir(root, m, ProtoDir))
    {
      var src, proto := StageDir(root, m, SrcDir), StageDir(root, m, ProtoDir);
      StageSiblings(root, m);
      ok := EncryptOnePath(src, encrypt);
      if !ok {
        return;
      }
      ghost var files1 := files;
      ok := EncryptOnePath(proto, encrypt);
      InsideApart(files1, old(files), src, proto);
      ClashInside(files1, old(files), proto);
      if ok {
        InsideApart(files, files1, proto, src);
        EncryptedFrom(files, files1, old(files), proto, encrypt);
      }
    }

    /** `DeleteOneModule`: the plaintext files of both stage folders of
        module `m` are deleted; the first exception ends the step. */
    method DeleteOneModule(root: Path, m: string) returns (ok: bool)
      requires Valid()
      modifies this`files
      ensures Valid()
      ensures ok == (StageDir(root, m, SrcDir) in dirs && StageDir(root, m, ProtoDir) in dirs)
      ensures ok ==> (PurgedIn(files, old(files), StageDir(root, m, SrcDir))
                      && PurgedIn(files, old(files), StageDir(root, m, ProtoDir)))
      ensures SameOutside2(files, old(files), StageDir(root, m, SrcDir), StageDir(root, m, ProtoDir))
    {
      var src, proto := StageDir(root, m, SrcDir), StageDir(root, m, ProtoDir);
      StageSiblings(root, m);
      ok := DeleteOnePath(src);
      if !ok {
        return;
      }
      ghost var files1 := files;
      ok := DeleteOnePath(proto);
      InsideApart(files1, old(files), src, proto);
      InsideApart(files, files1, proto, src);
    }

    /** One pass of the loop in `EncryptLuaAndProto`: copy module `m`'s
        stage folders aside, encrypt them in place, delete their plaintext. */
    method StageOneModule(root: Path, temp: Path, m: string, encrypt: string -> string) returns (ok: bool)
      requires Valid() && Apart(root, temp) && temp in dirs
      modifies this
      ensures Valid()
      ensures ok == Stageable(old(files), old(dirs), root, m)
      ensures ok ==> Staged(files, old(files), root, temp, m, encrypt)
      ensures SameOutside3(files, old(files), temp + [m], StageDir(root, m, SrcDir), StageDir(root, m, ProtoDir))
      ensures SameDirsOutside(dirs, old(dirs), temp + [m])
      ensures CopiesExist(dirs, temp, m)
    {
      var src, proto := StageDir(root, m, SrcDir), StageDir(root, m, ProtoDir);
      var tsrc, tproto := StageDir(temp, m, SrcDir), StageDir(temp, m, ProtoDir);
      RootTempApart(root, temp, m, SrcDir, [m]);
      RootTempApart(root, temp, m, ProtoDir, [m]);
      RootTempApart(root, temp, m, SrcDir, []);
      RootTempApart(root, temp, m, ProtoDir, []);
      RootTempApart(root, temp, m, SrcDir, [m] + SrcDir);
      RootTempApart(root, temp, m, ProtoDir, [m] + SrcDir);
      RootTempApart(root, temp, m, SrcDir, [m] + ProtoDir);
      RootTempApart(root, temp, m, ProtoDir, [m] + ProtoDir);
      assert temp + [] == temp;
      assert tsrc == temp + ([m] + SrcDir) && tproto == temp + ([m] + ProtoDir);
      CopyOneModule(root, temp, m);
      ghost var files1 := files;
      InsideApart(files1, old(files), temp + [m], src);
      InsideApart(files1, old(files), temp + [m], proto);
      ClashInside(files1, old(files), src);
      ClashInside(files1, old(files), proto);
      ok := EncryptOneModule(root, m, encrypt);
      if !ok {
        return;
      }
      ghost var files2 := files;
      var deleted := DeleteOneModule(root, m);
      assert deleted;
      Seal(files, files2, files1, src, encrypt);
      Seal(files, files2, files1, proto, encrypt);
      SealedFrom(files, files1, old(files), src, encrypt);
      SealedFrom(files, files1, old(files), proto, encrypt);
      Inside2(files, files1, src, proto, tsrc);
      Inside2(files, files1, src, proto, tproto);
      TreeKeep(files, files1, tsrc, old(files), src);
      TreeKeep(files, files1, tproto, old(files), proto);
    }

    /** `EncryptLuaAndProto`: after recreating the temporary folder, every
        module in turn is copied aside, encrypted and stripped of its
        plaintext. The first exception ends the whole step. */
    method EncryptLuaAndProto(root: Path, temp: Path, modules: seq<string>, encrypt: string -> string) returns (ok: bool)
      requires Valid() && Apart(root, temp) && Distinct(modules)
      modifies this
      ensures Valid() && temp in dirs
      ensures ok == forall j :: 0 <= j < |modules| ==> Stageable(old(files), old(dirs), root, modules[j])
      ensures ok ==> forall j :: 0 <= j < |modules| ==> Staged(files, old(files), root, temp, modules[j], encrypt)
      ensures ok ==> forall j :: 0 <= j < |modules| ==> CopiesExist(dirs, temp, modules[j])
      ensures SameOutsideStages(files, old(files), root, temp, modules)
      ensures forall d :: !AtOrUnder(temp, d) ==> (d in dirs <==> d in old(dirs) || d in Ancestors(temp))
    {
      CreateTempGAssets(temp);
      ghost var files0, dirs0 := files, dirs;
      ok := StageModules(root, temp, modules, encrypt);
      FrameFromStart(files, files0, old(files), root, temp, modules);
      forall j | 0 <= j < |modules|
        ensures Stageable(files0, dirs0, root, modules[j]) <==> Stageable(old(files), old(dirs), root, modules[j])
        ensures ok ==> Staged(files, old(files), root, temp, modules[j], encrypt)
      {
        StartOf(files0, dirs0, old(files), old(dirs), root, temp, modules[j]);
        if ok {
          StagedFrom(files, files0, old(files), root, temp, modules[j], encrypt);
        }
      }
    }

    /** The loop of `EncryptLuaAndProto`: every module in turn is copied
        aside, encrypted and stripped of its plaintext, until one of them
        throws. */
    method StageModules(root: Path, temp: Path, modules: seq<string>, encrypt: string -> string) returns (ok: bool)
      requires Valid() && Apart(root, temp) && Distinct(modules) && temp in dirs
      modifies this
      ensures Valid() && temp in dirs
      ensures ok == forall j :: 0 <= j < |modules| ==> Stageable(old(files), old(dirs), root, modules[j])
      ensures ok ==> forall j :: 0 <= j < |modules| ==> Staged(files, old(files), root, temp, modules[j], encrypt)
      ensures ok ==> forall j :: 0 <= j < |modules| ==> CopiesExist(dirs, temp, modules[j])
      ensures SameOutsideStages(files, old(files), root, temp, modules)
      ensures SameDirsOutside(dirs, old(dirs), temp)
    {
      ghost var files0, dirs0 := files, dirs;
      ok := true;
      var i := 0;
      assert modules[..0] == [];
      while i < |modules|
        invariant Valid() && StagedUpTo(files, dirs, files0, dirs0, root, temp, modules, i, encrypt)
      {
        ghost var files1, dirs1 := files, dirs;
        ok := StageOneModule(root, temp, modules[i], encrypt);
        if !ok {
          StagedUpToStop(files, dirs, files1, dirs1, files0, dirs0, root, temp, modules, i, encrypt);
          return;
        }
        StagedUpToNext(files, dirs, files1, dirs1, files0, dirs0, root, temp, modules, i, encrypt);
        i := i + 1;
      }
      assert modules[..i] == modules;
    }

    /** One pass of the loop in `RestoreModules`: each stage folder of
        module `m` is deleted, which throws when it is missing, and refilled
        from its copy in the temporary folder. */
    method RestoreOneModule(root: Path, temp: Path, m: string) returns (ok: bool)
      requires Valid() && Apart(root, temp)
      modifies this
      ensures Valid()
      ensures ok == StagesExist(old(dirs), root, m)
      ensures ok ==> Restored(files, old(files), old(dirs), root, temp, m)
      ensures SameOutside2(files, old(files), StageDir(root, m, SrcDir), StageDir(root, m, ProtoDir))
      ensures SameDirsOutside2(dirs, old(dirs), StageDir(root, m, SrcDir), StageDir(root, m, ProtoDir))
    {
      var src, proto := StageDir(root, m, SrcDir), StageDir(root, m, ProtoDir);
      var tsrc, tproto := StageDir(temp, m, SrcDir), StageDir(temp, m, ProtoDir);
      StageSiblings(root, m);
      RootTempApart(root, temp, m, SrcDir, [m] + SrcDir);
      RootTempApart(root, temp, m, ProtoDir, [m] + ProtoDir);
      RootTempApart(root, temp, m, SrcDir, [m] + ProtoDir);
      assert tsrc == temp + ([m] + SrcDir) && tproto == temp + ([m] + ProtoDir);
      ok := DeleteDirectory(src);
      if !ok {
        return;
      }
      ghost var files1, dirs1 := files, dirs;
      CopyFolder(tsrc, src);
      RefillFiles(files, files1, old(files), dirs1, old(dirs), src, tsrc);
      RefillDirs(old(files), dirs, dirs1, old(dirs), src);
      SourceNotAncestor(proto, src, proto);
      ghost var files2, dirs2 := files, dirs;
      ok := DeleteDirectory(proto);
      if !ok {
        return;
      }
      ghost var files3, dirs3 := files, dirs;
      SourceNotAncestor(tproto, src, tproto);
      CopyFolder(tproto, proto);
      RefillFiles(files, files3, files2, dirs3, dirs2, proto, tproto);
      RefillDirs(files2, dirs, dirs3, dirs2, proto);
      InsideApart(files, files2, proto, src);
      RefillKept(files, files2, src, old(files), old(dirs), tsrc);
      InsideApart(files2, old(files), src, tproto);
      RefillSource(files, proto, files2, dirs2, old(files), old(dirs), tproto);
    }
  
    /** The loop of `RestoreModules`: each module's stage folders in turn are
        refilled from the temporary folder. A missing stage folder throws and
        ends the loop. Only the module folders change. */
    method RefillModules(root: Path, temp: Path, modules: seq<string>) returns (ok: bool)
      requires Valid() && Apart(root, temp) && Distinct(modules)
      modifies this
      ensures Valid()
      ensures ok == forall j :: 0 <= j < |modules| ==> StagesExist(old(dirs), root, modules[j])
      ensures ok ==> forall j :: 0 <= j < |modules| ==> Restored(files, old(files), old(dirs), root, temp, modules[j])
      ensures SameOutsideRoots(files, old(files), root, modules) && SameDirsOutsideRoots(dirs, old(dirs), root, modules)
    {
      ghost var files0, dirs0 := files, dirs;
      ok := true;
      var i := 0;
      while i < |modules|
        invariant 0 <= i <= |modules| && Valid()
        invariant forall j :: 0 <= j < i ==> StagesExist(dirs0, root, modules[j])
        invariant forall j :: 0 <= j < i ==> Restored(files, files0, dirs0, root, temp, modules[j])
        invariant SameOutsideRoots(files, files0, root, modules[..i])
        invariant SameDirsOutsideRoots(dirs, dirs0, root, modules[..i])
      {
        ghost var files1, dirs1 := files, dirs;
        RestoreFresh(files1, files0, dirs1, dirs0, root, temp, modules, i);
        ok := RestoreOneModule(root, temp, modules[i]);
        RestoreFrame(files, files1, files0, dirs, dirs1, dirs0, root, modules, i);
        if !ok {
          RootsPrefix(files, files0, dirs, dirs0, root, modules, i + 1);
          return;
        }
        RestoreStep(files, files1, files0, dirs1, dirs0, root, temp, modules, i);
        i := i + 1;
      }
      assert modules[..i] == modules;
    }

    /** `RestoreModules`: every module's stage folders are refilled from the
        plaintext copies in the temporary folder, then the temporary folder
        is deleted. A missing stage folder, or a missing temporary folder,
        throws and ends the step. */
    method RestoreModules(root: Path, temp: Path, modules: seq<string>) returns (ok: bool)
      requires Valid() && Apart(root, temp) && Distinct(modules)
      modifies this
      ensures Valid()
      ensures ok == ((forall j :: 0 <= j < |modules| ==> StagesExist(old(dirs), root, modules[j])) && temp in old(dirs))
      ensures ok ==> forall j :: 0 <= j < |modules| ==> Restored(files, old(files), old(dirs), root, temp, modules[j])
      ensures ok ==> temp !in dirs && EmptyTree(files, temp)
      ensures SameOutsideStages(files, old(files), root, temp, modules)
    {
      ghost var files0, dirs0 := files, dirs;
      ok := RefillModules(root, temp, modules);
      RootsToStages(files, files0, root, temp, modules);
      if !ok {
        return;
      }
      TempNotStage(root, temp, modules, temp);
      ghost var files1 := files;
      ok := DeleteDirectory(temp);
      if ok {
        forall j | 0 <= j < |modules|
          ensures Restored(files, old(files), old(dirs), root, temp, modules[j])
        {
          RestoredAfterDelete(files, files1, files0, dirs0, root, temp, modules[j]);
        }
      }
    }
  
    /** `BuildAssetBundle`: the stage folders of every module are encrypted
        first, outside the `try` block, so a failure there escapes with the
        plaintext only in the temporary folder and nothing restored. Then
        the packing runs, and whether or not it throws, the `finally` block
        restores the modules from the temporary folder. */
    method BuildAssetBundle(root: Path, temp: Path, out: Path, modules: seq<string>, encrypt: string -> string,
                            pack: Pack) returns (encrypted: bool, packed: bool, restored: bool)
      requires Valid() && Apart(root, temp) && Distinct(modules) && PackRooted(pack)
      modifies this
      ensures Valid()
      ensures encrypted == forall j :: 0 <= j < |modules| ==> Stageable(old(files), old(dirs), root, modules[j])
      ensures !encrypted ==> !packed && !restored && temp in dirs
      ensures encrypted && PackConfined(pack, out) && Apart(out, root) && Apart(out, temp) ==>
                restored && temp !in dirs && EmptyTree(files, temp)
                && forall j :: 0 <= j < |modules| ==> StagesAsBefore(files, old(files), root, modules[j])
      ensures encrypted && PackConfined(pack, out) ==> SameOutsideBuild(files, old(files), root, temp, out, modules)
    {
      encrypted := EncryptLuaAndProto(root, temp, modules, encrypt);
      if !encrypted {
        return false, false, false;
      }
      ghost var filesE, dirsE := files, dirs;
      var r := pack(files, dirs);
      files, dirs, packed := r.0, r.1, r.2;
      ghost var filesP, dirsP := files, dirs;
      if PackConfined(pack, out) && Apart(out, root) && Apart(out, temp) {
        forall j | 0 <= j < |modules|
          ensures StagesExist(dirsP, root, modules[j]) && CopiesExist(dirsP, temp, modules[j])
          ensures SameInside(filesP, filesE, StageDir(temp, modules[j], SrcDir))
          ensures SameInside(filesP, filesE, StageDir(temp, modules[j], ProtoDir))
        {
          StagesKept(dirsE, old(dirs), old(files), root, temp, modules[j]);
          PackKeeps(filesP, dirsP, filesE, dirsE, root, temp, out, modules[j]);
        }
      }
      restored := RestoreModules(root, temp, modules);
      if PackConfined(pack, out) && Apart(out, root) && Apart(out, temp) {
        forall j | 0 <= j < |modules|
          ensures StagesAsBefore(files, old(files), root, modules[j])
        {
          RoundTrip(files, filesP, dirsP, filesE, old(files), root, temp, modules[j], encrypt);
        }
      }
    }
  }
}
