/** How the editor script names bundles and assets (ABEditor.ScanCurrDirectory).

    A directory is identified by its path relative to the Unity data folder,
    written with the Windows separator, e.g. "GAssets\\Launch". The data folder
    itself is "<project>/Assets", so an asset's project path starts with
    "Assets". */
module Naming {
  import opened Util

  const WinSep: char := '\\'

  /** Bundle name of a directory: separators become '_', then lower case
      ("GAssets\\Launch" gives "gassets_launch"). */
  function BundleName(relDir: string): (r: string)
    ensures |r| == |relDir|
    ensures forall i :: 0 <= i < |relDir| ==> r[i] == LowerChar(if relDir[i] == WinSep then '_' else relDir[i])
    ensures WinSep !in r
    ensures forall c :: c in r ==> !IsUpper(c)
  {
    var r := ToLower(ReplaceChar(relDir, WinSep, '_'));
    assert forall i :: 0 <= i < |r| ==> r[i] != WinSep && !IsUpper(r[i]);
    r
  }

  /** Project path of a file: "Assets\\<relDir>\\<file>" with every '\\'
      turned into '/' ("Assets/GAssets/Launch/Sphere.prefab"). */
  function AssetPath(relDir: string, fileName: string): (r: string)
    ensures WinSep !in r
    ensures |r| == 8 + |relDir| + |fileName|
    ensures r[..7] == "Assets/" && r[7 + |relDir|] == '/'
    ensures forall i :: 0 <= i < |relDir| ==> r[7 + i] == Slashed(relDir[i])
    ensures forall i :: 0 <= i < |fileName| ==> r[8 + |relDir| + i] == Slashed(fileName[i])
  {
    AssetPathParts(relDir, fileName);
    ReplaceChar("Assets" + [WinSep] + relDir + [WinSep] + fileName, WinSep, '/')
  }

  /** Replacing the separators of the joined path is joining the replaced parts. */
  lemma AssetPathParts(relDir: string, fileName: string)
    ensures ReplaceChar("Assets" + [WinSep] + relDir + [WinSep] + fileName, WinSep, '/')
         == "Assets/" + ReplaceChar(relDir, WinSep, '/') + "/" + ReplaceChar(fileName, WinSep, '/')
  {
    var head := "Assets" + [WinSep];
    assert ReplaceChar(head, WinSep, '/') == "Assets/";
    assert ReplaceChar([WinSep], WinSep, '/') == "/";
    ReplaceCharAppend(head, relDir, WinSep, '/');
    ReplaceCharAppend(head + relDir, [WinSep], WinSep, '/');
    ReplaceCharAppend(head + relDir + [WinSep], fileName, WinSep, '/');
  }

  /** A character of a project path: the Windows separator becomes '/'. */
  function Slashed(c: char): char {
    if c == WinSep then '/' else c
  }

  /** The bundle naming is not injective: a folder whose name holds an
      underscore and a nested folder whose path has a separator in its place
      are packed under one bundle name. */
  lemma BundleNameCollides()
    ensures "a_b" != "a\\b" && BundleName("a_b") == BundleName("a\\b")
  {
    assert "a_b"[1] != "a\\b"[1];
    assert BundleName("a_b") == "a_b" by {
      assert forall i :: 0 <= i < 3 ==> BundleName("a_b")[i] == "a_b"[i];
    }
    assert BundleName("a\\b") == "a_b" by {
      assert forall i :: 0 <= i < 3 ==> BundleName("a\\b")[i] == "a_b"[i];
    }
  }

  /** Folders whose names differ only in letter case share a bundle name. */
  lemma BundleNameFoldsCase()
    ensures "Ui" != "ui" && BundleName("Ui") == BundleName("ui")
  {
    assert "Ui"[0] != "ui"[0];
    assert BundleName("Ui") == "ui" by {
      assert forall i :: 0 <= i < 2 ==> BundleName("Ui")[i] == "ui"[i];
    }
    assert BundleName("ui") == "ui" by {
      assert forall i :: 0 <= i < 2 ==> BundleName("ui")[i] == "ui"[i];
    }
  }

  /** Within one directory, distinct file names (which on Windows contain no
      separator) give distinct asset paths. */
  lemma AssetPathInjective(relDir: string, f1: string, f2: string)
    requires WinSep !in f1 && WinSep !in f2
    requires AssetPath(relDir, f1) == AssetPath(relDir, f2)
    ensures f1 == f2
  {
    assert |f1| == |f2|;
    forall i | 0 <= i < |f1| ensures f1[i] == f2[i] {
      FileNameAt(relDir, f1, i);
      FileNameAt(relDir, f2, i);
    }
  }

  /** A separator-free file name appears unchanged at the end of its asset path. */
  lemma FileNameAt(relDir: string, f: string, i: nat)
    requires WinSep !in f && i < |f|
    ensures AssetPath(relDir, f)[8 + |relDir| + i] == f[i]
  {
    assert f[i] in f;
  }
}
