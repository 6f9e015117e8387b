# ABEditor packaging core, modelled in Dafny

This project models the Unity editor script that packs the game's asset
modules into AssetBundles (`ABEditor`). It covers four parts of the script.

- **Scan.** Every module folder under `GAssets` is walked in pre-order. A
  folder whose name ends in `CSProject~` is skipped with everything below it.
  Each folder that holds non-`.meta` files becomes one bundle build. The
  bundle name is the folder's relative path with `\` turned into `_`, in
  lower case. Every member's project path is recorded in the ordered
  asset-to-bundle table.
- **Dependencies and manifest.** Each asset's dependencies come from the
  asset database. The asset itself and `.cs` scripts are dropped. The rest
  are resolved to the bundles that hold them, and the asset's own bundle is
  never listed. The module manifest (`ModuleABConfig`) has one bundle record
  per build and one asset record per table entry.
- **Update diff.** An update build's bundle records that match a base
  build's record by name and crc are listed (`Calculate`). The removal loop
  then deletes those bundle files and drops their records.
- **Staging.** Before packing, each module's `Src` and `Res/Proto` folders are
  copied to a temporary folder. Every `.lua`/`.proto` file gets an encrypted
  `.bytes` twin, and the plaintext files and their `.meta` files are
  deleted. After packing, whether or not it threw, the folders are refilled
  from the copies and the temporary folder is deleted.

Structure:

- `Util`: shared helpers.
- `Naming`: bundle and asset naming.
- `ScanSpec`, `DependencySpec`, `Manifest`: specification functions.
- `Packing.ABEditor`: a class holding the script's three static tables.
  Its loop methods are proved against those functions.
- `PatchDiff`: the update diff.
- `FileSystem`: a file system as a map from paths to contents plus a set of
  directories.
- `StageSpec`: predicates and lemmas about staging.
- `Staging.FileTree`: a class whose methods are the script's file-system
  steps.

A step that throws in the script returns `false` in the model. Each contract
states exactly when that happens.

Naming observation: the bundle naming is not injective.
`Naming.BundleNameCollides` exhibits two different folders, `a_b` and the
nested `a\b`, with one bundle name. `Naming.BundleNameFoldsCase` shows that
names differing only in letter case collide as well. On the case-insensitive
Windows file system two sibling folders cannot differ only so, so that case
arises only on a case-sensitive file system. When two builds share a name,
both reach `BuildPipeline.BuildAssetBundles` under that name, which is not
modelled. In the manifest, with `AddBundle` taken to be the dictionary
indexer (see "## Left out"), the later build's record replaces the earlier
one (`Manifest.PutContents`).

Staging observation: the encryption loop runs before the `try` whose
`finally` restores the modules (ABEditor.cs:49-133). When encrypting a later
module throws, the modules staged before it keep only their encrypted twins
in the source tree, and their plaintext survives only in the temporary
folder. `Staging.FileTree.BuildAssetBundle` states this case as
`!encrypted ==> !packed && !restored && temp in dirs`: nothing restores the
modules. The next build's `CreateTempGAssets` deletes that temporary folder
first, which is not modelled as a sequence of builds.

## Model

| member | source | states |
|---|---|---|
| Naming.BundleName | SL_Client/Assets/SL_Client/Asset/Editor/ABEditor.cs:188-189 | a bundle name has the folder path's length, contains no `\` and no upper-case letter |
| Naming.AssetPath | SL_Client/Assets/SL_Client/Asset/Editor/ABEditor.cs:179-180 | an asset path starts with `Assets/`, has no `\`, and is as long as `Assets`, the folder, the file name and two separators |
| Naming.AssetPathInjective | SL_Client/Assets/SL_Client/Asset/Editor/ABEditor.cs:179-180 | within one folder, distinct file names give distinct asset paths |
| Naming.BundleNameCollides | SL_Client/Assets/SL_Client/Asset/Editor/ABEditor.cs:188-189 | two different folders (`a_b` and `a\b`) get the same bundle name |
| Naming.BundleNameFoldsCase | SL_Client/Assets/SL_Client/Asset/Editor/ABEditor.cs:188-189 | two folders differing only in letter case (`Ui` and `ui`) get the same bundle name |
| ScanSpec.Members | SL_Client/Assets/SL_Client/Asset/Editor/ABEditor.cs:167-183 | the collected names are exactly the asset paths of the folder's non-`.meta` files, no more than the files |
| ScanSpec.CurrBuild | SL_Client/Assets/SL_Client/Asset/Editor/ABEditor.cs:185-205 | a folder contributes a build iff it holds a non-`.meta` file; the build carries the folder's bundle name and its members |
| ScanSpec.KeysOfEntries | SL_Client/Assets/SL_Client/Asset/Editor/ABEditor.cs:191-204 | the asset-to-bundle keys are exactly the members of the builds, in build order |
| ScanSpec.EntryOwnedByBuild | SL_Client/Assets/SL_Client/Asset/Editor/ABEditor.cs:191-204 | every asset-to-bundle entry names a build that contains the asset |
| ScanSpec.ScanBuilds | SL_Client/Assets/SL_Client/Asset/Editor/ABEditor.cs:141-157 | the pre-order walk: a folder whose name ends in `CSProject~` contributes nothing, otherwise the folder's own build comes first; no build is empty |
| ScanSpec.ScanAll | SL_Client/Assets/SL_Client/Asset/Editor/ABEditor.cs:151-156 | the subfolders' builds one after another, in enumeration order; no build is empty |
| ScanSpec.DistinctEntries | SL_Client/Assets/SL_Client/Asset/Editor/ABEditor.cs:202 | when the builds' members are distinct, no asset is added to the table twice |
| ScanSpec.EntriesAppend | SL_Client/Assets/SL_Client/Asset/Editor/ABEditor.cs:196-204 | the entries of two build lists one after another are the entries of each, in order |
| ScanSpec.AllAssetsAppend | SL_Client/Assets/SL_Client/Asset/Editor/ABEditor.cs:196-204 | the members of two build lists one after another are the members of each, in order |
| ScanSpec.ScanAllPrefix | SL_Client/Assets/SL_Client/Asset/Editor/ABEditor.cs:154-157 | the builds of the first subfolders are a prefix of the builds of all of them |
| Packing.ABEditor.constructor | SL_Client/Assets/SL_Client/Asset/Editor/ABEditor.cs:24-39 | the three tables start empty, and asset-to-bundle agrees with the build list |
| Packing.ABEditor.Reset | SL_Client/Assets/SL_Client/Asset/Editor/ABEditor.cs:74-78 | the per-module clear leaves all three tables empty |
| Packing.ABEditor.ScanCurrDirectory | SL_Client/Assets/SL_Client/Asset/Editor/ABEditor.cs:165-206 | appends exactly the folder's own build (if any), keeping asset-to-bundle equal to the builds' entries with distinct keys |
| Packing.ABEditor.CollectAssetNames | SL_Client/Assets/SL_Client/Asset/Editor/ABEditor.cs:167-183 | the loop collects exactly `Members` of the folder's files |
| Packing.ABEditor.FillBuild | SL_Client/Assets/SL_Client/Asset/Editor/ABEditor.cs:194-203 | the member array is a copy of the names, and each name is appended to asset-to-bundle under the bundle's name |
| Packing.ABEditor.ScanChildDirectories | SL_Client/Assets/SL_Client/Asset/Editor/ABEditor.cs:141-159 | appends exactly the pre-order builds of the tree, skipping `CSProject~` folders, keeping the table invariant |
| Packing.ABEditor.CalculateDependencies | SL_Client/Assets/SL_Client/Asset/Editor/ABEditor.cs:211-262 | the dependency table gains exactly `DepTable` of the asset-to-bundle entries; no `Add` meets an existing key |
| Packing.ABEditor.FilterDependencies | SL_Client/Assets/SL_Client/Asset/Editor/ABEditor.cs:224-236 | the kept dependencies are exactly `Filtered`: all but the asset itself and `.cs` files, in order |
| Packing.ABEditor.ResolveBundles | SL_Client/Assets/SL_Client/Asset/Editor/ABEditor.cs:240-255 | the bundle list is exactly `Resolve`: the other bundles of the dependencies that have one |
| Packing.ABEditor.SaveModuleABConfig | SL_Client/Assets/SL_Client/Asset/Editor/ABEditor.cs:268-326 | the manifest has one asset record per entry under keys 0..n-1 with its dependency list; each bundle record comes from a build |
| Packing.ABEditor.RecordBundles | SL_Client/Assets/SL_Client/Asset/Editor/ABEditor.cs:273-300 | the loop over the builds yields exactly `BundleTable` of the build list |
| Packing.ABEditor.RecordAssets | SL_Client/Assets/SL_Client/Asset/Editor/ABEditor.cs:303-324 | the loop over the table entries yields exactly `AssetRecords` of the table and the dependency map |
| Packing.ABEditor.CopyNames | SL_Client/Assets/SL_Client/Asset/Editor/ABEditor.cs:281-284 | the element-by-element copy equals the original list |
| Packing.ABEditor.PackModule | SL_Client/Assets/SL_Client/Asset/Editor/ABEditor.cs:70-115 | one module's manifest depends only on that module's folder and the oracles (`ModuleManifest`), nothing from an earlier module |
| DependencySpec.Lookup | SL_Client/Assets/SL_Client/Asset/Editor/ABEditor.cs:245 | `TryGetValue` succeeds iff the asset is a key, and then returns that key's bundle |
| DependencySpec.Filtered | SL_Client/Assets/SL_Client/Asset/Editor/ABEditor.cs:224-236 | a dependency is kept iff it is not the asset itself and not a `.cs` file |
| DependencySpec.Resolve | SL_Client/Assets/SL_Client/Asset/Editor/ABEditor.cs:240-255 | each listed bundle is a known bundle other than the asset's own, and every dependency held by another bundle has its bundle listed |
| DependencySpec.DepTable | SL_Client/Assets/SL_Client/Asset/Editor/ABEditor.cs:238-258 | the dependency table of the walked entries: an asset has an entry only when its filtered dependency list is non-empty |
| DependencySpec.DepTableKeys | SL_Client/Assets/SL_Client/Asset/Editor/ABEditor.cs:238-258 | an asset has a dependency entry iff it is in the table and its filtered dependencies are non-empty |
| DependencySpec.DepTableValue | SL_Client/Assets/SL_Client/Asset/Editor/ABEditor.cs:238-258 | an asset's entry resolves its filtered dependencies against its own bundle |
| DependencySpec.NoSelfDependency | SL_Client/Assets/SL_Client/Asset/Editor/ABEditor.cs:250 | no asset lists its own bundle among its dependencies |
| DependencySpec.DependencyIntegrity | SL_Client/Assets/SL_Client/Asset/Editor/ABEditor.cs:245-253 | every dependency names a bundle that some asset of the module belongs to |
| DependencySpec.DepTableFresh | SL_Client/Assets/SL_Client/Asset/Editor/ABEditor.cs:257 | with distinct table keys, `asset2Dependencies.Add` never meets an existing key |
| Manifest.FindName | SL_Client/Assets/SL_Client/Asset/Editor/ABEditor.cs:298 | returns -1 iff no record has the name, and otherwise the position of the record with that name |
| Manifest.Put | SL_Client/Assets/SL_Client/Asset/Editor/ABEditor.cs:298 | `AddBundle` keeps record names distinct and appends a record under a new name |
| Manifest.PutContents | SL_Client/Assets/SL_Client/Asset/Editor/ABEditor.cs:298 | after `AddBundle` the table holds the new record plus every record of another name, and nothing else |
| Manifest.BundleTable | SL_Client/Assets/SL_Client/Asset/Editor/ABEditor.cs:273-300 | the bundle table built from the builds has distinct names |
| Manifest.AssetRecords | SL_Client/Assets/SL_Client/Asset/Editor/ABEditor.cs:303-324 | one asset record per table entry, in order, carrying the entry's asset path and bundle name |
| Manifest.ManifestOf | SL_Client/Assets/SL_Client/Asset/Editor/ABEditor.cs:268-326 | the written manifest: its asset count is the number of asset records, and no two bundle records share a name |
| Manifest.ModuleManifest | SL_Client/Assets/SL_Client/Asset/Editor/ABEditor.cs:72-115 | one module's manifest: its asset count is the number of assets the walk of the module folder collects, and its bundle names are distinct |
| Manifest.BundleTableNames | SL_Client/Assets/SL_Client/Asset/Editor/ABEditor.cs:273-300 | the table has a record of a name iff some build has that name |
| Manifest.BundleTableFromBuilds | SL_Client/Assets/SL_Client/Asset/Editor/ABEditor.cs:273-300 | every bundle record is the record of some build |
| Manifest.BundleTableInOrder | SL_Client/Assets/SL_Client/Asset/Editor/ABEditor.cs:273-300 | with distinct build names, the table is the builds' records in build order |
| Manifest.AssetRecordsIndexed | SL_Client/Assets/SL_Client/Asset/Editor/ABEditor.cs:303-326 | asset record `i` is the `i`-th entry with its dependency list, or an empty list |
| Manifest.LookupOwnEntry | SL_Client/Assets/SL_Client/Asset/Editor/ABEditor.cs:245 | with distinct keys, looking up an entry's asset returns that entry's bundle |
| Manifest.ManifestReferentialIntegrity | SL_Client/Assets/SL_Client/Asset/Editor/ABEditor.cs:268-326 | every bundle name in any asset record's dependency list has a bundle record in the module manifest |
| Manifest.ManifestNoSelfDependency | SL_Client/Assets/SL_Client/Asset/Editor/ABEditor.cs:268-326 | no asset record lists its own bundle as a dependency |
| PatchDiff.Unchanged | SL_Client/Assets/SL_Client/Asset/Editor/ABEditor.cs:472-481 | the update records selected by identity, in update order: every selected record's (name, crc) pair is among the base's |
| PatchDiff.UnchangedMember | SL_Client/Assets/SL_Client/Asset/Editor/ABEditor.cs:472-481 | a record is selected exactly when it is an update record whose (name, crc) pair is among the base's |
| PatchDiff.RemoveName | SL_Client/Assets/SL_Client/Asset/Editor/ABEditor.cs:429 | `BundleArray.Remove(name)`: no surviving record has that name |
| PatchDiff.RemoveNameMember | SL_Client/Assets/SL_Client/Asset/Editor/ABEditor.cs:429 | a record survives the removal exactly when it was there and has another name |
| PatchDiff.Without | SL_Client/Assets/SL_Client/Asset/Editor/ABEditor.cs:421-430 | the records after removing a set of names, in order: no surviving record has a removed name |
| PatchDiff.WithoutMember | SL_Client/Assets/SL_Client/Asset/Editor/ABEditor.cs:421-430 | a record survives exactly when it was there and its name is not removed |
| PatchDiff.Calculate | SL_Client/Assets/SL_Client/Asset/Editor/ABEditor.cs:455-484 | the remove list is exactly the update records whose name and crc match a base record, in update order; none without a base; `Add` never meets an existing key |
| PatchDiff.BaseBundles | SL_Client/Assets/SL_Client/Asset/Editor/ABEditor.cs:458-466 | the base dictionary holds exactly the identities (name, crc) of the base bundles, each under its own identity; empty without a base |
| PatchDiff.DistinctIdsBefore | SL_Client/Assets/SL_Client/Asset/Editor/ABEditor.cs:461-465 | with distinct base names, `baseBundleDic.Add` never meets an existing id |
| PatchDiff.StripUnchanged | SL_Client/Assets/SL_Client/Asset/Editor/ABEditor.cs:421-430 | the removal loop deletes the listed bundle files and drops exactly the listed names from the bundle table, leaving the asset records |
| PatchDiff.StripKeepsChanged | SL_Client/Assets/SL_Client/Asset/Editor/ABEditor.cs:419-430 | an update bundle keeps its record iff no base bundle has its name and crc |
| PatchDiff.NoBaseRemovesNothing | SL_Client/Assets/SL_Client/Asset/Editor/ABEditor.cs:459-466 | without a base manifest nothing is removed |
| PatchDiff.UnchangedAppend | SL_Client/Assets/SL_Client/Asset/Editor/ABEditor.cs:472-481 | the selection keeps update order across concatenation |
| PatchDiff.RemoveFromWithout | SL_Client/Assets/SL_Client/Asset/Editor/ABEditor.cs:429 | removing one more name from the stripped table is stripping the larger set of names |
| PatchDiff.ExampleDiff | SL_Client/Assets/SL_Client/Asset/Editor/ABEditor.cs:455-484 | a concrete base/update pair: only the bundle with the same name and crc is listed for removal |
| PatchDiff.ExampleStrip | SL_Client/Assets/SL_Client/Asset/Editor/ABEditor.cs:421-430 | stripping that listed bundle leaves the changed and the new bundle, in order |
| StageSpec.Plain | SL_Client/Assets/SL_Client/Asset/Editor/ABEditor.cs:606 | the files encrypted are the `.lua` and `.proto` files; none of them is a `.bytes` file, and each is deleted afterwards |
| StageSpec.Doomed | SL_Client/Assets/SL_Client/Asset/Editor/ABEditor.cs:650-653 | the files deleted are `.lua`, `.lua.meta`, `.proto` and `.proto.meta` files; none of them is a `.bytes` file |
| StageSpec.Twin | SL_Client/Assets/SL_Client/Asset/Editor/ABEditor.cs:615 | the encrypted twin lies in the same folder, named the plaintext name plus `.bytes` |
| StageSpec.TwinRoundTrip | SL_Client/Assets/SL_Client/Asset/Editor/ABEditor.cs:615 | a twin is a ciphertext file, and stripping `.bytes` gives back the plaintext path |
| StageSpec.UntwinRoundTrip | SL_Client/Assets/SL_Client/Asset/Editor/ABEditor.cs:615 | every `.bytes` file is the twin of the path it names |
| StageSpec.TwinSurvives | SL_Client/Assets/SL_Client/Asset/Editor/ABEditor.cs:650-653 | a twin is neither encrypted again nor deleted by the plaintext deletion |
| StageSpec.TwinUnder | SL_Client/Assets/SL_Client/Asset/Editor/ABEditor.cs:615 | a twin lies inside a folder iff its plaintext does |
| StageSpec.EncryptedIn | SL_Client/Assets/SL_Client/Asset/Editor/ABEditor.cs:598-623 | the state after encrypting a folder: only twins of plaintext files are added, and every file that was inside is kept unchanged |
| StageSpec.PurgedIn | SL_Client/Assets/SL_Client/Asset/Editor/ABEditor.cs:640-662 | the state after deleting the plaintext of a folder: every file left inside was there before and is not a plaintext or `.meta` file of one |
| StageSpec.Seal | SL_Client/Assets/SL_Client/Asset/Editor/ABEditor.cs:539-547 | encrypting a folder and then deleting its plaintext leaves its twins and its other files, and no plaintext |
| StageSpec.RoundTrip | SL_Client/Assets/SL_Client/Asset/Editor/ABEditor.cs:533-547 | a module staged, packed without touching the copies, and restored has stage folders with exactly their original files |
| StageSpec.PackKeeps | SL_Client/Assets/SL_Client/Asset/Editor/ABEditor.cs:55-124 | packing confined to an output folder apart from the module root and the temporary folder keeps the stage folders and the copies |
| StageSpec.StagesKept | SL_Client/Assets/SL_Client/Asset/Editor/ABEditor.cs:526-552 | staging leaves a stageable module's stage folders in place |
| Staging.FileTree.DeleteDirectory | SL_Client/Assets/SL_Client/Asset/Editor/ABEditor.cs:689 | `Directory.Delete(dir, true)` throws iff the folder is missing, and otherwise removes it with all it contains |
| Staging.FileTree.CreateDirectory | SL_Client/Assets/SL_Client/Asset/Editor/ABEditor.cs:565 | creates the folder and its missing parents, touching no file |
| Staging.FileTree.CopyFolder | SL_Client/Assets/SL_Client/Asset/Editor/ABEditor.cs:735-773 | the destination becomes an exact copy of the source's files and folders (or empty when the source is missing), and nothing outside it changes |
| Staging.FileTree.CopyFiles | SL_Client/Assets/SL_Client/Asset/Editor/ABEditor.cs:746-755 | the source's files, at every depth, are copied into an empty destination |
| Staging.FileTree.CopySubdirs | SL_Client/Assets/SL_Client/Asset/Editor/ABEditor.cs:758-767 | the destination gets exactly the source's folder structure |
| Staging.FileTree.EncryptOnePath | SL_Client/Assets/SL_Client/Asset/Editor/ABEditor.cs:598-623 | throws iff the folder is missing or a twin already exists; otherwise every `.lua`/`.proto` file inside gets its encrypted twin and nothing else changes |
| Staging.FileTree.DeleteOnePath | SL_Client/Assets/SL_Client/Asset/Editor/ABEditor.cs:640-669 | throws iff the folder is missing; otherwise exactly the `.lua`, `.proto` and their `.meta` files inside are deleted |
| Staging.FileTree.DeleteManifest | SL_Client/Assets/SL_Client/Asset/Editor/ABEditor.cs:510-521 | deletes exactly the `.manifest` files directly in the folder, not in subfolders; throws iff the folder is missing |
| Staging.FileTree.CreateTempGAssets | SL_Client/Assets/SL_Client/Asset/Editor/ABEditor.cs:557-566 | the temporary folder is recreated empty |
| Staging.FileTree.CopyOneModule | SL_Client/Assets/SL_Client/Asset/Editor/ABEditor.cs:572-581 | each existing stage folder of the module is copied exactly into the temporary folder, and only the module's temporary folder changes |
| Staging.FileTree.EncryptOneModule | SL_Client/Assets/SL_Client/Asset/Editor/ABEditor.cs:587-592 | both stage folders get their twins, and the step throws iff one is missing or has a clash |
| Staging.FileTree.DeleteOneModule | SL_Client/Assets/SL_Client/Asset/Editor/ABEditor.cs:629-634 | both stage folders lose their plaintext, and the step throws iff one is missing |
| Staging.FileTree.StageOneModule | SL_Client/Assets/SL_Client/Asset/Editor/ABEditor.cs:539-547 | the module is staged (copied aside and sealed) iff it is stageable, and nothing else outside its folders changes |
| Staging.FileTree.EncryptLuaAndProto | SL_Client/Assets/SL_Client/Asset/Editor/ABEditor.cs:526-552 | succeeds iff every module is stageable, and then every module is staged; only stage folders and the temporary folder change |
| Staging.FileTree.StageModules | SL_Client/Assets/SL_Client/Asset/Editor/ABEditor.cs:535-548 | the per-module loop succeeds iff every module is stageable; then each module's plaintext is copied, encrypted and deleted, and only its stage folders and its temporary copy change |
| Staging.FileTree.RestoreOneModule | SL_Client/Assets/SL_Client/Asset/Editor/ABEditor.cs:685-703 | throws iff a stage folder is missing; otherwise both are refilled from their copies, and only they change |
| Staging.FileTree.RefillModules | SL_Client/Assets/SL_Client/Asset/Editor/ABEditor.cs:683-703 | the per-module loop succeeds iff every module's stage folders exist; then every module is refilled from its temporary copy, and nothing outside the module folders changes |
| Staging.FileTree.RestoreModules | SL_Client/Assets/SL_Client/Asset/Editor/ABEditor.cs:677-709 | succeeds iff every stage folder and the temporary folder exist; then every module is refilled and the temporary folder is gone |
| Staging.FileTree.BuildAssetBundle | SL_Client/Assets/SL_Client/Asset/Editor/ABEditor.cs:49-133 | if encryption throws, nothing is packed or restored; otherwise a confined packing is always followed by a restore that returns every stage folder to its original files, removes the temporary folder, and changes nothing else outside the output folder |

## Left out

- Unity's `BuildPipeline.BuildAssetBundles`, `AssetDatabase.Refresh`, `Debug.Log` and the JSON writing of the manifest are not modelled. The per-module packing inside `BuildAssetBundle`'s `try` block is the parameter `pack`, and the editor side of one module is `Packing.ABEditor.PackModule`.
- `AssetDatabase.GetDependencies` is the oracle `oracle`. A `null` answer is treated as an empty one.
- A bundle's crc and size are the oracles `crcOf` and `sizeOf` over its name, standing for reading the packed file. The `(int)` cast of the stream length is not modelled.
- AES encryption is the parameter `encrypt`. Key handling (`AESHelper`) is not part of this model.
- `String.ToLower` is modelled on ASCII letters only. `EndsWith` is ordinal.
- The absolute paths (`Application.dataPath`, `rootPath`, the `TempGAssets` and output folders) are parameters. The module list is a parameter that is read once, although the script lists the module folders again in `RestoreModules` and in the `try` block.
- `Packing.ABEditor.ScanCurrDirectory`, `Packing.ABEditor.ScanChildDirectories`, `Packing.ABEditor.PackModule`: require distinct asset paths, where `asset2bundle.Add` would throw on a duplicate. The model assumes this and does not derive it from the folder tree. Within one folder it holds for distinct file names without a `\` (`Naming.AssetPathInjective`). Across folders it is not proved: a `Dir` value may carry a folder name containing `\`, and then a folder `a\b` and a folder `b` inside `a` give the same asset paths.
- `PatchDiff.Calculate`: requires a base manifest with distinct bundle names, which `Manifest.BundleTable` guarantees for any manifest this script writes. The `"name|crc"` key is compared as the pair (name, crc), which determines it because a decimal crc holds no `|`.
- `LoadABConfig` and the rest of `BuildAssetBundle_Update` (reading and writing the JSON files, the copy into the update folder) are not modelled. The removal loop works on the loaded manifest and the set of bundle file names.
- `ModuleABConfig` is not part of this model. `AddBundle` is modelled as the dictionary indexer (insert or replace), and `AddAsset(i, ..)` as position `i` of a sequence.
- The order in which `GetFiles`/`GetDirectories` enumerate is not modelled for the staging steps. When a step throws part-way (`EncryptOnePath` meeting a twin clash), the model returns the failure but does not state the partially changed tree.
- `Staging.FileTree.CopyFolder`: a missing source is modelled as leaving the destination empty (the exception is caught after the destination was recreated). Other I/O failures inside the caught block are not modelled.
- `Staging.FileTree.RestoreModules`: the restored folders are stated by their files. Their folder structure is stated only by `CopyFolder`.
- `Staging.FileTree.BuildAssetBundle`: the round trip is stated for a packing confined to an output folder apart from the module root and the temporary folder. For any other packing only the encryption outcome is stated.
- Concurrency (another process writing the folders meanwhile) is not modelled.
