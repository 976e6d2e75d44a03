# Unity editor tools: a verified model of their core

This project models the logic inside five Unity editor tools and proves what they
promise. The tools are a skinned-mesh bone aligner, an animation clip exporter, an
animator clip replacer, a prefab variant replacer and a batch search/rename editor.
Unity objects become plain values:

- A game object with its transform is a `Scene.Node`: name, tag, layer, colliders,
  local pose, prefab link and children in sibling order.
- An object inside a hierarchy is the `Path` of sibling indices from its root.
- Animator assets (clips, blend trees, states, state machines, controllers) are the
  datatypes of module `Animator`.
- The asset database is a class holding two sets: the existing folders and the taken
  asset paths. `File.Exists` and `LoadAssetAtPath` are membership in the second set.

Where the source updates state in place, the model is a class whose methods modify its
fields:

- the tool component and its renderers (`SkinMesh.SkinMeshTool`, `SkinMesh.SkinnedMeshRenderer`);
- the exporter and replacer windows (`ClipExport.AnimationClipExporter`,
  `ClipReplace.AnimatorClipReplacer`, `VariantReplace.VariantReplacer`);
- the asset database (`ClipExport.AssetDatabase`);
- the scene's roots (`BatchOperations.Hierarchy`).

Loops in the source are `while`/`for` loops here, each proved against a specification
function. The two exceptions are the loops over children inside the recursive searches
`FindBoneByName` and `FindChildByName`. Both searches only compute a result, so they are
functions, and their child loop, which returns on the first hit, is the recursive
function `SkinMesh.FindInChildren` over the child index.

Modules, one per tool plus shared pieces:

- `Wrappers`: `Option`.
- `Strings`: the .NET string operations the tools use (Trim, Split, StartsWith, Contains,
  ordinal comparison, `ToString`/`ToString("D4")`).
- `FilePaths`: `Path.GetDirectoryName`, `GetFileNameWithoutExtension` and `GetExtension`
  on the paths the exporter builds, with Windows separator rules.
- `Scene`: nodes, paths, depth-first pre-order, renaming.
- `Collections`: distinctness and permutation facts.
- `Animator`: the animator asset tree and the clip slots in visiting order.
- `SkinMesh`, `ClipExport`, `ClipReplace`, `VariantReplace`, `BatchOperations`: the five tools.

Behaviour of the code worth knowing:

- A repeated bone name in B makes `ToDictionary` throw, so aligning the bone arrays gives
  the outcome `DuplicateName` and leaves B as it was.
- The exporter's clip map keeps the FIRST clip of a name (`ContainsKey` guard). The
  replacer's map keeps the LAST clip of a stripped name (indexer overwrite).
- Sorting the selection by hierarchy path follows the hierarchy's top-to-bottom order only
  below one root, and only while every sibling index is below 10000. Objects under
  different roots compare by root name, not by the roots' scene order.
- The exact-match search tests only the direct children of the chosen object for equality.
  Every deeper object is tested for a substring, because the recursive call omits `equal`.

## Model

| member | source | states |
|---|---|---|
| SkinMesh.AlignAndCheckTransforms | SkinMeshTool/SkinMeshTool.cs:48-79 | unequal lengths give LengthMismatch (B unchanged); a repeated name in B gives DuplicateName; otherwise slot i of the new B is a bone of B named like A[i] or empty exactly when B lacks that name, and the flag is true iff every name of A is in B |
| SkinMesh.IndexByName | SkinMeshTool/SkinMeshTool.cs:58 | the name dictionary is built exactly when B's names are distinct (otherwise the repeated name is reported); its keys are B's names and each maps to a bone of B with that name |
| SkinMesh.AlignByName | SkinMeshTool/SkinMeshTool.cs:60-78 | the aligning loop yields one slot per bone of A in A's order, each holding the bone of that name or empty, and the all-matched flag |
| SkinMesh.AlignmentIsUnique | SkinMeshTool/SkinMeshTool.cs:63-75 | with distinct names in B there is only one way to fill the slots |
| SkinMesh.AlignedIsPermutation | SkinMeshTool/SkinMeshTool.cs:48-79 | equal lengths, distinct names on both sides and every name found: no slot is empty and the new B is a permutation of the old |
| SkinMesh.FilledDistinct | SkinMeshTool/SkinMeshTool.cs:63-75 | distinct names in A give distinct bones in a filled alignment |
| SkinMesh.SkinMeshTool.Sort | SkinMeshTool/SkinMeshTool.cs:31-46 | the outcome is the alignment of the accessory's bones to the body's; neither renderer changes |
| SkinMesh.SkinMeshTool.Replace | SkinMeshTool/SkinMeshTool.cs:13-29 | rebinds iff both renderers are set and the bone counts agree; the accessory then takes the body's root bone and bones; otherwise nothing changes |
| SkinMesh.FindBoneByName | SkinMeshTool/SkinMeshTool.cs:82-102 | a found path is valid and leads to a bone with the name |
| SkinMesh.FindBoneByNameIsFirst | SkinMeshTool/SkinMeshTool.cs:82-102 | nothing is found iff no bone of the hierarchy has the name; a found bone is the first in depth-first pre-order |
| SkinMesh.FindInChildrenIsFirst | SkinMeshTool/SkinMeshTool.cs:91-98 | the child loop finds nothing iff no bone below children i.. has the name, otherwise the first one in pre-order |
| ClipExport.InvalidFileNameCharsMembers | AnimatorTool/AnimationClipExporter.cs:184 | the invalid-character list is exactly the control characters, the double quote, `<`, `>`, the vertical bar, `:`, `*`, `?`, `\` and `/` |
| ClipExport.ReplaceInvalid | AnimatorTool/AnimationClipExporter.cs:186-194 | same length, each character kept or, when invalid, turned into '_' |
| ClipExport.SanitizedName | AnimatorTool/AnimationClipExporter.cs:182-199 | the name is non-empty, neither starts nor ends with white space, holds no invalid character, and is "anim_clip" or made of '_' and characters of the clip name |
| ClipExport.SanitizeFileName | AnimatorTool/AnimationClipExporter.cs:182-199 | the character loop over the invalid list computes SanitizedName |
| ClipExport.SanitizedKeepsValidName | AnimatorTool/AnimationClipExporter.cs:182-199 | a name that is already valid, trimmed and non-empty comes back unchanged |
| ClipExport.SanitizedIdempotent | AnimatorTool/AnimationClipExporter.cs:182-199 | sanitizing twice is sanitizing once |
| ClipExport.SanitizedHasNoSeparator | AnimatorTool/AnimationClipExporter.cs:147-148 | a sanitized name holds no '/' or '\', so the export path names a file directly in the export folder |
| ClipExport.CandidatesDiffer | AnimatorTool/AnimationClipExporter.cs:213 | different numbers give different candidate paths |
| ClipExport.ExportCandidate | AnimatorTool/AnimationClipExporter.cs:206-213 | the candidates for `folder/stem.anim` are `folder/stem_k.anim` |
| FilePaths.Decompose | AnimatorTool/AnimationClipExporter.cs:206-208 | `folder/stem.ext` splits back into directory `folder`, name `stem` and extension `.ext` |
| ClipExport.GetUniqueAssetPath | AnimatorTool/AnimationClipExporter.cs:202-218 | the result is never taken; a free path is returned as is; otherwise the result is candidate k for the least k >= 1 that is free |
| ClipExport.AssetDatabase.CreateFolder | AnimatorTool/AnimationClipExporter.cs:116 | the folder `parent/name` now exists; no asset changes |
| ClipExport.AssetDatabase.CreateAsset | AnimatorTool/AnimationClipExporter.cs:158 | the path is now taken; no folder changes |
| ClipExport.EnsureFolderExists | AnimatorTool/AnimationClipExporter.cs:104-120 | an existing folder changes nothing; otherwise exactly the chain `p0/p1`, …, `p0/…/pn` of the split path is added to the folders |
| ClipExport.ChainEndsAtFolder | AnimatorTool/AnimationClipExporter.cs:109-119 | a path with no empty piece is itself the last folder of its chain, so it exists afterwards |
| ClipExport.AssetsPathHasParts | AnimatorTool/AnimationClipExporter.cs:80-86 | a folder starting with "Assets" has a first piece, so `parts[0]` is defined |
| ClipExport.BuildFbxClips | AnimatorTool/AnimationClipExporter.cs:67-77 | the map holds every clip name that is not a preview, each mapped to the first clip with that name |
| ClipExport.FbxClipMapUnique | AnimatorTool/AnimationClipExporter.cs:67-77 | the clip map is determined by the model file's assets |
| ClipExport.NewNamesCount | AnimatorTool/AnimationClipExporter.cs:145-160 | the walk meets as many names to export as the visited slots hold names the model file has that were not exported before |
| ClipExport.NewNamesAppend | AnimatorTool/AnimationClipExporter.cs:122-136 | walking one run of slots and then another meets the first run's new names, then the second run's names not met in the first |
| ClipExport.NextFreeUnique | AnimatorTool/AnimationClipExporter.cs:202-218 | at most one free path fits what `GetUniqueAssetPath` returns, so its answer is determined |
| ClipExport.PickedUnique | AnimatorTool/AnimationClipExporter.cs:147-158 | exporting the same names in the same order from the same assets writes the same paths and ends with the same assets |
| ClipExport.PickedAssets | AnimatorTool/AnimationClipExporter.cs:147-158 | every path written was free before, no two are the same, and the assets grow by exactly one per export |
| ClipExport.ExportClip | AnimatorTool/AnimationClipExporter.cs:140-167 | a clip the map has and that was not exported is recorded, counted and written to one new asset, at `folder/<sanitized name>.anim` or, when that is taken, its `_k` candidate for the least free k given the assets before it; any other clip writes nothing |
| ClipExport.ExportMotion | AnimatorTool/AnimationClipExporter.cs:138-179 | the exported names grow by the map's names among the motion's clips; the i-th new name met in visiting order is written to the i-th path, picked as in ExportClip given the starting assets and the paths written before it; the count grows by one per path |
| ClipExport.ExportChildren | AnimatorTool/AnimationClipExporter.cs:171-177 | the same, over a blend tree's non-null children in order |
| ClipExport.ExportStates | AnimatorTool/AnimationClipExporter.cs:124-130 | the same, over the states' non-null motions |
| ClipExport.ExportStateMachine | AnimatorTool/AnimationClipExporter.cs:122-136 | the same, over a state machine's states and then its sub-state machines |
| ClipExport.ExportMachines | AnimatorTool/AnimationClipExporter.cs:132-135 | the same, over a sequence of state machines |
| ClipExport.AnimationClipExporter.ExportClips | AnimatorTool/AnimationClipExporter.cs:55-101 | without a model file or controller, or with an empty folder or one not starting with "Assets", nothing is written and the count is 0; otherwise the folder chain exists, the names the controller plays that the map has are exported once each, in visiting order, the i-th to `folder/<sanitized name>.anim` or its least free `_k` candidate given the assets before the export and the paths written before it, and the count is the number of such names and of new assets |
| ClipExport.AnimationClipExporter.ChooseFolder | AnimatorTool/AnimationClipExporter.cs:34-45 | a non-empty pick under the data path becomes "Assets" + the rest with '\' turned to '/'; any other pick changes nothing; the folder stays under "Assets" |
| ClipExport.AnimationClipExporter.constructor | AnimatorTool/AnimationClipExporter.cs:10-12 | nothing chosen, export folder "Assets/ExportedClips" |
| ClipReplace.BuildNewClips | AnimatorClipReplacer/AnimatorClipReplacer.cs:66-71 | the map is keyed by every clip's name with the new prefix stripped, each key mapped to the last clip that has it |
| ClipReplace.NewClipMapUnique | AnimatorClipReplacer/AnimatorClipReplacer.cs:66-71 | the new-clip map is determined by the model file's assets |
| ClipReplace.CountIsReplacedSlots | AnimatorClipReplacer/AnimatorClipReplacer.cs:86-117 | the count is at most the number of slots, and it is 0 iff no slot's stripped name is a key, in which case no clip changes |
| ClipReplace.ReplaceInMotion | AnimatorClipReplacer/AnimatorClipReplacer.cs:129-145 | a clip is swapped for the mapped clip iff its stripped name is a key, a blend tree is walked, an empty slot stays empty; the count is the number of swapped slots |
| ClipReplace.ReplaceInBlendTree | AnimatorClipReplacer/AnimatorClipReplacer.cs:119-149 | same number of children, each replaced as above (other children kept), the tree's clips swapped slot by slot, and the count of swapped slots |
| ClipReplace.ReplaceInState | AnimatorClipReplacer/AnimatorClipReplacer.cs:92-107 | the state keeps its name; its motion is replaced as above; a null motion is untouched |
| ClipReplace.ReplaceInStates | AnimatorClipReplacer/AnimatorClipReplacer.cs:90-108 | every state replaced as above and the counts summed |
| ClipReplace.ReplaceInStateMachine | AnimatorClipReplacer/AnimatorClipReplacer.cs:86-117 | the machine keeps its shape and state names, every clip slot of it and its sub-machines is swapped, and the count is the number of swapped slots |
| ClipReplace.ReplaceInMachines | AnimatorClipReplacer/AnimatorClipReplacer.cs:110-114 | the same over a sequence of state machines |
| ClipReplace.AnimatorClipReplacer.ReplaceClips | AnimatorClipReplacer/AnimatorClipReplacer.cs:53-84 | without a controller or model file nothing changes; otherwise the controller keeps its shape, every clip slot is swapped by the new-clip map and the count is the number of swapped slots |
| ClipReplace.AnimatorClipReplacer.constructor | AnimatorClipReplacer/AnimatorClipReplacer.cs:15-18 | nothing chosen, old prefix "Arm_Collie" and new prefix "Arm_Shiba", each followed by a vertical bar |
| VariantReplace.FindChildByName | VariantReplacer/VariantReplacer.cs:132-144 | a found path is a valid non-empty path (never the start node) to an object with the name |
| VariantReplace.FindChildByNameIsFirst | VariantReplacer/VariantReplacer.cs:132-144 | nothing is found iff no object strictly below has the name; a found one is the first in depth-first pre-order |
| VariantReplace.MergeDataRecursive | VariantReplacer/VariantReplacer.cs:79-128 | the target keeps its name, pose and prefab link and takes the source's tag, layer and colliders; it has max(source, target) children; paired children are merged recursively, surplus target children kept, surplus source children copied under their names, a prefab instance root re-instantiated from the original source of its prefab |
| VariantReplace.OriginalSource | VariantReplacer/VariantReplacer.cs:114 | the original source of a prefab asset has no base prefab, and an asset without a base is its own original source |
| VariantReplace.CopyChild | VariantReplacer/VariantReplacer.cs:110-124 | a surplus child keeps its name; a plain object is cloned as is; a prefab instance root becomes an instance of a prefab with no base |
| VariantReplace.CopyOfVariantInstance | VariantReplacer/VariantReplacer.cs:114-118 | an instance of a variant of base prefab P is re-created as an instance of P, without the variant's overrides |
| VariantReplace.MergedUnique | VariantReplacer/VariantReplacer.cs:79-128 | a source and a target have exactly one merge result |
| VariantReplace.MergeIntoSelf | VariantReplacer/VariantReplacer.cs:79-128 | merging an object into an identical copy changes nothing |
| VariantReplace.MergeIdempotent | VariantReplacer/VariantReplacer.cs:79-128 | merging the same source a second time changes nothing when every copied child was a clone |
| VariantReplace.VariantReplacer.ReplaceVariant | VariantReplacer/VariantReplacer.cs:53-77 | nothing changes when A is not found; otherwise the found object is removed from its parent and an instance of B, named like A, with the found object's pose and the found object merged into it, becomes the parent's last child; the rest of the prefab, the parent's own fields included, is unchanged |
| BatchOperations.SearchChildren | BatchOperationObjects/BatchOperationObjectsEditor.cs:247-276 | a null parent adds nothing; otherwise the results are extended by the search paths below the parent, in visiting order |
| BatchOperations.SearchPathsMembers | BatchOperationObjects/BatchOperationObjectsEditor.cs:252-275 | a path is found iff it leads strictly below the start to an object whose name passes the test: equality for direct children in exact mode, a substring everywhere else |
| BatchOperations.SearchPathsOrdered | BatchOperationObjects/BatchOperationObjectsEditor.cs:254-274 | the results come in depth-first pre-order, each strictly before the next (so none repeats), and the start node is never among them |
| BatchOperations.SearchAndSelect | BatchOperationObjects/BatchOperationObjectsEditor.cs:94-114 | refused iff there is no parent or the keyword is empty; otherwise the found objects are selected, or "nothing found" iff there are none |
| BatchOperations.HierarchyPathSteps | BatchOperationObjects/BatchOperationObjectsEditor.cs:203-209 | a hierarchy path is the root's name followed by `/` and the four-digit padded sibling index of each level |
| BatchOperations.PadFour | BatchOperationObjects/BatchOperationObjectsEditor.cs:208 | `ToString("D4")` of an index below 10000 is its four digits |
| BatchOperations.FourDigitsOrder | BatchOperationObjects/BatchOperationObjectsEditor.cs:208 | four-digit indices compare as strings like the numbers |
| BatchOperations.HierarchyPathOrder | BatchOperationObjects/BatchOperationObjectsEditor.cs:203-209 | below one root, with indices below 10000, an object earlier in pre-order has the smaller hierarchy path |
| BatchOperations.OrderByPermutes | BatchOperationObjects/BatchOperationObjectsEditor.cs:224-228 | sorting rearranges the selection: every object occurs as often as before |
| BatchOperations.OrderBySorted | BatchOperationObjects/BatchOperationObjectsEditor.cs:224-228 | the sorted selection is ordered by key |
| BatchOperations.OrderByStable | BatchOperationObjects/BatchOperationObjectsEditor.cs:224-228 | objects with equal keys keep their selection order |
| BatchOperations.NewNamesDiffer | BatchOperationObjects/BatchOperationObjectsEditor.cs:234 | different numbers give different names `"{base} ({n})"` |
| BatchOperations.NumberedNamesDiffer | BatchOperationObjects/BatchOperationObjectsEditor.cs:232-235 | consecutively numbered objects get pairwise different names |
| BatchOperations.RenameRef | BatchOperationObjects/BatchOperationObjectsEditor.cs:234 | renaming one object changes only its name: every other name, every path and everything but names stay as they were |
| BatchOperations.Hierarchy.NameInOrder | BatchOperationObjects/BatchOperationObjectsEditor.cs:232-235 | the i-th object of the order is named `"{base} ({start+i})"`; no other object's name and nothing but names changes |
| BatchOperations.Hierarchy.RenameSelectedObjects | BatchOperationObjects/BatchOperationObjectsEditor.cs:213-238 | an empty selection changes nothing; otherwise the selection is sorted on hierarchy path, the i-th sorted object is named `"{base} ({start+i})"`, unselected objects keep their names, only names change and the new names are pairwise different |
| Strings.Trim | AnimatorTool/AnimationClipExporter.cs:196 | the result neither starts nor ends with white space, keeps only characters of the input, and is empty only for an all-white-space input |
| Strings.TrimIsSlice | AnimatorTool/AnimationClipExporter.cs:196 | the result is a slice of the input with only white space before and after it |
| Strings.TrimCharacterised | AnimatorTool/AnimationClipExporter.cs:196 | any slice with only white space outside it and none at its ends is the result, so the result is determined |
| Strings.SplitRemoveEmpty | AnimatorTool/AnimationClipExporter.cs:109 | the result is the pieces of `Split` with the empty ones dropped; they are non-empty and hold no separator |
| Strings.NonEmptyAppend | AnimatorTool/AnimationClipExporter.cs:109 | dropping empty pieces goes piece by piece in order: it distributes over concatenation |
| Strings.SplitRemoveEmptyJoin | AnimatorTool/AnimationClipExporter.cs:109 | a path with no separator at its ends and none doubled keeps all its pieces, and joining them with '/' gives it back |
| Strings.IntToStringInjective | BatchOperationObjects/BatchOperationObjectsEditor.cs:234 | different integers are written differently |
| Strings.OrdinalLessTransitive | BatchOperationObjects/BatchOperationObjectsEditor.cs:224-228 | the ordinal order on keys is transitive |
| Strings.OrdinalLessTotal | BatchOperationObjects/BatchOperationObjectsEditor.cs:224-228 | any two different keys are ordered one way or the other |

## Left out

- Window code (`OnGUI`, layout, menus, dialogs, `Selection`) is not modelled; the button handlers are methods taking the chosen objects as arguments.
- Undo registration, `Debug.Log`, `AssetDatabase.SaveAssets`/`Refresh` and the clip copy made by `Object.Instantiate` have no effect on the modelled state.
- The export failure caught by try/catch in `ExportMotion` is not modelled: creating an asset always succeeds.
- `AssetDatabase.CreateFolder` is assumed to succeed; that it needs an existing parent (the chain starts at "Assets") is not modelled.
- ClipExport.InvalidFileNameCharsMembers: `Path.GetInvalidFileNameChars` varies by platform; the Windows list is modelled as a constant.
- Strings.OrdinalLessTotal: `OrderBy` on strings and `StartsWith` use the current culture's comparison; the model compares ordinally by Unicode code point. .NET's ordinal order compares UTF-16 code units, which puts characters above U+FFFF before U+E000–U+FFFF; the model puts them after.
- BatchOperations.Hierarchy.RenameSelectedObjects: `startIndex + i` is an unbounded integer; 32-bit overflow is not modelled.
- BatchOperations.HierarchyPathOrder: only covers objects under one root whose sibling indices are all below 10000; beyond that the string order and the hierarchy order can differ.
- SkinMesh.SkinMeshTool.Sort: requires both renderers to be set, where the source would throw a null reference exception.
- SkinMesh.AlignAndCheckTransforms: null entries in a bone array (a name lookup on them throws) are not modelled.
- VariantReplace.MergeIdempotent: holds only when no surplus source child is a prefab instance root, because a re-instantiated prefab does not carry the source child's attributes.
- Object identity and aliasing are not modelled: objects are values, so updates in place become new values, and two references to one object cannot be told apart from two equal objects.
- Prefab connection details beyond "the prefab asset this object is an instance root of" are not modelled; the three `PrefabUtility` tests are one optional link per node.
- `PrefabUtility.InstantiatePrefab` on a variant B that is not a prefab asset is not modelled; B is always instantiated with a link to itself.
- Collider copying by `EditorUtility.CopySerialized` is whole-value copying of each collider's kind and settings.
- The static two-argument `SkinMeshTool.Sort`/`Replace` called by the tool's editor window are not part of the shown component and are not modelled.
- The export walk (`ClipExport.ExportMotion` and the helpers beside it) takes the export folder as a parameter: it is the exporter's field, which an export never changes.
- FilePaths.GetDirectoryName: a plain cut at the last separator; .NET's handling of repeated or trailing separators and of a root-only directory is not modelled. The exporter only checks that the export folder starts with "Assets", so a folder such as "AssetsBackup/x" is accepted too.
- `CreateChildObjects` and `CreateUIElement` (object creation), the thumbnail creator, the build tools and the tab window are not part of this model.
