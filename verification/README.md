# Path-addressed JSON toolkit of json-editor-vue3, modelled in Dafny

The editor component ships a small toolkit, under `src/utils/`, that works on
JSON documents through *field paths*. This project models that toolkit as pure
Dafny functions over an immutable JSON value and proves what its operations
promise.

The toolkit has five parts:

- **Path strings.** `parsePath` turns a pattern such as `users[].profile.**name`
  into a list of path elements. An element is a key, an index, the
  unindexed-array wildcard (`[]` or `[*]`, JavaScript `null`) or the deep
  wildcard `**`. `isPathMatch` matches a concrete path against such a pattern.
  `collectMatchingPaths` lists every node path of a value that a pattern matches.
- **Display paths.** `collectAllPaths` lists every node of a value as a display
  string (`hobbies[0]`, `profile.skills[1]`). `parseNewPathFormat` and
  `getValueByPath` read those strings back.
- **Field selection.** `pickFieldsDeep` keeps only the listed paths and
  `omitFieldsDeep` removes them. `mergeFieldsDeep` copies a patch into an
  origin, but only at included paths. `omitMergeFieldsDeep` copies everything
  except excluded paths. `pickFieldsSuper` and `mergeFieldsSuper` are the entry
  points.
- **Diffs.** `diffPaths` compares the path sets of two values. `diffValues`
  classifies paths as added, removed or modified and picks the changed part of
  the new value. `generateJsonFromPathDiff` and `generateValueDiffJson` shape
  those results.
- **Read-only fields in editor text.** `findReadonlyFieldRanges` turns
  read-only patterns into character ranges of the parsed document.
  `isReadonlyValueChanged` reports whether an edit changed a read-only literal.

## Value model

- `Json.Json` is `Null | Bool | Num(int) | Str | Arr | Obj`. An object is its
  list of members in enumeration order.
- `Json.Wf` states that keys are unique at every depth, as they are in a
  JavaScript object. Lemmas assume it where they need it.
- JavaScript `undefined` is `Option.None`.
- An expression that can throw evaluates to `Completion`, which is `Normal(v)`
  or `TypeError`.
- `Json.PathElement` is `Key(name) | Index(n) | AnyIndex | Glob`.
- The syntax tree of the read-only part is `ReadonlyOperations.Node`:
  - object, array, property and literal nodes;
  - each with a character offset and length;
  - each reached together with its parent, `Located`.
  `ReadonlyOperations.ToJson` gives the JSON value a tree spells.

The modules follow the source files:

| module | file |
|---|---|
| `Json` | the value model and the element types of `types.ts` |
| `Seqs` | list helpers, including the `Set` iteration order |
| `Text` | strings, digits, `split` and sorting |
| `Utils` | `utils.ts` |
| `PathUtils` | `pathUtils.ts` |
| `FieldOperations` | the pick and omit half of `fieldOperations.ts` |
| `FieldMerge` | the merge half of `fieldOperations.ts` |
| `DiffOperations` | `diffOperations.ts` |
| `ReadonlyOperations` | `readonlyOperations.ts` |
| `Scenarios` | the worked examples of `parsePath` from its documentation comment and tests |
| `PickScenarios` | the array-wildcard pick of the tests and the `null`-child finding |
| `MergeScenarios` | the two merge findings, from path strings |
| `DiffScenarios` | the `age` change of the value-diff tests, reduced to one-member objects |

Where the source has a defect, the corrected operation is the one the rest of
the model uses. The as-written operation sits beside it (see Findings).

Some behaviour looks accidental but is reproduced as written, and a lemma pins
it down:

- a trailing `**` needs at least one more segment;
- two adjacent `**` never match anything;
- a `null` element in an include path also lets object keys through the merge;
- any `**` include path makes the merge visit everything;
- picking an index of an array of non-null primitives drops the element;
- the read-only change check compares literals only, position by position.

## Model

| member | source | states |
|---|---|---|
| `Text.NatToDecimal` | src/utils/utils.ts:52-54 | an index written as `[n]` uses a canonical numeral that reads back as `n` |
| `Text.Sort` | src/utils/diffOperations.ts:40-43 | `Array.prototype.sort` on strings returns a sorted permutation of its input |
| `Utils.IsEqualScalar` | src/utils/utils.ts:18-28 | for a primitive, deep equality holds exactly when the two values are identical |
| `Utils.IsEqualReflexive` | src/utils/utils.ts:18-28 | every well-formed value is deeply equal to itself |
| `Utils.ObjectOrderIrrelevant` | src/utils/utils.ts:18-28 | deep equality of objects ignores the order of their members |
| `Utils.DeepClone` | src/utils/utils.ts:35-37 | the JSON round-trip clone is well formed and deeply equal to the original |
| `Utils.CollectAllPaths` | src/utils/utils.ts:45-79 | no collected display path is empty when collection starts at the root |
| `Utils.CollectAllPathsFromRoot` | src/utils/utils.ts:45-79 | the collected strings are the display renderings of every node path, in pre-order, with the root's empty path dropped |
| `Utils.CollectedNodePath` | src/utils/utils.ts:45-79 | every collected string is the rendering of some non-root node path of the value |
| `Utils.CollectedPathsResolve` | src/utils/utils.ts:140-154 | every collected string resolves through `getValueByPath` to the value at the node it names, so it is never `undefined` |
| `Utils.ParseNewPathFormat` | src/utils/utils.ts:86-132 | the parse yields only keys and indices, and every key is non-empty and free of `.` and `[` |
| `Utils.ParseDisplayRoundTrip` | src/utils/utils.ts:86-132 | parsing the display string of a key-and-index path gives the path back |
| `Utils.GetValueByPath` | src/utils/utils.ts:140-154 | the walk yields the value at the parsed path, and `undefined` once a step is missing |
| `Utils.GetValueByRenderedPath` | src/utils/utils.ts:140-154 | looking up a rendered display path reaches the same value as the path itself |
| `PathUtils.ParsePath` | src/utils/pathUtils.ts:14-65 | every key in a parsed pattern is non-empty, has no `.`, `[`, `]` or `**`, and is not a digit string |
| `PathUtils.ParsePathRoundTrip` | src/utils/pathUtils.ts:14-65 | rendering any pattern of plain keys, indices, `[]` and `**` and parsing it again gives the pattern back |
| `PathUtils.ParsePathAfterGlob` | src/utils/pathUtils.ts:17-24 | a pattern that starts with `**`, with or without one dot after it, parses to `**` followed by the parse of the rest |
| `PathUtils.ParsePathSplit` | src/utils/pathUtils.ts:26-64 | parsing two patterns joined by a dot gives the two parses one after the other, so each dot part is parsed on its own |
| `PathUtils.ParsePartsAppend` | src/utils/pathUtils.ts:28-55 | the parse of a list of dot parts is the parses of its pieces concatenated |
| `Text.SplitOnJoin` | src/utils/pathUtils.ts:26 | splitting at a character around one occurrence of it gives the splits of the two sides |
| `PathUtils.PartAfterKey` | src/utils/pathUtils.ts:35-54 | a key followed by bracket groups scans as that key followed by the groups' indices or `[]` wildcards |
| `PathUtils.PartAfterGlob` | src/utils/pathUtils.ts:39-45 | `**` glued to bracket groups in one dot part scans as a `**` element and then the groups |
| `PathUtils.IsPathMatchPlain` | src/utils/pathUtils.ts:70-123 | a pattern without `**` matches exactly the targets of its length whose segments meet it position by position, with `null` meeting any index |
| `PathUtils.TrySplitsExists` | src/utils/pathUtils.ts:87-103 | the split-point loop after an inner `**` succeeds exactly when some later split point matches the rest of the pattern |
| `PathUtils.IsPathMatchSound` | src/utils/pathUtils.ts:70-123 | when no two `**` are adjacent, the matcher agrees with the declarative meaning, in which `**` stands for any run of segments and a trailing `**` for a non-empty one |
| `PathUtils.TrailingGlob` | src/utils/pathUtils.ts:80-85 | a trailing `**` matches exactly the targets strictly longer than the prefix that match the prefix |
| `PathUtils.NotMatchedByOwnGlob` | src/utils/pathUtils.ts:80-85 | `p.**` does not match `p` itself |
| `PathUtils.AdjacentGlobsNeverMatch` | src/utils/pathUtils.ts:87-103 | a pattern starting with two `**` matches no concrete path |
| `PathUtils.AdjacentGlobsDiffer` | src/utils/pathUtils.ts:87-103 | `**.**.a` means `x.a` under the declarative reading, yet the matcher rejects it |
| `PathUtils.CollectMatchingIsFilter` | src/utils/pathUtils.ts:132-159 | the collected paths are the value's node paths in pre-order, filtered by the matcher |
| `PathUtils.CollectMatchingMembership` | src/utils/pathUtils.ts:132-159 | a path is collected exactly when it exists in the value and matches the pattern |
| `PathUtils.IsPathUnderWildcardPattern` | src/utils/pathUtils.ts:167-178 | a pattern without `**` never covers anything; otherwise the result is the declarative match |
| `FieldOperations.ExpandMembership` | src/utils/fieldOperations.ts:11-21 | the expanded list holds the listed `**`-free paths plus every existing node path that some listed `**` pattern matches |
| `FieldOperations.PickFieldsDeep` | src/utils/fieldOperations.ts:8-84 | `null` stays `null`; other primitives give `undefined`; an array gives a no-longer array, and `[]` when no path has an index at this depth; an object gives an object |
| `FieldOperations.PickObjectKeys` | src/utils/fieldOperations.ts:48-80 | every key of a picked object exists in the input and is named by some expanded path at this depth |
| `FieldOperations.PickTerminalCopies` | src/utils/fieldOperations.ts:57-64 | a key that every selecting path ends at is copied whole |
| `FieldOperations.PickNothing` | src/utils/fieldOperations.ts:23-27 | with no paths, an array picks to `[]` and an object to `{}` |
| `FieldOperations.PickKeepsPath` | src/utils/fieldOperations.ts:8-84 | a listed key path that no longer listed path extends reads the same value in the picked result as in the input |
| `FieldOperations.PickItemsKept` | src/utils/fieldOperations.ts:31-43 | the picked array holds, in order, exactly the element picks the keep test accepts, each at a strictly later offset than the last, and nothing else |
| `FieldOperations.PickItemsCompacts` | src/utils/fieldOperations.ts:31-43 | the picked array is the list of per-element picks with the rejected ones removed |
| `FieldOperations.PickDropsScalarElements` | src/utils/fieldOperations.ts:31-45 | elements that are non-null primitives are never kept, so such an array always picks to `[]` |
| `FieldOperations.KeepTestThrowsOnNull` | src/utils/fieldOperations.ts:37-40 | the keep test of the source throws exactly when the picked child is `null` |
| `FieldOperations.PickAsWrittenAgrees` | src/utils/fieldOperations.ts:8-84 | the pick as written throws exactly when some element or selected key below the paths picks to `null`, and otherwise gives the corrected pick |
| `FieldOperations.PickNullChildThrows` | src/utils/fieldOperations.ts:66-75 | picking `a.b` from `{a: null}` throws as written |
| `FieldOperations.PickNullChildKept` | src/utils/fieldOperations.ts:66-75 | the corrected pick of `a.b` from `{a: null}` keeps `{a: null}` |
| `FieldOperations.OmitFieldsDeep` | src/utils/fieldOperations.ts:89-144 | primitives come back unchanged, arrays keep their length, and an object keeps only keys it had |
| `FieldOperations.OmitObjectKeys` | src/utils/fieldOperations.ts:122-141 | a key survives exactly when no expanded path ends at it; a key that no path names is copied unchanged |
| `FieldOperations.OmitNothing` | src/utils/fieldOperations.ts:103-107 | omitting no paths returns the input unchanged |
| `FieldOperations.OmitRemovesPath` | src/utils/fieldOperations.ts:89-144 | after omitting a listed `**`-free path that ends in a key, nothing is found at that path |
| `FieldOperations.PickFieldsSuper` | src/utils/fieldOperations.ts:153-161 | a primitive comes back as it is; a container keeps its kind; exclusion keeps an array's length and picking never lengthens it |
| `FieldOperations.PickFieldsSuperNoPaths` | src/utils/fieldOperations.ts:153-161 | with no path strings, picking gives an empty container and excluding gives the input back |
| `FieldOperations.PickFieldsSuperAsWritten` | src/utils/fieldOperations.ts:153-161 | the entry point as written returns a primitive unchanged and never throws when excluding |
| `FieldOperations.PickFieldsSuperAsWrittenAgrees` | src/utils/fieldOperations.ts:153-161 | the entry point as written throws only when keeping from a container whose pick meets a `null` child, and otherwise gives the corrected result |
| `FieldOperations.PickSuperKeysChosen` | src/utils/fieldOperations.ts:153-161 | every key of an object picked by path strings is a key of the input that some parsed path starts with |
| `FieldOperations.PickSuperKeyCopied` | src/utils/fieldOperations.ts:153-161 | a path string naming just one key of the input copies that key's value, when no string holds `**` or goes below the key |
| `FieldOperations.PickTopKeys` | src/utils/fieldOperations.ts:48-80 | with one-key paths, a key is picked exactly when it exists and is listed |
| `FieldOperations.OmitTopKeys` | src/utils/fieldOperations.ts:122-141 | with one-key paths, a key survives exactly when it exists and is not listed |
| `FieldOperations.PickOmitComplement` | src/utils/fieldOperations.ts:8-144 | with one-key paths, each key of the input ends up in exactly one of the pick and the omit |
| `FieldMerge.MergeFieldsDeep` | src/utils/fieldOperations.ts:166-290 | an included primitive takes the patch; a primitive that is not included keeps the origin; arrays and objects keep their kind and never shrink; objects keep their keys in order |
| `FieldMerge.MergeChild` | src/utils/fieldOperations.ts:230-275 | each existing child is merged recursively when its path is visited, and otherwise kept from the origin |
| `FieldMerge.MergeWithoutPatch` | src/utils/fieldOperations.ts:213-290 | merging an `undefined` patch gives the origin back |
| `FieldMerge.MergeIdentity` | src/utils/fieldOperations.ts:166-290 | merging a value with itself gives it back, for any include paths |
| `FieldMerge.MergeKeepsUnvisited` | src/utils/fieldOperations.ts:264-275 | a key whose path is neither included nor on the way to an include keeps the origin's value |
| `FieldMerge.MergeAddsNewKeys` | src/utils/fieldOperations.ts:277-284 | a key only the patch has is added with the patch's value, whatever the include paths |
| `FieldMerge.MergeArrayExtends` | src/utils/fieldOperations.ts:249-254 | a longer patch array extends the result with its extra elements; a shorter one adds nothing |
| `FieldMerge.MergeIncludedLeaf` | src/utils/fieldOperations.ts:213-219 | at an included primitive of the origin, the result reads the patch's value |
| `FieldMerge.GlobVisitsEverything` | src/utils/fieldOperations.ts:193-199 | one `**` include path makes every path count as visited |
| `FieldMerge.AnyIndexLetsKeysThrough` | src/utils/fieldOperations.ts:180-188 | a `null` element of an include path lets an object key through as well as an index |
| `FieldMerge.MergeAsWrittenAgrees` | src/utils/fieldOperations.ts:231-287 | the merge as written throws exactly when an unvisited key somewhere below meets a truthy primitive patch, and otherwise gives the corrected merge |
| `FieldMerge.InAsWritten` | src/utils/fieldOperations.ts:269 | `key in patch` throws exactly when the patch is not an object or array |
| `FieldMerge.SkippedKeyThrows` | src/utils/fieldOperations.ts:264-275 | an unvisited key throws exactly when the patch is a truthy primitive |
| `FieldMerge.ScalarPatchThrows` | src/utils/fieldOperations.ts:269 | an object with an unvisited key, merged with a truthy primitive patch, throws as written |
| `FieldMerge.ScalarPatchExampleThrows` | src/utils/fieldOperations.ts:264-275 | merging `{a: 5}` into `{a: {x: 1, y: 2}}` along `a.x` throws as written |
| `FieldMerge.ScalarPatchExampleKeeps` | src/utils/fieldOperations.ts:264-275 | the corrected merge of that example keeps the origin |
| `FieldMerge.MergeScalarPatch` | src/utils/fieldOperations.ts:259-287 | a container origin merged with a primitive patch keeps the origin |
| `FieldMerge.OmitMergeFieldsDeep` | src/utils/fieldOperations.ts:321-332 | when an excluded path ends here, the origin comes back untouched |
| `FieldMerge.OmitMergeChild` | src/utils/fieldOperations.ts:339-418 | a child some expanded path selects is merged recursively; any other child takes the patch's value when it has one |
| `FieldMerge.OmitMergeWithoutPatch` | src/utils/fieldOperations.ts:302-445 | excluding with an `undefined` patch gives the origin back |
| `FieldMerge.OmitMergeIdentity` | src/utils/fieldOperations.ts:302-445 | merging a value with itself under exclusions gives it back |
| `FieldMerge.OmitMergeAddsNewKeys` | src/utils/fieldOperations.ts:420-438 | a key only the patch has is added unless an excluded path ends at it |
| `FieldMerge.OmitMergeAppendsExtra` | src/utils/fieldOperations.ts:369-386 | extra patch elements are appended when no excluded path ends at their index |
| `FieldMerge.OmitMergeKeepsExcluded` | src/utils/fieldOperations.ts:321-332 | an excluded `**`-free path that exists in the origin keeps the origin's value |
| `FieldMerge.ScopedTakesPatch` | src/utils/fieldOperations.ts:391-418 | in the corrected exclude merge, a path no exclusion lies on takes the patch's value |
| `FieldMerge.AsWrittenFreezesSelected` | src/utils/fieldOperations.ts:405-413 | as written, once any excluded path is one step long, every child that some path selects keeps the origin's value whole |
| `FieldMerge.AsWrittenFreezesSibling` | src/utils/fieldOperations.ts:405-413 | excluding `a.x` and `zzz` leaves the sibling `a.y` at the origin's value as written |
| `FieldMerge.ScopedUpdatesSibling` | src/utils/fieldOperations.ts:405-413 | under the corrected exclude merge, the same sibling takes the patch's value |
| `FieldMerge.OmitMergeScoped` | src/utils/fieldOperations.ts:302-445 | the corrected exclude merge also returns the origin untouched where an excluded path ends |
| `FieldMerge.MergeFieldsSuper` | src/utils/fieldOperations.ts:455-468 | unless both values are containers the origin comes back; otherwise the result has the origin's kind |
| `FieldMerge.MergeFieldsSuperIdentity` | src/utils/fieldOperations.ts:455-468 | merging a value with itself is the identity in both modes, for any path strings |
| `FieldMerge.MergeFieldsSuperAsWritten` | src/utils/fieldOperations.ts:455-468 | the entry point as written returns the origin unless both are containers, and never throws when excluding |
| `FieldMerge.MergeFieldsSuperAsWrittenAgrees` | src/utils/fieldOperations.ts:455-468 | as written, including throws exactly where the merge meets a truthy primitive patch and otherwise gives the corrected result; excluding runs the unscoped exclude merge |
| `DiffOperations.PathSet` | src/utils/diffOperations.ts:13-14 | the `Set` of collected paths has no duplicates and exactly the collected members |
| `DiffOperations.DiffPaths` | src/utils/diffOperations.ts:12-45 | all four lists are sorted and duplicate-free, and each holds exactly the paths in both, only in A, only in B, or in either |
| `DiffOperations.DiffPathsPartition` | src/utils/diffOperations.ts:21-37 | every union path is in exactly one of intersection, difference A and difference B |
| `DiffOperations.DiffPathsSelf` | src/utils/diffOperations.ts:12-45 | a value compared with itself has empty differences, and its intersection equals its union |
| `DiffOperations.GeneratedKeysChosen` | src/utils/diffOperations.ts:55-82 | every top-level key of the rebuilt object is a key of the selected data and the first step of a chosen path |
| `DiffOperations.GeneratedKeyCopied` | src/utils/diffOperations.ts:55-82 | a chosen path that is just one key of the selected data is read back with that key's value unchanged, when no chosen path holds `**` or goes below the key |
| `DiffOperations.BothOfSame` | src/utils/diffOperations.ts:68-79 | merging a value into a clone of itself gives it back, so source `both` acts like source `A` |
| `DiffOperations.GenerateDifferenceOfSelf` | src/utils/diffOperations.ts:55-82 | a value compared with itself generates `{}` for either difference |
| `DiffOperations.DiffValues` | src/utils/diffOperations.ts:91-147 | the added, removed and modified lists are sorted sets; each holds exactly the paths its rule and option admit; the changed paths are their union; with no change the changed object is `{}`, otherwise it is the second value picked by the changed paths in the order they were found |
| `DiffOperations.DiffValuesKeysChosen` | src/utils/diffOperations.ts:137-138 | every top-level key of the changed object is a key of the second value and the first step of a changed path |
| `DiffOperations.DiffValuesKeyCopied` | src/utils/diffOperations.ts:137-138 | a changed path that is just one key of the second value puts that key's value into the changed object unchanged, when no changed path holds `**` or goes below the key |
| `DiffOperations.DiffValuesDisjoint` | src/utils/diffOperations.ts:102-135 | no path is in two of the added, removed and modified lists |
| `DiffOperations.DiffValuesChangedDistinct` | src/utils/diffOperations.ts:100-141 | the changed-path list has no duplicates |
| `DiffOperations.DiffValuesSelf` | src/utils/diffOperations.ts:91-147 | a value compared with itself has no changes, and its changed object is `{}` |
| `DiffOperations.GenerateValueDiffJson` | src/utils/diffOperations.ts:157-170 | the output is the changed paths or the changed object, as requested |
| `DiffOperations.GenerateValueDiffSelf` | src/utils/diffOperations.ts:157-170 | a value compared with itself gives no paths, or `{}` |
| `DiffScenarios.AgeDiffPaths` | src/utils/diffOperations.ts:121-133 | with `{age: 25}` against `{age: 26}`, `age` is a modified path and a changed path |
| `DiffScenarios.AgeDiff` | src/utils/diffOperations.ts:137-138 | in that comparison the changed object reads 26 under `age`, and it is what `generateValueDiffJson` returns by default |
| `ReadonlyOperations.FindProperty` | src/utils/readonlyOperations.ts:56-58 | the lookup of a key finds the first property with that key and a value, and reports -1 when there is none |
| `ReadonlyOperations.Step` | src/utils/readonlyOperations.ts:50-58 | a step succeeds only by a key into an object or an index into an array, and lands on a child of its parent |
| `ReadonlyOperations.StepLookup` | src/utils/readonlyOperations.ts:50-58 | a step on the tree succeeds exactly when the same step on the spelled value does, and lands on that child's value |
| `ReadonlyOperations.NodeAtLookup` | src/utils/readonlyOperations.ts:50-58 | a concrete path reaches a node exactly when the spelled value has that path, and the node spells the value found there |
| `ReadonlyOperations.ExpandConcrete` | src/utils/readonlyOperations.ts:10-59 | a path of keys and indices expands to the single node it locates, or to nothing |
| `ReadonlyOperations.ExpandTrailingGlob` | src/utils/readonlyOperations.ts:19-23 | a trailing `**` yields the node itself and every node below it |
| `ReadonlyOperations.PreorderMembers` | src/utils/readonlyOperations.ts:64-69 | node collection yields the node and, recursively, every node below each of its children |
| `ReadonlyOperations.GlobTriesEveryNode` | src/utils/readonlyOperations.ts:25-40 | an inner `**` yields what the rest of the path reaches from any node of the subtree |
| `ReadonlyOperations.AnyIndexOnlyOverArrays` | src/utils/readonlyOperations.ts:43-48 | `[]` expands through every element of an array and yields nothing elsewhere |
| `ReadonlyOperations.ExpandSound` | src/utils/readonlyOperations.ts:10-59 | every node an expansion yields, and its parent, lies within the text |
| `ReadonlyOperations.CommaRun` | src/utils/readonlyOperations.ts:117-124 | the extension is exactly the whitespace-then-comma match after the property, and zero when the text has no such match |
| `ReadonlyOperations.RangesAt` | src/utils/readonlyOperations.ts:101-127 | ranges come only from nodes whose parent is a property with a value (a `**` also reaches key nodes); split mode gives key and value ranges; otherwise one property range that starts at the property and ends at its end plus an optional comma match |
| `ReadonlyOperations.RangesOfPaths` | src/utils/readonlyOperations.ts:93-129 | a range is produced exactly when some path reaches a node that produces it |
| `ReadonlyOperations.RangesOfPatterns` | src/utils/readonlyOperations.ts:93-129 | for parsed patterns, a range is produced exactly when some pattern reaches a node that produces it |
| `ReadonlyOperations.PatternRangesWithinText` | src/utils/readonlyOperations.ts:101-127 | when the tree lies within the text, every range of a node one pattern reaches is a well-ordered span of the text |
| `ReadonlyOperations.RangesOfPathsWithinText` | src/utils/readonlyOperations.ts:80-132 | when the tree lies within the text, every range is a well-ordered span of the text |
| `ReadonlyOperations.FindReadonlyFieldRanges` | src/utils/readonlyOperations.ts:80-132 | with no tree there are no ranges; otherwise the loop yields the ranges of every path in order |
| `ReadonlyOperations.PatternsRanges` | src/utils/readonlyOperations.ts:93-129 | the outer loop over parsed patterns yields the ranges of every pattern in order |
| `ReadonlyOperations.NodeRanges` | src/utils/readonlyOperations.ts:101-128 | the inner loop yields the ranges of every reached node in order |
| `ReadonlyOperations.IsReadonlyValueChanged` | src/utils/readonlyOperations.ts:146-182 | reports a change exactly when both trees exist and some path reaches, at some position, an old literal that the new expansion does not match at that position |
| `ReadonlyOperations.AnyChanged` | src/utils/readonlyOperations.ts:156-181 | the outer loop over parsed patterns reports a change exactly when some pattern's expansions differ |
| `ReadonlyOperations.FindDifference` | src/utils/readonlyOperations.ts:161-178 | the inner loop reports a change exactly when some old node holds a literal that the new node at the same position does not equal |
| `ReadonlyOperations.UnchangedAgainstItself` | src/utils/readonlyOperations.ts:156-179 | a tree never differs from itself, whatever the paths |
| `ReadonlyOperations.UnchangedAlong` | src/utils/readonlyOperations.ts:161-178 | along one parsed pattern, a tree never differs from itself |
| `ReadonlyOperations.ConcreteChange` | src/utils/readonlyOperations.ts:156-179 | along a concrete path, a change is reported exactly when the old value there is a primitive and the new value there is different |
| `ReadonlyOperations.NodeValueSpelled` | src/utils/readonlyOperations.ts:161-167 | a node carries a value exactly when it spells a primitive |
| `Scenarios.ParseUnindexed` | src/utils/pathUtils.ts:8 | `arr[].item[].name` parses to `arr`, `[]`, `item`, `[]`, `name` |
| `Scenarios.RenderUnindexed` | src/utils/pathUtils.ts:8 | that pattern renders back to `arr[].item[].name` |
| `Scenarios.ParseLeadingGlob` | src/utils/pathUtils.ts:9 | `**a` parses to `**`, `a` |
| `Scenarios.ParseIndexed` | src/utils/pathUtils.ts:7 | `a.b[0].c` parses to `a`, `b`, `0`, `c` |
| `Scenarios.ParseInnerGlob` | src/utils/pathUtils.ts:10 | `c[0].**a` parses to `c`, `0`, `**`, `a` |
| `Scenarios.InnerGlobPart` | src/utils/pathUtils.ts:40-45 | the dot part `**a` scans to `**`, `a` |
| `Scenarios.ParseArrayKey` | test/JsonUtils.vitest.ts:83 | the pattern `c[].a` parses to `c`, `[]`, `a` |
| `PickScenarios.PickArrayWildcard` | test/JsonUtils.vitest.ts:80-88 | picking `c[].a` from the test data keeps `c` with only the element that has an `a`, reduced to that `a` |
| `PickScenarios.NullChildSuper` | src/utils/fieldOperations.ts:153-161 | `pickFieldsSuper({a: null}, ["a.b"])` throws as written, and the corrected entry point gives `{a: null}` |
| `MergeScenarios.ScalarPatchSuper` | src/utils/fieldOperations.ts:455-468 | `mergeFieldsSuper({a: {x: 1, y: 2}}, {a: 5}, ["a.x"])` throws as written, and the corrected entry point gives the origin |
| `MergeScenarios.SiblingSuper` | src/utils/fieldOperations.ts:455-468 | excluding `a.x` and `zzz`, `a.y` is 2 as written and 20 in the corrected entry point |
| `Scenarios.LetterKey` | src/utils/pathUtils.ts:57-64 | a key of lower-case letters survives parsing as a key |

## Left out

- Vue reactivity unwrapping (`isRef`, `unref`, `isReactive`, `toRaw`): these are not JSON values and are not modelled.
- `lodash/isEqual` is modelled by `Utils.IsEqual` for JSON values only. Dates, maps, typed arrays and cycles are not JSON values.
- The `NaN` case of `isEqual` is not modelled: numbers are integers, with no floats or `NaN`.
- `Number(...)` coercion is modelled for non-negative digit strings only. Signs, decimals, exponents, `Infinity` and surrounding spaces are not modelled, so a key like `1e3` stays a key in the model.
- `console.warn` and `console.debug` calls are output only and are left out.
- The `jsonc-parser` function `parseTree` is not part of this model. The tree is an input, and `None` stands for a text that does not parse.
- `JSON.parse` throwing at the start of `isReadonlyValueChanged` is not modelled. The method assumes both texts are valid JSON.
- Offsets and the comma scan count characters, not UTF-16 code units.
- Children of an object node that are not property nodes are ignored by key lookup. The parser never produces them.
- Prototype members (`length`, `toString`, …) and cross-kind access (a digit key on an array, an index on a string, an index on an object) read as `undefined` in the model. For an index on an object, `current[part]` at src/utils/utils.ts:150 reads the member named by the numeral, so `getValueByPath({"0": 5}, "[0]")` is 5 in the source; `Json.Child` gives `None`.
- JavaScript enumerates integer-like object keys first. The model keeps members in insertion order.
- An object key spelled `**` is a different thing from the `**` element in the model. The source cannot tell the two apart.
- Sorting uses character order. JavaScript compares UTF-16 code units, which differs only above the Basic Multilingual Plane.
- Utils.DeepClone: only the well-formed case is stated. JSON serialisation of `undefined`, functions and non-finite numbers is out of scope.
- FieldOperations.PickKeepsPath: stated only for key-only paths that no longer listed path extends. The general case mixes in array compaction.
- FieldOperations.OmitRemovesPath: stated only for `**`-free paths that end in a key. The source never removes an array element, so a path ending in an index is not removed.
- FieldMerge.OmitMergeKeepsExcluded: stated only for `**`-free excluded paths. A `**` pattern is expanded again against each subtree, as the source does.
- FieldMerge.ScopedTakesPatch: stated only for `**`-free exclusions.
- ReadonlyOperations.ConcreteChange: stated only for concrete paths. Wildcard expansions are compared position by position, as `IsReadonlyValueChanged` states.
- FieldOperations.PickFieldsSuper: keeping runs the corrected pick, which never throws where the keep test at src/utils/fieldOperations.ts:37-40 does. `FieldOperations.PickFieldsSuperAsWritten` is the entry point as written.
- FieldMerge.MergeFieldsSuper: excluding runs the corrected `FieldMerge.OmitMergeScoped` where src/utils/fieldOperations.ts:465 calls `omitMergeFieldsDeep`, so in the sibling example `a.y` is 20 where the source gives 2. Including runs the corrected merge, which never throws where src/utils/fieldOperations.ts:269 does. `FieldMerge.MergeFieldsSuperAsWritten` is the entry point as written.
- DiffOperations.GenerateJsonFromPathDiff: both the pick and, for source `both`, the merge are the corrected ones, so it never throws where the source can.
- DiffOperations.DiffValues: the changed object is computed by the corrected pick. As written, the pick throws when a changed path runs through a `null` in the new value (see Findings).

## Findings

| source | as written | input that shows it | evidently intended | confidence | as-written member | corrected member |
|---|---|---|---|---|---|---|
| src/utils/fieldOperations.ts:37-40, 68-72 | the keep test calls `Object.keys(picked)` whenever `typeof picked === 'object'`, which is also true of `null`, so it throws | `pickFieldsSuper({a: null}, ["a.b"])` | a `null` child is kept like any other primitive, so the result is `{a: null}` | high; not executed | `PickScenarios.NullChildSuper` (via `FieldOperations.PickFieldsSuperAsWritten` and `FieldOperations.PickAsWrittenAgrees`) | `PickScenarios.NullChildSuper` (via `FieldOperations.PickFieldsSuper` and `FieldOperations.PickNullChildKept`) |
| src/utils/fieldOperations.ts:269 | `key in patch` throws a `TypeError` when `patch` is a truthy primitive at a nested level | `mergeFieldsSuper({a: {x: 1, y: 2}}, {a: 5}, ["a.x"])` | a primitive patch gives no values for the keys, so the origin object is kept | high; not executed | `MergeScenarios.ScalarPatchSuper` (via `FieldMerge.MergeFieldsSuperAsWritten` and `FieldMerge.MergeAsWrittenAgrees`) | `MergeScenarios.ScalarPatchSuper` (via `FieldMerge.MergeFieldsSuper` and `FieldMerge.MergeScalarPatch`) |
| src/utils/fieldOperations.ts:356-362, 405-413 | the recursion passes the original, un-narrowed path list one level deeper. A one-step exclusion such as `zzz` then counts as a full match at depth 1 under every selected key | `mergeFieldsSuper({a: {x: 1, y: 2}}, {a: {x: 10, y: 20}}, ["a.x", "zzz"], true)` gives `a.y = 2` | only the paths that continue through the current key go down, so `a.y` takes the patch's 20 | medium; not executed | `MergeScenarios.SiblingSuper` (via `FieldMerge.MergeFieldsSuperAsWritten` and `FieldMerge.AsWrittenFreezesSibling`) | `MergeScenarios.SiblingSuper` (via `FieldMerge.MergeFieldsSuper` and `FieldMerge.ScopedUpdatesSibling`) |
