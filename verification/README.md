# JSON stack and fixed-point control kernels, verified

A Dafny model of two parts of the repository and proofs of what they promise:

- **The JSON stack** of `libs/cjson`: parser, growing-buffer printer, minifier, child
  lists on the heap, deep comparison, JSON Pointer (RFC 6901), JSON Patch (RFC 6902)
  and JSON Merge Patch (RFC 7396).
- **Fixed-point kernels** of `libs/fieldctrl` and `libs/filters`: the 32-step CORDIC, the
  PID controller with its period cache, the exponential moving average and the designed
  filters, on the scalars of `libs/linears`.

`dafny verify dfyconfig.toml` checks the whole project.

## How it is laid out

| file | what it holds |
|---|---|
| `Text.dfy`, `Sort.dfy`, `Json.dfy` | C strings and their orders, the merge sort as a function, trees and the values they stand for (objects as finite maps) |
| `Links.dfy`, `Items.dfy`, `ItemRuns.dfy`, `SortHeap.dfy` | what the `prev` of a head leads to, the linked child lists on the heap, runs of operations on them, `sort_list` in place |
| `Rendering.dfy`, `Printer.dfy` | the text of a tree as a function, the print buffer that produces it |
| `Strings.dfy`, `StringCodec.dfy`, `Parsing.dfy`, `Parser.dfy`, `PrintParse.dfy` | string literals and their two passes, the grammar as functions, the parser with its offset, the round trip |
| `Literals.dfy`, `Grammar.dfy` | string literals with every escape sequence of RFC 8259, and whole texts of its grammar, as the parser reads them |
| `Minify.dfy`, `MinifyPrint.dfy`, `MinifyComments.dfy` | minifying in place, what it has to do with printing, what comments take with them |
| `Comparison.dfy`, `ComparisonExact.dfy`, `CompareLeaves.dfy` | the two comparisons, what they decide on any tree, what the sorting one leaves of its arguments |
| `Duplicate.dfy`, `Pointer.dfy` | duplication, JSON Pointer |
| `Patch.dfy`, `PatchKeys.dfy`, `Places.dfy`, `PatchSteps.dfy`, `PatchOperations.dfy`, `PatchErrors.dfy` | JSON Patch: generation and application, what becomes of keys in paths, what each operation does, what its error codes mean |
| `PatchLift.dfy`, `PatchWalk.dfy`, `PatchState.dfy`, `PatchRoundTrip.dfy`, `PatchLimits.dfy` | the patch round trip: patches below a child, the walk over two objects without paths, what it keeps, the theorem where keys differ by more than case, examples |
| `PatchClasses.dfy`, `PatchCases.dfy`, `PatchExact.dfy` | the round trip for all trees with distinct keys: the walk class by class of keys that differ by case alone, the state of a class, the theorem |
| `LiveTrees.dfy`, `LivePatch.dfy`, `LiveRuns.dfy`, `CreateLeaves.dfy`, `LiveMerging.dfy`, `LiveLimits.dfy` | documents with what the `prev` of each head leads to: patches and merges on them, runs, what generating patches leaves of its source, adds that are lost |
| `MergePatch.dfy`, `MergeRoundTrip.dfy`, `MergeExact.dfy`, `MergeLimits.dfy` | JSON Merge Patch: the standard's function, the round trip where key orders agree and exactly, examples |
| `Procedures.dfy` | the recursive procedures with their loops, each proved to compute its function |
| `Fixed.dfy`, `Cordic.dfy`, `CordicOctants.dfy`, `CordicCircle.dfy`, `CordicVectors.dfy` | the fixed-point scalars and the CORDIC: bounds, the side of a line a rotation ends on, what sine and cosine are, what the angle of a vector is |
| `Pid.dfy`, `PidTerms.dfy`, `PidController.dfy` | the PID controller without its cache, its control law, the controller that updates its context in place |
| `Ema.dfy`, `Filters.dfy`, `FilterRuns.dfy` | the moving average, the designed filters, their difference equation over runs |

Methods and classes follow the code step by step; their contracts tie them to functions,
and the theorems are about those functions. Where a promise of the code is false the
model keeps the code and a lemma says exactly when the promise holds:

- a key comes back from `decode_pointer_inplace` if and only if it has no `/` and every
  other character than `~` keeps its place (`PatchKeys.DecodeExact`);
- `detach_path` removes the member it is asked for if and only if no earlier key differs
  from it by case alone (`PatchKeys.DetachExact`);
- generated patches, applied in order, turn `from` into `to` if and only if wherever two
  objects are patched into each other every key that is removed, replaced or added comes
  back from the decoder and, of the members whose keys differ by case alone, those to
  detach come first in `from` and the replaced ones among them soon enough
  (`PatchExact.RoundTripExact`; `PatchRoundTrip.RoundTrip` without the second part where no
  keys differ by case alone): no other patch can put right what a lost key did, because
  decoding again and again leads to a fixed point and never around
  (`PatchKeys.DecodesToLess`, `PatchState.BadKeyBreaks`);
- a TEST and the generation of patches sort child lists in place and leave the `prev` of a
  head behind, so a patch does to the document what it does to its tree if and only if its
  add finds the tail (`LivePatch.ApplyExact`, over runs `LivePatch.RunExact`): after a TEST
  of the object if and only if its first and last member kept their places or the add
  replaces the last one (`LiveRuns.TestThenAdd`); on a document that nothing has sorted
  always (`LiveRuns.NoTestsFit`);
- `compare_json` and `cJSON_Compare` give one answer if and only if equal trees have no two
  values for one key and different ones do not differ in the number of equal copies alone
  (`ComparisonExact.AgreeExactly`);
- a pointer leads back to its node if and only if no earlier sibling on the way matches
  (`Pointer.PointerRoundTrip`);
- merging a generated patch restores the target if and only if the change sets no null
  (`MergeRoundTrip.MergeRestores`), and where the two key orders of the generator
  disagree, if and only if also no shared key is passed in `to` first
  (`MergeExact.MergeExactly`);
- a sorted child list is a whole child list again if and only if its first and its last
  item stayed (`SortHeap.SortObject`, `Links.AppendAfterSort`);
- minifying formatted text gives the unformatted text if and only if no string that
  something but closing brackets follows ends with a backslash
  (`MinifyPrint.MinifyUnformats`);
- printed text parses back if and only if it is nested at most 1000 deep
  (`PrintParse.ParseUndoesPrint`), and so does any text of the grammar, with blanks and
  escape sequences as its writer chose them (`Grammar.GrammarReads`);
- a step of the PID controller fails if and only if the period is not positive or a value
  on the way to its three terms needs more than 64 bits (`PidTerms.StepStatus`);
- a patch that fails leaves the tree alone, except that a `replace` without a value and a
  `move` to where nothing can be added have removed the old item
  (`PatchErrors.ReplaceRemoves`, `PatchErrors.MoveRemoves`).

What the fixed-point kernels compute is said without their own steps: sine and cosine have
the sign of the quadrant and the order of size of the octant for every angle, without
exception (`CordicCircle.Quadrants`, `CordicCircle.Octants`), within one unit of the circle
(`CordicCircle.Circle`); so has the angle of a vector (`CordicVectors.AngleOctants`). The
proof follows the path of an angle on a line and shows that every other path leaves it on
the right side for good.

Where code and documentation disagree the model follows the code: `decode_array_index_from_pointer`
reads an empty token as index 0, which section 4 of RFC 6901 does not allow, and
`cJSON_Minify` takes a quote behind a backslash for an escaped one even if that
backslash is itself escaped. Bit operations are written as the arithmetic they perform.

Lemmas over sequences and trees turn automatic induction off; every induction is written
out.

## Model

| member | source | states |
|---|---|---|
| `Text.CaseInsensitiveCompare` | libs/cjson/src/cJSON_Utils.c:101-109 | the loop has the sign of the lexicographic order of the lower-cased strings, and is 0 exactly for strings equal but for case |
| `Text.CompareTransitive` | libs/cjson/src/cJSON_Utils.c:83-109 | `compare_strings` is transitive, strictly where one step is strict, with and without case |
| `Text.DecimalRoundTrip` | libs/cjson/src/cJSON_Utils.c:1188-1188 | reading back the digits `sprintf("%lu")` prints gives the number |
| `Sort.SortPermutes` | libs/cjson/src/cJSON_Utils.c:484-593 | the merge sort returns a permutation |
| `Sort.SortSorts` | libs/cjson/src/cJSON_Utils.c:484-593 | its result is ordered by key, for every list, with the shortcut for ascending input |
| `Sort.SortDistinct` | libs/cjson/src/cJSON_Utils.c:484-593 | with distinct keys the result ascends strictly and keeps exactly the same members |
| `Sort.SortAgrees` | libs/cjson/src/cJSON_Utils.c:484-593 | where both orders agree on the keys, sorting with and without case is the same |
| `SortHeap.SortList` | libs/cjson/src/cJSON_Utils.c:484-593 | on the heap: from any list with a correct next-chain and correct non-head prev links, `sort_list` terminates, relinks exactly these items, and returns a chain of the sorted sequence with correct non-head prev links; prev of the head stays what it was if the head stays and is NULL otherwise |
| `SortHeap.SortObject` | libs/cjson/src/cJSON_Utils.c:595-602 | the children are sorted, and whatever the prev of their head led to before, afterwards it leads where `SortBack` says; a whole child list is one again, as a later append needs, if and only if the first and the last item kept their places |
| `Links.AppendAfterSort` | libs/cjson/src/cJSON_Utils.c:484-602 | an append right after the sort of a whole list works if and only if both ends stayed; if another item has come first the new one is lost, if only the tail has moved everything behind the old tail is lost instead |
| `SortHeap.MergeLists` | libs/cjson/src/cJSON_Utils.c:534-592 | the merge loop and the two appends produce the chain of the merged sequences and touch no other item |
| `SortHeap.FindMiddle` | libs/cjson/src/cJSON_Utils.c:509-521 | the two-speed walk ends on the first item of the second half |
| `SortHeap.CutAt` | libs/cjson/src/cJSON_Utils.c:522-527 | cutting before it leaves two well-formed chains |
| `SortHeap.IsAscending` | libs/cjson/src/cJSON_Utils.c:498-507 | the scan says whether the list ascends strictly |
| `Items.GetArrayItem` | libs/cjson/src/cJSON.c:1907-1924 | returns the item at the index, or NULL past the end |
| `Items.AddItemToArray` | libs/cjson/src/cJSON.c:2012-2043 | for any child list, whatever the prev of its head leads to: the item goes behind that item and everything behind it is dropped, or nowhere if it is NULL, and the call succeeds all the same; on a whole list that is appending; fails only for NULL or the array itself |
| `Items.DetachItemViaPointer` | libs/cjson/src/cJSON.c:2243-2277 | removes the item from the sequence and returns it with no links; a new head inherits the prev of the old one, a new tail repairs it |
| `Items.DetachItemFromArray` | libs/cjson/src/cJSON.c:2279-2287 | the same by index; outside the list it returns NULL and changes nothing |
| `Items.DetachByIndex` | libs/cjson/src/cJSON_Utils.c:393-427 | `detach_item_from_array` does the same |
| `Items.InsertItemInArray` | libs/cjson/src/cJSON.c:2319-2351 | inserts before the index or appends past the end; a negative index or NULL is refused |
| `Items.InsertByIndex` | libs/cjson/src/cJSON_Utils.c:693-728 | `insert_item_in_array` inserts at the index and refuses one past the end |
| `Items.ReplaceItemViaPointer` | libs/cjson/src/cJSON.c:2353-2400 | puts the replacement at the place of the item, which leaves with no links (and is freed: see the runs) |
| `ItemRuns.Run` | libs/cjson/src/cJSON.c:2012-2400 | any run of append, insert, detach and replace with items that are in no list and not freed by a replace acts on the child sequence as those operations, keeps the chain well formed after every call, and leaves every other item that may still be used without a next link |
| `ItemRuns.EffectMembers` | libs/cjson/src/cJSON.c:2012-2400 | an operation brings in nothing but its item and takes out nothing but the one at its place |
| `Comparison.CompareJsonDecides` | libs/cjson/src/cJSON_Utils.c:604-690 | on trees with distinct keys `compare_json` holds exactly when the trees stand for equal values, objects as finite maps, with and without case |
| `Comparison.LookupCompareDecides` | libs/cjson/src/cJSON.c:3057-3180 | `cJSON_Compare` decides the same equality |
| `Comparison.ComparisonsAgree` | libs/cjson/src/cJSON_Utils.c:595-690 | hence sorting and walking in lockstep agrees with looking up both ways |
| `Comparison.DuplicateKeysDisagree` | libs/cjson/src/cJSON_Utils.c:595-690 | with a repeated key they differ: a concrete pair of objects |
| `ComparisonExact.ChosenSort` | libs/cjson/src/cJSON_Utils.c:484-593 | the sort turns members with equal keys round, for every list |
| `ComparisonExact.CompareExact` | libs/cjson/src/cJSON_Utils.c:604-690 | on any two trees `compare_json` holds exactly when every key has equal values in both, as often and in the same order |
| `ComparisonExact.LookupExact` | libs/cjson/src/cJSON.c:3057-3180 | on any two different trees `cJSON_Compare` holds exactly when members with one key have one value, nothing is invalid, and both have the same values |
| `ComparisonExact.AgreeExactly` | libs/cjson/src/cJSON_Utils.c:604-690 | the two give one answer if and only if trees that are equal copy by copy have no two values for one key (and no invalid item) and trees that are not do not differ in the number or order of equal copies alone |
| `ComparisonExact.CopyAgrees` | libs/cjson/src/cJSON_Utils.c:604-690 | a tree and its copy: `compare_json` finds them equal, `cJSON_Compare` does so if and only if no key has two values and no item is invalid |
| `CompareLeaves.CompareSymmetric` | libs/cjson/src/cJSON_Utils.c:604-690 | the order of the arguments of `compare_json` does not matter |
| `CompareLeaves.AfterDenotes` | libs/cjson/src/cJSON_Utils.c:655-657 | the tree `compare_json` leaves, sorted as far as the walk got, has the value it had, with and without case, and distinct keys stay distinct |
| `Procedures.CompareJson` | libs/cjson/src/cJSON_Utils.c:604-690 | the procedure with its loops computes the compared function, and leaves both trees sorted as `AfterCompare` says |
| `Procedures.CompareItems` | libs/cjson/src/cJSON_Utils.c:630-650 | the loop over two arrays, with what it leaves of both |
| `Procedures.CompareMembers` | libs/cjson/src/cJSON_Utils.c:655-682 | the lockstep loop over two sorted objects, with what it leaves of both |
| `Procedures.LookupCompare` | libs/cjson/src/cJSON.c:3057-3180 | `cJSON_Compare` of two different items with its loops |
| `Procedures.LookupEach` | libs/cjson/src/cJSON.c:3143-3172 | one of its two lookup loops |
| `Duplicate.DuplicateExact` | libs/cjson/src/cJSON.c:2774-2858 | duplication yields the same tree exactly when no more than CJSON_CIRCULAR_LIMIT levels are nested below the depth it starts at |
| `Procedures.Duplicate` | libs/cjson/src/cJSON.c:2774-2858 | the recursive procedure with its child loop |
| `Pointer.PointerEncodedLength` | libs/cjson/src/cJSON_Utils.c:157-170 | the length of the escaped key |
| `Pointer.EncodeStringAsPointer` | libs/cjson/src/cJSON_Utils.c:173-196 | stores the escaped key and its NUL at the destination and nothing else |
| `Pointer.EncodeUnescape` | libs/cjson/src/cJSON_Utils.c:173-196 | an escaped key is a valid token and unescapes to the key, sections 3 and 4 of RFC 6901 |
| `Pointer.ComparePointers` | libs/cjson/src/cJSON_Utils.c:120-154 | the loop computes whether a name matches a token |
| `Pointer.MatchIsUnescape` | libs/cjson/src/cJSON_Utils.c:120-154 | a name matches a token exactly when the token is valid and unescapes to it |
| `Pointer.MatchEncoded` | libs/cjson/src/cJSON_Utils.c:120-154 | a name matches an escaped key followed by nothing or a slash exactly when it is that key |
| `Pointer.DecodeArrayIndexFromPointer` | libs/cjson/src/cJSON_Utils.c:274-299 | the index loop with its 64-bit wrap-around and its two error exits |
| `Pointer.DecodePrinted` | libs/cjson/src/cJSON_Utils.c:274-299 | a printed index below 2^64 is read back |
| `Pointer.IndexExact` | libs/cjson/src/cJSON_Utils.c:274-299 | an array index of section 4 of RFC 6901 is read as its number in 64 bits, the empty token as zero, and every other token is refused: other characters and leading zeros |
| `Pointer.IndexIsDecimal` | libs/cjson/src/cJSON_Utils.c:274-299 | the array indices of the standard are exactly the printed numbers |
| `Pointer.GetItemFromPointer` | libs/cjson/src/cJSON_Utils.c:301-346 | the walk over tokens computes the resolved position, or NULL on every error path |
| `Pointer.FindFinds` | libs/cjson/src/cJSON_Utils.c:198-259 | `FindPointerFromObjectTo` finds every node and prints the path to it |
| `Pointer.PointerRoundTrip` | libs/cjson/src/cJSON_Utils.c:198-346 | resolving the pointer found for a node returns that node if and only if no earlier sibling on the way matches; with distinct keys it always does, whatever `~` and `/` the keys contain |
| `Pointer.RepeatedKeyMisleads` | libs/cjson/src/cJSON_Utils.c:198-346 | the pointer found for the second of two members with one key leads to the first |
| `Patch.DecodePointerInplace` | libs/cjson/src/cJSON_Utils.c:359-390 | the in-place loop computes the decoding function on the buffer |
| `PatchKeys.DecodeExact` | libs/cjson/src/cJSON_Utils.c:359-390 | decoding an escaped key in place gives the key back if and only if the key survives: no `/`, and every character but `~` at its own place |
| `PatchKeys.DecodedIs` | libs/cjson/src/cJSON_Utils.c:359-390 | what the in-place decoder leaves of any escaped key: as many characters, a tilde kept, a slash one place behind where it belongs, otherwise the escaped character at the place |
| `PatchKeys.DecodesToLess` | libs/cjson/src/cJSON_Utils.c:359-390 | a key that decodes (up to case) to one that does not survive does not survive either and is strictly further from a fixed point, so decoding makes no cycles |
| `PatchKeys.PlainSurvives` | libs/cjson/src/cJSON_Utils.c:359-390 | keys without `~` and `/` survive |
| `PatchKeys.DetachExact` | libs/cjson/src/cJSON_Utils.c:430-481 | `detach_path` takes exactly the addressed member if and only if no earlier key equals it but for case |
| `Places.ResolvePlace` | libs/cjson/src/cJSON_Utils.c:301-346 | the printed path of a place in the value resolves to the node that holds it |
| `Places.UpdatePlace` | libs/cjson/src/cJSON_Utils.c:807-1036 | changing that node changes the value at that place and nowhere else |
| `Procedures.CreatePatches` | libs/cjson/src/cJSON_Utils.c:1141-1279 | `create_patches` appends what its function says |
| `Procedures.CreateForItems` | libs/cjson/src/cJSON_Utils.c:1172-1213 | its three array loops: common elements, removals at one index, additions |
| `Procedures.CreateForMembers` | libs/cjson/src/cJSON_Utils.c:1225-1273 | its loop over two sorted objects |
| `Procedures.ApplyPatches` | libs/cjson/src/cJSON_Utils.c:1067-1094 | on a document with its links: patches are applied in order up to the first that fails |
| `PatchSteps.RemoveApplies` | libs/cjson/src/cJSON_Utils.c:887-903 | a composed remove takes the child out of the value at its place |
| `PatchSteps.AddKeyApplies` | libs/cjson/src/cJSON_Utils.c:941-1017 | a composed add sets the key of the object at its place |
| `PatchSteps.PushApplies` | libs/cjson/src/cJSON_Utils.c:941-1004 | a composed add with `-` appends to the array at its place |
| `PatchSteps.ReplaceChildApplies` | libs/cjson/src/cJSON_Utils.c:887-1017 | a composed replace sets the child at its place |
| `PatchOperations.TestApplies` | libs/cjson/src/cJSON_Utils.c:831-836 | for any patch document with these members: a test returns 0 if and only if the value at the path equals the given one with objects as maps; the tree is sorted and keeps its value |
| `PatchOperations.TestExact` | libs/cjson/src/cJSON_Utils.c:831-836 | for any path: a test returns 0 if and only if the path resolves, the patch has a value and both are equal as maps, and 1 otherwise; the tree keeps its value, and is untouched where nothing is compared |
| `PatchOperations.TestMissing` | libs/cjson/src/cJSON_Utils.c:831-836 | a test of a child that is not there returns 1 |
| `PatchOperations.AddsAt` | libs/cjson/src/cJSON_Utils.c:959-1023 | adding at a path sets the key of the object there, or shifts the items of the array there up from the index, and leaves the rest of the tree alone |
| `PatchOperations.AddApplies` | libs/cjson/src/cJSON_Utils.c:941-1023 | an add does that with a copy of its value, as section 4.1 of RFC 6902 says |
| `PatchOperations.AddPushes` | libs/cjson/src/cJSON_Utils.c:941-987 | an add with the index `-` appends to the array at the path |
| `PatchOperations.RemoveAtApplies` | libs/cjson/src/cJSON_Utils.c:887-903 | a remove takes away exactly the member or item its path names |
| `PatchOperations.DetachedItem` | libs/cjson/src/cJSON_Utils.c:430-481 | what is detached is the item whose place the path names |
| `PatchOperations.ReplaceApplies` | libs/cjson/src/cJSON_Utils.c:887-1023 | a replace puts its value at the place of the old one, in arrays too, where the code removes and inserts |
| `PatchOperations.DetachMissing` | libs/cjson/src/cJSON_Utils.c:887-903 | removing or replacing a child that is not there returns 13 and changes nothing |
| `PatchOperations.RootApplies` | libs/cjson/src/cJSON_Utils.c:838-885 | with the empty path an add or a replace puts its value for the whole tree, returning 7 without a value and 8 for one too deep to duplicate, and a remove leaves an item of no type |
| `PatchErrors.MalformedExact` | libs/cjson/src/cJSON_Utils.c:817-831 | status 2 exactly for a patch without a string as its path, status 3 exactly for one with a path but without one of the six operations, and both leave the tree alone |
| `PatchErrors.AddExact` | libs/cjson/src/cJSON_Utils.c:959-1026 | an add behind an existing place returns 10 exactly for an array index past the end, 11 exactly for a token that is no index, 9 exactly under a value without children and 0 otherwise, and a failing one changes nothing |
| `PatchErrors.AddBelowMissing` | libs/cjson/src/cJSON_Utils.c:961-980 | an add below a child that is not there returns 9 and changes nothing, however long the path is |
| `PatchErrors.AddWithoutSlash` | libs/cjson/src/cJSON_Utils.c:961-980 | so does one behind a path that is not empty and has no slash |
| `PatchErrors.MembersMissing` | libs/cjson/src/cJSON_Utils.c:906-949 | an add without a value returns 7, a move or copy without from returns 4, and they change nothing |
| `PatchErrors.ReplaceRemoves` | libs/cjson/src/cJSON_Utils.c:887-949 | a replace without a value returns 7 and has removed the old value by then |
| `PatchErrors.MoveRemoves` | libs/cjson/src/cJSON_Utils.c:906-1026 | a move to where nothing can be added returns what the add would and has removed its source by then |
| `PatchErrors.FirstFailure` | libs/cjson/src/cJSON_Utils.c:1038-1094 | a run returns what its first failing patch returns and leaves what that has left; what is no array returns 1 |
| `PatchOperations.MoveApplies` | libs/cjson/src/cJSON_Utils.c:905-1023 | a move removes the value at one place and adds that value at another place of what is left |
| `PatchOperations.CopyApplies` | libs/cjson/src/cJSON_Utils.c:905-1023 | a copy adds the value of one place at another and keeps the first |
| `PatchLift.LiftCreated` | libs/cjson/src/cJSON_Utils.c:1141-1279 | patches generated with a path through a child act on the child exactly as those generated for it alone, failures included |
| `PatchWalk.WalkAgrees` | libs/cjson/src/cJSON_Utils.c:1206-1271 | applying the patches for two objects is a walk over the member list: detach the decoded key without case, delete and append the decoded key, patch the shared items |
| `PatchWalk.ItemsAgree` | libs/cjson/src/cJSON_Utils.c:1170-1204 | applying the patches for two arrays patches the shared elements, drops the rest of from and appends the rest of to |
| `PatchState.WalkKeeps` | libs/cjson/src/cJSON_Utils.c:1206-1271 | a key that no detached or added key decodes to keeps its item through all the patches |
| `PatchState.BadKeyBreaks` | libs/cjson/src/cJSON_Utils.c:807-1279 | if a key that is removed, replaced or added does not survive the decoder, the patches fail or end with another object, whatever the other keys are |
| `PatchRoundTrip.CreateCorrect` | libs/cjson/src/cJSON_Utils.c:1141-1279 | patches created for two subtrees, applied anywhere in a tree that holds the first there, leave it with the second there and nothing else changed, if and only if the changed keys survive |
| `PatchRoundTrip.RoundTrip` | libs/cjson/src/cJSON_Utils.c:807-1279 | for all trees whose keys differ by more than case within each object: applying the case-sensitive patches generated for (from, to) in order to a copy of from returns 0 and leaves a tree equal to to, if and only if wherever two objects are patched into each other the removed, replaced and added keys survive the decoder |
| `PatchClasses.WalkClass` | libs/cjson/src/cJSON_Utils.c:1206-1271 | the patches for two objects act on the members whose keys differ by case alone as the patches of that class do on that class |
| `PatchExact.ClassExact` | libs/cjson/src/cJSON_Utils.c:1206-1271 | the patches of one class end right if and only if the members to detach come before those kept, no replaced one has more members before it than detached keys are smaller, and every kept item can be patched |
| `PatchExact.CaseExact` | libs/cjson/src/cJSON_Utils.c:807-1279 | the same for whole trees: the patches for (from, to), applied to any tree with the value of from, end right if and only if that tree is restorable |
| `PatchExact.RoundTripExact` | libs/cjson/src/cJSON_Utils.c:807-1279 | for all trees with distinct keys: applying the case-sensitive patches generated for (from, to) to a copy of from returns 0 and leaves a tree equal to to, if and only if the changed keys survive and every class of keys that differ by case alone is in order |
| `PatchExact.RestorableDistinct` | libs/cjson/src/cJSON_Utils.c:807-1279 | without keys that differ by case alone that is the condition of `RoundTrip` |
| `PatchLimits.PlainRoundTrip` | libs/cjson/src/cJSON_Utils.c:807-1279 | in particular for all trees with distinct keys without upper-case letters, `~` and `/` |
| `PatchLimits.AddNeedsSurvival` | libs/cjson/src/cJSON_Utils.c:359-390 | adding one member round-trips if and only if its key survives |
| `PatchLimits.SlashBreaks` | libs/cjson/src/cJSON_Utils.c:367-387 | a key with a slash breaks the round trip |
| `PatchLimits.CaseBreaks` | libs/cjson/src/cJSON_Utils.c:466-466 | of two keys that differ by case alone a generated remove takes the wrong one in one order of the members and the right one in the other |
| `LiveTrees.LiveAfterPlain` | libs/cjson/src/cJSON_Utils.c:655-657 | a document after `compare_json`, its links forgotten, is the tree `compare_json` leaves |
| `LivePatch.ApplyExact` | libs/cjson/src/cJSON_Utils.c:807-1064 | on a document whose heads may lead anywhere: a patch returns the status and leaves the tree it does on the tree alone, if and only if its add, if it gets to one, finds the tail; every operation but TEST leaves a whole document whole |
| `LivePatch.RunExact` | libs/cjson/src/cJSON_Utils.c:1067-1094 | a run of patches agrees with the run on the tree after every patch, if and only if every add of the run finds the tail |
| `LiveRuns.NoTestsFit` | libs/cjson/src/cJSON_Utils.c:807-1094 | on a whole document a run without a TEST loses no add |
| `LiveRuns.LiveRoundTrip` | libs/cjson/src/cJSON_Utils.c:807-1279 | the round trip on a whole document: the generated patches lose no add, and lead to to if and only if from is restorable |
| `LiveRuns.ReceivesAfterTest` | libs/cjson/src/cJSON_Utils.c:831-836 | an object that a TEST has compared receives a later add if and only if the sort left its first and last member in place or the add replaces the member sorted last |
| `LiveRuns.TestThenAdd` | libs/cjson/src/cJSON_Utils.c:831-1023 | the same for a TEST and an add at any path of a whole document |
| `LiveRuns.EndsByName` | libs/cjson/src/cJSON_Utils.c:595-602 | with distinct keys that is a question of the first and the last key |
| `CreateLeaves.CreatedKeeps` | libs/cjson/src/cJSON_Utils.c:1215-1223 | the tree `create_patches` leaves of from has the value it had and keeps distinct keys distinct |
| `CreateLeaves.CreatedSame` | libs/cjson/src/cJSON_Utils.c:1141-1279 | generating again from it gives the same patches |
| `CreateLeaves.SameDocument` | libs/cjson/src/cJSON_Utils.c:807-1279 | patches applied to the very document they were generated from agree with the run on its tree after every patch if and only if every add finds the tail, and then lead to to if and only if what is left of from is restorable |
| `LiveLimits.LostAdd` | libs/cjson/src/cJSON_Utils.c:831-1017 | a TEST that succeeds, then an add that returns 0 and adds nothing |
| `LiveLimits.LostOnSource` | libs/cjson/src/cJSON_Utils.c:1067-1279 | the one patch generated for a new member returns 0 on the document it was generated from and adds nothing to it |
| `MergeRoundTrip.MergeIsRfc` | libs/cjson/src/cJSON_Utils.c:1321-1379 | `merge_patch` computes the function of section 2 of RFC 7396 on maps, and fails exactly when a part of the patch is nested too deep to duplicate |
| `MergeRoundTrip.GenerateIsDiff` | libs/cjson/src/cJSON_Utils.c:1391-1471 | where both key orders agree, `generate_merge_patch` yields the difference of the two values, also below the call that drops the case flag |
| `MergeValues.DiffRestores` | libs/cjson/src/cJSON_Utils.c:1391-1471 | merging the difference restores the target value if and only if the change sets no null |
| `MergeRoundTrip.MergeRestores` | libs/cjson/src/cJSON_Utils.c:1321-1471 | where both key orders agree: generation returns nothing only for equal values; otherwise merging the patch into a copy of from yields to if and only if the change sets no null |
| `MergeExact.MergeExactly` | libs/cjson/src/cJSON_Utils.c:1321-1471 | for all trees with distinct keys: merging the generated patch into a copy of from (or leaving it alone when none is generated) gives to if and only if the change sets no null, no comparison without case takes different values for equal, and no shared key is passed in to before it is passed in from, below the top in the order the comparison before the recursive call leaves |
| `MergeLimits.PlainMergeRestores` | libs/cjson/src/cJSON_Utils.c:1321-1471 | in particular for distinct keys without upper-case letters and a target without nulls |
| `MergeLimits.MixedCaseBreaks` | libs/cjson/src/cJSON_Utils.c:1423-1423 | with mixed-case keys and the flag off the walk by `strcmp` over a list sorted without case reports a shared key twice |
| `MergeLimits.MixedCaseLoses` | libs/cjson/src/cJSON_Utils.c:1455-1455 | the same through the case-sensitive functions: a key that from and to share below the top is lost |
| `MergeLimits.NullLost` | libs/cjson/src/cJSON_Utils.c:1340-1350 | a null in the target is not set: the generated patch leaves from as it is |
| `MergeLimits.TiedKeysMerge` | libs/cjson/src/cJSON_Utils.c:1453-1456 | keys below the top that differ by case alone need not hurt: the comparison has sorted both sides before the recursive call does |
| `LiveMerging.WholeMerge` | libs/cjson/src/cJSON_Utils.c:1321-1379 | merging into a whole document, or into nothing, does what it does on the tree and leaves the document whole |
| `LiveLimits.LostInMerge` | libs/cjson/src/cJSON_Utils.c:1321-1379 | merging into a document that was sorted can lose a new member |
| `Procedures.MergePatch` | libs/cjson/src/cJSON_Utils.c:1321-1379 | on a document with its links: the loop over the patch with its detach, recursion and append |
| `Procedures.GenerateMergePatch` | libs/cjson/src/cJSON_Utils.c:1391-1471 | the walk over two sorted objects; the recursive call gets the items as the comparison left them |
| `Rendering.RenderNulFree` | libs/cjson/src/cJSON.c:1418-1881 | printed text contains no NUL |
| `Rendering.TwoItems` | libs/cjson/src/cJSON.c:1590-1650 | elements stand in one line, formatted with a blank behind the comma |
| `Rendering.TwoMembers` | libs/cjson/src/cJSON.c:1770-1881 | formatted members stand on lines of their own behind a tab for each level, with a tab behind the colon, and the closing brace behind one tab less; unformatted ones stand in one line |
| `Rendering.EmptyObject` | libs/cjson/src/cJSON.c:1770-1881 | an object without members is spread over two lines |
| `Rendering.Layout` | libs/cjson/src/cJSON.c:1590-1881 | a concrete tree with its formatted and its unformatted text |
| `Printer.PrintBuffer.Ensure` | libs/cjson/src/cJSON.c:485-568 | `ensure` succeeds exactly when offset + needed + 1 fits the length the buffer can have (its own when preallocated, INT_MAX otherwise), keeps the contents, and leaves room for `needed` bytes |
| `Printer.PrintBuffer.UpdateOffset` | libs/cjson/src/cJSON.c:571-581 | moves the offset behind the text printed last |
| `Printer.PrintBuffer.PrintNumber` | libs/cjson/src/cJSON.c:591-658 | prints an int in decimal |
| `Printer.PrintBuffer.CountEscapes` | libs/cjson/src/cJSON.c:976-1000 | the first pass counts exactly the characters escaping adds |
| `Printer.PrintBuffer.CopyEscaped` | libs/cjson/src/cJSON.c:1021-1063 | the second pass stores exactly the escaped string in the room counted |
| `Printer.PrintBuffer.PrintString` | libs/cjson/src/cJSON.c:949-1068 | prints the quoted string; succeeds exactly when it and two more bytes fit |
| `Printer.PrintBuffer.PrintValue` | libs/cjson/src/cJSON.c:1418-1489 | prints exactly the text of the tree behind what is in the buffer, terminated, storing nothing behind it; succeeds exactly when the tree has no invalid item and the text and two more bytes fit |
| `Printer.PrintBuffer.PrintElements` | libs/cjson/src/cJSON.c:1613-1637 | the loop of `print_array` |
| `Printer.PrintBuffer.PrintArray` | libs/cjson/src/cJSON.c:1590-1649 | the same for arrays |
| `Printer.PrintBuffer.PrintMembers` | libs/cjson/src/cJSON.c:1797-1861 | the loop of `print_object` |
| `Printer.PrintBuffer.PrintObject` | libs/cjson/src/cJSON.c:1770-1881 | the same for objects, with tabs by depth |
| `Printer.PrintPreallocated` | libs/cjson/src/cJSON.c:1343-1360 | succeeds exactly when the buffer is at least two bytes longer than the text, stores the text and its NUL and leaves every byte behind them |
| `Printer.Print` | libs/cjson/src/cJSON.c:1234-1299 | returns exactly the text and its NUL, exactly when the text and two more bytes stay within INT_MAX |
| `Printer.PrintBuffered` | libs/cjson/src/cJSON.c:1312-1341 | the same with a caller's first size |
| `Strings.UnescapeSize` | libs/cjson/src/cJSON.c:832-923 | for every input, also where malformed `\u` escapes make the two passes disagree, the second pass stores at most the raw length less the counted escapes |
| `Strings.Walk` | libs/cjson/src/cJSON.c:832-851 | how far the first pass may run ahead of the second, and how many escapes it counts on the way |
| `Strings.HexValueExact` | libs/cjson/src/cJSON.c:671-685 | a character is read as the digit d exactly when it is the d-th of 0123456789abcdef or of 0123456789ABCDEF |
| `Strings.Hex4Exact` | libs/cjson/src/cJSON.c:661-694 | four characters are read as the number they spell with digits of either case, and as 0 when they spell none |
| `StringCodec.Utf8Decodes` | libs/cjson/src/cJSON.c:761-808 | the bytes encoded for a code point decode to it, section 3 of RFC 3629 |
| `StringCodec.Utf16Reads` | libs/cjson/src/cJSON.c:698-816 | every escape sequence of a code point that is no surrogate, one or a surrogate pair, with digits of either case, reads as its UTF-8 encoding, section 7 of RFC 8259 |
| `StringCodec.EscapeReads` | libs/cjson/src/cJSON.c:819-947 | reading back an escaped string gives the string |
| `Literals.NoOther` | libs/cjson/src/cJSON.c:882-903 | a one-letter escape sequence is one of the eight of section 7 of RFC 8259 and no other |
| `Literals.StringReads` | libs/cjson/src/cJSON.c:819-947 | a literal of any legal pieces, plain characters, the eight one-letter escape sequences with `\/` and any spelling of `\u`, is read as the concatenation of what each of them stands for |
| `Literals.LiteralReads` | libs/cjson/src/cJSON.c:1363-1416 | so it is where a value is expected, up to its closing quote |
| `Literals.OtherLetterRefused` | libs/cjson/src/cJSON.c:882-917 | behind any legal pieces a backslash before another letter refuses the literal |
| `Literals.LoneSurrogateRefused` | libs/cjson/src/cJSON.c:714-749 | so does a low surrogate alone, and a high one that no low one follows |
| `Literals.EitherCase` | libs/cjson/src/cJSON.c:661-694 | a concrete literal: `\u00E9` is read as the two bytes of U+00E9 |
| `Parser.ParseHex4` | libs/cjson/src/cJSON.c:661-694 | the number that four digits of either case spell, and 0 for what spells none |
| `Parser.EncodeUtf8` | libs/cjson/src/cJSON.c:761-808 | the loop stores the UTF-8 bytes, last one first |
| `Parser.ParseBuffer.SkipWhitespace` | libs/cjson/src/cJSON.c:1085-1108 | stops on the first character above 32, or on the last one of the buffer |
| `Parser.ParseBuffer.MeasureString` | libs/cjson/src/cJSON.c:832-854 | the first pass: the closing quote and the number of escapes, or failure |
| `Parser.ParseBuffer.Utf16LiteralToUtf8` | libs/cjson/src/cJSON.c:698-816 | stores the bytes and returns the length of the sequence, 0 on every error path |
| `Parser.ParseBuffer.UnescapeInto` | libs/cjson/src/cJSON.c:867-923 | the second pass stays inside memory of the size measured |
| `Parser.ParseBuffer.ParseString` | libs/cjson/src/cJSON.c:819-947 | both passes and the allocation between them compute the literal |
| `Parser.ParseBuffer.ParseNumber` | libs/cjson/src/cJSON.c:307-408 | the characters of a number, `strtod` and the new offset |
| `Parser.ParseBuffer.ParseValue` | libs/cjson/src/cJSON.c:1363-1415 | reads what the grammar function says, moves the offset behind it and restores the depth; terminates by length - offset |
| `Parser.ParseBuffer.ParseElementList` | libs/cjson/src/cJSON.c:1524-1564 | the loop of `parse_array` |
| `Parser.ParseBuffer.ParseArrayText` | libs/cjson/src/cJSON.c:1492-1587 | `parse_array` with its nesting limit |
| `Parser.ParseBuffer.ParseMemberList` | libs/cjson/src/cJSON.c:1682-1745 | the loop of `parse_object` |
| `Parser.ParseBuffer.ParseObjectText` | libs/cjson/src/cJSON.c:1652-1767 | `parse_object` |
| `Parser.ParseText` | libs/cjson/src/cJSON.c:1142-1220 | `cJSON_ParseWithLengthOpts` with byte order mark and the check for the NUL |
| `Grammar.ValueReads` | libs/cjson/src/cJSON.c:1363-1768 | the text of a value in the grammar of RFC 8259, with blanks wherever they may stand, any escape sequences, and numbers that `strtod` takes to the end, is read as its tree in any place, if and only if it is not nested too deep there |
| `Grammar.GrammarReads` | libs/cjson/src/cJSON.c:1085-1220 | a whole text with blanks around it, with or without a byte order mark, is read as its tree up to the NUL, if and only if it is nested at most as deep as the parser goes |
| `Grammar.ShortAfterBom` | libs/cjson/src/cJSON.c:1111-1124 | behind a byte order mark a text of one character without its NUL is refused |
| `PrintParse.ValueReads` | libs/cjson/src/cJSON.c:1363-1881 | the text of a tree at any place of a text is read back as that tree, consuming exactly it, if and only if it is nested within the limit |
| `PrintParse.ParseUndoesPrint` | libs/cjson/src/cJSON.c:1085-1881 | parsing the formatted or unformatted text of a tree rebuilds the same ordered tree and stops at its NUL, if and only if nesting is at most CJSON_NESTING_LIMIT |
| `PrintParse.ParseUndoesPrintWithLength` | libs/cjson/src/cJSON.c:1142-1220 | the same with the length of the text given |
| `Minify.MinifyString` | libs/cjson/src/cJSON.c:2887-2907 | copies a literal to a place not behind it |
| `Minify.SkipOnelineComment` | libs/cjson/src/cJSON.c:2860-2871 | skips to behind the first line end, or to the NUL if there is none |
| `Minify.SkipMultilineComment` | libs/cjson/src/cJSON.c:2873-2885 | skips to behind the first star and slash, or to the NUL if there are none |
| `Minify.MinifyInPlace` | libs/cjson/src/cJSON.c:2909-2955 | the buffer holds the minified text and its NUL, the write cursor never passes the read cursor, and bytes behind the NUL are unchanged |
| `MinifyPrint.MinifyTwice` | libs/cjson/src/cJSON.c:2860-2955 | minifying is idempotent on every text |
| `MinifyPrint.StringLengthQuoted` | libs/cjson/src/cJSON.c:2887-2907 | a printed literal is delimited correctly if and only if its string does not end with a backslash |
| `MinifyPrint.MinifyUnformats` | libs/cjson/src/cJSON.c:1418-1881 | minifying the formatted text of a tree gives its unformatted text if and only if no string that something but closing brackets follows ends with a backslash |
| `MinifyPrint.BackslashBreaks` | libs/cjson/src/cJSON.c:2901-2905 | a concrete tree for which it does not |
| `MinifyComments.LineVanishes` | libs/cjson/src/cJSON.c:2860-2871 | `//`, a text without a line end, a line end and b minify to what b does; without the line end to nothing |
| `MinifyComments.CommentVanishes` | libs/cjson/src/cJSON.c:2873-2885 | `/*`, a text without a star and slash, a star and slash and b minify to what b does; without the end to nothing |
| `MinifyComments.SlashVanishes` | libs/cjson/src/cJSON.c:2929-2940 | a slash that starts no comment is dropped alone |
| `MinifyComments.BehindValue` | libs/cjson/src/cJSON.c:2909-2955 | behind the formatted or unformatted text of a value comments of both kinds take nothing of it, if no string in it ends with a backslash |
| `MinifyComments.PartsMinified` | libs/cjson/src/cJSON.c:2909-2955 | a text of words, printed strings, blanks (carriage returns too) and comments in any order minifies to its words and strings |
| `MinifyComments.CommentedParses` | libs/cjson/src/cJSON.c:2909-2955 | so a printed tree with blanks and comments anywhere between its tokens minifies to its unformatted text, which parses as that tree if it is not nested too deep |
| `MinifyComments.LineBeforeArray` | libs/cjson/src/cJSON.c:2860-2871 | a concrete text: a one-line comment in front of an array leaves the array |
| `Fixed.RoundMagnitudeUnique` | libs/linears/src/numeric.c:83-94 | rounding gives the nearest integer, ties away from zero, and no other integer is that |
| `Fixed.RoundDivMonotone` | libs/linears/src/numeric.c:83-109 | rounding keeps the order |
| `Fixed.RoundDivExact` | libs/linears/src/numeric.c:83-109 | multiples are exact |
| `Fixed.ChecksExactly` | libs/fieldctrl/src/fieldctrl_arith.h:92-110 | the checked operations pass a failed status on, return 0 when they fail, and refuse exactly what needs more than 64 bits; a quotient by zero is DOMAIN |
| `Cordic.NormStep` | libs/fieldctrl/src/cordic.c:29-33 | one truncated rotation multiplies the squared length by at most 1 + 4^-i, up to truncation |
| `Cordic.RotationBounds` | libs/fieldctrl/src/cordic.c:61-66 | through all 32 rotations both coordinates stay below 2^60 + 2^28 and the angle left shrinks with the table |
| `Cordic.LeftoverAngle` | libs/fieldctrl/src/cordic.c:8-24 | at the end no more than the last table entry is left of the angle |
| `Cordic.SinCosBound` | libs/fieldctrl/src/cordic.c:61-72 | no sine or cosine exceeds one |
| `Cordic.FcqSinCos` | libs/fieldctrl/src/cordic.c:42-73 | the loop computes the rotation inside of 64 bits for every int64 angle, and its conversion cannot fail |
| `Cordic.HalfTurn` | libs/fieldctrl/src/cordic.c:42-73 | half a turn more negates both outputs exactly |
| `CordicOctants.BeyondStays` | libs/fieldctrl/src/cordic.c:61-66 | a vector beyond a line by more than the later steps can turn is so after any turn, truncation included |
| `CordicOctants.Passes` | libs/fieldctrl/src/cordic.c:61-66 | an angle larger than that of a line takes the same turns as the line or ends beyond it |
| `CordicOctants.FirstQuadrant` | libs/fieldctrl/src/cordic.c:61-66 | for every angle inside of the first quadrant the vector ends beyond both axes and on the side of the diagonal that the angle is on |
| `CordicCircle.QuarterTurn` | libs/fieldctrl/src/cordic.c:42-73 | a quarter of a turn more makes the cosine the sine and the sine the negated cosine, exactly, for every angle |
| `CordicCircle.Quadrants` | libs/fieldctrl/src/cordic.c:42-73 | for every angle both outputs have exactly the sign of the quadrant, and are zero on the axis alone |
| `CordicCircle.Octants` | libs/fieldctrl/src/cordic.c:42-73 | for every angle the cosine is the larger one exactly in the octants beside the x axis and the sine exactly in those beside the y axis; they are of one size on the diagonals alone |
| `CordicCircle.Circle` | libs/fieldctrl/src/cordic.c:42-73 | for every angle sine^2 + cosine^2 is between (1 - 2^-31)^2 and (1 + 2^-31)^2 |
| `CordicCircle.EndNorm` | libs/fieldctrl/src/cordic.c:42-66 | the squared length at the end of every rotation, from below and from above |
| `Cordic.VectoringBounds` | libs/fieldctrl/src/cordic.c:93-102 | coordinates stay below 2.34 * 2^60 from anywhere in the unit square |
| `Cordic.VectoringGrows` | libs/fieldctrl/src/cordic.c:96-102 | x never decreases |
| `Cordic.VectoringConverges` | libs/fieldctrl/src/cordic.c:96-102 | after k steps |y| is at most x / 2^(k-1) and one unit per step but the first |
| `Cordic.VectoringAngle` | libs/fieldctrl/src/cordic.c:96-104 | the angle moves by less than 5/16 of a turn in all |
| `Cordic.FcqAtan2` | libs/fieldctrl/src/cordic.c:75-107 | the angle lies in [0, one turn); DOMAIN exactly for the zero vector, RANGE exactly for a component at INT64_MIN when neither is zero |
| `Cordic.TurnToAxis` | libs/fieldctrl/src/cordic.c:96-102 | the loop with its early exit computes the vectoring inside of 64 bits |
| `Cordic.OppositeVector` | libs/fieldctrl/src/cordic.c:75-107 | opposite vectors have angles exactly half a turn apart, also where x rounds to zero and the vector is taken along the y axis |
| `CordicVectors.Guided` | libs/fieldctrl/src/cordic.c:96-102 | vectoring of a start beyond a line adds up at least the angle of that line |
| `CordicVectors.Complement` | libs/fieldctrl/src/cordic.c:93-102 | exchanged coordinates have working angles that add up to a quarter of a turn, exactly |
| `CordicVectors.AngleOctants` | libs/fieldctrl/src/cordic.c:75-107 | for every vector that has an angle it lies in the quadrant of the signs of the components and in the octant of their sizes |
| `Pid.StepSafe` | libs/fieldctrl/src/base_impl.h:294-376 | every step that succeeds keeps the integral in its active bounds and the output in [lower, upper], equal to clamp(P + committed I + D); a failing one changes nothing |
| `Pid.LimitedMoves` | libs/fieldctrl/src/base_impl.h:351-360 | the anti-windup stops between I(n-1) and the candidate, does not change the command, and lets the sum cross no limit in the direction it moves |
| `Pid.StoreWithin` | libs/linears/src/numeric.c:153-168 | storing a value between two signals gives a signal between them |
| `Pid.RunSafe` | libs/fieldctrl/src/base_impl.h:228-376 | safety over every run of init, retune, reset and step: each reply keeps its promise from the context it started in |
| `PidTerms.StepObeys` | libs/fieldctrl/src/base_impl.h:301-376 | a step that succeeds reports P = kp * (setpoint - measurement), with the setpoint weighted where that is enabled; I moved by (ki * dt) * (setpoint - measurement), clamped, as far as the crossed limit allows; D = (kd / dt) times the change of the error, or minus that of the measurement, filtered by dt / (Tf + dt); and the clamped sum as its command, each product rounded to nearest |
| `PidTerms.StepStatus` | libs/fieldctrl/src/base_impl.h:301-376 | a step fails with DOMAIN exactly for a period that is not positive and with RANGE exactly where a value on the way to the terms or their sum needs more than 64 bits |
| `PidTerms.ProportionalMonotone` | libs/fieldctrl/src/base_impl.h:313-317 | for gains that are not negative a larger setpoint or a smaller measurement from the same state never gives a smaller P |
| `PidTerms.IntegralFollows` | libs/fieldctrl/src/base_impl.h:329-333 | for gains that are not negative the integral never moves away from the setpoint |
| `PidTerms.DerivativeDirection` | libs/fieldctrl/src/base_impl.h:334-342 | the unfiltered D points with the change of the error, or against that of the measurement |
| `PidTerms.HalfRange` | libs/fieldctrl/src/base_impl.h:301-376 | a concrete step: gain one and an error of half of the range give half of the range |
| `PidTerms.LastSample` | libs/fieldctrl/src/base_impl.h:228-376 | in every run the sample a step differentiates against is that of the last step that succeeded, whatever failed or was retuned since; there is none after an init or a reset |
| `PidTerms.RunObeys` | libs/fieldctrl/src/base_impl.h:228-376 | in every run every step that succeeds obeys the control law |
| `PidTerms.CallsSet` | libs/fieldctrl/src/base_impl.h:228-292 | init and reset set the integral and forget the rest; a retune keeps everything but moves the integral to the nearest value of its new bounds and drops the derivative with its gain |
| `PidTerms.CallsAccept` | libs/fieldctrl/src/base_impl.h:187-292 | init and retune accept exactly the tunings with gains of one sign, ordered limits and enabled options in range, init and reset exactly the integrals within the bounds |
| `PidController.Controller.Init` | libs/fieldctrl/src/base_impl.h:228-252 | `pid_init` on any memory: accepts and rejects as specified, leaves an initialised context with nothing cached, or on failure everything unchanged |
| `PidController.Controller.Retune` | libs/fieldctrl/src/base_impl.h:254-274 | `pid_retune`, dropping the cache only when a gain it depends on changes; failure leaves the context unchanged |
| `PidController.Controller.Reset` | libs/fieldctrl/src/base_impl.h:276-292 | `pid_reset`, keeping the cache; failure leaves the context unchanged |
| `PidController.Controller.Step` | libs/fieldctrl/src/base_impl.h:294-376 | a step that succeeds obeys the control law `PidTerms.Obeys` on setpoint, measurement, period and the context before it, fails exactly where `PidTerms.StepStatus` says, and equals a step that recomputes ki*dt, kd/dt and dt/(Tf+dt); failure leaves the context unchanged |
| `PidController.Run` | libs/fieldctrl/src/base_impl.h:228-376 | over every interleaving of calls with any periods, statuses, outputs and non-cache state equal those of a controller without a cache |
| `PidController.ResetAsInit` | libs/fieldctrl/src/base_impl.h:228-376 | two controllers: one reset after any history, its cache kept, and one freshly initialised with the same tuning on any memory give equal statuses and outputs for every later run |
| `Ema.History.WorkStep` | libs/filters/src/filters_work.c:4-21 | fails only for a negative weight; neither the product sum nor its rounding overflows; the state is overwritten only on success |
| `Ema.NextBetween` | libs/filters/src/filters_work.c:12-16 | every update lands between the old state and the input |
| `Ema.RunInHull` | libs/filters/src/filters_work.c:4-21 | no run leaves the hull of its first state and its inputs |
| `Ema.DeadBand` | libs/filters/src/filters_work.c:12-16 | a held input leaves the state where it is if and only if twice alpha times |error| is below one, or exactly one with the tie pointing toward zero |
| `Ema.ErrorShrinks` | libs/filters/src/filters_work.c:12-16 | under a held input the error never grows or changes sign, and shrinks outside of the dead band |
| `Ema.Settles` | libs/filters/src/filters_work.c:12-16 | the dead band is reached within as many steps as the error has units |
| `Filters.GainExact` | libs/filters/src/filters_design_impl.h:98-165 | the taps of a designed low-pass sum exactly to its denominator, those of a high-pass or band-pass section to zero |
| `Filters.NyquistGain` | libs/filters/src/filters_design_impl.h:98-165 | at half of the sample rate a designed low-pass has no gain and a high-pass that of its denominator, but for rounding as stated for each order, and a band-pass exactly none; order one has two taps, order two symmetric ones; designing moves no history |
| `Filters.CascadeInPlace` | libs/filters/src/filters_design_impl.h:240-291 | all sections move on or none, and the output is rounded once from the last exact sum |
| `Filters.PassAll` | libs/filters/src/filters_design_impl.h:251-277 | the first loop evaluates every section and changes none |
| `FilterRuns.CascadeAlong` | libs/filters/src/filters_design_impl.h:251-287 | one sample: every section gives its equation, rounded once, and hands it on |
| `FilterRuns.RunInPlace` | libs/filters/src/filters_design_impl.h:240-291 | over any run of samples through sections updated in place, output n of each section is the rounded b0 x[n] + b1 x[n-1] + b2 x[n-2] - a1 y[n-1] - a2 y[n-2] of its sequences of accepted inputs and of outputs, the next section is fed exactly that, and the narrow output is the last sum rounded once |
| `FilterRuns.ThreeTaps` | libs/filters/src/filters_design_impl.h:240-291 | a concrete run: taps of a quarter, a half and a quarter spread one sample so |
| `Filters.SettledStep` | libs/filters/src/filters_design_impl.h:240-291 | a filter at rest on the level it is fed gives exactly that level (low-pass) or exactly 0, and stays at rest |
| `Filters.SettledRun` | libs/filters/src/filters_design_impl.h:240-461 | so it does through any interleaving of steps and accepted retunes |
| `Filters.SeedSettles` | libs/filters/src/filters_design_impl.h:229-236 | where init and reset seed a filter it is at rest |
| `Filters.FirWrite` | libs/filters/src/filters_design_impl.h:482-497 | the taps sum exactly to the requested DC value for every odd length, whatever the others round to; with the other taps up to a bound the centre tap stays within 64 bits while that many bounds and the DC value do |

## Left out

- Pointer, comparison and generation work on trees as values; documents with the `prev` of every head are values too. That the code relinks items as these say is proved on the heap for the list operations and `sort_list`, not for whole documents; shared subtrees are left out.
- Items.AddItemToArray: says nothing about a list whose head leads to an item that has left it, which may be freed memory; patches and merges that come to that are `Unstated` and `Lost`.
- PatchOperations.AddApplies: like the other operations in that file it is about documents whose child lists are whole; `LivePatch.ApplyExact` says when others do the same.
- PatchErrors.AddExact: stated for tokens without `~`; for what the decoder makes of escapes there are `PatchKeys.DecodedIs` and, for keys and indices, `PatchOperations.AddApplies`.
- Literals.LoneSurrogateRefused: malformed digits behind `\u` are read as 0 (`Strings.Hex4Exact`) and are no legal piece; what a text with them becomes is left to the functions.
- What generating a merge patch leaves of its arguments is left out, as is an exact condition for merging into a document that was sorted (`LiveLimits.LostInMerge` shows a loss).
- `cJSON_Compare` of an item with itself by address, items of type `cJSON_Raw`, and references (`cJSON_IsReference`, `cJSON_StringIsConst`) are not part of the model.
- Numbers are the `int` values of items; printing and comparing other doubles (`%1.15g`, `compare_double`) is left out, and `strtod` is a parameter of the parser.
- Allocation always succeeds; hooks, freeing, locales and the global error position are left out, and where the parser stops on failure is not stated.
- A patch operation `move` whose `from` is no string is undefined in C; the model returns status 5.
- The key of an item is constant in `Items`, so renaming by `add_item_to_object` is left out.
- PatchRoundTrip.RoundTrip: stated for trees without two keys of one object that differ by case alone; `PatchExact.RoundTripExact` covers all trees with distinct keys. Both are about case-sensitive generation and application.
- MergeRoundTrip.MergeRestores: stated for trees on which the two orders used by the generator agree; `MergeExact.MergeExactly` covers all trees, with a condition read off the walk.
- Items.ReplaceItemViaPointer: freeing the replaced item is not modelled as such; `ItemRuns` takes it out of the items that may be used.
- Accuracy of sine and arctangent against the real functions is left out; `CordicCircle` and `CordicVectors` say which quadrant and octant they are in and how far from the circle.
- Filter poles and FIR taps come from floating-point design and are arbitrary integers here; whether a filter is stable is not stated.
- Checks for NULL and overlapping arguments are left out of `PidController`.
- Floating-point variants, SVPWM, FOC, SMO, DTC, Kalman and particle filters, base64, the demo and all other libraries are not modelled.
