# Road-change classification of augmented diffs, in Dafny

This project models the decision logic of `counter/adiff_to_csv.py`. The
script reads an augmented diff, which is a list of `create`, `modify` and
`delete` actions on map objects. For each changed node or way it writes one
row per road-change category that fired: traffic calming, crossing, crossing
island, bus stop, speed limit, lane count or lighting.

The diff is modelled as already-parsed immutable datatypes (`Osm`). Each
stage of the script is a pure function with a contract:

- `Tags`: tag lookup, the per-key change decision and the reduction of
  several keys into one category.
- `Kinds`: `get_kinds`, the categories that fired for one object.
- `Ancestor`: the split/merge heuristic that finds, among the modified
  ways, the one a created or deleted way was probably cut from or merged
  into.
- `Extract`: the header fields of a row and the fallback rules of
  `init_data_from_object`.
- `Rows`: the main loop for one action and for the whole diff. It covers
  the relation skip, the ancestor substitution, the region filter and one
  row per fired category.

Python's truthiness is modelled by `Osm.Truthy`: a value is truthy when it
is present and non-empty. An uncaught Python exception is modelled as
`Err(Fault)`. Every crash of the modelled decision logic is part of the
model, except those listed under "Left out".
The region index is a parameter: `Rows.RegionLookup` is a function from a
row position to an optional label.

Consequences of the code that are easy to miss:

- The code decides a tag change by truthiness. A key whose value changes
  from absent to `""` is therefore a `delete`, not a `create`
  (`Tags.TagActionTruthTable`, last case).
- A non-node object with no `<bounds>` on either snapshot is not processed
  with unknown coordinates. `bounds.get` raises, which is `Err(MissingBounds)`.
  A created non-node without bounds raises even earlier, on `backup.find`,
  which is `Err(NoBackup)`.
- A way with fewer than two located members is not silently dropped: the
  main loop crashes. See "Findings".
- Rows are written as each action is processed, so a run that aborts keeps
  the rows of the actions before it (`Rows.Output`).
- When `maxspeed` is replaced by `maxspeed:forward` and `maxspeed:backward`,
  the backward key counts as created, because the old snapshot lacks it.
  The reduction over the three keys is still `modify`
  (`Kinds.MaxspeedSplitIsModify`).

## Model

| member | source | states |
|---|---|---|
| Tags.FirstValueIsFirstMatch | counter/adiff_to_csv.py:101-102 | The tag scan returns the value of the first tag with the key, and nothing when no tag has the key. |
| Tags.GetTagValue | counter/adiff_to_csv.py:98-100 | An absent object has no tag value. |
| Tags.GetTagValueFirstMatch | counter/adiff_to_csv.py:98-102 | On a present object, the value is the `v` of the first tag whose `k` matches. |
| Tags.GetTagValueNoMatch | counter/adiff_to_csv.py:98-102 | On a present object with no tag of that key, the value is nothing. |
| Tags.GetTagAction | counter/adiff_to_csv.py:105-113 | Gives none exactly when the looked-up new and old values are equal, both absent included. Otherwise: delete exactly when the new value is falsy; create exactly when the new value is truthy and the old one falsy; modify exactly when both are truthy. So it never creates on a falsy new value and never modifies on a falsy old value. Identical tag lists give none. |
| Tags.TagActionReversed | counter/adiff_to_csv.py:105-113 | Swapping the two snapshots keeps none and modify, turns create into delete, and turns delete into create exactly when the vanished value was truthy. |
| Tags.TagActionTruthTable | counter/adiff_to_csv.py:105-113 | Checks the five cases of the truth table, plus an absent value becoming `""`, which counts as a delete. |
| Tags.IsNewTagAction | counter/adiff_to_csv.py:116-121 | Never gives modify. Gives create exactly when `key = v` holds on the new object and not on the old one, delete exactly for the reverse, and none otherwise. Identical tag lists give none. |
| Tags.ValueActionReversed | counter/adiff_to_csv.py:116-121 | Swapping the snapshots swaps create and delete of an exact value. |
| Tags.ReduceTagActions | counter/adiff_to_csv.py:124-130 | Gives none exactly when every argument is none. Any other result is modify or one of the arguments. |
| Tags.ReduceAgreeing | counter/adiff_to_csv.py:124-129 | When some argument is non-null and all non-null arguments equal `a`, the result is `a`. |
| Tags.ReduceDisagreeing | counter/adiff_to_csv.py:124-130 | Two different non-null arguments give modify. |
| Tags.ReducePermutation | counter/adiff_to_csv.py:125 | The result depends only on the set of non-null actions, so every permutation of the arguments gives the same result. |
| Kinds.KeepFired | counter/adiff_to_csv.py:155 | Filtering keeps exactly the pairs with a non-null action and introduces nothing new. |
| Kinds.KeepFiredInOrder | counter/adiff_to_csv.py:155 | Filtering preserves the rule order. |
| Kinds.RulesDescribeCategories | counter/adiff_to_csv.py:134-154 | The node rules (traffic calming; crossing, with crossing island as its fallback; bus stop) and the way rules (maxspeed and lanes as reductions over three keys each; lit) list each category with its own action, in rule order. There are at most three rules, and any other kind has no rules. |
| Kinds.GetKinds | counter/adiff_to_csv.py:133-155 | A category appears exactly when its rule fires, and then with that rule's action. The result is in rule order and has at most three entries. It is empty exactly when no rule fires. Nodes draw only from the node categories, ways only from the way categories, and any other kind gives the empty list. |
| Kinds.CrossingExcludesIsland | counter/adiff_to_csv.py:137-141 | No result holds both `crossing` and `crossing_island`. |
| Kinds.NoKindsWithoutTagChange | counter/adiff_to_csv.py:108-109 | Two snapshots with the same tag list fire no category; in particular an object compared with itself fires none. |
| Kinds.MaxspeedSplitIsModify | counter/adiff_to_csv.py:144-148 | Replacing `maxspeed` by a forward and a backward limit gives exactly one `maxspeed` entry, with action modify. |
| Ancestor.Refs | counter/adiff_to_csv.py:160-161 | There is one reference per member, in member order. |
| Ancestor.CountIn | counter/adiff_to_csv.py:163 | The number of matches never exceeds the number of references counted. |
| Ancestor.CountInAll | counter/adiff_to_csv.py:163 | The match count equals the length exactly when every reference occurs in the other list. |
| Ancestor.CountInMonotone | counter/adiff_to_csv.py:163 | Counting against a larger reference list never counts fewer matches. |
| Ancestor.IsWayInside | counter/adiff_to_csv.py:158-164 | A way is inside another exactly when its first and last references occur among the other's references, and at least `len / 2 + 1` of its references (rounded down, counted with repetition) do. A way inside another implies the other has members. |
| Ancestor.CoveredWayIsInside | counter/adiff_to_csv.py:158-164 | A non-empty way whose references all occur in the other way is inside it. |
| Ancestor.WayInsideItself | counter/adiff_to_csv.py:158-164 | Every non-empty way is inside itself. |
| Ancestor.InsideLargerWay | counter/adiff_to_csv.py:158-164 | Being inside survives the other way gaining references. |
| Ancestor.Scan | counter/adiff_to_csv.py:177-183 | Any snapshot found is a way that contains the input, and it is the compared side of some modify action. The scan fails only for a way without members, and then with `EmptyMemberList`. |
| Ancestor.ScanFindsFirst | counter/adiff_to_csv.py:177-183 | For a way with members, the scan does not fail. It finds nothing exactly when no modify action qualifies. Otherwise it returns the compared snapshot of a qualifying action with no qualifying action before it. |
| Ancestor.ScanFailsOnEmptyWay | counter/adiff_to_csv.py:164 | For a way without members, the scan fails exactly when some modify action's compared snapshot is a way. |
| Ancestor.FindWayInAnotherModified | counter/adiff_to_csv.py:167-183 | A non-way input gives none, and so does a way without members whenever the search does not fail. Any snapshot returned is a way that contains the input. It is the old (for a created way) or new (for a deleted way) child of the earliest qualifying modify action. The result is none exactly when no action qualifies. The search fails exactly when it compares a way without members, and then with `EmptyMemberList`. |
| Extract.ReplaceAll | counter/adiff_to_csv.py:61 | After replacing `c` by a text without `c`, no `c` is left. Every character of the result comes from the input or from the replacement. A text without `c` is unchanged. |
| Extract.NormalizeTimestamp | counter/adiff_to_csv.py:61 | The rewritten timestamp has no `T` and no `Z`. Its only new characters are space, `+` and `0`. A timestamp with neither letter is unchanged. |
| Extract.NormalizeTimestampLetters | counter/adiff_to_csv.py:61 | `T` becomes a single space, `Z` becomes `+00`, and every other character is kept. |
| Extract.ReplaceByCharPointwise | counter/adiff_to_csv.py:61 | Replacing `T` by a space changes only the positions that held `T`. |
| Extract.NormalizeTimestampIdempotent | counter/adiff_to_csv.py:61 | Rewriting twice equals rewriting once. |
| Extract.NormalizeTimestampConcat | counter/adiff_to_csv.py:61 | The rewrite works character by character: it distributes over concatenation. |
| Extract.OsmId | counter/adiff_to_csv.py:65 | The id is the element name, then one slash, then the object's id. |
| Extract.OsmIdRoundTrip | counter/adiff_to_csv.py:65 | Splitting an `osm_id` at its first slash gives back the element name and the id, and the element name gives back the kind. |
| Extract.OsmIdInjective | counter/adiff_to_csv.py:65 | Objects of well-formed kinds share an `osm_id` only if they share both kind and id. |
| Extract.GetFloatAttr | counter/adiff_to_csv.py:53-56 | Takes the object's attribute when present, otherwise the backup's. It fails exactly when neither has the attribute: with `NoBackup` when there is no backup, and with `MissingCoordinate` when the backup lacks it too. |
| Extract.GetBounds | counter/adiff_to_csv.py:74-82 | Takes the object's bounds, otherwise the backup's. It fails exactly when neither snapshot has bounds: with `NoBackup` when there is no backup, and with `MissingBounds` when the backup has none either. |
| Extract.WayMembers | counter/adiff_to_csv.py:85-87 | Takes the object's members when it has any, otherwise the backup's. It fails only when the object has no members and there is no backup, and then with `NoBackup`. |
| Extract.InitData | counter/adiff_to_csv.py:59-95 | Identity fields always come from the object: the rewritten timestamp, `kind/id`, changeset, uid, user and version. A node takes its coordinates with fallback and fails exactly when a coordinate is missing on both snapshots. Other non-way kinds take the bounds with fallback and fail exactly when both lack them. A way fails exactly when its bounds fail or when it has no members and there is no backup. A way is dropped exactly when its chosen member list has fewer than two entries or an entry without a truthy `lat`. |
| Rows.ResolveAncestor | counter/adiff_to_csv.py:212-233 | Modifications and non-ways keep their own snapshots. A created way keeps itself as the described snapshot. Its compared snapshot stays absent when no modified way qualifies, and otherwise becomes the old side of the earliest qualifying modify action. A deleted way keeps its old snapshot. If the old snapshot is not a way, nothing changes. Otherwise the new side stays when no modified way qualifies, and otherwise becomes the new side of the earliest qualifying modify action. A created way without members, or a deleted way whose old snapshot has none, is never substituted. It fails exactly when the ancestor search fails, and then with `EmptyMemberList`. |
| Rows.EmitRows | counter/adiff_to_csv.py:237-245 | When the region filter is on and the label is falsy, no rows are written. Otherwise there is one row per `get_kinds` entry, in its order, each carrying that entry's category and action, the object action, the shared fields and the region label. |
| Rows.ProcessActionAsWritten | counter/adiff_to_csv.py:211-245 | Relations give no rows. An object the extractor drops makes the action fail: with the ancestor search's fault when that fails first, and otherwise with `DroppedRecordUsed`. With a region filter every row has a truthy region. |
| Rows.ProcessAction | counter/adiff_to_csv.py:211-245 | Relations and dropped objects give no rows. Extraction failures are passed on, and it never fails with `DroppedRecordUsed`. For an object that is kept, it fails exactly when the ancestor search does. Otherwise, with a region filter and a falsy label, there are no rows. Without a filter, or with a truthy label, there is one row per `get_kinds` entry for the resolved snapshots, in order. Each row has that entry's category and action, the extracted fields, the region label and the action's type. |
| Rows.ProcessActionAgreesWhenKept | counter/adiff_to_csv.py:217-237 | For objects that are not dropped, the corrected step equals the code as written. |
| Rows.Collect | counter/adiff_to_csv.py:211-245 | The loop completes exactly when every per-action result is a success, and then writes the concatenation of all their rows. Otherwise it stops with the fault of the first failing result and keeps exactly the rows of the results before it. When every success is labelled, so is every written row. |
| Rows.ConcatFront | counter/adiff_to_csv.py:211-245 | The rows of a run are those of its first action followed by those of the rest. |
| Rows.Run | counter/adiff_to_csv.py:211-245 | As written, the run completes exactly when every action is processed without an exception, and it then writes every action's rows in document order. Otherwise it stops at the first action whose processing fails, with that fault, and keeps exactly the rows of the actions before it. With a region filter every written row has a truthy region. |
| Rows.RunCorrected | counter/adiff_to_csv.py:211-245 | The same loop with the drop signal honoured, with the same completion, concatenation and first-fault guarantees. It never aborts with `DroppedRecordUsed`. |
| Rows.RunAgreesWhenKept | counter/adiff_to_csv.py:211-245 | When no action's object is dropped, the run as written and the corrected run write the same rows and stop on the same fault. |
| Rows.DroppedWayAbortsAsWritten | counter/adiff_to_csv.py:88-89 | A created way with one member is dropped by the extractor. As written, its step fails and the run over it aborts with no rows. The corrected step writes no rows, and the corrected run completes. |
| Rows.BusStopCreatesOneRow | counter/adiff_to_csv.py:142 | Creating a bus-stop node without a region index writes exactly one `stop` row, with action create and object action create. The row has the node's own coordinates and no region. |

## Left out

- The region index (`Regions`, lines 29-50) builds an STRtree over WKB polygons with shapely. It is a foreign library, so region lookup is the parameter `RegionLookup`.
- Floating point is not modelled: the `float()` conversions, the bounding-box midpoint and the geodesic way length with its rounding (lines 53-56, 79-82, 90-92). Positions keep the attribute text (`Extract.Position`). A way's length is represented by the member list it would be measured along. The exceptions `float()` can raise are not modelled either: an unparsable attribute, or a member with `lat` but no `lon`.
- Extract.InitData: its requires excludes relations. The main loop skips relations before calling it (line 214), so its relation branch (lines 93-94) is unreachable. That branch would also call `len` on an element or on `None`.
- The header attributes `id`, `version`, `changeset`, `uid`, `user` and `timestamp` are taken to be present. A missing one gives `None`, or an exception for `timestamp`, and that is not modelled.
- XML parsing, argument handling, the CSV and SQL writers, the column list and the `create table` and `copy` preamble (lines 1-26, 186-210, 245) are I/O. The diff is given as `Osm.Action` values instead.
- Warnings written to standard error (lines 78, 225-226, 231-232) do not affect the output.
- Osm.Kind: `Other` can carry any element name, including `node`, `way`, `relation` or a name with a slash. Those values do not occur in a diff. `Osm.WellFormedKind` excludes them, and the `osm_id` round trip assumes it.
- Action types other than `create`, `modify` and `delete` are not modelled. `Osm.Action` has exactly those three.

## Findings

| source | as written | input that shows it | evidently intended | confidence | as-written member | corrected member |
|---|---|---|---|---|---|---|
| counter/adiff_to_csv.py:217-237 | The main loop uses `data` without checking for the `None` that `init_data_from_object` returns for a way with fewer than two located members (lines 88-89). `data['obj_action'] = atype` then raises TypeError and ends the run. | A diff whose only action creates a way with one `<nd>` and a `<bounds>` element | Skip the action and write no rows for it | high; not executed | Rows.DroppedWayAbortsAsWritten | Rows.RunCorrected |
