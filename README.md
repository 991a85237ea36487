# Seasons relation ordering and card navigation

This project models the behaviour of the `Seasons` view of an anime
streaming front end. The view receives the list of an anime's related
entries (prequels, sequels, side stories, ...). It does three things:

- It sorts that list in place with a three-way comparator that puts every
  relation whose `relationType` is exactly `"PREQUEL"` before every other
  relation. The comparator ties all other pairs, and `Array.prototype.sort`
  is stable (section 23.1.3.30 of ECMA-262), so each group keeps its input
  order.
- It renders one card per relation in the sorted order, keyed by the
  relation's id.
- A click on a card asks the router for `/watch/{id}`.

Modules:

- `RelationOrder` (`relation_order.dfy`) holds the `Relation` record, the
  comparator `Compare`, and the specification of the ordering: `Group` (the
  relations of one group, in input order) and
  `Partition(s) = Group(s, true) + Group(s, false)`. Lemmas prove that
  `Partition(s)` is a stable sort of `s` with the comparator, that every
  stable sort with that comparator gives exactly `Partition(s)`, and that
  the ordering is a permutation. They also prove idempotence, that ids are
  preserved and stay distinct, and that an all-PREQUEL or no-PREQUEL list
  is left alone.
- `WatchRoute` (`watch_route.dfy`) builds the route string. An integer id
  below 10^21 in magnitude prints as JavaScript prints it in a template
  literal. A parser reads the id back, and the round trip proves the route
  names exactly the relation clicked.
- `Seasons` (`seasons.dfy`) holds the view. `SortRelations` sorts an
  `array<Relation>` in place with a stable insertion sort and returns the
  same array, proved equal to `Partition` of the old contents. `Cards` is
  the card list, `Navigator` records the paths it is asked to go to, and
  `HandleCardClick` / `ClickCard` model the click handler.

The comment above the sort in the source says PREQUELs come "before
SEQUELs". The code puts PREQUELs before every other relation type and
leaves the order of all the others alone. The model follows the code.

## Model

| member | source | states |
|---|---|---|
| RelationOrder.Compare | src/components/Watch/Seasons.tsx:109-115 | the comparator returns only -1, 0 or 1, and 0 exactly when both or neither relation is a PREQUEL |
| RelationOrder.CompareConsistent | src/components/Watch/Seasons.tsx:109-115 | the comparator is reflexive, sign-antisymmetric, and transitive for "before", "tied" and "before or tied", so it is a consistent comparator for `sort` |
| RelationOrder.Group | src/components/Watch/Seasons.tsx:108-116 | a group is no longer than the input, and its members are elements of the input that are all PREQUELs (or all not) |
| RelationOrder.GroupIsSubsequence | src/components/Watch/Seasons.tsx:115 | a group is the input read at strictly increasing positions that include every position of that group: it keeps input order and drops none of its members |
| RelationOrder.PartitionSorted | src/components/Watch/Seasons.tsx:108-116 | in the sorted order the comparator accepts every pair, and every PREQUEL stands before every non-PREQUEL |
| RelationOrder.PartitionPermutation | src/components/Watch/Seasons.tsx:108 | sorting keeps the length and the multiset of elements: it is a permutation, not a filter |
| RelationOrder.PartitionKeepsGroups | src/components/Watch/Seasons.tsx:115 | stability: the PREQUELs, and the other relations, each appear in their input order |
| RelationOrder.PartitionIsStableSort | src/components/Watch/Seasons.tsx:108-116 | the partition is sorted by the comparator, stable, and a permutation of the input |
| RelationOrder.SortedIsPartition | src/components/Watch/Seasons.tsx:108-116 | a list the comparator already accepts is its own sorted order |
| RelationOrder.StableSortUnique | src/components/Watch/Seasons.tsx:108-116 | every stable sort with this comparator yields exactly the partition, whatever algorithm the engine runs |
| RelationOrder.PartitionIdempotent | src/components/Watch/Seasons.tsx:108-116 | sorting an already sorted list changes nothing |
| RelationOrder.PartitionOfUniform | src/components/Watch/Seasons.tsx:115 | a list with no PREQUEL, or only PREQUELs (the empty list included), is left unchanged |
| RelationOrder.InsertIntoPartition | src/components/Watch/Seasons.tsx:108 | step of the stand-in sort: placing a PREQUEL after the last PREQUEL, or a non-PREQUEL at the end, of a sorted prefix yields the sorted order of the prefix with it appended |
| RelationOrder.PartitionIds | src/components/Watch/Seasons.tsx:108 | the sorted list has the same multiset of ids as the input |
| RelationOrder.PartitionKeepsDistinctIds | src/components/Watch/Seasons.tsx:108-122 | if the input ids are pairwise different, so are the sorted list's |
| RelationOrder.ExampleOrdering | src/components/Watch/Seasons.tsx:109-115 | SEQUEL 1, PREQUEL 2, SIDE_STORY 3 sorts to 2, 1, 3; a `"Prequel"` tag does not count as PREQUEL |
| Seasons.SortRelations | src/components/Watch/Seasons.tsx:108-116 | the caller's array is reordered in place into the partition of its old contents, a stable sort by the comparator, and the same array is returned |
| Seasons.InsertNext | src/components/Watch/Seasons.tsx:108 | step of the stand-in sort: one insertion step extends the sorted prefix by the next element and leaves the rest of the array untouched |
| Seasons.Cards | src/components/Watch/Seasons.tsx:120-128 | one card per relation, in order; card k is keyed by, bound to and labelled from relation k |
| Seasons.HandleCardClick | src/components/Watch/Seasons.tsx:103-105 | a click handler call adds exactly one navigation request, for the path of the given id |
| Seasons.ClickCard | src/components/Watch/Seasons.tsx:124 | clicking card i requests the path of the id that card was bound to |
| Seasons.Render | src/components/Watch/Seasons.tsx:108-124 | a render leaves the caller's array sorted and yields the cards of the sorted order |
| Seasons.CardCount | src/components/Watch/Seasons.tsx:120 | a render shows exactly one card per relation, so an empty list renders no card |
| Seasons.CardClickTarget | src/components/Watch/Seasons.tsx:103-124 | card i of a render leads to a route that names the id of the i-th sorted relation |
| Seasons.CardKeysDistinct | src/components/Watch/Seasons.tsx:120-122 | unique input ids give unique card keys after sorting |
| WatchRoute.NatToDecimal | src/components/Watch/Seasons.tsx:104 | a non-negative id (below 10^21, where JavaScript matches) prints as a non-empty string of decimal digits without a leading zero |
| WatchRoute.DecimalRoundTrip | src/components/Watch/Seasons.tsx:104 | the printed digits denote the id |
| WatchRoute.WatchPath | src/components/Watch/Seasons.tsx:104 | the path starts with `/watch/` and has more after it |
| WatchRoute.WatchPathRoundTrip | src/components/Watch/Seasons.tsx:104 | the text after `/watch/` reads back as exactly the id |
| WatchRoute.WatchPathInjective | src/components/Watch/Seasons.tsx:104 | two ids give the same path exactly when they are equal |

## Left out

- The styled-components CSS blocks (src/components/Watch/Seasons.tsx:6-73): presentation only.
- React rendering, the JSX tree, `key` diffing and the `url(...)` background-image style string: the model keeps only what each card carries.
- `useNavigate` from the router library: modelled as the `Navigator` class, which records the paths it is given. Route matching and page loading are not modelled.
- The `AnimeRelation` fields the view never reads (`malId`, `status`, `episodes`, the hashes, `cover`, `rating`, `type`, and the title variants other than `userPreferred`).
- WatchRoute.NatToDecimal: JavaScript prints numbers of magnitude 10^21 or more in exponent notation (`1e+21`); the model prints every id as plain digits, so it matches the source only below 10^21. Integers above 2^53, which a JavaScript number cannot hold exactly, are also admitted by the model.
- WatchRoute.IntToString: ids are modelled as integers. A JavaScript `number` may be fractional or non-finite; those ids and their string forms are not modelled.
- Seasons.SortRelations: the engine's own sorting algorithm is not modelled. The model uses a stable insertion sort, and `StableSortUnique` shows that every stable sort with this comparator gives the same result.
