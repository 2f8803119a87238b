# Skill tree core, modelled in Dafny

This project models the deterministic core of a Minecraft-style skill-tree web app and proves properties of it.

- **The store.** The skill-tree slice turns the nested tree it loads into a flat table of records with parent links. Each id is `node-<counter>`, with one counter shared by a pre-order walk. The slice keeps the list of unlocked ids. It offers three reducers, `loadSkillTree`, `unlockNode` and `resetProgress`, and two selectors, `selectIsNodeUnlocked` and `selectCanUnlockNode`.
- **The positions hook.** It rebuilds the tree from the parent links (`buildTree`) and lays it out by subtree height (`calculatePositions`):
  - leaves are stacked 80 apart, one row per leaf;
  - each parent is centred between its first and last child;
  - each level is 120 further right;
  - a pass then re-pins every direct child to its parent's centred position.
- **The bounding box.** The hook also computes the padded bounding box (the `dimensions` memo).
- **The canvas.** It draws one right-angle connector from each pinned position to its parent's anchor.
- **The legacy script.** `test.ts` holds an older fan-out layout: children are spread 140 apart around the parent's row, 180 further right.

Modules (one file each):

- `SkillNodes`: the nested input tree, points, node count and reference pre-order.
- `Normalize`: ids and records, the walk as a specification (`Flatten`), the `Normalizer` class whose recursive `Traverse` method updates the dictionary, its key order and the counter in place, and `NormalizeSkillTree`.
- `SkillTreeSlice`: the state, the reducers as pure transitions, the selectors, the state invariant `WellFormed` (for ids of the `prefix-counter` shape), and the `SkillTreeStore` class whose methods apply the reducers in place.
- `SkillTreePositions`:
  - `buildTree`, as the functions `BuildTree`/`BuildForest`;
  - the layout, both as the function `Layout` and as the method `CalculatePositions` with its loop over the children;
  - the effect body, `ComputePositions`;
  - the bounding box.
- `PositionsProofs`: the reference definitions `Visits` (pre-order with depth and parent index) and `LeafCount`, and what the layout guarantees with respect to them.
- `BuildTreeProofs`: the round trip, where `buildTree` over the normalized table rebuilds the loaded tree.
- `LoadLayoutProofs`: loading followed by the positions effect.
- `SkillTreeCanvas`: the connector points and the groups the canvas renders.
- `LegacyLayout`: the fan-out layout of `test.ts`, both as a function and as a method with its `forEach` loop.

Three points where the code's behaviour is easy to misread:

- The unlocked ids are an array searched with `includes`. The model keeps them as a sequence with a no-duplicates invariant, not as a set.
- `unlockNode` adds an id exactly when `selectCanUnlockNode` holds for it and it is not yet unlocked. For an id already unlocked the selector may hold while nothing is added. `SkillTreeSlice.UnlockStepEffect` states both conditions.
- A single-node tree is laid out at (0, 0), the start the effect passes to `calculatePositions`.

## Model

| member | source | states |
|---|---|---|
| Normalize.Normalizer.constructor | src/features/skill-tree-slice.ts:39-40 | the walk starts with an empty dictionary, no keys and counter 0 |
| Normalize.Normalizer.Traverse | src/features/skill-tree-slice.ts:42-64 | `traverse` returns `prefix-c` for the counter value c on entry; it advances the counter by the subtree's size; it writes exactly the records of the pre-order walk of the subtree into the dictionary; it appends their ids to the key order; every key stays below the counter; the helpers are `Record` (the object literal at lines 49-55), `Insert` (the dictionary writes) and `Ids` (the keys in insertion order) |
| Normalize.NormalizeSkillTree | src/features/skill-tree-slice.ts:31-68 | the root id is `prefix-0`; the map and key order are those of the walk started at counter 0 |
| Normalize.Flatten | src/features/skill-tree-slice.ts:42-64 | the definition of the records `traverse` writes, in the order it writes them; its contract is carried by the `FlattenIds`, `FlattenParents`, `FlattenFollowsPreorder` and `NormalizedTable` rows, and `Traverse` is proved to write exactly these records |
| Normalize.FlattenChildren | src/features/skill-tree-slice.ts:57-61 | the definition of the records written by the `forEach` over the first k children; the same rows carry its contract |
| Normalize.FlattenIds | src/features/skill-tree-slice.ts:47 | the walk writes one record per node, and the i-th gets id `prefix-(start+i)` |
| Normalize.FlattenParents | src/features/skill-tree-slice.ts:49-60 | the first record has the caller's parent; every later record's parent is a record written before it in the same walk |
| Normalize.FlattenFollowsPreorder | src/features/skill-tree-slice.ts:49-53 | the records carry name, description and image of the nodes in pre-order |
| Normalize.NormalizedTable | src/features/skill-tree-slice.ts:39-67 | the map has one entry per node, keyed exactly `prefix-0 .. prefix-(n-1)`; every entry carries its own key and the data of the pre-order node; the top entry has the caller's parent; every other entry's parent is a key with a smaller counter; the key order is `prefix-0 ..` |
| SkillTreeSlice.LoadStep | src/features/skill-tree-slice.ts:74-79 | the definition of the `loadSkillTree` transition; its contract is carried by the `LoadStepWellFormed` and `SkillTreeStore.LoadSkillTree` rows |
| SkillTreeSlice.UnlockStep | src/features/skill-tree-slice.ts:81-103 | the definition of the `unlockNode` transition; its contract is carried by the `UnlockStepEffect`, `UnlockStepIdempotent`, `UnlockStepWellFormed` and `UnlockAllWellFormed` rows; `Push` is `unlockedNodes.push` at lines 93 and 101 |
| SkillTreeSlice.ResetStep | src/features/skill-tree-slice.ts:105-107 | the definition of the `resetProgress` transition; its contract is carried by the `ResetStepWellFormed` and `ResetThenCanUnlock` rows |
| SkillTreeSlice.IsNodeUnlocked | src/features/skill-tree-slice.ts:121-122 | the definition of `selectIsNodeUnlocked`; the `UnlockStepEffect` row relates it to `unlockNode` |
| SkillTreeSlice.CanUnlockNode | src/features/skill-tree-slice.ts:124-133 | the definition of `selectCanUnlockNode`; the `UnlockStepEffect` and `ResetThenCanUnlock` rows carry its contract |
| SkillTreeSlice.LoadStepWellFormed | src/features/skill-tree-slice.ts:74-79 | `loadSkillTree` yields a well-formed state (root a parentless key, acyclic links, key order within the keys) with nothing unlocked |
| SkillTreeSlice.UnlockStepEffect | src/features/skill-tree-slice.ts:81-103 | `unlockNode` never changes nodes, order or root; it appends the id exactly when the id is not yet unlocked and `selectCanUnlockNode` holds, and otherwise leaves the list unchanged; afterwards the id is unlocked iff it was before or it could be unlocked |
| SkillTreeSlice.UnlockStepIdempotent | src/features/skill-tree-slice.ts:86-102 | unlocking twice equals unlocking once |
| SkillTreeSlice.UnlockStepWellFormed | src/features/skill-tree-slice.ts:91-102 | `unlockNode` keeps the invariant: unlocked ids are distinct keys and every unlocked node's parent is unlocked |
| SkillTreeSlice.UnlockAllWellFormed | src/features/skill-tree-slice.ts:81-103 | any sequence of `unlockNode` calls with ids of the `prefix-counter` shape keeps the invariant, leaves nodes and root unchanged, and grows the list by at most as many ids as there are calls in all; `UnlockAll` is the dispatch of `unlockNode` for each id in turn |
| SkillTreeSlice.ResetStepWellFormed | src/features/skill-tree-slice.ts:105-107 | `resetProgress` keeps the invariant and is idempotent |
| SkillTreeSlice.ResetThenCanUnlock | src/features/skill-tree-slice.ts:124-133 | after a reset the root can be unlocked, and a non-root node can be unlocked iff its parent is the root |
| SkillTreeSlice.SkillTreeStore.constructor | src/features/skill-tree-slice.ts:25-29 | the store starts in the empty initial state, which is well formed |
| SkillTreeSlice.SkillTreeStore.LoadSkillTree | src/features/skill-tree-slice.ts:74-79 | the fields become the normalized payload, the root `node-0` and an empty unlocked list; the invariant holds |
| SkillTreeSlice.SkillTreeStore.UnlockNode | src/features/skill-tree-slice.ts:81-103 | the new state is the `unlockNode` transition of the old one, and the invariant is kept |
| SkillTreeSlice.SkillTreeStore.ResetProgress | src/features/skill-tree-slice.ts:105-107 | the new state is the `resetProgress` transition of the old one, and the invariant is kept |
| SkillTreePositions.ChildRecords | src/hooks/use-skill-tree-positions.ts:35-36 | the definition of the `Object.values(...).filter` step, with `Values` for `Object.values` at line 35; its contract is carried by the `ChildRecordsFrom` row |
| SkillTreePositions.BuildTree | src/hooks/use-skill-tree-positions.ts:31-41 | the definition of `buildTree`; its contract is carried by the `BuildTreeChildren` and `BuildRoundTrip` rows |
| SkillTreePositions.BuildForest | src/hooks/use-skill-tree-positions.ts:37-38 | the definition of the `map(buildTree).filter` step over the child records; the `BuildTreeChildren` row carries its contract |
| SkillTreePositions.ChildRecordsFrom | src/hooks/use-skill-tree-positions.ts:35-36 | the filter keeps exactly the records naming the id as parent |
| SkillTreePositions.BuildTreeChildren | src/hooks/use-skill-tree-positions.ts:31-41 | `buildTree` is `null` exactly for an unknown id; otherwise it holds the record, and its children are the records whose parent is the id, in iteration order, none dropped |
| BuildTreeProofs.BuildRoundTrip | src/hooks/use-skill-tree-positions.ts:31-41 | on the table `normalizeSkillTree` writes, `buildTree` from the top id rebuilds the loaded tree: same shape, same order and same data, each node carrying the record written for it |
| SkillTreePositions.Layout | src/hooks/use-skill-tree-positions.ts:44-116 | the definition of `calculatePositions` as a function, with its helpers `TotalHeight` (the `reduce` at lines 84-87), `Concat` (the `flatMap` at line 103) and `Repin`/`RepinAll` (the re-pin `map` at lines 104-109); its contract is carried by the `CalculatePositions` row and the `PositionsProofs` rows below |
| SkillTreePositions.LayoutChildren | src/hooks/use-skill-tree-positions.ts:66-81 | the definition of the child results the `for` loop builds for the first k children; the `LayoutChildAt` row carries its contract |
| SkillTreePositions.CentreRow | src/hooks/use-skill-tree-positions.ts:88-91 | the definition of `centerY`, `?? startY` fallback included; the `LayoutCentred` row carries its contract |
| SkillTreePositions.CalculatePositions | src/hooks/use-skill-tree-positions.ts:44-116 | the loop over the children computes exactly the positions and used height of the layout specification |
| PositionsProofs.LayoutChildAt | src/hooks/use-skill-tree-positions.ts:70-81 | child i is laid out at `x + 120` starting at `startY + 80 × (leaves of the earlier siblings)`, pinned to `(x, 0)` |
| PositionsProofs.LayoutHeight | src/hooks/use-skill-tree-positions.ts:84-91 | the used height is the subtree's leaf count (at least 1), and every row lies in `[startY, startY + 80 × (leaves − 1)]` |
| PositionsProofs.LayoutCentred | src/hooks/use-skill-tree-positions.ts:88-100 | an internal node is at column x, on the row halfway between the first rows of its first and last child |
| PositionsProofs.LayoutFollowsVisits | src/hooks/use-skill-tree-positions.ts:94-113 | the output is the pre-order of the subtree, one position per node; each lies at `x + 120 × depth`; its flag is membership of its id in the unlocked list |
| PositionsProofs.LayoutRightOf | src/hooks/use-skill-tree-positions.ts:72-78 | no position lies left of the column its subtree starts in |
| PositionsProofs.LayoutPinsParents | src/hooks/use-skill-tree-positions.ts:102-110 | after the re-pinning pass, every position but the first is pinned to the final position of its parent in the tree; the first keeps the caller's pin |
| PositionsProofs.RepinOnlyDirectChildren | src/hooks/use-skill-tree-positions.ts:103-110 | the pass rewrites exactly the direct children's pins to `(x, centre)`; every deeper position is as its child's layout produced it |
| PositionsProofs.LayoutTwoLeaves | src/hooks/use-skill-tree-positions.ts:44-116 | a root with two leaves: the leaves at (120, 0) and (120, 80), the root at (0, 40), both leaves pinned to it |
| SkillTreePositions.ComputePositions | src/hooks/use-skill-tree-positions.ts:28-123 | the definition of the effect body; the `LoadedLayout` row carries its contract |
| LoadLayoutProofs.LoadedLayout | src/hooks/use-skill-tree-positions.ts:118-122 | after `loadSkillTree` the effect lays out the loaded tree from (0, 0): one position per node, the k-th for `node-k`, none unlocked, each at 120 × depth; the top position gets no connector |
| SkillTreePositions.SeqMin | src/hooks/use-skill-tree-positions.ts:128 | `Math.min` of a non-empty list is one of its elements and no larger than any |
| SkillTreePositions.SeqMax | src/hooks/use-skill-tree-positions.ts:131 | `Math.max` of a non-empty list is one of its elements and no smaller than any |
| SkillTreePositions.ComputeDimensions | src/hooks/use-skill-tree-positions.ts:126-148 | with no positions the box is (0, 1000, 0, 800); otherwise every position lies 50 inside the left and top edges, 150 inside the right and 100 inside the bottom, each margin is touched by some position, and the box is at least 200 × 150; width and height are the spans; the coordinate lists of the `map`s at lines 128-136 are `Xs` and `Ys` |
| SkillTreeCanvas.Connector | src/Components/SkillTree/skill-tree-canvas.tsx:36-67 | the definition of the `positions.map` callback at one index; its contract is carried by the `ElbowPoints` and `GroupsUpToDraw` rows |
| SkillTreeCanvas.GroupsUpTo | src/Components/SkillTree/skill-tree-canvas.tsx:36-40 | the definition of the groups drawn for the first k positions; its contract is carried by the `GroupsUpTo…` rows |
| SkillTreeCanvas.ConnectorGroups | src/Components/SkillTree/skill-tree-canvas.tsx:36-69 | the definition of every group the canvas draws; the `ConnectorGroupsEnumeratePinned` row carries its contract |
| SkillTreeCanvas.ElbowPoints | src/Components/SkillTree/skill-tree-canvas.tsx:43-46 | the path has four points, from `(px − minX + 20, py − minY + 32)` to `(x − minX, y − minY + 32)`; it runs horizontal, vertical, horizontal, and ends 20 across |
| SkillTreeCanvas.ElbowSegments | src/Components/SkillTree/skill-tree-canvas.tsx:43-46 | the three segments are `(x − px − 40, 0)`, `(0, y − py)` and `(20, 0)` |
| SkillTreeCanvas.ElbowTranslates | src/Components/SkillTree/skill-tree-canvas.tsx:43-46 | moving `minX`/`minY` moves every point by the opposite amount and leaves every segment unchanged |
| SkillTreeCanvas.GroupsUpToDraw | src/Components/SkillTree/skill-tree-canvas.tsx:36-40 | every group drawn for the first k positions is the connector of a pinned one of them, keyed by its index + 1 |
| SkillTreeCanvas.GroupsUpToOrdered | src/Components/SkillTree/skill-tree-canvas.tsx:36-40 | the groups follow the positions' order, with strictly increasing key indices |
| SkillTreeCanvas.GroupsUpToComplete | src/Components/SkillTree/skill-tree-canvas.tsx:36-40 | no pinned position is missed |
| SkillTreeCanvas.ConnectorGroupsEnumeratePinned | src/Components/SkillTree/skill-tree-canvas.tsx:36-67 | exactly one group per pinned position, in order, none for an unpinned one; border and fill paths are the same four points |
| LegacyLayout.FanOut | test.ts:24-55 | the definition of the legacy `calculatePositions` as a function; its contract is carried by the `CalculatePositions`, `FanOutPreorder`, `FanOutPinned` and `FanOutChildAt` rows |
| LegacyLayout.FanOutChildren | test.ts:42-52 | the definition of the positions the `forEach` pushes for the first k children; the `FanOutChildrenBlock` row carries its contract |
| LegacyLayout.ChildY | test.ts:46-49 | the definition of `childY`; the `FanOutChildAt` and `FanIsSymmetric` rows carry its contract |
| LegacyLayout.AllPositions | test.ts:57 | the definition of the script's top-level call; the `AllPositionsShape` row carries its contract |
| LegacyLayout.CalculatePositions | test.ts:24-55 | the `forEach` loop pushing each child's block computes exactly the fan-out specification |
| LegacyLayout.FanOutPreorder | test.ts:42-54 | the output is the subtree's pre-order, one position per node, beginning with the node itself at `(x, y)` with the given pin; each flag is its name's membership of the unlocked set |
| LegacyLayout.FanOutPinned | test.ts:50-51 | every position after the first has a pin and sits 180 right of it; the first keeps the caller's pin |
| LegacyLayout.FanOutChildrenBlock | test.ts:45-52 | child j's block follows the blocks of the earlier children |
| LegacyLayout.FanOutChildAt | test.ts:45-51 | child j heads its block at `x + 180` on row `y + 140·j − 140·(n−1)/2`, pinned to `(x, y)` |
| LegacyLayout.FanIsSymmetric | test.ts:45-49 | consecutive siblings are 140 apart; child i and child n−1−i are mirror images about the parent's row; with an odd count the middle child is on the parent's row |
| LegacyLayout.AllPositionsShape | test.ts:57 | the script's output is the data's pre-order from (100, 400), with no pin on the root, every later position pinned and nothing unlocked |

## Left out

- React and Redux plumbing is left out: `useState`, `useEffect`, `useMemo`, `useAppSelector`, `createSlice` with Immer, and the store. The effect body is the function `ComputePositions`. Its early return (no root or an empty table) is `None`, meaning the positions are not replaced.
- The UI components are left out, as presentation: node rendering, the tree container, the loader and the entry point.
- SVG markup is left out: the `d` strings, the viewBox, the stroke styles and the transition classes. A path is modelled as its sequence of points.
- A group's key string `line-{index+1}-{nodeId}` is modelled as the pair (index + 1, node id).
- I/O is left out: the `data.json` import and the `Bun.write` of `test.ts`, the static server and the bundler configuration.
- JavaScript numbers are modelled as exact reals. IEEE rounding of the midpoint and of the `/ 2` in `test.ts` is not modelled.
- Ids are modelled as the pair (prefix, counter), not as the rendered string `prefix-counter`.
- Ids other than the `prefix-counter` shape are not modelled, and neither is a lookup that finds an inherited property. `state.nodes[nodeId]` is a plain-object lookup (`src/features/skill-tree-slice.ts:83`, `:125`). For an id such as `toString` or `constructor` it finds a truthy `Object.prototype` member whose `parentId` is undefined. `unlockNode` would then push that id although it is not a key, and `selectCanUnlockNode` would return true. So `WellFormed` and what `UnlockStepWellFormed` and `UnlockAllWellFormed` state hold for ids of the `prefix-counter` shape only. The app dispatches only ids taken from the computed positions.
- The empty string as a falsy `parentId` cannot occur: the model's parent is `Option<NodeId>`.
- The nodes dictionary is modelled as a map together with its key insertion order. That order is what `Object.values` enumerates.
- `test.ts`'s module-level `unlockedNodes` set, never filled, is a parameter of the legacy layout. The top-level call passes the empty set.
- SkillTreePositions.BuildTree: defined only on tables in which every parent has a smaller counter than its child (`Acyclic`), and so is `ComputePositions`. Every table the store holds is one: `LoadStepWellFormed` establishes it, and `UnlockStepWellFormed` and `ResetStepWellFormed` keep it. On other tables whose records carry their own key, the source still terminates, unless the start id lies on a cycle of parent links. On a table with a record whose `id` is not its key, the recursion can also run away from a start id that lies on no cycle, because the filter can lead back to a node already being built. In that case the recursion ends in a stack-overflow `RangeError` thrown from the effect.
- SkillTreePositions.BuildTreeChildren: stated for tables whose records carry their own key, as every table the store writes does. In a general table `buildTree(child.id)` may miss, and the source then drops that child.
- The optional chaining `?.y ?? startY` on an empty child result is modelled, but it never applies: `PositionsProofs.LayoutUsedHeight` proves every child result non-empty.
