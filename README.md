# Optimistic slot transactions of the ox_inventory web UI, in Dafny

This project models the client-side transaction engine of the inventory UI.

- **Store.** The store holds two inventories, left (the player's) and right (a shop, a crafting bench, a drop or a container). Each is a dense array of slots, and slot number `i + 1` sits at index `i`.
- **Mutations.** The store mutates those arrays in place with five primitives: move, stack, swap, setup and refresh.
- **Drop resolver.** `onDrop` turns a finished drag into one of three things:
  - a `dropFromInventory` effect;
  - an abort;
  - a transaction that snapshots both inventories, applies exactly one primitive optimistically, and then commits or rolls back on the authority's verdict.
- **Drivers and helpers.** `validateMove`, `buyItem` and `craftItem` drive that busy/snapshot protocol. `calculateDisplaySlots` sizes the grid. `handleDragEnd` routes a drag end to its handler.

Modules:

- `Typings` (`typings.dfy`): slots, inventories, catalog entries, drag sources and drop targets. It also holds `Helpers`, which bundles the helper functions the core calls but whose definitions are not in the modelled sources. Each helper is a parameter with no behaviour beyond its type.
- `InventoryStore` (`store.dfy`): the pure specification of every primitive on a `Pair` of inventories. It also holds the `Store` class, whose fields are the store's state and whose methods mutate them in place. Each method's postcondition ties the new state to the specification function applied to the old state.
  - `Valid()` is the store invariant: both inventories, and the snapshot if there is one, are dense, numbered and well formed.
  - `calls` is a ghost log of the busy-protocol calls.
- `StoreProperties` (`store_properties.dfy`): what the primitives guarantee. This covers the target and source records, "nothing else changes", count and weight conservation, last-push-wins, catalog totals, early returns, resize, metadata idempotence, and the container-weight update.
- `Actions` (`actions.dfy`): the three transaction drivers, with the authority's answer as a `Verdict` parameter.
- `OnDrop` (`on_drop.dfy`): the drop decision as a pure function, and the method that runs it against the store.
- `OccupiedSlots` (`occupied_slots.dfy`): `calculateDisplaySlots` as a loop proved against a specification.
- `App` (`app.dfy`): the `handleDragEnd` router.

Encoding conventions:

- A slot's `name == ""` stands for an absent name, so JavaScript's `{ slot }` is `EmptySlot(slot)`.
- Absent metadata is the empty map.
- Weights are `real`, so `weight / count * n` is exact.
- The clock `Math.floor(Date.now() / 1000)` is the parameter `now`.

## Model

| member | source | states |
|---|---|---|
| InventoryStore.FindBySlot | web/src/store/index.ts:121 | returns the first index whose record claims the slot number, or none when no record claims it |
| InventoryStore.DenseItems | web/src/store/index.ts:120-133 | builds exactly `n` records numbered 1..n; each is the first input record claiming that number (durability re-derived when named), or an empty slot |
| InventoryStore.SetUp | web/src/store/index.ts:117-134 | a set-up inventory is dense and well formed and keeps the payload's id, type, capacity and weight limit |
| InventoryStore.WithInv | web/src/store/index.ts:118-138 | replacing one side's inventory (`state.leftInventory = …`) sets that side and leaves the other side as it was |
| InventoryStore.PutItem | web/src/store/index.ts:192-198 | `items[slot - 1] = s` on one side keeps both inventories' shape, stores `s` at that slot, and leaves every other position on both sides as it was |
| InventoryStore.Store.SetItem | web/src/store/index.ts:202-211 | the in-place write of one record equals PutItem on the old inventories, keeps the store valid and changes nothing else |
| InventoryStore.Store.SetInventory | web/src/store/index.ts:117-135 | the in-place replacement of one side equals WithInv on the old inventories and changes nothing else |
| InventoryStore.PutItemValid | web/src/store/index.ts:192-211 | writing a well-formed record under its own slot number keeps both inventories dense and well formed |
| InventoryStore.ResizeValid | web/src/store/index.ts:311-327 | the resize in a refresh keeps an inventory dense and well formed |
| InventoryStore.ApplyPushes | web/src/store/index.ts:246-257 | applying pushed slots changes no inventory's id, type, capacity, weight limit or length |
| InventoryStore.AddCounts | web/src/store/index.ts:265-276 | adding pushed item counts never adds or removes a catalog name |
| InventoryStore.MatchSide | web/src/store/index.ts:281-286 | an id picks the left inventory if it matches it, then the right one, else none (all three as if-and-only-if) |
| InventoryStore.ContainerIndex | web/src/store/index.ts:355-357 | finds the first slot whose metadata links it to the given container id, or none when no slot does |
| InventoryStore.Store.constructor | web/src/store/index.ts:77-96 | both inventories start empty, nothing is shown, busy or staged, there is no snapshot and the log is empty |
| InventoryStore.Store.SetupInventory | web/src/store/index.ts:112-162 | each given inventory is replaced by its set-up form; the right one is shown iff given and not a new drop; shift and busy are cleared |
| InventoryStore.Store.SwapSlots | web/src/store/index.ts:164-182 | the inventories become SwappedSlots of the old ones, the store stays valid, and nothing else changes |
| InventoryStore.Store.MoveSlots | web/src/store/index.ts:184-212 | the inventories become MovedSlots of the old ones, the store stays valid, and nothing else changes |
| InventoryStore.Store.StackSlots | web/src/store/index.ts:214-238 | the inventories become StackedSlots of the old ones, the store stays valid, and nothing else changes |
| InventoryStore.Store.PushItems | web/src/store/index.ts:242-257 | the in-order loop over the pushes equals ApplyPushes on the old inventories and keeps the store valid |
| InventoryStore.Store.AddItemCounts | web/src/store/index.ts:265-276 | the counting loop leaves the catalog equal to AddCounts of the old catalog and changes nothing else |
| InventoryStore.Store.ReshapeInventories | web/src/store/index.ts:278-328 | the weight and slot updates, with their early returns, equal Reshaped of the old inventories; the store stays valid |
| InventoryStore.Store.RefreshSlots | web/src/store/index.ts:240-329 | a refresh is pushes, then counts, then reshape, and changes nothing else |
| InventoryStore.Store.SetAdditionalMetadata | web/src/store/index.ts:331-341 | the list grows by exactly NewEntries of the payload against the old list |
| InventoryStore.Store.SetItemAmount | web/src/store/index.ts:343-346 | only the staged amount changes |
| InventoryStore.Store.SetShiftPressed | web/src/store/index.ts:348-351 | only the shift flag changes |
| InventoryStore.Store.SetContainerWeight | web/src/store/index.ts:353-362 | the inventories become WithContainerWeight of the old ones, and the call is logged |
| InventoryStore.Store.StartBusyState | web/src/store/index.ts:390-397 | sets busy and snapshots both inventories, whatever the store was busy with before |
| InventoryStore.Store.EndBusyState | web/src/store/index.ts:399-406 | on failure with a snapshot the inventories equal the snapshot, otherwise they stay; busy is false; the snapshot is kept |
| StoreProperties.SetUpOccupancy | web/src/store/index.ts:120-133 | a set-up position is occupied iff the first input record claiming its slot number is occupied |
| StoreProperties.FirstWithSlotUnique | web/src/store/index.ts:121 | supporting lemma for FindBySlot: the first record claiming a slot number (what `find` returns) is unique |
| StoreProperties.SetUpShape | web/src/store/index.ts:117-134 | a set-up inventory has exactly `slots` records and record `i` has slot number `i + 1` |
| StoreProperties.MoveTarget | web/src/store/index.ts:188-198 | the move target holds `count` units at the source's per-unit weight under the target's slot number, with the moved record's name and metadata and durability from its own metadata |
| StoreProperties.MoveSource | web/src/store/index.ts:200-211 | outside shops and benches, the move source keeps the remaining units at the same per-unit weight, or becomes the empty slot |
| StoreProperties.InfiniteSupplyUntouched | web/src/store/index.ts:200 | a move or a stack out of a shop or a crafting bench leaves the source position as it was |
| StoreProperties.MoveFrame | web/src/store/index.ts:184-212 | a move changes no position but its source and target, and no inventory's shape |
| StoreProperties.SplitWeight | web/src/store/index.ts:188-207 | `n` units plus the remaining units at the per-unit weight weigh what the whole stack weighs |
| StoreProperties.MoveConserves | web/src/store/index.ts:188-211 | a move of the live source record into an empty slot conserves the two positions' total count and total weight |
| StoreProperties.MoveHalfScenario | web/src/store/index.ts:184-212 | 5 of 10 units weighing 500 leave 5 units weighing 250 on each side |
| StoreProperties.StackTarget | web/src/store/index.ts:218-224 | the stack target grows to `toSlot.count + count` units at the source's per-unit weight and keeps its other fields |
| StoreProperties.StackSource | web/src/store/index.ts:226-237 | outside shops and benches, the stack source is drained exactly as a move source |
| StoreProperties.StackFrame | web/src/store/index.ts:214-238 | a stack changes no position but its source and target, and no inventory's shape |
| StoreProperties.StackConserves | web/src/store/index.ts:218-237 | stacking between distinct live positions always conserves the total count, and conserves the total weight when both stacks weigh the same per unit |
| StoreProperties.StackScenario | web/src/store/index.ts:214-238 | 3 units at 10 per unit onto a stack of 7 give 10 units weighing 100 and empty the source |
| StoreProperties.StackOntoItselfEmpties | web/src/store/index.ts:220-237 | stacking a whole slot onto itself leaves it empty, because the drained source overwrites the grown target |
| StoreProperties.SwapExchanges | web/src/store/index.ts:170-181 | a swap puts each old record in the other position, under that position's slot number, with durability from the metadata passed for it |
| StoreProperties.SwapOwnDurabilityAndConserves | web/src/store/index.ts:170-181 | with live records, each swapped record's durability comes from its own metadata, and total count and weight are conserved |
| StoreProperties.SwapFrame | web/src/store/index.ts:164-182 | a swap changes no position but the two it exchanges, and no inventory's shape |
| StoreProperties.PushesLeaveUnnamed | web/src/store/index.ts:246-257 | a position that no push names keeps its record |
| StoreProperties.PushesLastWins | web/src/store/index.ts:246-257 | a position holds the last push naming it, verbatim with its durability re-derived, in the left inventory for absent or player pushes and the right one otherwise |
| StoreProperties.PushesValid | web/src/store/index.ts:246-257 | pushing well-formed records keeps both inventories valid |
| StoreProperties.AddCountsTotals | web/src/store/index.ts:268-275 | a known item's count grows by the sum of the counts pushed for it; its other fields stay |
| StoreProperties.AddCountsIgnoresUnknown | web/src/store/index.ts:272-274 | counts for names the catalog lacks change nothing |
| StoreProperties.UnmatchedWeightDataStops | web/src/store/index.ts:281-288 | a weight update for an unknown id ends the refresh, and the slot update is skipped too |
| StoreProperties.UnmatchedSlotsDataStops | web/src/store/index.ts:296-303 | a slot update for an unknown id leaves the slots alone |
| StoreProperties.WeightDataSetsMaxWeight | web/src/store/index.ts:281-290 | a matched weight update sets the weight limit of the matched inventory, preferring the left one, and nothing else |
| StoreProperties.ResizeKeeps | web/src/store/index.ts:305-327 | a resize gives exactly `n` records; records whose slot still fits are kept (durability re-derived) and new positions are empty |
| StoreProperties.ReshapedValid | web/src/store/index.ts:278-328 | the weight and slot updates keep both inventories valid |
| StoreProperties.NewEntriesSelects | web/src/store/index.ts:335-340 | the appended entries are exactly the payload entries whose value the existing list lacks |
| StoreProperties.HasValueAppend | web/src/store/index.ts:337 | supporting lemma for NewEntriesIdempotent: a value is in a joined list iff it is in one of the parts |
| StoreProperties.NewEntriesIdempotent | web/src/store/index.ts:331-341 | applying the same metadata payload a second time appends nothing |
| StoreProperties.NoneNew | web/src/store/index.ts:335-338 | a payload whose values are all present appends nothing |
| StoreProperties.NewEntriesKeepsPayloadDuplicates | web/src/store/index.ts:335-338 | duplicates within one payload are both appended, because they are checked only against the existing list |
| StoreProperties.ContainerWeightFirstOnly | web/src/store/index.ts:355-361 | only the first left slot linked to the open right inventory is reweighed; with none, nothing changes |
| StoreProperties.ContainerWeightValid | web/src/store/index.ts:353-362 | reweighing the container slot keeps both inventories valid |
| Actions.MoveOutcome | web/src/store/actions/validateMove.ts:18-30 | `false` and errors roll back, a number commits with a weight update, and `true` commits (all as if-and-only-if) |
| Actions.TradeOutcome | web/src/store/actions/buyItem.ts:18-26 | only `false` and errors roll back; nothing updates a weight |
| Actions.SettleCalls | web/src/store/actions/validateMove.ts:18-30 | settling makes exactly one call, `endBusyState(success)`, or for a numeric answer exactly two, `setContainerWeight(weight)` then `endBusyState(true)` |
| Actions.Settled | web/src/store/index.ts:399-406 | a rollback restores the snapshot if there is one, a commit keeps the state, and a numeric commit reweighs the container slot |
| Actions.EndsAppend | web/src/store/actions/validateMove.ts:13-30 | supporting lemma for TransactionEndsOnce: the `endBusyState` calls of two joined logs add up |
| Actions.SettleEndsOnce | web/src/store/actions/validateMove.ts:18-30 | every way of settling makes exactly one `endBusyState` call |
| Actions.TransactionEndsOnce | web/src/store/actions/validateMove.ts:13-30 | begin, request and settle make exactly one `endBusyState` call, and it comes last |
| Actions.Settle | web/src/store/actions/validateMove.ts:18-30 | the post-answer half leaves the inventories Settled, busy false and the rest unchanged, and logs its calls |
| Actions.BeginTransaction | web/src/store/actions/validateMove.ts:13-16 | `startBusyState` runs, and its snapshot is taken, before the request is logged |
| Actions.Transact | web/src/store/actions/validateMove.ts:13-30 | a whole transaction with nothing in between ends not busy, with the snapshot kept and the calls begin, request, settle |
| Actions.ValidateMove | web/src/store/actions/validateMove.ts:4-31 | a numeric answer reweighs the open container's slot, any other answer leaves the inventories as they were, and busy ends false |
| Actions.BuyItem | web/src/store/actions/buyItem.ts:4-27 | every answer leaves the inventories as they were, with one begin, one `buyItem` request and one end |
| Actions.CraftItem | web/src/store/actions/craftItem.ts:4-27 | every answer leaves the inventories as they were, with one begin, one `craftItem` request and one end |
| OnDrop.TransferCount | web/src/dnd/onDrop.ts:52-57 | half (rounded down) on a shift-drag of more than one unit outside a shop; else the staged amount unless it is 0 or too large; always in `[1, count]` |
| OnDrop.TargetSlot | web/src/dnd/onDrop.ts:42-44 | the explicit target's record when its index exists, none when it does not, else the helper's choice |
| OnDrop.ChoosePrimitive | web/src/dnd/onDrop.ts:75-85 | stack iff the target holds an item and the item is stackable and compatible; swap iff it holds an item otherwise; move iff it is empty |
| OnDrop.ResolveDrop | web/src/dnd/onDrop.ts:8-57 | hidden right target gives a drop of `itemAmount` or the whole count; an abort names a guard that fails, and conversely the first failing guard, in the order `onDrop` tests them, decides the abort or the transfer; a transfer carries the live source record, kinds, target, count and primitive |
| OnDrop.RequestOf | web/src/dnd/onDrop.ts:59-71 | the request carries both slot numbers, both kinds and the count |
| OnDrop.MemberInRange | web/src/dnd/onDrop.ts:44 | a slot found in a valid inventory sits at its own index and is well formed |
| OnDrop.PlanFits | web/src/dnd/onDrop.ts:25-57 | on a valid store, a resolved transfer names existing positions, a non-empty source, a count within it and a non-negative target count |
| OnDrop.RunTransfer | web/src/dnd/onDrop.ts:67-85 | the snapshot is taken before the one primitive runs; the verdict then commits the primitive's result (reweighed on a number) or restores the snapshot |
| OnDrop.OnDrop | web/src/dnd/onDrop.ts:8-86 | the store follows ResolveDrop; a drop onto the hidden right inventory changes nothing and returns its `dropFromInventory` request (slot and count) as the DropOutside plan; aborts change nothing and log no call; a transfer runs as RunTransfer |
| OnDrop.RollbackRestores | web/src/store/actions/validateMove.ts:18-30 | a rejected or failed drop leaves both inventories exactly as before it |
| OnDrop.CommitKeeps | web/src/store/actions/validateMove.ts:23-27 | an accepted drop keeps the primitive's result, reweighed on a numeric answer |
| OnDrop.SplitNineScenario | web/src/dnd/onDrop.ts:52-57 | a shift-drag of 9 units moves 4 and leaves 5 |
| OnDrop.ShopIgnoresShift | web/src/dnd/onDrop.ts:53 | a shift-drag out of a shop takes the staged amount |
| OccupiedSlots.HighestOccupied | web/src/helpers/calculateOccupiedSlots.ts:15-19 | is at least every named record's slot number, and is 0 or the slot number of some named record |
| OccupiedSlots.CeilDiv | web/src/helpers/calculateOccupiedSlots.ts:27 | the rows of `g` needed for `h` slots cover `h` with less than one row to spare |
| OccupiedSlots.WholeRows | web/src/helpers/calculateOccupiedSlots.ts:30 | a whole number of rows is a multiple of the row width |
| OccupiedSlots.ProductBounds | web/src/helpers/calculateOccupiedSlots.ts:30 | supporting lemma for WholeRows (the rounding to whole rows): a non-zero multiple of `g` is at least `g` away from 0 |
| OccupiedSlots.DisplaySlots | web/src/helpers/calculateOccupiedSlots.ts:21-35 | `gridCols` when nothing is occupied, even above capacity; otherwise at most the capacity, a multiple of `gridCols` when not capped, and within one row above `h` when `h` fits |
| OccupiedSlots.CalculateDisplaySlots | web/src/helpers/calculateOccupiedSlots.ts:11-36 | the scanning loop returns DisplaySlots of the highest occupied slot |
| OccupiedSlots.UnnamedIgnored | web/src/helpers/calculateOccupiedSlots.ts:16 | records without a name never raise the highest occupied slot |
| OccupiedSlots.DefaultGridScenarios | web/src/helpers/calculateOccupiedSlots.ts:11-36 | with 5 columns, slot 7 of 50 shows 10 slots, and an empty 3-slot inventory shows 5 |
| App.RouteDragEnd | web/src/App.tsx:140-168 | no handler without an over zone, drag data or target data; use or give only from the player; shop to buy, bench to craft, anything else to drop |
| App.TradesBypassDrop | web/src/App.tsx:158-165 | shop and crafting drags never reach `onDrop`, use or give |
| App.DragSession.constructor | web/src/App.tsx:91 | no drag preview at the start (`useState(null)`), and the tooltip starts closed as in the store's initial tooltip state |
| App.DragSession.HandleDragEnd | web/src/App.tsx:133-169 | the drag preview and the tooltip are cleared on every path, and the one handler is RouteDragEnd's |

## Left out

- Rendering, the tooltip and context-menu store actions, the formatting helpers, the dnd-kit, zustand, immer and devtools plumbing, and the keyboard and NUI event hooks are not modelled.
- The transport (`fetchNui`) and `async`/`await` are replaced by the `Verdict` parameter. The round trip runs sequentially between the primitive and the settling half, so out-of-order responses are not modelled.
- The helpers `itemDurability`, `getTargetInventory`, `canStack`, `findAvailableSlot` and `isSlotWithItem` are function-typed parameters with no behaviour. Their definitions are not part of this model. The model makes two assumptions about them: `findAvailableSlot` answers with one of the slots it is given (`FindsWithin`), and `getTargetInventory`, asked again with the two chosen inventories' types, picks the same two inventories (`KindsAgree`, next line).
- `getTargetInventory` is given the two inventory types, not the whole state.
- OnDrop.OnDrop: the model requires that `getTargetInventory`, applied to the two chosen inventories' own types, picks those same inventories again. This matters because the primitives resolve their inventories a second time from the types that `onDrop` passes.
- `getItemData`, the lazy catalog fetch for unknown names during setup and resize, is not modelled. It has no effect on the slots.
- `Store` methods require their written positions to exist. The source would write past the end of a JavaScript array there, which the model does not represent.
- OnDrop.OnDrop requires the dragged slot to exist and hold an item, which the UI guarantees by allowing only such slots to be dragged.
- OnDrop.OnDrop requires a non-negative integer `itemAmount`, which the amount input's sanitiser guarantees.
- The crafting-inventory re-render workaround (`state.rightInventory = { ...state.rightInventory }`) is not modelled. It copies the inventory without changing its value.
- The `dropFromInventory`, `onUse`, `onGive`, `onBuy` and `onCraft` effects are returned as values (`DropOutside`, `Handler`) and not executed.
- Single-flight rejection is not modelled, because `startBusyState` does not check `isBusy`. A second begin overwrites the snapshot.
- Discarding the snapshot on commit is not modelled, because `endBusyState` never clears `history`. A later rollback with no new begin restores that old snapshot.
- `JSON.parse(JSON.stringify(...))` deep copies are value copies in the model, so aliasing between the snapshot and the live inventories is not modelled.
- Float arithmetic is not modelled: weights are exact reals. `Math.ceil(h / gridCols)` is `(h + gridCols - 1) / gridCols` on integers.
- OccupiedSlots.CalculateDisplaySlots requires `gridCols > 0`. With 0 columns the source returns 0 when nothing is occupied, and `NaN` (from `Math.ceil(h / 0) * 0`) once some slot is occupied; the model represents neither.
- OccupiedSlots.CalculateDisplaySlots takes `gridCols` explicitly. The source's default argument `gridCols = 5` is the constant `DEFAULT_GRID_COLS`, and callers relying on the default pass it.
- The inventory `label` and `groups` fields are not modelled, because the core never reads them.
- InventoryStore.SetUp: requires every named payload record to have a count of at least 1, and every record a count of at least 0. The source stores server data as given. The store invariant `Valid()` carries this condition, because move and stack divide a record's weight by its count (index.ts:188, :218). With a named record of count 0, the source's per-unit weight would be `NaN` or `Infinity`, which exact reals cannot represent. Server payloads are trusted to be well formed.
- InventoryStore.Store.SetupInventory: requires well-formed payload records for the same reason as InventoryStore.SetUp. Setting up with a named record of count 0 is not modelled.
- InventoryStore.Store.PushItems: requires well-formed pushed records for the same reason as InventoryStore.SetUp. Refreshing with a named record of count 0 is not modelled.
- InventoryStore.Store.RefreshSlots: requires well-formed pushed records for the same reason as InventoryStore.SetUp. Refreshing with a named record of count 0 is not modelled.
- The `console.error` and `console.log` messages on aborted drops, on an undefined target slot and on unknown item counts are not modelled. They are diagnostics with no effect on state. An abort is returned as its `AbortReason` instead.
- `DragSource.itemName`, `ItemData.itemLabel`, `ItemData.usable` and `ItemData.close` are carried as in the source's types but never read by the core. They are kept so the records match the source's shapes.
