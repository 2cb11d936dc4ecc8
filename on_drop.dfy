/** `onDrop`: turn a finished drag into an external drop, an abort, or a
    transaction that applies exactly one of stack, swap and move. */
module OnDrop {
  import opened Typings
  import opened InventoryStore
  import opened Actions

  /** The drop target's inventory tag for the right-hand panel. */
  const RIGHT: string := "right"

  datatype Primitive = StackOp | SwapOp | MoveOp

  /** Why a drop is abandoned before any snapshot or mutation. */
  datatype AbortReason =
    | UnknownItem            // the source item has no catalog entry
    | ContainerIntoContainer // a container item dropped into a container inventory
    | OpenContainerMoved     // the container item is the open right inventory
    | NoTargetSlot           // no slot to drop on
    | OpenContainerTarget    // the target slot is the open right inventory

  /** The operands a drop hands to `validateMove` and to its primitive. */
  datatype Transfer = Transfer(sides: Sides, fromSlot: Slot, toSlot: Slot, fromType: string, toType: string,
                               count: int, op: Primitive)

  datatype DropPlan =
    | DropOutside(fromSlot: int, count: int)  // the `dropFromInventory` effect
    | Abort(reason: AbortReason)
    | Apply(transfer: Transfer)

  /** The right inventory is the target but hidden: the item is dropped instead. */
  predicate HiddenRight(showRight: bool, target: Option<DropTarget>) {
    target.Some? && target.value.inventory == RIGHT && !showRight
  }

  /** `getTargetInventory(state, source.inventory, target?.inventory)`. */
  function DragSides(h: Helpers, source: DragSource, target: Option<DropTarget>): Sides {
    h.getTargetInventory(source.inventory, if target.Some? then Some(target.value.inventory) else None)
  }

  /** The dragged slot exists and holds an item in the inventory it is read from. */
  predicate DragFits(p: Pair, showRight: bool, h: Helpers, source: DragSource, target: Option<DropTarget>) {
    if HiddenRight(showRight, target) then InRange(p, Left, source.itemSlot) && Occupied(ItemAt(p, Left, source.itemSlot))
    else InRange(p, DragSides(h, source, target).source, source.itemSlot)
         && Occupied(ItemAt(p, DragSides(h, source, target).source, source.itemSlot))
  }

  /** The primitives resolve their inventories again from the two kinds; the
      drop relies on them landing on the inventories it picked. */
  predicate KindsAgree(p: Pair, h: Helpers, sides: Sides) {
    h.getTargetInventory(Inv(p, sides.source).kind, Some(Inv(p, sides.target).kind)) == sides
  }

  /** The number of units to transfer: half (rounded down) on a shift-drag
      of more than one unit out of anything but a shop, otherwise the staged
      amount unless it is 0 or more than the stack holds. */
  function TransferCount(shift: bool, count: int, sourceType: string, itemAmount: int): (r: int)
    ensures count >= 1 && itemAmount >= 0 ==> 1 <= r <= count
    ensures shift && count > 1 && sourceType != SHOP ==> 2 * r <= count < 2 * r + 2
    ensures !(shift && count > 1 && sourceType != SHOP) && 1 <= itemAmount <= count ==> r == itemAmount
    ensures !(shift && count > 1 && sourceType != SHOP) && (itemAmount == 0 || itemAmount > count) ==> r == count
  {
    if shift && count > 1 && sourceType != SHOP then count / 2
    else if itemAmount == 0 || itemAmount > count then count
    else itemAmount
  }

  /** The slot dropped on: the explicit target's record when that index
      exists, or the helper's choice of a free or stackable slot. */
  function TargetSlot(targetInv: Inventory, target: Option<DropTarget>, h: Helpers, sourceSlot: Slot, sourceData: ItemData): (r: Option<Slot>)
    ensures target.Some? && 1 <= target.value.itemSlot <= |targetInv.items| ==> r == Some(targetInv.items[target.value.itemSlot - 1])
    ensures target.Some? && !(1 <= target.value.itemSlot <= |targetInv.items|) ==> r == None
    ensures target.None? ==> r == h.findAvailableSlot(sourceSlot, sourceData, targetInv.items)
  {
    if target.Some? then
      if 1 <= target.value.itemSlot <= |targetInv.items| then Some(targetInv.items[target.value.itemSlot - 1]) else None
    else h.findAvailableSlot(sourceSlot, sourceData, targetInv.items)
  }

  /** Stack onto an occupied stackable-compatible slot, swap with any other
      occupied slot, move into an empty one. */
  function ChoosePrimitive(h: Helpers, sourceData: ItemData, sourceSlot: Slot, targetSlot: Slot): (op: Primitive)
    ensures op == StackOp <==> h.isSlotWithItem(targetSlot, true) && sourceData.stack && h.canStack(sourceSlot, targetSlot)
    ensures op == SwapOp <==> h.isSlotWithItem(targetSlot, true) && !(sourceData.stack && h.canStack(sourceSlot, targetSlot))
    ensures op == MoveOp <==> !h.isSlotWithItem(targetSlot, true)
  {
    if h.isSlotWithItem(targetSlot, true) then
      if sourceData.stack && h.canStack(sourceSlot, targetSlot) then StackOp else SwapOp
    else MoveOp
  }

  /** The decision `onDrop` takes from the store's state, in the order of its guards. */
  function ResolveDrop(p: Pair, showRight: bool, itemAmount: int, shift: bool, catalog: map<string, ItemData>,
                       h: Helpers, source: DragSource, target: Option<DropTarget>): (r: DropPlan)
    requires DragFits(p, showRight, h, source, target)
    ensures HiddenRight(showRight, target) ==>
              r == DropOutside(ItemAt(p, Left, source.itemSlot).slot,
                               if itemAmount != 0 then itemAmount else ItemAt(p, Left, source.itemSlot).count)
    ensures !HiddenRight(showRight, target) ==> !r.DropOutside?
    ensures !HiddenRight(showRight, target) && ItemAt(p, DragSides(h, source, target).source, source.itemSlot).name !in catalog ==>
              r == Abort(UnknownItem)
    ensures r.Apply? ==>
              var t := r.transfer;
              && t.sides == DragSides(h, source, target)
              && t.fromSlot == ItemAt(p, t.sides.source, source.itemSlot)
              && t.fromType == Inv(p, t.sides.source).kind && t.toType == Inv(p, t.sides.target).kind
              && t.fromSlot.name in catalog
              && (CONTAINER_KEY in t.fromSlot.metadata ==> t.toType != CONTAINER && !IsContainerOf(t.fromSlot, p.right.id))
              && Some(t.toSlot) == TargetSlot(Inv(p, t.sides.target), target, h, t.fromSlot, catalog[t.fromSlot.name])
              && !IsContainerOf(t.toSlot, p.right.id)
              && t.count == TransferCount(shift, t.fromSlot.count, t.fromType, itemAmount)
              && t.op == ChoosePrimitive(h, catalog[t.fromSlot.name], t.fromSlot, t.toSlot)
    ensures !HiddenRight(showRight, target) && r.Abort? ==>
              var s := ItemAt(p, DragSides(h, source, target).source, source.itemSlot);
              var targetInv := Inv(p, DragSides(h, source, target).target);
              match r.reason
              case UnknownItem => s.name !in catalog
              case ContainerIntoContainer => s.name in catalog && CONTAINER_KEY in s.metadata && targetInv.kind == CONTAINER
              case OpenContainerMoved => s.name in catalog && CONTAINER_KEY in s.metadata && IsContainerOf(s, p.right.id)
              case NoTargetSlot => s.name in catalog && TargetSlot(targetInv, target, h, s, catalog[s.name]).None?
              case OpenContainerTarget =>
                s.name in catalog && TargetSlot(targetInv, target, h, s, catalog[s.name]).Some?
                && IsContainerOf(TargetSlot(targetInv, target, h, s, catalog[s.name]).value, p.right.id)
    // Conversely, the first guard that fails, in the order they are tested, decides the plan.
    ensures !HiddenRight(showRight, target) ==>
              var s := ItemAt(p, DragSides(h, source, target).source, source.itemSlot);
              var targetInv := Inv(p, DragSides(h, source, target).target);
              && (s.name in catalog && CONTAINER_KEY in s.metadata && targetInv.kind == CONTAINER ==>
                    r == Abort(ContainerIntoContainer))
              && ((s.name in catalog && CONTAINER_KEY in s.metadata && targetInv.kind != CONTAINER
                   && IsContainerOf(s, p.right.id)) ==> r == Abort(OpenContainerMoved))
              && (s.name in catalog && !(CONTAINER_KEY in s.metadata && (targetInv.kind == CONTAINER || IsContainerOf(s, p.right.id))) ==>
                    var ts := TargetSlot(targetInv, target, h, s, catalog[s.name]);
                    && (ts.None? ==> r == Abort(NoTargetSlot))
                    && (ts.Some? && IsContainerOf(ts.value, p.right.id) ==> r == Abort(OpenContainerTarget))
                    && (ts.Some? && !IsContainerOf(ts.value, p.right.id) ==> r.Apply? && r.transfer.toSlot == ts.value))
  {
    if HiddenRight(showRight, target) then
      var s := ItemAt(p, Left, source.itemSlot);
      DropOutside(s.slot, if itemAmount != 0 then itemAmount else s.count)
    else
      var sides := DragSides(h, source, target);
      var sourceSlot := ItemAt(p, sides.source, source.itemSlot);
      var targetInv := Inv(p, sides.target);
      if sourceSlot.name !in catalog then Abort(UnknownItem)
      else if CONTAINER_KEY in sourceSlot.metadata && targetInv.kind == CONTAINER then Abort(ContainerIntoContainer)
      else if CONTAINER_KEY in sourceSlot.metadata && IsContainerOf(sourceSlot, p.right.id) then Abort(OpenContainerMoved)
      else
        var sourceData := catalog[sourceSlot.name];
        match TargetSlot(targetInv, target, h, sourceSlot, sourceData)
        case None => Abort(NoTargetSlot)
        case Some(targetSlot) =>
          if IsContainerOf(targetSlot, p.right.id) then Abort(OpenContainerTarget)
          else
            var fromType := Inv(p, sides.source).kind;
            Apply(Transfer(sides, sourceSlot, targetSlot, fromType, targetInv.kind,
                           TransferCount(shift, sourceSlot.count, fromType, itemAmount),
                           ChoosePrimitive(h, sourceData, sourceSlot, targetSlot)))
  }

  /** What a transfer asks the authority to confirm. */
  function RequestOf(t: Transfer): (q: MoveRequest)
    ensures q.fromSlot == t.fromSlot.slot && q.toSlot == t.toSlot.slot && q.count == t.count
    ensures q.fromType == t.fromType && q.toType == t.toType
  {
    MoveRequest(t.fromSlot.slot, t.toSlot.slot, t.fromType, t.toType, t.count)
  }

  /** The operands a primitive needs: both positions exist, the dragged stack
      holds at least one unit, the amount is within it, the target count is
      not negative. */
  predicate Fits(p: Pair, t: Transfer) {
    && InRange(p, t.sides.source, t.fromSlot.slot) && InRange(p, t.sides.target, t.toSlot.slot)
    && 1 <= t.count <= t.fromSlot.count && t.toSlot.count >= 0
  }

  /** The primitive a transfer applies, on the pure state. */
  function Applied(p: Pair, t: Transfer, durability: (Metadata, int) -> Option<real>, now: int): Pair
    requires Fits(p, t)
  {
    match t.op
    case StackOp => StackedSlots(p, t.sides, t.fromSlot, t.fromType, t.toSlot, t.count)
    case SwapOp => SwappedSlots(p, t.sides, t.fromSlot, t.toSlot, durability, now)
    case MoveOp => MovedSlots(p, t.sides, t.fromSlot, t.fromType, t.toSlot, t.count, durability, now)
  }

  /** A well-formed slot found in a valid inventory sits at its own index. */
  lemma MemberInRange(inv: Inventory, s: Slot)
    requires InventoryValid(inv) && s in inv.items
    ensures 1 <= s.slot <= |inv.items| && inv.items[s.slot - 1] == s && WellFormedSlot(s)
  {
    var k :| 0 <= k < |inv.items| && inv.items[k] == s;
    assert s.slot == k + 1;
  }

  /** On a valid store, every transfer a drop resolves to has the operands its
      primitive needs. */
  lemma PlanFits(p: Pair, showRight: bool, itemAmount: int, shift: bool, catalog: map<string, ItemData>,
                 h: Helpers, source: DragSource, target: Option<DropTarget>)
    requires PairValid(p) && itemAmount >= 0 && FindsWithin(h)
    requires DragFits(p, showRight, h, source, target)
    requires ResolveDrop(p, showRight, itemAmount, shift, catalog, h, source, target).Apply?
    ensures Fits(p, ResolveDrop(p, showRight, itemAmount, shift, catalog, h, source, target).transfer)
  {
    var t := ResolveDrop(p, showRight, itemAmount, shift, catalog, h, source, target).transfer;
    var sourceInv := Inv(p, t.sides.source);
    var targetInv := Inv(p, t.sides.target);
    assert t.fromSlot == sourceInv.items[source.itemSlot - 1];
    assert t.fromSlot.slot == source.itemSlot && WellFormedSlot(t.fromSlot);
    if target.None? {
      assert t.toSlot in targetInv.items;
    }
    MemberInRange(targetInv, t.toSlot);
  }

  /** A resolved transfer run as one transaction: `validateMove`'s begin
      (snapshot and busy flag), then the optimistic primitive, then the
      verdict, which commits or restores the snapshot. */
  method RunTransfer(store: Store, t: Transfer, verdict: Verdict, now: int)
    requires store.Valid() && Fits(store.View(), t)
    requires store.helpers.getTargetInventory(t.fromType, Some(t.toType)) == t.sides
    modifies store
    ensures store.Valid()
    ensures store.View() == Settled(Applied(old(store.View()), t, store.helpers.itemDurability, now),
                                    Some(old(store.View())), MoveOutcome(verdict))
    ensures store.Others() == old(store.Others()).(isBusy := false, history := Some(old(store.View())))
    ensures store.calls == old(store.calls) + [Begin, Sent(SWAP_ITEMS, RequestOf(t))] + SettleCalls(MoveOutcome(verdict))
  {
    BeginTransaction(store, SWAP_ITEMS, RequestOf(t));
    match t.op {
      case StackOp =>
        store.StackSlots(t.fromSlot, t.fromType, t.toSlot, t.toType, t.count);
      case SwapOp =>
        store.SwapSlots(t.fromSlot, t.fromType, t.toSlot, t.toType, now);
      case MoveOp =>
        store.MoveSlots(t.fromSlot, t.fromType, t.toSlot, t.toType, t.count, now);
    }
    Settle(store, MoveOutcome(verdict));
  }

  /** The store's side of `onDrop`: a transfer runs as one transaction whose
      snapshot is taken before the primitive; an external drop or an abort
      changes nothing in the store and sends nothing to the authority. */
  method OnDrop(store: Store, source: DragSource, target: Option<DropTarget>, verdict: Verdict, now: int) returns (plan: DropPlan)
    requires store.Valid() && store.itemAmount >= 0 && FindsWithin(store.helpers)
    requires DragFits(store.View(), store.showRightInventory, store.helpers, source, target)
    requires !HiddenRight(store.showRightInventory, target) ==>
               KindsAgree(store.View(), store.helpers, DragSides(store.helpers, source, target))
    modifies store
    ensures store.Valid()
    ensures plan == ResolveDrop(old(store.View()), old(store.showRightInventory), old(store.itemAmount), old(store.shiftPressed),
                                old(store.catalog), store.helpers, source, target)
    ensures !plan.Apply? ==> store.View() == old(store.View()) && store.Others() == old(store.Others()) && store.calls == old(store.calls)
    ensures plan.Apply? ==>
              && Fits(old(store.View()), plan.transfer)
              && store.View() == Settled(Applied(old(store.View()), plan.transfer, store.helpers.itemDurability, now),
                                         Some(old(store.View())), MoveOutcome(verdict))
              && store.Others() == old(store.Others()).(isBusy := false, history := Some(old(store.View())))
              && store.calls == old(store.calls) + [Begin, Sent(SWAP_ITEMS, RequestOf(plan.transfer))] + SettleCalls(MoveOutcome(verdict))
  {
    plan := ResolveDrop(store.View(), store.showRightInventory, store.itemAmount, store.shiftPressed, store.catalog,
                        store.helpers, source, target);
    if !plan.Apply? {
      return;
    }
    PlanFits(store.View(), store.showRightInventory, store.itemAmount, store.shiftPressed, store.catalog, store.helpers, source, target);
    RunTransfer(store, plan.transfer, verdict, now);
  }

  /** A rejected or failed round trip leaves both inventories exactly as they
      were before the drop. */
  lemma RollbackRestores(p: Pair, t: Transfer, durability: (Metadata, int) -> Option<real>, now: int, verdict: Verdict)
    requires Fits(p, t)
    requires verdict == Reject || verdict == Failure
    ensures Settled(Applied(p, t, durability, now), Some(p), MoveOutcome(verdict)) == p
  {
  }

  /** A `true` answer keeps the optimistic result; a numeric one also
      reweighs the open container's slot. */
  lemma CommitKeeps(p: Pair, t: Transfer, durability: (Metadata, int) -> Option<real>, now: int, verdict: Verdict)
    requires Fits(p, t)
    requires verdict.Accept? || verdict.AcceptWeight?
    ensures Settled(Applied(p, t, durability, now), Some(p), MoveOutcome(verdict))
            == if verdict.AcceptWeight? then WithContainerWeight(Applied(p, t, durability, now), verdict.weight)
               else Applied(p, t, durability, now)
  {
  }

  /** The split scenario: a shift-drag of a stack of 9 moves 4 units and
      leaves 5 behind. */
  lemma SplitNineScenario(p: Pair, sides: Sides, fromSlot: Slot, toSlot: Slot,
                          durability: (Metadata, int) -> Option<real>, now: int)
    requires InRange(p, sides.source, fromSlot.slot) && InRange(p, sides.target, toSlot.slot)
    requires !(sides.source == sides.target && fromSlot.slot == toSlot.slot)
    requires fromSlot.count == 9
    ensures TransferCount(true, 9, PLAYER, 0) == 4
    ensures ItemAt(MovedSlots(p, sides, fromSlot, PLAYER, toSlot, 4, durability, now), sides.source, fromSlot.slot).count == 5
    ensures ItemAt(MovedSlots(p, sides, fromSlot, PLAYER, toSlot, 4, durability, now), sides.target, toSlot.slot).count == 4
  {
  }

  /** A shift-drag out of a shop takes the staged amount, not half. */
  lemma ShopIgnoresShift(count: int, itemAmount: int)
    requires 1 <= itemAmount <= count
    ensures TransferCount(true, count, SHOP, itemAmount) == itemAmount
  {
  }
}
