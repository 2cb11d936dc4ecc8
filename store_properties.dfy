/** Properties of the store's primitives, stated about the pure functions the
    `Store` methods are proved against. */
module StoreProperties {
  import opened Typings
  import opened InventoryStore

  /** Two 1-based positions of the store are the same position. */
  predicate SamePosition(a: Side, i: int, b: Side, j: int) {
    a == b && i == j
  }

  // ---------------------------------------------------------------------
  // setupInventory

  /** A set-up position is occupied exactly when the first input record
      claiming that slot number is occupied; no record claiming it leaves it empty. */
  lemma SetUpOccupancy(payload: Inventory, durability: (Metadata, int) -> Option<real>, now: int, i: int)
    requires forall k :: 0 <= k < |payload.items| ==> WellFormedSlot(payload.items[k])
    requires 0 <= i < payload.slots
    ensures Occupied(SetUp(payload, durability, now).items[i]) <==>
            exists k :: FirstWithSlot(payload.items, k, i + 1) && Occupied(payload.items[k])
  {
    var r := SetUp(payload, durability, now);
    var f := FindBySlot(payload.items, i + 1);
    if f.Some? {
      assert r.items[i] == Rederived(payload.items[f.value], durability, now);
      if exists k :: FirstWithSlot(payload.items, k, i + 1) && Occupied(payload.items[k]) {
        var k :| FirstWithSlot(payload.items, k, i + 1) && Occupied(payload.items[k]);
        FirstWithSlotUnique(payload.items, k, f.value, i + 1);
      }
    } else {
      assert r.items[i] == EmptySlot(i + 1);
    }
  }

  lemma FirstWithSlotUnique(items: seq<Slot>, k: int, m: int, slot: int)
    requires FirstWithSlot(items, k, slot) && FirstWithSlot(items, m, slot)
    ensures k == m
  {
  }

  /** Setting up keeps every field of the payload but the items, which become
      exactly `slots` records numbered 1..slots. */
  lemma SetUpShape(payload: Inventory, durability: (Metadata, int) -> Option<real>, now: int)
    requires forall k :: 0 <= k < |payload.items| ==> WellFormedSlot(payload.items[k])
    ensures |SetUp(payload, durability, now).items| == payload.slots
    ensures forall i :: 0 <= i < payload.slots ==> SetUp(payload, durability, now).items[i].slot == i + 1
  {
  }

  // ---------------------------------------------------------------------
  // moveSlots

  /** The target of a move holds `count` units at the source's per-unit
      weight, under the target's slot number, durability re-derived from the
      moved record's own metadata. */
  lemma MoveTarget(p: Pair, sides: Sides, fromSlot: Slot, fromType: string, toSlot: Slot, count: int,
                   durability: (Metadata, int) -> Option<real>, now: int)
    requires InRange(p, sides.source, fromSlot.slot) && InRange(p, sides.target, toSlot.slot)
    requires fromSlot.count != 0
    requires !SamePosition(sides.source, fromSlot.slot, sides.target, toSlot.slot) || InfiniteSupply(fromType)
    ensures var t := ItemAt(MovedSlots(p, sides, fromSlot, fromType, toSlot, count, durability, now), sides.target, toSlot.slot);
            && t.count == count
            && t.weight == PieceWeight(fromSlot) * count as real
            && t.slot == toSlot.slot
            && t.name == ItemAt(p, sides.source, fromSlot.slot).name
            && t.metadata == ItemAt(p, sides.source, fromSlot.slot).metadata
            && t.durability == durability(ItemAt(p, sides.source, fromSlot.slot).metadata, now)
  {
    var placed := PutItem(p, sides.target, toSlot.slot, MovedRecord(ItemAt(p, sides.source, fromSlot.slot), fromSlot, toSlot, count, durability, now));
    if !InfiniteSupply(fromType) {
      assert ItemAt(MovedSlots(p, sides, fromSlot, fromType, toSlot, count, durability, now), sides.target, toSlot.slot)
          == ItemAt(placed, sides.target, toSlot.slot);
    }
  }

  /** Unless the source is a shop or a bench, the source of a move keeps the
      remaining units at the same per-unit weight, or becomes an empty slot. */
  lemma MoveSource(p: Pair, sides: Sides, fromSlot: Slot, fromType: string, toSlot: Slot, count: int,
                   durability: (Metadata, int) -> Option<real>, now: int)
    requires InRange(p, sides.source, fromSlot.slot) && InRange(p, sides.target, toSlot.slot)
    requires fromSlot.count != 0
    requires !SamePosition(sides.source, fromSlot.slot, sides.target, toSlot.slot)
    requires !InfiniteSupply(fromType)
    ensures var s := ItemAt(MovedSlots(p, sides, fromSlot, fromType, toSlot, count, durability, now), sides.source, fromSlot.slot);
            if fromSlot.count - count > 0 then
              s == ItemAt(p, sides.source, fromSlot.slot).(count := fromSlot.count - count,
                                                          weight := PieceWeight(fromSlot) * (fromSlot.count - count) as real)
            else s == EmptySlot(fromSlot.slot)
  {
  }

  /** A shop or a crafting bench is an infinite supply: a move or a stack out
      of it leaves the source position as it was. */
  lemma InfiniteSupplyUntouched(p: Pair, sides: Sides, fromSlot: Slot, fromType: string, toSlot: Slot, count: int,
                                durability: (Metadata, int) -> Option<real>, now: int)
    requires InRange(p, sides.source, fromSlot.slot) && InRange(p, sides.target, toSlot.slot)
    requires fromSlot.count != 0
    requires !SamePosition(sides.source, fromSlot.slot, sides.target, toSlot.slot)
    requires fromType == SHOP || fromType == CRAFTING
    ensures ItemAt(MovedSlots(p, sides, fromSlot, fromType, toSlot, count, durability, now), sides.source, fromSlot.slot)
         == ItemAt(p, sides.source, fromSlot.slot)
    ensures ItemAt(StackedSlots(p, sides, fromSlot, fromType, toSlot, count), sides.source, fromSlot.slot)
         == ItemAt(p, sides.source, fromSlot.slot)
  {
  }

  /** A move changes no position other than its source and its target. */
  lemma MoveFrame(p: Pair, sides: Sides, fromSlot: Slot, fromType: string, toSlot: Slot, count: int,
                  durability: (Metadata, int) -> Option<real>, now: int, side: Side, k: int)
    requires InRange(p, sides.source, fromSlot.slot) && InRange(p, sides.target, toSlot.slot)
    requires fromSlot.count != 0
    requires InRange(p, side, k)
    requires !SamePosition(side, k, sides.source, fromSlot.slot) && !SamePosition(side, k, sides.target, toSlot.slot)
    ensures PairSameShape(p, MovedSlots(p, sides, fromSlot, fromType, toSlot, count, durability, now))
    ensures ItemAt(MovedSlots(p, sides, fromSlot, fromType, toSlot, count, durability, now), side, k) == ItemAt(p, side, k)
  {
  }

  /** `n` units at the per-unit weight of `s`, plus the other `s.count - n`, weigh what `s` weighs. */
  lemma SplitWeight(s: Slot, n: int)
    requires s.count != 0
    ensures PieceWeight(s) * n as real + PieceWeight(s) * (s.count - n) as real == s.weight
  {
    calc {
      PieceWeight(s) * n as real + PieceWeight(s) * (s.count - n) as real;
      PieceWeight(s) * (n as real + (s.count - n) as real);
      PieceWeight(s) * s.count as real;
      s.weight;
    }
  }

  /** Moving `count` of the live source record's units into an empty slot
      conserves the total count and the total weight of the two positions. */
  lemma MoveConserves(p: Pair, sides: Sides, fromSlot: Slot, fromType: string, toSlot: Slot, count: int,
                      durability: (Metadata, int) -> Option<real>, now: int)
    requires InRange(p, sides.source, fromSlot.slot) && InRange(p, sides.target, toSlot.slot)
    requires !SamePosition(sides.source, fromSlot.slot, sides.target, toSlot.slot)
    requires ItemAt(p, sides.source, fromSlot.slot) == fromSlot
    requires 1 <= count <= fromSlot.count
    requires ItemAt(p, sides.target, toSlot.slot).count == 0 && ItemAt(p, sides.target, toSlot.slot).weight == 0.0
    requires !InfiniteSupply(fromType)
    ensures var r := MovedSlots(p, sides, fromSlot, fromType, toSlot, count, durability, now);
            && ItemAt(r, sides.source, fromSlot.slot).count + ItemAt(r, sides.target, toSlot.slot).count
               == ItemAt(p, sides.source, fromSlot.slot).count + ItemAt(p, sides.target, toSlot.slot).count
            && ItemAt(r, sides.source, fromSlot.slot).weight + ItemAt(r, sides.target, toSlot.slot).weight
               == ItemAt(p, sides.source, fromSlot.slot).weight + ItemAt(p, sides.target, toSlot.slot).weight
  {
    MoveTarget(p, sides, fromSlot, fromType, toSlot, count, durability, now);
    MoveSource(p, sides, fromSlot, fromType, toSlot, count, durability, now);
    SplitWeight(fromSlot, count);
    if fromSlot.count - count == 0 {
      assert PieceWeight(fromSlot) * (fromSlot.count - count) as real == 0.0;
    }
  }

  /** The first worked scenario: 5 of 10 units weighing 500 into an empty
      slot leaves 5 units weighing 250 on each side. */
  lemma MoveHalfScenario(p: Pair, sides: Sides, fromSlot: Slot, toSlot: Slot,
                         durability: (Metadata, int) -> Option<real>, now: int)
    requires InRange(p, sides.source, fromSlot.slot) && InRange(p, sides.target, toSlot.slot)
    requires !SamePosition(sides.source, fromSlot.slot, sides.target, toSlot.slot)
    requires fromSlot == ItemAt(p, sides.source, fromSlot.slot)
    requires fromSlot.count == 10 && fromSlot.weight == 500.0
    ensures var r := MovedSlots(p, sides, fromSlot, PLAYER, toSlot, 5, durability, now);
            && ItemAt(r, sides.source, fromSlot.slot).count == 5 && ItemAt(r, sides.source, fromSlot.slot).weight == 250.0
            && ItemAt(r, sides.target, toSlot.slot).count == 5 && ItemAt(r, sides.target, toSlot.slot).weight == 250.0
  {
    MoveTarget(p, sides, fromSlot, PLAYER, toSlot, 5, durability, now);
    MoveSource(p, sides, fromSlot, PLAYER, toSlot, 5, durability, now);
    assert PieceWeight(fromSlot) == 50.0;
  }

  // ---------------------------------------------------------------------
  // stackSlots

  /** The target of a stack grows by `count` units and is reweighed at the
      source's per-unit weight; its other fields are kept. */
  lemma StackTarget(p: Pair, sides: Sides, fromSlot: Slot, fromType: string, toSlot: Slot, count: int)
    requires InRange(p, sides.source, fromSlot.slot) && InRange(p, sides.target, toSlot.slot)
    requires fromSlot.count != 0
    requires !SamePosition(sides.source, fromSlot.slot, sides.target, toSlot.slot) || InfiniteSupply(fromType)
    ensures ItemAt(StackedSlots(p, sides, fromSlot, fromType, toSlot, count), sides.target, toSlot.slot)
         == ItemAt(p, sides.target, toSlot.slot).(count := toSlot.count + count,
                                                  weight := PieceWeight(fromSlot) * (toSlot.count + count) as real)
  {
    var placed := PutItem(p, sides.target, toSlot.slot,
                          ItemAt(p, sides.target, toSlot.slot).(count := toSlot.count + count,
                                                                weight := WeightOfUnits(fromSlot, toSlot.count + count)));
    if !InfiniteSupply(fromType) {
      assert ItemAt(StackedSlots(p, sides, fromSlot, fromType, toSlot, count), sides.target, toSlot.slot)
          == ItemAt(placed, sides.target, toSlot.slot);
    }
  }

  /** The source of a stack is drained like the source of a move. */
  lemma StackSource(p: Pair, sides: Sides, fromSlot: Slot, fromType: string, toSlot: Slot, count: int)
    requires InRange(p, sides.source, fromSlot.slot) && InRange(p, sides.target, toSlot.slot)
    requires fromSlot.count != 0
    requires !SamePosition(sides.source, fromSlot.slot, sides.target, toSlot.slot)
    requires !InfiniteSupply(fromType)
    ensures var s := ItemAt(StackedSlots(p, sides, fromSlot, fromType, toSlot, count), sides.source, fromSlot.slot);
            if fromSlot.count - count > 0 then
              s == ItemAt(p, sides.source, fromSlot.slot).(count := fromSlot.count - count,
                                                          weight := PieceWeight(fromSlot) * (fromSlot.count - count) as real)
            else s == EmptySlot(fromSlot.slot)
  {
  }

  /** A stack changes no position other than its source and its target. */
  lemma StackFrame(p: Pair, sides: Sides, fromSlot: Slot, fromType: string, toSlot: Slot, count: int, side: Side, k: int)
    requires InRange(p, sides.source, fromSlot.slot) && InRange(p, sides.target, toSlot.slot)
    requires fromSlot.count != 0
    requires InRange(p, side, k)
    requires !SamePosition(side, k, sides.source, fromSlot.slot) && !SamePosition(side, k, sides.target, toSlot.slot)
    ensures PairSameShape(p, StackedSlots(p, sides, fromSlot, fromType, toSlot, count))
    ensures ItemAt(StackedSlots(p, sides, fromSlot, fromType, toSlot, count), side, k) == ItemAt(p, side, k)
  {
  }

  /** Stacking live records of two distinct positions conserves the total
      count, and conserves the total weight when both stacks weigh the same
      per unit. */
  lemma StackConserves(p: Pair, sides: Sides, fromSlot: Slot, fromType: string, toSlot: Slot, count: int)
    requires InRange(p, sides.source, fromSlot.slot) && InRange(p, sides.target, toSlot.slot)
    requires !SamePosition(sides.source, fromSlot.slot, sides.target, toSlot.slot)
    requires ItemAt(p, sides.source, fromSlot.slot) == fromSlot && ItemAt(p, sides.target, toSlot.slot) == toSlot
    requires 1 <= count <= fromSlot.count && toSlot.count >= 0
    requires !InfiniteSupply(fromType)
    ensures var r := StackedSlots(p, sides, fromSlot, fromType, toSlot, count);
            ItemAt(r, sides.source, fromSlot.slot).count + ItemAt(r, sides.target, toSlot.slot).count
            == fromSlot.count + toSlot.count
    ensures toSlot.count >= 1 && PieceWeight(toSlot) == PieceWeight(fromSlot) ==>
              var r := StackedSlots(p, sides, fromSlot, fromType, toSlot, count);
              ItemAt(r, sides.source, fromSlot.slot).weight + ItemAt(r, sides.target, toSlot.slot).weight
              == fromSlot.weight + toSlot.weight
  {
    StackTarget(p, sides, fromSlot, fromType, toSlot, count);
    StackSource(p, sides, fromSlot, fromType, toSlot, count);
    if toSlot.count < 1 || PieceWeight(toSlot) != PieceWeight(fromSlot) {
      return;
    }
    var w := PieceWeight(fromSlot);
    assert toSlot.weight == w * toSlot.count as real by {
      assert w == toSlot.weight / toSlot.count as real;
    }
    assert fromSlot.weight == w * fromSlot.count as real;
    calc {
      w * (toSlot.count + count) as real + w * (fromSlot.count - count) as real;
      w * toSlot.count as real + w * fromSlot.count as real;
    }
  }

  /** The second worked scenario: 3 units at 10 per unit onto a compatible
      stack of 7 gives 10 units weighing 100. */
  lemma StackScenario(p: Pair, sides: Sides, fromSlot: Slot, toSlot: Slot)
    requires InRange(p, sides.source, fromSlot.slot) && InRange(p, sides.target, toSlot.slot)
    requires !SamePosition(sides.source, fromSlot.slot, sides.target, toSlot.slot)
    requires fromSlot.count == 3 && fromSlot.weight == 30.0 && toSlot.count == 7
    ensures var t := ItemAt(StackedSlots(p, sides, fromSlot, PLAYER, toSlot, 3), sides.target, toSlot.slot);
            t.count == 10 && t.weight == 100.0
    ensures ItemAt(StackedSlots(p, sides, fromSlot, PLAYER, toSlot, 3), sides.source, fromSlot.slot) == EmptySlot(fromSlot.slot)
  {
    StackTarget(p, sides, fromSlot, PLAYER, toSlot, 3);
    StackSource(p, sides, fromSlot, PLAYER, toSlot, 3);
    assert PieceWeight(fromSlot) == 10.0;
  }

  /** Stacking a whole slot onto itself empties it: the grown target is
      written first and then overwritten by the drained source. */
  lemma StackOntoItselfEmpties(p: Pair, sides: Sides, fromSlot: Slot, fromType: string, count: int)
    requires sides.source == sides.target
    requires InRange(p, sides.source, fromSlot.slot)
    requires fromSlot.count != 0 && count >= fromSlot.count
    requires !InfiniteSupply(fromType)
    ensures ItemAt(StackedSlots(p, sides, fromSlot, fromType, fromSlot, count), sides.source, fromSlot.slot) == EmptySlot(fromSlot.slot)
  {
  }

  // ---------------------------------------------------------------------
  // swapSlots

  /** A swap of two distinct positions exchanges their records; each keeps
      the slot number of the position it lands in and gets its durability
      from the metadata passed for it. */
  lemma SwapExchanges(p: Pair, sides: Sides, fromSlot: Slot, toSlot: Slot,
                      durability: (Metadata, int) -> Option<real>, now: int)
    requires InRange(p, sides.source, fromSlot.slot) && InRange(p, sides.target, toSlot.slot)
    requires !SamePosition(sides.source, fromSlot.slot, sides.target, toSlot.slot)
    ensures var r := SwappedSlots(p, sides, fromSlot, toSlot, durability, now);
            && ItemAt(r, sides.source, fromSlot.slot)
               == ItemAt(p, sides.target, toSlot.slot).(slot := fromSlot.slot, durability := durability(toSlot.metadata, now))
            && ItemAt(r, sides.target, toSlot.slot)
               == ItemAt(p, sides.source, fromSlot.slot).(slot := toSlot.slot, durability := durability(fromSlot.metadata, now))
  {
  }

  /** With the live records passed in, every swapped record's durability is
      re-derived from its own metadata, and the count and weight of the two
      positions are conserved. */
  lemma SwapOwnDurabilityAndConserves(p: Pair, sides: Sides, fromSlot: Slot, toSlot: Slot,
                                      durability: (Metadata, int) -> Option<real>, now: int)
    requires InRange(p, sides.source, fromSlot.slot) && InRange(p, sides.target, toSlot.slot)
    requires !SamePosition(sides.source, fromSlot.slot, sides.target, toSlot.slot)
    requires ItemAt(p, sides.source, fromSlot.slot) == fromSlot && ItemAt(p, sides.target, toSlot.slot) == toSlot
    ensures var r := SwappedSlots(p, sides, fromSlot, toSlot, durability, now);
            && ItemAt(r, sides.target, toSlot.slot).durability == durability(ItemAt(r, sides.target, toSlot.slot).metadata, now)
            && ItemAt(r, sides.source, fromSlot.slot).durability == durability(ItemAt(r, sides.source, fromSlot.slot).metadata, now)
            && ItemAt(r, sides.source, fromSlot.slot).count + ItemAt(r, sides.target, toSlot.slot).count == fromSlot.count + toSlot.count
            && ItemAt(r, sides.source, fromSlot.slot).weight + ItemAt(r, sides.target, toSlot.slot).weight == fromSlot.weight + toSlot.weight
  {
    SwapExchanges(p, sides, fromSlot, toSlot, durability, now);
  }

  /** A swap changes no position other than the two it exchanges. */
  lemma SwapFrame(p: Pair, sides: Sides, fromSlot: Slot, toSlot: Slot,
                  durability: (Metadata, int) -> Option<real>, now: int, side: Side, k: int)
    requires InRange(p, sides.source, fromSlot.slot) && InRange(p, sides.target, toSlot.slot)
    requires InRange(p, side, k)
    requires !SamePosition(side, k, sides.source, fromSlot.slot) && !SamePosition(side, k, sides.target, toSlot.slot)
    ensures PairSameShape(p, SwappedSlots(p, sides, fromSlot, toSlot, durability, now))
    ensures ItemAt(SwappedSlots(p, sides, fromSlot, toSlot, durability, now), side, k) == ItemAt(p, side, k)
  {
  }

  // ---------------------------------------------------------------------
  // refreshSlots

  /** Push `d` writes position (`side`, `k`). */
  predicate Writes(d: Option<PushedItem>, side: Side, k: int) {
    d.Some? && PushSide(d.value) == side && d.value.item.slot == k
  }

  /** A position no push names keeps its record. */
  lemma {:induction false} PushesLeaveUnnamed(p: Pair, pushes: seq<Option<PushedItem>>,
                                             durability: (Metadata, int) -> Option<real>, now: int, side: Side, k: int)
    requires PushesFit(p, pushes)
    requires InRange(p, side, k)
    requires forall j :: 0 <= j < |pushes| ==> !Writes(pushes[j], side, k)
    ensures InRange(ApplyPushes(p, pushes, durability, now), side, k)
    ensures ItemAt(ApplyPushes(p, pushes, durability, now), side, k) == ItemAt(p, side, k)
    decreases |pushes|
  {
    if pushes != [] {
      var init := pushes[..|pushes| - 1];
      assert PushesFit(p, init) by {
        forall j | 0 <= j < |init| && init[j].Some? ensures InRange(p, PushSide(init[j].value), init[j].value.item.slot) {
          assert init[j] == pushes[j];
        }
      }
      forall j | 0 <= j < |init| ensures !Writes(init[j], side, k) {
        assert init[j] == pushes[j];
      }
      PushesLeaveUnnamed(p, init, durability, now, side, k);
    }
  }

  /** The last push naming a position decides its record: the pushed item
      verbatim, its durability re-derived. */
  lemma {:induction false} PushesLastWins(p: Pair, pushes: seq<Option<PushedItem>>,
                                         durability: (Metadata, int) -> Option<real>, now: int, j: int)
    requires PushesFit(p, pushes)
    requires 0 <= j < |pushes| && pushes[j].Some?
    requires forall m :: j < m < |pushes| ==> !Writes(pushes[m], PushSide(pushes[j].value), pushes[j].value.item.slot)
    ensures InRange(ApplyPushes(p, pushes, durability, now), PushSide(pushes[j].value), pushes[j].value.item.slot)
    ensures ItemAt(ApplyPushes(p, pushes, durability, now), PushSide(pushes[j].value), pushes[j].value.item.slot)
         == PushedRecord(pushes[j].value, durability, now)
    decreases |pushes|
  {
    var d := pushes[j].value;
    var init := pushes[..|pushes| - 1];
    assert PushesFit(p, init) by {
      forall m | 0 <= m < |init| && init[m].Some? ensures InRange(p, PushSide(init[m].value), init[m].value.item.slot) {
        assert init[m] == pushes[m];
      }
    }
    if j < |pushes| - 1 {
      forall m | j < m < |init| ensures !Writes(init[m], PushSide(d), d.item.slot) {
        assert init[m] == pushes[m];
      }
      assert init[j] == pushes[j];
      PushesLastWins(p, init, durability, now, j);
      assert !Writes(pushes[|pushes| - 1], PushSide(d), d.item.slot);
    }
  }

  /** Pushing well-formed records keeps both inventories valid. */
  lemma {:induction false} PushesValid(p: Pair, pushes: seq<Option<PushedItem>>,
                                      durability: (Metadata, int) -> Option<real>, now: int)
    requires PairValid(p) && PushesFit(p, pushes)
    requires forall j :: 0 <= j < |pushes| && pushes[j].Some? ==> WellFormedSlot(pushes[j].value.item)
    ensures PairValid(ApplyPushes(p, pushes, durability, now))
    decreases |pushes|
  {
    if pushes != [] {
      var init := pushes[..|pushes| - 1];
      assert PushesFit(p, init) by {
        forall j | 0 <= j < |init| && init[j].Some? ensures InRange(p, PushSide(init[j].value), init[j].value.item.slot) {
          assert init[j] == pushes[j];
        }
      }
      PushesValid(p, init, durability, now);
      var q := ApplyPushes(p, init, durability, now);
      var last := pushes[|pushes| - 1];
      if last.Some? {
        PutItemValid(q, PushSide(last.value), last.value.item.slot, PushedRecord(last.value, durability, now));
      }
    }
  }

  /** Every known catalog entry gains the sum of the counts pushed for its
      name, and nothing else about the catalog changes. */
  lemma {:induction false} AddCountsTotals(catalog: map<string, ItemData>, entries: seq<(string, int)>, name: string)
    requires name in catalog
    ensures name in AddCounts(catalog, entries)
    ensures AddCounts(catalog, entries)[name] == catalog[name].(count := catalog[name].count + CountFor(entries, name))
    decreases |entries|
  {
    if entries != [] {
      AddCountsTotals(catalog, entries[..|entries| - 1], name);
    }
  }

  /** Counts pushed for names the catalog does not know are dropped. */
  lemma AddCountsIgnoresUnknown(catalog: map<string, ItemData>, entries: seq<(string, int)>)
    requires forall j :: 0 <= j < |entries| ==> entries[j].0 !in catalog
    ensures AddCounts(catalog, entries) == catalog
    decreases |entries|
  {
    if entries != [] {
      AddCountsIgnoresUnknown(catalog, entries[..|entries| - 1]);
    }
  }

  /** A `weightData` id matching neither inventory ends the refresh: the
      `slotsData` part is not applied either. */
  lemma UnmatchedWeightDataStops(p: Pair, weightData: WeightData, slotsData: Option<SlotsData>,
                                 durability: (Metadata, int) -> Option<real>, now: int)
    requires weightData.inventoryId != p.left.id && weightData.inventoryId != p.right.id
    ensures Reshaped(p, Some(weightData), slotsData, durability, now) == p
  {
  }

  /** A `slotsData` id matching neither inventory leaves the slots alone;
      only the `weightData` part applies. */
  lemma UnmatchedSlotsDataStops(p: Pair, weightData: Option<WeightData>, slotsData: SlotsData,
                                durability: (Metadata, int) -> Option<real>, now: int)
    requires slotsData.inventoryId != p.left.id && slotsData.inventoryId != p.right.id
    ensures Reshaped(p, weightData, Some(slotsData), durability, now) == Reshaped(p, weightData, None, durability, now)
  {
  }

  /** A matched `weightData` sets the maximum weight of the matched inventory
      (the left one when both ids match) and nothing else. */
  lemma WeightDataSetsMaxWeight(p: Pair, weightData: WeightData, durability: (Metadata, int) -> Option<real>, now: int)
    requires weightData.inventoryId == p.left.id || weightData.inventoryId == p.right.id
    ensures var side := if weightData.inventoryId == p.left.id then Left else Right;
            Reshaped(p, Some(weightData), None, durability, now) == WithInv(p, side, Inv(p, side).(maxWeight := weightData.maxWeight))
  {
  }

  /** Resizing a valid inventory to `n` slots keeps every record whose slot
      number fits (durability re-derived) and fills new positions with empty slots. */
  lemma ResizeKeeps(inv: Inventory, n: nat, durability: (Metadata, int) -> Option<real>, now: int)
    requires InventoryValid(inv)
    ensures |Resize(inv, n, durability, now).items| == n && Resize(inv, n, durability, now).slots == n
    ensures forall i :: 0 <= i < n && i < |inv.items| ==> Resize(inv, n, durability, now).items[i] == Rederived(inv.items[i], durability, now)
    ensures forall i :: |inv.items| <= i < n ==> Resize(inv, n, durability, now).items[i] == EmptySlot(i + 1)
  {
    var r := Resize(inv, n, durability, now);
    forall i | 0 <= i < n && i < |inv.items| ensures r.items[i] == Rederived(inv.items[i], durability, now) {
      assert FirstWithSlot(inv.items, i, i + 1);
    }
    forall i | |inv.items| <= i < n ensures r.items[i] == EmptySlot(i + 1) {
      assert forall k :: 0 <= k < |inv.items| ==> inv.items[k].slot != i + 1;
    }
  }

  /** The reshaping part of a refresh keeps both inventories valid. */
  lemma ReshapedValid(p: Pair, weightData: Option<WeightData>, slotsData: Option<SlotsData>,
                      durability: (Metadata, int) -> Option<real>, now: int)
    requires PairValid(p)
    ensures PairValid(Reshaped(p, weightData, slotsData, durability, now))
  {
    if !(weightData.Some? && MatchSide(p, weightData.value.inventoryId).None?) {
      var q := if weightData.None? then p
               else var side := MatchSide(p, weightData.value.inventoryId).value;
                    WithInv(p, side, Inv(p, side).(maxWeight := weightData.value.maxWeight));
      assert PairValid(q);
      if slotsData.Some? && MatchSide(q, slotsData.value.inventoryId).Some? {
        var side := MatchSide(q, slotsData.value.inventoryId).value;
        ResizeValid(Inv(q, side), slotsData.value.slots, durability, now);
      }
    }
  }

  // ---------------------------------------------------------------------
  // setAdditionalMetadata

  /** The appended entries are exactly the payload entries whose value the
      existing list lacks (as a set of entries; order and repetition follow
      the payload, as NewEntriesKeepsPayloadDuplicates shows). */
  lemma {:induction false} NewEntriesSelects(payload: seq<MetadataEntry>, existing: seq<MetadataEntry>)
    ensures forall e :: e in NewEntries(payload, existing) <==> e in payload && !HasValue(existing, e.value)
    decreases |payload|
  {
    if payload != [] {
      var init := payload[..|payload| - 1];
      NewEntriesSelects(init, existing);
      assert payload == init + [payload[|payload| - 1]];
    }
  }

  lemma HasValueAppend(a: seq<MetadataEntry>, b: seq<MetadataEntry>, value: string)
    ensures HasValue(a + b, value) <==> HasValue(a, value) || HasValue(b, value)
  {
    if HasValue(a + b, value) {
      var k :| 0 <= k < |a + b| && (a + b)[k].value == value;
      if k >= |a| {
        assert b[k - |a|] == (a + b)[k];
      } else {
        assert a[k] == (a + b)[k];
      }
    }
    if HasValue(a, value) {
      var k :| 0 <= k < |a| && a[k].value == value;
      assert (a + b)[k] == a[k];
    }
    if HasValue(b, value) {
      var k :| 0 <= k < |b| && b[k].value == value;
      assert (a + b)[|a| + k] == b[k];
    }
  }

  /** Applying the same payload twice adds nothing the second time. */
  lemma NewEntriesIdempotent(payload: seq<MetadataEntry>, existing: seq<MetadataEntry>)
    ensures NewEntries(payload, existing + NewEntries(payload, existing)) == []
  {
    var added := NewEntries(payload, existing);
    NewEntriesSelects(payload, existing);
    forall e | e in payload ensures HasValue(existing + added, e.value) {
      HasValueAppend(existing, added, e.value);
      if !HasValue(existing, e.value) {
        assert e in added;
        var k :| 0 <= k < |added| && added[k] == e;
        assert added[k].value == e.value;
      }
    }
    NoneNew(payload, existing + added);
  }

  /** A payload whose every value is already present adds nothing. */
  lemma {:induction false} NoneNew(payload: seq<MetadataEntry>, existing: seq<MetadataEntry>)
    requires forall e :: e in payload ==> HasValue(existing, e.value)
    ensures NewEntries(payload, existing) == []
    decreases |payload|
  {
    if payload != [] {
      var init := payload[..|payload| - 1];
      forall e | e in init ensures HasValue(existing, e.value) {
        assert e in payload;
      }
      NoneNew(init, existing);
      assert payload[|payload| - 1] in payload;
    }
  }

  /** Duplicates inside one payload are only checked against the existing
      list, so both copies are appended. */
  lemma NewEntriesKeepsPayloadDuplicates(e: MetadataEntry)
    ensures NewEntries([e, e], []) == [e, e]
  {
    assert [e, e][..1] == [e];
    assert [e][..0] == [];
    assert !HasValue([], e.value);
    assert NewEntries([e], []) == [e];
  }

  // ---------------------------------------------------------------------
  // setContainerWeight

  /** Only the first left slot linked to the open right inventory is
      reweighed; with no such slot nothing changes. */
  lemma ContainerWeightFirstOnly(p: Pair, weight: real)
    ensures var r := WithContainerWeight(p, weight);
            && r.right == p.right
            && SameShape(r.left, p.left)
            && ((forall j :: 0 <= j < |p.left.items| ==> !IsContainerOf(p.left.items[j], p.right.id)) ==> r == p)
            && forall k :: 0 <= k < |p.left.items| && IsContainerOf(p.left.items[k], p.right.id)
                           && (forall j :: 0 <= j < k ==> !IsContainerOf(p.left.items[j], p.right.id)) ==>
                 r.left.items == p.left.items[k := p.left.items[k].(weight := weight)]
  {
    var c := ContainerIndex(p.left.items, p.right.id);
    forall k | 0 <= k < |p.left.items| && IsContainerOf(p.left.items[k], p.right.id)
               && (forall j :: 0 <= j < k ==> !IsContainerOf(p.left.items[j], p.right.id))
      ensures c == Some(k)
    {
      assert c.Some?;
    }
  }

  /** Reweighing the container slot keeps both inventories valid. */
  lemma ContainerWeightValid(p: Pair, weight: real)
    requires PairValid(p)
    ensures PairValid(WithContainerWeight(p, weight))
  {
  }
}
