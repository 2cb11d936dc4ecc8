/** The inventory store: two dense slot arrays, the catalog, the busy flag and
    the one-snapshot undo history, with the mutation primitives the drag and
    drop logic and the authoritative pushes apply to them.

    Each mutating action is a method of `Store` whose postcondition ties the
    new inventories to a pure function of the old ones; the properties of the
    primitives are proved about those functions (see StoreProperties). */
module InventoryStore {
  import opened Typings

  /** Both inventories at once; also the shape of the undo snapshot. */
  datatype Pair = Pair(left: Inventory, right: Inventory)

  function Inv(p: Pair, side: Side): Inventory {
    match side
    case Left => p.left
    case Right => p.right
  }

  function WithInv(p: Pair, side: Side, inv: Inventory): (r: Pair)
    ensures Inv(r, side) == inv
    ensures forall other :: other != side ==> Inv(r, other) == Inv(p, other)
  {
    match side
    case Left => p.(left := inv)
    case Right => p.(right := inv)
  }

  predicate PairValid(p: Pair) {
    InventoryValid(p.left) && InventoryValid(p.right)
  }

  /** Slot number `slot` (1-based) exists in the inventory on `side`. */
  predicate InRange(p: Pair, side: Side, slot: int) {
    1 <= slot <= |Inv(p, side).items|
  }

  /** The record stored for slot number `slot`, i.e. at index `slot - 1`. */
  function ItemAt(p: Pair, side: Side, slot: int): Slot
    requires InRange(p, side, slot)
  {
    Inv(p, side).items[slot - 1]
  }

  /** Everything but the slot records is the same. */
  predicate SameShape(a: Inventory, b: Inventory) {
    a.id == b.id && a.kind == b.kind && a.slots == b.slots && a.maxWeight == b.maxWeight && |a.items| == |b.items|
  }

  predicate PairSameShape(p: Pair, q: Pair) {
    SameShape(p.left, q.left) && SameShape(p.right, q.right)
  }

  /** `items[slot - 1] = s` on the inventory on `side`. */
  function PutItem(p: Pair, side: Side, slot: int, s: Slot): (r: Pair)
    requires InRange(p, side, slot)
    ensures PairSameShape(p, r)
    ensures ItemAt(r, side, slot) == s
    ensures forall other, k :: InRange(p, other, k) && (other != side || k != slot) ==> ItemAt(r, other, k) == ItemAt(p, other, k)
  {
    var inv := Inv(p, side);
    WithInv(p, side, inv.(items := inv.items[slot - 1 := s]))
  }

  /** Writing a well-formed record under its own slot number keeps both inventories valid. */
  lemma PutItemValid(p: Pair, side: Side, slot: int, s: Slot)
    requires PairValid(p) && InRange(p, side, slot)
    requires s.slot == slot && WellFormedSlot(s)
    ensures PairValid(PutItem(p, side, slot, s))
  {
    var r := PutItem(p, side, slot, s);
    forall other, i | 0 <= i < |Inv(r, other).items|
      ensures Inv(r, other).items[i].slot == i + 1 && WellFormedSlot(Inv(r, other).items[i])
    {
      assert ItemAt(r, other, i + 1) == Inv(r, other).items[i];
      if other != side || i + 1 != slot {
        assert ItemAt(p, other, i + 1) == Inv(p, other).items[i];
      }
    }
    assert InventoryValid(Inv(r, Left)) && InventoryValid(Inv(r, Right));
  }

  // ---------------------------------------------------------------------
  // Move, stack, swap

  /** Weight of one unit of the dragged stack. */
  function PieceWeight(fromSlot: Slot): real
    requires fromSlot.count != 0
  {
    fromSlot.weight / fromSlot.count as real
  }

  /** Weight of `n` units of the dragged stack, `pieceWeight * n`. */
  function WeightOfUnits(fromSlot: Slot, n: int): real
    requires fromSlot.count != 0
  {
    PieceWeight(fromSlot) * n as real
  }

  /** Shops and crafting benches are an infinite supply: the source slot is
      never decremented. */
  predicate InfiniteSupply(fromType: string) {
    fromType == SHOP || fromType == CRAFTING
  }

  /** What a move or a stack leaves in the source slot: the remaining units at
      the dragged stack's per-unit weight, or an empty slot. `current` is the
      record found there when the write happens. */
  function Drained(current: Slot, fromSlot: Slot, count: int): Slot
    requires fromSlot.count != 0
  {
    if fromSlot.count - count > 0 then
      current.(count := fromSlot.count - count, weight := WeightOfUnits(fromSlot, fromSlot.count - count))
    else
      EmptySlot(fromSlot.slot)
  }

  /** The record a move writes into the target slot: the source record with
      `count` units at the dragged stack's per-unit weight, the target's slot
      number and its durability re-derived. */
  function MovedRecord(fromItem: Slot, fromSlot: Slot, toSlot: Slot, count: int,
                       durability: (Metadata, int) -> Option<real>, now: int): Slot
    requires fromSlot.count != 0
  {
    fromItem.(count := count, weight := WeightOfUnits(fromSlot, count),
              slot := toSlot.slot, durability := durability(fromItem.metadata, now))
  }

  /** A record placed at slot number `slot`, its durability derived from `metadata`. */
  function Relocated(s: Slot, slot: int, metadata: Metadata, durability: (Metadata, int) -> Option<real>, now: int): Slot {
    s.(slot := slot, durability := durability(metadata, now))
  }

  /** `moveSlots`: copy `count` units of the source record into the target
      slot, then (unless the source is a shop or crafting bench) drain the
      source slot. */
  function MovedSlots(p: Pair, sides: Sides, fromSlot: Slot, fromType: string, toSlot: Slot, count: int,
                      durability: (Metadata, int) -> Option<real>, now: int): Pair
    requires InRange(p, sides.source, fromSlot.slot) && InRange(p, sides.target, toSlot.slot)
    requires fromSlot.count != 0
  {
    var placed := PutItem(p, sides.target, toSlot.slot, MovedRecord(ItemAt(p, sides.source, fromSlot.slot), fromSlot, toSlot, count, durability, now));
    if InfiniteSupply(fromType) then placed
    else PutItem(placed, sides.source, fromSlot.slot, Drained(ItemAt(placed, sides.source, fromSlot.slot), fromSlot, count))
  }

  /** `stackSlots`: grow the target record by `count` units, reweighed at the
      source's per-unit weight, then drain the source like a move. */
  function StackedSlots(p: Pair, sides: Sides, fromSlot: Slot, fromType: string, toSlot: Slot, count: int): Pair
    requires InRange(p, sides.source, fromSlot.slot) && InRange(p, sides.target, toSlot.slot)
    requires fromSlot.count != 0
  {
    var grown := ItemAt(p, sides.target, toSlot.slot).(count := toSlot.count + count,
                                                       weight := WeightOfUnits(fromSlot, toSlot.count + count));
    var placed := PutItem(p, sides.target, toSlot.slot, grown);
    if InfiniteSupply(fromType) then placed
    else PutItem(placed, sides.source, fromSlot.slot, Drained(ItemAt(placed, sides.source, fromSlot.slot), fromSlot, count))
  }

  /** `swapSlots`: both new records are computed from the old state, then the
      source position is written, then the target position. */
  function SwappedSlots(p: Pair, sides: Sides, fromSlot: Slot, toSlot: Slot,
                        durability: (Metadata, int) -> Option<real>, now: int): Pair
    requires InRange(p, sides.source, fromSlot.slot) && InRange(p, sides.target, toSlot.slot)
  {
    var intoSource := Relocated(ItemAt(p, sides.target, toSlot.slot), fromSlot.slot, toSlot.metadata, durability, now);
    var intoTarget := Relocated(ItemAt(p, sides.source, fromSlot.slot), toSlot.slot, fromSlot.metadata, durability, now);
    PutItem(PutItem(p, sides.source, fromSlot.slot, intoSource), sides.target, toSlot.slot, intoTarget)
  }

  // ---------------------------------------------------------------------
  // Dense array construction (setup and resize)

  /** `k` is the first index of `items` whose record claims slot number `slot`. */
  predicate FirstWithSlot(items: seq<Slot>, k: int, slot: int) {
    0 <= k < |items| && items[k].slot == slot && forall j :: 0 <= j < k ==> items[j].slot != slot
  }

  /** `items.find(item => item.slot === slot)`, as an index. */
  function FindBySlot(items: seq<Slot>, slot: int): (r: Option<nat>)
    ensures r.Some? ==> FirstWithSlot(items, r.value, slot)
    ensures r.None? ==> forall k :: 0 <= k < |items| ==> items[k].slot != slot
  {
    if items == [] then None
    else if items[0].slot == slot then Some(0)
    else match FindBySlot(items[1..], slot)
      case None => None
      case Some(k) => Some(k + 1)
  }

  /** An occupied record gets its durability re-derived; an empty one is kept as is. */
  function Rederived(s: Slot, durability: (Metadata, int) -> Option<real>, now: int): Slot {
    if Occupied(s) then s.(durability := durability(s.metadata, now)) else s
  }

  function PlacedAt(items: seq<Slot>, slot: int, durability: (Metadata, int) -> Option<real>, now: int): Slot {
    match FindBySlot(items, slot)
    case None => EmptySlot(slot)
    case Some(k) => Rederived(items[k], durability, now)
  }

  /** `Array.from(Array(n), (_, index) => find(slot index + 1) || { slot: index + 1 })`:
      the first record claiming each slot number, or an empty slot. */
  function DenseItems(items: seq<Slot>, n: nat, durability: (Metadata, int) -> Option<real>, now: int): (r: seq<Slot>)
    ensures |r| == n
    ensures forall i :: 0 <= i < n ==> r[i].slot == i + 1
    ensures forall i, k :: 0 <= i < n && FirstWithSlot(items, k, i + 1) ==> r[i] == Rederived(items[k], durability, now)
    ensures forall i :: 0 <= i < n && (forall k :: 0 <= k < |items| ==> items[k].slot != i + 1) ==> r[i] == EmptySlot(i + 1)
  {
    seq(n, i requires 0 <= i < n => PlacedAt(items, i + 1, durability, now))
  }

  /** `setupInventory` for one side: the payload with its sparse list made dense. */
  function SetUp(payload: Inventory, durability: (Metadata, int) -> Option<real>, now: int): (r: Inventory)
    requires forall k :: 0 <= k < |payload.items| ==> WellFormedSlot(payload.items[k])
    ensures InventoryValid(r)
    ensures r.id == payload.id && r.kind == payload.kind && r.slots == payload.slots && r.maxWeight == payload.maxWeight
  {
    var r := payload.(items := DenseItems(payload.items, payload.slots, durability, now));
    assert forall i :: 0 <= i < |r.items| ==> WellFormedSlot(r.items[i]) by {
      forall i | 0 <= i < |r.items| ensures WellFormedSlot(r.items[i]) {
        var f := FindBySlot(payload.items, i + 1);
        if f.Some? {
          assert WellFormedSlot(payload.items[f.value]);
          assert r.items[i] == Rederived(payload.items[f.value], durability, now);
        } else {
          assert r.items[i] == EmptySlot(i + 1);
        }
      }
    }
    r
  }

  /** The `slotsData` part of `refreshSlots`: new capacity, same dense rebuild. */
  function Resize(inv: Inventory, n: nat, durability: (Metadata, int) -> Option<real>, now: int): Inventory {
    inv.(slots := n, items := DenseItems(inv.items, n, durability, now))
  }

  /** Resizing a valid inventory keeps it valid. */
  lemma ResizeValid(inv: Inventory, n: nat, durability: (Metadata, int) -> Option<real>, now: int)
    requires InventoryValid(inv)
    ensures InventoryValid(Resize(inv, n, durability, now))
  {
    var r := Resize(inv, n, durability, now);
    forall i | 0 <= i < n ensures WellFormedSlot(r.items[i]) {
      var f := FindBySlot(inv.items, i + 1);
      if f.Some? {
        assert r.items[i] == Rederived(inv.items[f.value], durability, now);
      } else {
        assert r.items[i] == EmptySlot(i + 1);
      }
    }
  }

  // ---------------------------------------------------------------------
  // refreshSlots

  /** One authoritative slot push. */
  datatype PushedItem = PushedItem(item: Slot, inventory: Option<string>)

  /** A push goes to the right inventory only when its `inventory` is truthy and not the player's. */
  function PushSide(d: PushedItem): Side {
    if d.inventory.Some? && d.inventory.value != "" && d.inventory.value != PLAYER then Right else Left
  }

  /** Every non-null push names an existing slot of the inventory it goes to. */
  predicate PushesFit(p: Pair, pushes: seq<Option<PushedItem>>) {
    forall j :: 0 <= j < |pushes| && pushes[j].Some? ==> InRange(p, PushSide(pushes[j].value), pushes[j].value.item.slot)
  }

  /** The record a push writes: the pushed item with its durability re-derived. */
  function PushedRecord(d: PushedItem, durability: (Metadata, int) -> Option<real>, now: int): Slot {
    d.item.(durability := durability(d.item.metadata, now))
  }

  /** The `items` part of `refreshSlots`: nulls skipped, the rest written in order. */
  function ApplyPushes(p: Pair, pushes: seq<Option<PushedItem>>, durability: (Metadata, int) -> Option<real>, now: int): (r: Pair)
    requires PushesFit(p, pushes)
    ensures PairSameShape(p, r)
    decreases |pushes|
  {
    if pushes == [] then p
    else
      var q := ApplyPushes(p, pushes[..|pushes| - 1], durability, now);
      match pushes[|pushes| - 1]
      case None => q
      case Some(d) => PutItem(q, PushSide(d), d.item.slot, PushedRecord(d, durability, now))
  }

  /** The `itemCount` part of `refreshSlots`: counts are added to known
      catalog entries only. */
  function AddCounts(catalog: map<string, ItemData>, entries: seq<(string, int)>): (r: map<string, ItemData>)
    ensures r.Keys == catalog.Keys
    decreases |entries|
  {
    if entries == [] then catalog
    else
      var c := AddCounts(catalog, entries[..|entries| - 1]);
      var (name, n) := entries[|entries| - 1];
      if name in c then c[name := c[name].(count := c[name].count + n)] else c
  }

  /** Sum of the counts `entries` gives for `name`. */
  function CountFor(entries: seq<(string, int)>, name: string): int
    decreases |entries|
  {
    if entries == [] then 0
    else CountFor(entries[..|entries| - 1], name) + (if entries[|entries| - 1].0 == name then entries[|entries| - 1].1 else 0)
  }

  /** `inventoryId === left.id ? left : inventoryId === right.id ? right : null`. */
  function MatchSide(p: Pair, inventoryId: string): (r: Option<Side>)
    ensures r == Some(Left) <==> inventoryId == p.left.id
    ensures r == Some(Right) <==> inventoryId != p.left.id && inventoryId == p.right.id
    ensures r == None <==> inventoryId != p.left.id && inventoryId != p.right.id
  {
    if inventoryId == p.left.id then Some(Left)
    else if inventoryId == p.right.id then Some(Right)
    else None
  }

  datatype WeightData = WeightData(inventoryId: string, maxWeight: real)
  datatype SlotsData = SlotsData(inventoryId: string, slots: nat)

  /** The `weightData` and `slotsData` parts of `refreshSlots`; an unmatched
      `weightData` id returns before `slotsData` is looked at. */
  function Reshaped(p: Pair, weightData: Option<WeightData>, slotsData: Option<SlotsData>,
                    durability: (Metadata, int) -> Option<real>, now: int): Pair
  {
    if weightData.Some? && MatchSide(p, weightData.value.inventoryId).None? then p
    else
      var q := if weightData.None? then p
               else var side := MatchSide(p, weightData.value.inventoryId).value;
                    WithInv(p, side, Inv(p, side).(maxWeight := weightData.value.maxWeight));
      if slotsData.None? then q
      else match MatchSide(q, slotsData.value.inventoryId)
        case None => q
        case Some(side) => WithInv(q, side, Resize(Inv(q, side), slotsData.value.slots, durability, now))
  }

  datatype RefreshPayload = RefreshPayload(
    items: Option<seq<Option<PushedItem>>>,
    itemCount: Option<seq<(string, int)>>,
    weightData: Option<WeightData>,
    slotsData: Option<SlotsData>)

  function PushesOf(payload: RefreshPayload): seq<Option<PushedItem>> {
    if payload.items.Some? then payload.items.value else []
  }

  function CountsOf(payload: RefreshPayload): seq<(string, int)> {
    if payload.itemCount.Some? then payload.itemCount.value else []
  }

  // ---------------------------------------------------------------------
  // setAdditionalMetadata, setContainerWeight

  datatype MetadataEntry = MetadataEntry(metadata: string, value: string)

  predicate HasValue(entries: seq<MetadataEntry>, value: string) {
    exists k :: 0 <= k < |entries| && entries[k].value == value
  }

  /** The payload entries whose value the existing list does not hold yet,
      in payload order (checked against the existing list only). */
  function NewEntries(payload: seq<MetadataEntry>, existing: seq<MetadataEntry>): seq<MetadataEntry>
    decreases |payload|
  {
    if payload == [] then []
    else
      var rest := NewEntries(payload[..|payload| - 1], existing);
      if HasValue(existing, payload[|payload| - 1].value) then rest else rest + [payload[|payload| - 1]]
  }

  /** The slot holds the nested container whose id is `id`. */
  predicate IsContainerOf(s: Slot, id: string) {
    CONTAINER_KEY in s.metadata && s.metadata[CONTAINER_KEY] == Text(id)
  }

  /** `items.find(item => item.metadata?.container === id)`, as an index. */
  function ContainerIndex(items: seq<Slot>, id: string): (r: Option<nat>)
    ensures r.Some? ==> r.value < |items| && IsContainerOf(items[r.value], id)
    ensures r.Some? ==> forall j :: 0 <= j < r.value ==> !IsContainerOf(items[j], id)
    ensures r.None? ==> forall j :: 0 <= j < |items| ==> !IsContainerOf(items[j], id)
  {
    if items == [] then None
    else if IsContainerOf(items[0], id) then Some(0)
    else match ContainerIndex(items[1..], id)
      case None => None
      case Some(k) => Some(k + 1)
  }

  /** `setContainerWeight`: the left slot holding the open right container gets the new weight. */
  function WithContainerWeight(p: Pair, weight: real): Pair {
    match ContainerIndex(p.left.items, p.right.id)
    case None => p
    case Some(k) => p.(left := p.left.(items := p.left.items[k := p.left.items[k].(weight := weight)]))
  }

  // ---------------------------------------------------------------------
  // The store object

  /** A call of the busy protocol: `startBusyState`, a request sent to the
      authority, `setContainerWeight`, `endBusyState(success)`. */
  datatype ProtocolCall = Begin | Sent(endpoint: string, request: MoveRequest) | SetWeight(weight: real) | End(success: bool)

  /** The store's fields other than the two inventories. */
  datatype Rest = Rest(
    showRightInventory: bool,
    additionalMetadata: seq<MetadataEntry>,
    itemAmount: int,
    shiftPressed: bool,
    isBusy: bool,
    history: Option<Pair>,
    catalog: map<string, ItemData>)

  class Store {
    /** The unshown helpers the actions call. */
    const helpers: Helpers

    var leftInventory: Inventory
    var rightInventory: Inventory
    var showRightInventory: bool
    var additionalMetadata: seq<MetadataEntry>
    var itemAmount: int
    var shiftPressed: bool
    var isBusy: bool
    /** The snapshot taken by the last `startBusyState`; never cleared. */
    var history: Option<Pair>
    /** The item catalog (`Items`), whose `count` fields the store updates. */
    var catalog: map<string, ItemData>
    /** The busy-protocol calls made on the store so far, in order. */
    ghost var calls: seq<ProtocolCall>

    function View(): Pair
      reads this
    {
      Pair(leftInventory, rightInventory)
    }

    function Others(): Rest
      reads this
    {
      Rest(showRightInventory, additionalMetadata, itemAmount, shiftPressed, isBusy, history, catalog)
    }

    /** Both inventories, and the snapshot when there is one, are dense and well formed. */
    ghost predicate Valid()
      reads this
    {
      PairValid(View()) && (history.Some? ==> PairValid(history.value))
    }

    constructor (helpers: Helpers, catalog: map<string, ItemData>)
      ensures Valid()
      ensures this.helpers == helpers
      ensures View() == Pair(InitialInventory, InitialInventory)
      ensures Others() == Rest(false, [], 0, false, false, None, catalog)
      ensures calls == []
    {
      this.helpers := helpers;
      leftInventory := InitialInventory;
      rightInventory := InitialInventory;
      showRightInventory := false;
      additionalMetadata := [];
      itemAmount := 0;
      shiftPressed := false;
      isBusy := false;
      history := None;
      this.catalog := catalog;
      calls := [];
    }

    /** `items[slot - 1] = s` on one side. */
    method SetItem(side: Side, slot: int, s: Slot)
      requires Valid()
      requires InRange(View(), side, slot)
      requires s.slot == slot && WellFormedSlot(s)
      modifies this
      ensures Valid()
      ensures View() == PutItem(old(View()), side, slot, s)
      ensures Others() == old(Others())
      ensures calls == old(calls)
    {
      PutItemValid(View(), side, slot, s);
      match side
      case Left => leftInventory := leftInventory.(items := leftInventory.items[slot - 1 := s]);
      case Right => rightInventory := rightInventory.(items := rightInventory.items[slot - 1 := s]);
    }

    /** `state[inv] = inventory`. */
    method SetInventory(side: Side, inv: Inventory)
      modifies this
      ensures View() == WithInv(old(View()), side, inv)
      ensures Others() == old(Others())
      ensures calls == old(calls)
    {
      match side
      case Left => leftInventory := inv;
      case Right => rightInventory := inv;
    }

    method SetupInventory(leftPayload: Option<Inventory>, rightPayload: Option<Inventory>, now: int)
      requires Valid()
      requires leftPayload.Some? ==> forall k :: 0 <= k < |leftPayload.value.items| ==> WellFormedSlot(leftPayload.value.items[k])
      requires rightPayload.Some? ==> forall k :: 0 <= k < |rightPayload.value.items| ==> WellFormedSlot(rightPayload.value.items[k])
      modifies this
      ensures Valid()
      ensures leftInventory == if leftPayload.Some? then SetUp(leftPayload.value, helpers.itemDurability, now) else old(leftInventory)
      ensures rightInventory == if rightPayload.Some? then SetUp(rightPayload.value, helpers.itemDurability, now) else old(rightInventory)
      ensures showRightInventory == (rightPayload.Some? && rightPayload.value.kind != NEWDROP)
      ensures !shiftPressed && !isBusy
      ensures additionalMetadata == old(additionalMetadata) && itemAmount == old(itemAmount)
      ensures history == old(history) && catalog == old(catalog)
      ensures calls == old(calls)
    {
      if leftPayload.Some? {
        leftInventory := SetUp(leftPayload.value, helpers.itemDurability, now);
      }
      if rightPayload.Some? {
        rightInventory := SetUp(rightPayload.value, helpers.itemDurability, now);
        showRightInventory := rightPayload.value.kind != NEWDROP;
      } else {
        showRightInventory := false;
      }
      shiftPressed := false;
      isBusy := false;
    }

    method SwapSlots(fromSlot: Slot, fromType: string, toSlot: Slot, toType: string, now: int)
      requires Valid()
      requires InRange(View(), helpers.getTargetInventory(fromType, Some(toType)).source, fromSlot.slot)
      requires InRange(View(), helpers.getTargetInventory(fromType, Some(toType)).target, toSlot.slot)
      modifies this
      ensures Valid()
      ensures View() == SwappedSlots(old(View()), helpers.getTargetInventory(fromType, Some(toType)), fromSlot, toSlot, helpers.itemDurability, now)
      ensures Others() == old(Others())
      ensures calls == old(calls)
    {
      var sides := helpers.getTargetInventory(fromType, Some(toType));
      var intoSource := Relocated(ItemAt(View(), sides.target, toSlot.slot), fromSlot.slot, toSlot.metadata, helpers.itemDurability, now);
      var intoTarget := Relocated(ItemAt(View(), sides.source, fromSlot.slot), toSlot.slot, fromSlot.metadata, helpers.itemDurability, now);
      SetItem(sides.source, fromSlot.slot, intoSource);
      SetItem(sides.target, toSlot.slot, intoTarget);
    }

    method MoveSlots(fromSlot: Slot, fromType: string, toSlot: Slot, toType: string, count: int, now: int)
      requires Valid()
      requires InRange(View(), helpers.getTargetInventory(fromType, Some(toType)).source, fromSlot.slot)
      requires InRange(View(), helpers.getTargetInventory(fromType, Some(toType)).target, toSlot.slot)
      requires fromSlot.count >= 1 && count >= 1
      modifies this
      ensures Valid()
      ensures View() == MovedSlots(old(View()), helpers.getTargetInventory(fromType, Some(toType)), fromSlot, fromType, toSlot, count, helpers.itemDurability, now)
      ensures Others() == old(Others())
      ensures calls == old(calls)
    {
      var sides := helpers.getTargetInventory(fromType, Some(toType));
      var fromItem := ItemAt(View(), sides.source, fromSlot.slot);
      SetItem(sides.target, toSlot.slot, MovedRecord(fromItem, fromSlot, toSlot, count, helpers.itemDurability, now));
      if InfiniteSupply(fromType) {
        return;
      }
      SetItem(sides.source, fromSlot.slot, Drained(ItemAt(View(), sides.source, fromSlot.slot), fromSlot, count));
    }

    method StackSlots(fromSlot: Slot, fromType: string, toSlot: Slot, toType: string, count: int)
      requires Valid()
      requires InRange(View(), helpers.getTargetInventory(fromType, Some(toType)).source, fromSlot.slot)
      requires InRange(View(), helpers.getTargetInventory(fromType, Some(toType)).target, toSlot.slot)
      requires fromSlot.count >= 1 && count >= 1 && toSlot.count >= 0
      modifies this
      ensures Valid()
      ensures View() == StackedSlots(old(View()), helpers.getTargetInventory(fromType, Some(toType)), fromSlot, fromType, toSlot, count)
      ensures Others() == old(Others())
      ensures calls == old(calls)
    {
      var sides := helpers.getTargetInventory(fromType, Some(toType));
      SetItem(sides.target, toSlot.slot, ItemAt(View(), sides.target, toSlot.slot).(count := toSlot.count + count,
                                                                                 weight := WeightOfUnits(fromSlot, toSlot.count + count)));
      if InfiniteSupply(fromType) {
        return;
      }
      SetItem(sides.source, fromSlot.slot, Drained(ItemAt(View(), sides.source, fromSlot.slot), fromSlot, count));
    }

    /** The `items` part of `refreshSlots`: each non-null push is written in order. */
    method PushItems(pushes: seq<Option<PushedItem>>, now: int)
      requires Valid()
      requires PushesFit(View(), pushes)
      requires forall j :: 0 <= j < |pushes| && pushes[j].Some? ==> WellFormedSlot(pushes[j].value.item)
      modifies this
      ensures Valid()
      ensures View() == ApplyPushes(old(View()), pushes, helpers.itemDurability, now)
      ensures Others() == old(Others())
      ensures calls == old(calls)
    {
      var i := 0;
      while i < |pushes|
        invariant 0 <= i <= |pushes|
        invariant PushesFit(old(View()), pushes[..i])
        invariant View() == ApplyPushes(old(View()), pushes[..i], helpers.itemDurability, now)
        invariant Valid()
        invariant Others() == old(Others())
        invariant calls == old(calls)
      {
        assert pushes[..i + 1][..i] == pushes[..i];
        assert PushesFit(old(View()), pushes[..i + 1]);
        if pushes[i].Some? {
          var d := pushes[i].value;
          SetItem(PushSide(d), d.item.slot, PushedRecord(d, helpers.itemDurability, now));
        }
        i := i + 1;
      }
      assert pushes[..i] == pushes;
    }

    /** The `itemCount` part of `refreshSlots`: known catalog entries gain the pushed counts. */
    method AddItemCounts(entries: seq<(string, int)>)
      modifies this
      ensures catalog == AddCounts(old(catalog), entries)
      ensures View() == old(View())
      ensures Others() == old(Others()).(catalog := catalog)
      ensures calls == old(calls)
    {
      for j := 0 to |entries|
        invariant catalog == AddCounts(old(catalog), entries[..j])
        invariant View() == old(View())
        invariant Others() == old(Others()).(catalog := catalog)
        invariant calls == old(calls)
      {
        assert entries[..j + 1][..j] == entries[..j];
        var (name, n) := entries[j];
        if name in catalog {
          catalog := catalog[name := catalog[name].(count := catalog[name].count + n)];
        }
      }
      assert entries[..|entries|] == entries;
    }

    method RefreshSlots(payload: RefreshPayload, now: int)
      requires Valid()
      requires PushesFit(View(), PushesOf(payload))
      requires forall j :: 0 <= j < |PushesOf(payload)| && PushesOf(payload)[j].Some? ==> WellFormedSlot(PushesOf(payload)[j].value.item)
      modifies this
      ensures Valid()
      ensures View() == Reshaped(ApplyPushes(old(View()), PushesOf(payload), helpers.itemDurability, now),
                                 payload.weightData, payload.slotsData, helpers.itemDurability, now)
      ensures catalog == AddCounts(old(catalog), CountsOf(payload))
      ensures Others() == old(Others()).(catalog := catalog)
      ensures calls == old(calls)
    {
      if payload.items.Some? {
        PushItems(payload.items.value, now);
      }
      if payload.itemCount.Some? {
        AddItemCounts(payload.itemCount.value);
      }
      ReshapeInventories(payload.weightData, payload.slotsData, now);
    }

    /** The `weightData` and `slotsData` parts of `refreshSlots`. */
    method ReshapeInventories(weightData: Option<WeightData>, slotsData: Option<SlotsData>, now: int)
      requires Valid()
      modifies this
      ensures Valid()
      ensures View() == Reshaped(old(View()), weightData, slotsData, helpers.itemDurability, now)
      ensures Others() == old(Others())
      ensures calls == old(calls)
    {
      if weightData.Some? {
        var inv := MatchSide(View(), weightData.value.inventoryId);
        if inv.None? {
          return;
        }
        SetInventory(inv.value, Inv(View(), inv.value).(maxWeight := weightData.value.maxWeight));
      }
      ghost var weighed := View();
      assert weighed == if weightData.None? then old(View())
                        else WithInv(old(View()), MatchSide(old(View()), weightData.value.inventoryId).value,
                                     Inv(old(View()), MatchSide(old(View()), weightData.value.inventoryId).value).(maxWeight := weightData.value.maxWeight));
      if slotsData.Some? {
        var inv := MatchSide(View(), slotsData.value.inventoryId);
        if inv.None? {
          return;
        }
        ResizeValid(Inv(View(), inv.value), slotsData.value.slots, helpers.itemDurability, now);
        SetInventory(inv.value, Resize(Inv(View(), inv.value), slotsData.value.slots, helpers.itemDurability, now));
      }
    }

    method SetAdditionalMetadata(payload: seq<MetadataEntry>)
      modifies this
      ensures additionalMetadata == old(additionalMetadata) + NewEntries(payload, old(additionalMetadata))
      ensures View() == old(View())
      ensures Others() == old(Others()).(additionalMetadata := additionalMetadata)
      ensures calls == old(calls)
    {
      var metadata := [];
      for i := 0 to |payload|
        invariant metadata == NewEntries(payload[..i], additionalMetadata)
      {
        assert payload[..i + 1][..i] == payload[..i];
        var entry := payload[i];
        if !HasValue(additionalMetadata, entry.value) {
          metadata := metadata + [entry];
        }
      }
      assert payload[..|payload|] == payload;
      additionalMetadata := additionalMetadata + metadata;
    }

    method SetItemAmount(amount: int)
      modifies this
      ensures itemAmount == amount
      ensures View() == old(View()) && Others() == old(Others()).(itemAmount := amount)
      ensures calls == old(calls)
    {
      itemAmount := amount;
    }

    method SetShiftPressed(pressed: bool)
      modifies this
      ensures shiftPressed == pressed
      ensures View() == old(View()) && Others() == old(Others()).(shiftPressed := pressed)
      ensures calls == old(calls)
    {
      shiftPressed := pressed;
    }

    method SetContainerWeight(weight: real)
      requires Valid()
      modifies this
      ensures Valid()
      ensures View() == WithContainerWeight(old(View()), weight)
      ensures Others() == old(Others())
      ensures calls == old(calls) + [SetWeight(weight)]
    {
      calls := calls + [SetWeight(weight)];
      var container := ContainerIndex(leftInventory.items, rightInventory.id);
      if container.None? {
        return;
      }
      var k := container.value;
      leftInventory := leftInventory.(items := leftInventory.items[k := leftInventory.items[k].(weight := weight)]);
    }

    /** Begin a transaction: mark busy and snapshot both inventories. Nothing
        checks that the store was idle. */
    method StartBusyState()
      requires Valid()
      modifies this
      ensures Valid()
      ensures isBusy && history == Some(old(View()))
      ensures View() == old(View())
      ensures Others() == old(Others()).(isBusy := true, history := Some(old(View())))
      ensures calls == old(calls) + [Begin]
    {
      isBusy := true;
      history := Some(View());
      calls := calls + [Begin];
    }

    /** End a transaction: on failure restore the snapshot if there is one;
        in every case clear the busy flag. The snapshot is kept. */
    method EndBusyState(success: bool)
      requires Valid()
      modifies this
      ensures Valid()
      ensures View() == if !success && old(history).Some? then old(history).value else old(View())
      ensures !isBusy
      ensures Others() == old(Others()).(isBusy := false)
      ensures calls == old(calls) + [End(success)]
    {
      if !success && history.Some? {
        leftInventory := history.value.left;
        rightInventory := history.value.right;
      }
      isBusy := false;
      calls := calls + [End(success)];
    }
  }
}
