/** Shared vocabulary of the inventory UI: slots, inventories, catalog entries,
    drag sources and drop targets, and the helpers the core calls but whose
    definitions are not part of this model. */
module Typings {

  datatype Option<+T> = None | Some(value: T)

  /** A value stored in a slot's free-form metadata record. */
  datatype MetaValue = Text(text: string) | Number(number: real) | Flag(flag: bool)

  /** A free-form metadata record; an absent record is the empty map. */
  type Metadata = map<string, MetaValue>

  /** One position of an inventory. `name == ""` stands for an absent (falsy)
      name, so `{ slot }` with no other field is `EmptySlot(slot)`.
      `extra` holds the shop/crafting-only fields (price, currency,
      ingredients, ...) that object spreads copy verbatim. */
  datatype Slot = Slot(
    slot: int,
    name: string,
    count: int,
    weight: real,
    metadata: Metadata,
    durability: Option<real>,
    extra: Metadata)

  function EmptySlot(slot: int): Slot {
    Slot(slot, "", 0, 0.0, map[], None, map[])
  }

  /** A slot holds an item exactly when its name is truthy. */
  predicate Occupied(s: Slot) {
    s.name != ""
  }

  /** What the store keeps of every slot: counts are never negative and an
      occupied slot holds at least one unit. */
  predicate WellFormedSlot(s: Slot) {
    s.count >= 0 && (Occupied(s) ==> s.count >= 1)
  }

  /** A catalog entry of the item table. */
  datatype ItemData = ItemData(name: string, itemLabel: string, stack: bool, usable: bool, close: bool, count: int)

  /** An inventory as held by the store: a dense array of slots. */
  datatype Inventory = Inventory(id: string, kind: string, slots: nat, maxWeight: real, items: seq<Slot>)

  const InitialInventory: Inventory := Inventory("", "", 0, 0.0, [])

  /** Slot `i + 1` sits at index `i`, there are exactly `slots` of them and
      each is well formed. */
  predicate InventoryValid(inv: Inventory) {
    && |inv.items| == inv.slots
    && (forall i :: 0 <= i < |inv.items| ==> inv.items[i].slot == i + 1)
    && (forall i :: 0 <= i < |inv.items| ==> WellFormedSlot(inv.items[i]))
  }

  // Inventory type tags compared against by the core.
  const PLAYER: string := "player"
  const SHOP: string := "shop"
  const CRAFTING: string := "crafting"
  const CONTAINER: string := "container"
  const NEWDROP: string := "newdrop"

  /** Metadata key linking an item to the nested container it represents. */
  const CONTAINER_KEY: string := "container"

  /** The two inventories of the store. */
  datatype Side = Left | Right

  /** `getTargetInventory`'s answer: which inventory is the source and which
      the target (they may be the same one). */
  datatype Sides = Sides(source: Side, target: Side)

  /** The item being dragged: the inventory type it comes from and its slot. */
  datatype DragSource = DragSource(inventory: string, itemName: string, itemSlot: int)

  /** A slot drop target: the target inventory's type and the slot index. */
  datatype DropTarget = DropTarget(inventory: string, itemSlot: int)

  /** The data a transfer request carries to the authority. */
  datatype MoveRequest = MoveRequest(fromSlot: int, toSlot: int, fromType: string, toType: string, count: int)

  /** The helpers the core calls and this model does not define: they are
      parameters, with no behaviour attached beyond their types. */
  datatype Helpers = Helpers(
    itemDurability: (Metadata, int) -> Option<real>,
    getTargetInventory: (string, Option<string>) -> Sides,
    canStack: (Slot, Slot) -> bool,
    findAvailableSlot: (Slot, ItemData, seq<Slot>) -> Option<Slot>,
    isSlotWithItem: (Slot, bool) -> bool)

  /** `findAvailableSlot` answers with one of the slots it was given. */
  ghost predicate FindsWithin(h: Helpers) {
    forall s, d, items :: h.findAvailableSlot(s, d, items).Some? ==> h.findAvailableSlot(s, d, items).value in items
  }
}
