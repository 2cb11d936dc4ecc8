/** The drag-end router of the application shell: which handler a finished
    drag goes to. The handlers themselves are not part of this module. */
module App {
  import opened Typings

  const USE: string := "use"
  const GIVE: string := "give"

  /** What the drop zone under the pointer carries: a control button's
      action, or a slot drop target. */
  datatype OverData = ActionTarget(action: string) | SlotTarget(target: DropTarget)

  /** A drag end: the dragged slot's data, if any, and the zone under the
      pointer, if any, with its data, if any. */
  datatype DragEndEvent = DragEndEvent(active: Option<DragSource>, over: Option<Option<OverData>>)

  /** The one handler a drag end invokes, or none. */
  datatype Handler =
    | NoHandler
    | UseHandler(source: DragSource)
    | GiveHandler(source: DragSource)
    | BuyHandler(source: DragSource, target: DropTarget)
    | CraftHandler(source: DragSource, target: DropTarget)
    | DropHandler(source: DragSource, target: DropTarget)

  /** The routing of `handleDragEnd`. */
  function RouteDragEnd(e: DragEndEvent): (r: Handler)
    ensures e.over.None? || e.active.None? || e.over.value.None? ==> r == NoHandler
    ensures r.UseHandler? <==>
              e.active.Some? && e.over == Some(Some(ActionTarget(USE))) && e.active.value.inventory == PLAYER
    ensures r.GiveHandler? <==>
              e.active.Some? && e.over == Some(Some(ActionTarget(GIVE))) && e.active.value.inventory == PLAYER
    ensures (e.active.Some? && e.over.Some? && e.over.value.Some? && e.over.value.value.ActionTarget?
             && e.active.value.inventory != PLAYER) ==> r == NoHandler
    ensures e.active.Some? && e.over.Some? && e.over.value.Some? && e.over.value.value.SlotTarget? ==>
              var source := e.active.value;
              var target := e.over.value.value.target;
              r == if source.inventory == SHOP then BuyHandler(source, target)
                   else if source.inventory == CRAFTING then CraftHandler(source, target)
                   else DropHandler(source, target)
    ensures r.UseHandler? || r.GiveHandler? ==> r.source == e.active.value
    ensures r.BuyHandler? || r.CraftHandler? || r.DropHandler? ==>
              e.active == Some(r.source) && e.over == Some(Some(SlotTarget(r.target)))
  {
    if e.over.None? || e.active.None? then NoHandler
    else
      var source := e.active.value;
      match e.over.value
      case None => NoHandler
      case Some(ActionTarget(action)) =>
        if action == USE && source.inventory == PLAYER then UseHandler(source)
        else if action == GIVE && source.inventory == PLAYER then GiveHandler(source)
        else NoHandler
      case Some(SlotTarget(target)) =>
        if source.inventory == SHOP then BuyHandler(source, target)
        else if source.inventory == CRAFTING then CraftHandler(source, target)
        else DropHandler(source, target)
  }

  /** Slot drops from a shop or a bench never reach `onDrop`. */
  lemma TradesBypassDrop(e: DragEndEvent)
    requires e.active.Some? && (e.active.value.inventory == SHOP || e.active.value.inventory == CRAFTING)
    ensures !RouteDragEnd(e).DropHandler? && !RouteDragEnd(e).UseHandler? && !RouteDragEnd(e).GiveHandler?
  {
  }

  /** The UI state `handleDragEnd` touches besides routing. */
  class DragSession {
    var activeDragData: Option<DragSource>
    var tooltipOpen: bool

    constructor ()
      ensures activeDragData == None && !tooltipOpen
    {
      activeDragData := None;
      tooltipOpen := false;
    }

    /** Clear the drag preview and close the tooltip, whatever happens next,
        then pick the handler. */
    method HandleDragEnd(e: DragEndEvent) returns (handler: Handler)
      modifies this
      ensures activeDragData == None && !tooltipOpen
      ensures handler == RouteDragEnd(e)
    {
      activeDragData := None;
      tooltipOpen := false;
      handler := RouteDragEnd(e);
    }
  }
}
