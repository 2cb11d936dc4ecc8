/** The transaction drivers `validateMove`, `buyItem` and `craftItem`: begin a
    busy state, send the request, then commit or roll back on the authority's
    answer. The answer is a parameter, so the round trip is one sequential
    call; `validateMove` is also offered as its two halves, because a drop
    applies its optimistic primitive between them. */
module Actions {
  import opened Typings
  import opened InventoryStore

  /** What the authority's round trip produced: `false`, `true`, a number
      (the new weight of the open container), or a thrown error. */
  datatype Verdict = Reject | Accept | AcceptWeight(weight: real) | Failure

  /** How a transaction ends. */
  datatype Outcome = Rollback | Commit | CommitWithWeight(weight: real)

  const SWAP_ITEMS: string := "swapItems"
  const BUY_ITEM: string := "buyItem"
  const CRAFT_ITEM: string := "craftItem"

  /** `validateMove`'s reading of the answer: `false` and errors roll back, a
      number (zero included) commits after updating the container weight, and
      anything else commits. */
  function MoveOutcome(v: Verdict): (o: Outcome)
    ensures o == Rollback <==> v == Reject || v == Failure
    ensures o == Commit <==> v == Accept
    ensures o.CommitWithWeight? <==> v.AcceptWeight?
    ensures o.CommitWithWeight? ==> o.weight == v.weight
  {
    match v
    case Reject => Rollback
    case Failure => Rollback
    case AcceptWeight(w) => CommitWithWeight(w)
    case Accept => Commit
  }

  /** `buyItem`'s and `craftItem`'s reading: only `false` and errors roll
      back; every other answer commits, with no weight update. */
  function TradeOutcome(v: Verdict): (o: Outcome)
    ensures !o.CommitWithWeight?
    ensures o == Rollback <==> v == Reject || v == Failure
  {
    if v == Reject || v == Failure then Rollback else Commit
  }

  /** The protocol calls the settling half makes for an outcome. */
  function SettleCalls(o: Outcome): (r: seq<ProtocolCall>)
    ensures |r| == (if o.CommitWithWeight? then 2 else 1) && r[|r| - 1] == End(!o.Rollback?)
    ensures forall k :: 0 <= k < |r| - 1 ==> !r[k].End? && !r[k].Begin?
    ensures o.CommitWithWeight? ==> r[0] == SetWeight(o.weight)
    ensures !o.CommitWithWeight? ==> forall k :: 0 <= k < |r| ==> !r[k].SetWeight?
  {
    match o
    case Rollback => [End(false)]
    case Commit => [End(true)]
    case CommitWithWeight(w) => [SetWeight(w), End(true)]
  }

  /** The inventories after settling: a rollback restores the snapshot when
      there is one, a weighted commit reweighs the open container's slot. */
  function Settled(current: Pair, history: Option<Pair>, o: Outcome): (r: Pair)
    ensures o.Rollback? && history.Some? ==> r == history.value
    ensures o.Rollback? && history.None? ==> r == current
    ensures o.Commit? ==> r == current
    ensures o.CommitWithWeight? ==> r == WithContainerWeight(current, o.weight)
  {
    match o
    case Rollback => if history.Some? then history.value else current
    case Commit => current
    case CommitWithWeight(w) => WithContainerWeight(current, w)
  }

  /** Number of `endBusyState` calls in a log. */
  function Ends(calls: seq<ProtocolCall>): nat
  {
    if calls == [] then 0 else Ends(calls[..|calls| - 1]) + (if calls[|calls| - 1].End? then 1 else 0)
  }

  lemma {:induction false} EndsAppend(a: seq<ProtocolCall>, b: seq<ProtocolCall>)
    ensures Ends(a + b) == Ends(a) + Ends(b)
    decreases |b|
  {
    if b == [] {
      assert a + b == a;
    } else {
      assert (a + b)[..|a + b| - 1] == a + b[..|b| - 1];
      EndsAppend(a, b[..|b| - 1]);
    }
  }

  /** Every way of settling makes exactly one `endBusyState` call. */
  lemma SettleEndsOnce(o: Outcome)
    ensures Ends(SettleCalls(o)) == 1
  {
    match o
    case Rollback =>
    case Commit =>
    case CommitWithWeight(w) =>
      var calls := SettleCalls(o);
      assert calls == [SetWeight(w), End(true)];
      assert calls[..|calls| - 1] == [SetWeight(w)];
      assert [SetWeight(w)][..0] == [];
      assert Ends([SetWeight(w)]) == 0;
  }

  /** The begin, the request and the settling of one transaction make exactly
      one `endBusyState` call, and it comes last. */
  lemma TransactionEndsOnce(request: ProtocolCall, o: Outcome)
    requires request.Sent?
    ensures Ends([Begin, request] + SettleCalls(o)) == 1
    ensures ([Begin, request] + SettleCalls(o))[|[Begin, request] + SettleCalls(o)| - 1] == End(!o.Rollback?)
  {
    EndsAppend([Begin, request], SettleCalls(o));
    assert [Begin, request][..1] == [Begin];
    SettleEndsOnce(o);
  }

  /** The part of a transaction after the answer: update the container
      weight on a numeric answer and end the busy state. `isBusy` is false
      afterwards whatever the answer. */
  method Settle(store: Store, o: Outcome)
    requires store.Valid()
    modifies store
    ensures store.Valid()
    ensures store.View() == Settled(old(store.View()), old(store.history), o)
    ensures store.Others() == old(store.Others()).(isBusy := false)
    ensures store.calls == old(store.calls) + SettleCalls(o)
  {
    match o
    case Rollback =>
      store.EndBusyState(false);
    case CommitWithWeight(w) =>
      store.SetContainerWeight(w);
      store.EndBusyState(true);
    case Commit =>
      store.EndBusyState(true);
  }

  /** The part of a transaction before the answer: begin the busy state, then
      send the request. */
  method BeginTransaction(store: Store, endpoint: string, request: MoveRequest)
    requires store.Valid()
    modifies store
    ensures store.Valid()
    ensures store.View() == old(store.View())
    ensures store.history == Some(old(store.View())) && store.isBusy
    ensures store.Others() == old(store.Others()).(isBusy := true, history := Some(old(store.View())))
    ensures store.calls == old(store.calls) + [Begin, Sent(endpoint, request)]
  {
    store.StartBusyState();
    store.calls := store.calls + [Sent(endpoint, request)];
  }

  /** A whole transaction with no optimistic change in between. */
  method Transact(store: Store, endpoint: string, request: MoveRequest, o: Outcome)
    requires store.Valid()
    modifies store
    ensures store.Valid()
    ensures store.View() == Settled(old(store.View()), Some(old(store.View())), o)
    ensures store.history == Some(old(store.View())) && !store.isBusy
    ensures store.Others() == old(store.Others()).(isBusy := false, history := Some(old(store.View())))
    ensures store.calls == old(store.calls) + [Begin, Sent(endpoint, request)] + SettleCalls(o)
  {
    BeginTransaction(store, endpoint, request);
    Settle(store, o);
  }

  /** `validateMove` on its own: a rollback restores what the store held at
      the start and a numeric answer reweighs the open container's slot. */
  method ValidateMove(store: Store, request: MoveRequest, verdict: Verdict)
    requires store.Valid()
    modifies store
    ensures store.Valid()
    ensures store.View() == if verdict.AcceptWeight? then WithContainerWeight(old(store.View()), verdict.weight) else old(store.View())
    ensures store.history == Some(old(store.View())) && !store.isBusy
    ensures store.Others() == old(store.Others()).(isBusy := false, history := Some(old(store.View())))
    ensures store.calls == old(store.calls) + [Begin, Sent(SWAP_ITEMS, request)] + SettleCalls(MoveOutcome(verdict))
  {
    Transact(store, SWAP_ITEMS, request, MoveOutcome(verdict));
  }

  /** `buyItem`: the same protocol, with no weight update on any answer. */
  method BuyItem(store: Store, request: MoveRequest, verdict: Verdict)
    requires store.Valid()
    modifies store
    ensures store.Valid()
    ensures store.View() == old(store.View())
    ensures store.history == Some(old(store.View())) && !store.isBusy
    ensures store.Others() == old(store.Others()).(isBusy := false, history := Some(old(store.View())))
    ensures store.calls == old(store.calls) + [Begin, Sent(BUY_ITEM, request)] + SettleCalls(TradeOutcome(verdict))
  {
    Transact(store, BUY_ITEM, request, TradeOutcome(verdict));
  }

  /** `craftItem`: the same protocol as `buyItem`, with its own endpoint. */
  method CraftItem(store: Store, request: MoveRequest, verdict: Verdict)
    requires store.Valid()
    modifies store
    ensures store.Valid()
    ensures store.View() == old(store.View())
    ensures store.history == Some(old(store.View())) && !store.isBusy
    ensures store.Others() == old(store.Others()).(isBusy := false, history := Some(old(store.View())))
    ensures store.calls == old(store.calls) + [Begin, Sent(CRAFT_ITEM, request)] + SettleCalls(TradeOutcome(verdict))
  {
    Transact(store, CRAFT_ITEM, request, TradeOutcome(verdict));
  }
}
