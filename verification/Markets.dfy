/** Markets: created once, never changed. */
module Markets {
  import opened GoInt
  import opened Messages
  import opened PredictionTypes

  /** The stored markets and the market id sequence. */
  datatype MarketTable = MarketTable(byId: map<nat, Market>, next: nat)

  datatype CreateMsg = CreateMsg(
    creator: string,
    question: string,
    outcomes: seq<string>,
    groupId: string,
    deadline: int64)

  ghost predicate DistinctNonEmpty(outcomes: seq<string>) {
    && (forall i :: 0 <= i < |outcomes| ==> outcomes[i] != "")
    && (forall i, j :: 0 <= i < j < |outcomes| ==> outcomes[i] != outcomes[j])
  }

  /** What the handler demands of a new market. */
  ghost predicate Acceptable(ctx: Ctx, msg: CreateMsg) {
    && |msg.outcomes| >= 2 && msg.question != "" && msg.deadline > ctx.time
    && DistinctNonEmpty(msg.outcomes)
  }

  function NewMarket(ctx: Ctx, id: uint64, msg: CreateMsg): Market {
    PredictionMarket(id, msg.question, msg.outcomes, msg.groupId, msg.deadline, "open", msg.creator, ctx.time, 0, [])
  }

  /** CreateMarket: the next id, and the market stored under it. */
  ghost function CreateMarket(ctx: Ctx, t: MarketTable, msg: CreateMsg): (MarketTable, Reply<nat>) {
    if Acceptable(ctx, msg) then
      var id := ToUint64(t.next);
      (MarketTable(t.byId[id := NewMarket(ctx, id, msg)], t.next + 1), Done(id))
    else (t, Failed(ErrInvalidRequest))
  }

  /** Ids come from the sequence, and every market was acceptable when created. */
  ghost predicate MarketsOk(t: MarketTable) {
    forall k :: k in t.byId ==>
      && k < t.next && t.byId[k].id == k
      && |t.byId[k].outcomes| >= 2 && DistinctNonEmpty(t.byId[k].outcomes)
      && t.byId[k].deadline > t.byId[k].createdAt
  }

  /** Markets are write-once. */
  ghost predicate Extends(t: MarketTable, t': MarketTable) {
    && t.next <= t'.next
    && (forall k :: k in t.byId ==> k in t'.byId && t'.byId[k] == t.byId[k])
  }

  lemma CreateKeeps(ctx: Ctx, t: MarketTable, msg: CreateMsg)
    requires MarketsOk(t) && t.next < 0x1_0000_0000_0000_0000
    ensures MarketsOk(CreateMarket(ctx, t, msg).0) && Extends(t, CreateMarket(ctx, t, msg).0)
  {
  }
}
