/** When the two catalogues agree on a product although orders, deliveries and changes
    are interleaved. */
module CatalogueAgreement {
  import opened Conservation
  import opened Market
  import opened Protocol
  import opened SerialMarket
  import opened Wrappers

  // MARK: orderly steps

  /** As far as `p` is concerned: every reply of checkout arrives, and what checkout has
      confirmed is committed. */
  predicate Answered(s: State, step: Step, p: Sid)
    requires Enabled(s, step)
  {
    match step
    case DeliverChange(change, replyArrives) => change.sid == p ==> replyArrives
    case SaveUpdate(handler, replyArrives) => s.saving[handler].sid == p ==> replyArrives
    case RollbackChange => s.writer.change.sid == p ==> !s.writer.confirmed
    case _ => true
  }

  /** Moreover, no order is between its read of `p` and its transaction when an update of
      `p` commits. */
  ghost predicate Orderly(s: State, step: Step, p: Sid)
    requires Enabled(s, step)
  {
    && Answered(s, step, p)
    && (step.CommitChange? && s.writer.change.Update? && s.writer.change.sid == p ==> forall h :: !Concerns(s, h, p))
  }

  ghost predicate OrderlyRun(s: State, steps: seq<Step>, p: Sid)
    requires Possible(s, steps)
    decreases |steps|
  {
    steps == [] || (Orderly(s, steps[0], p) && OrderlyRun(Next(s, steps[0]), steps[1..], p))
  }

  // MARK: the invariant

  /** Both services have the product, with the same fields, or neither has it. */
  predicate Agrees(stock: StockDb, sales: SalesDb, p: Sid) {
    && (p in stock.products <==> p in sales.products)
    && (p in stock.products ==> SameProduct(stock.products[p], sales.products[p]))
  }

  /** Checkout has done its half of a change of `p`, and inventory has not. */
  predicate HalfDone(s: State, p: Sid) {
    s.writer.Writing? && s.writer.confirmed && s.writer.change.sid == p
  }

  /** Inventory's tables once the change in progress is committed. */
  function Committing(s: State): StockDb
    requires s.writer.Writing?
  {
    var applied := ApplyAtInventory(s.stock, s.writer.change);
    if applied.Ok? then applied.value else s.stock
  }

  /** The rows that orders in flight will write have the product's current fields. */
  ghost predicate ReadsCurrent(s: State, p: Sid) {
    forall h | Concerns(s, h, p) ::
      && p in s.stock.products
      && s.pending[h].item.name == s.stock.products[p].name
      && s.pending[h].item.price == s.stock.products[p].price
      && s.pending[h].item.currency == s.stock.products[p].currency
  }

  ghost predicate Together(s: State, p: Sid) {
    && Agrees(if HalfDone(s, p) then Committing(s) else s.stock, s.sales, p)
    && (s.writer.Writing? ==> (s.writer.change.Create? <==> s.writer.change.sid !in s.stock.products))
    && ReadsCurrent(s, p)
  }

  // MARK: every orderly step keeps it

  lemma StoreKeepsTogether(s: State, h: nat, p: Sid)
    requires Together(s, p) && Enabled(s, Store(h))
    ensures Together(Next(s, Store(h)), p)
  {
    var s' := Next(s, Store(h));
    assert s.pending[h].order.productSid == p ==> Concerns(s, h, p);
    assert forall x | Concerns(s', x, p) :: Concerns(s, x, p) && s'.pending[x] == s.pending[x];
  }

  lemma ReadKeepsTogether(s: State, step: Step, p: Sid)
    requires Together(s, p) && Enabled(s, step) && step.Deliver?
    ensures Together(Next(s, step), p)
  {
    var s' := Next(s, step);
    assert s'.stock == s.stock && s'.sales == s.sales && s'.writer == s.writer;
    assert forall x | Concerns(s', x, p) && x != step.handler :: Concerns(s, x, p) && s'.pending[x] == s.pending[x];
  }

  lemma OrderKeepsTogether(s: State, step: Step, p: Sid)
    requires Together(s, p) && Enabled(s, step)
    requires !step.Store? && !step.Deliver? && !step.OpenChange? && !step.DeliverChange? && !step.ReadListing?
    requires !step.SaveUpdate? && !step.CommitChange? && !step.RollbackChange?
    ensures Together(Next(s, step), p)
  {
    var s' := Next(s, step);
    assert s'.stock == s.stock && s'.sales.products == s.sales.products && s'.writer == s.writer;
    assert forall x | Concerns(s', x, p) :: Concerns(s, x, p) && s'.pending[x] == s.pending[x];
  }

  lemma OpenKeepsTogether(s: State, step: Step, p: Sid)
    requires Together(s, p) && Enabled(s, step)
    requires step.OpenChange? || step.ReadListing? || (step.RollbackChange? && Orderly(s, step, p))
    ensures Together(Next(s, step), p)
  {
    var s' := Next(s, step);
    assert s'.stock == s.stock && s'.sales == s.sales && s'.pending == s.pending;
    assert forall x | Concerns(s', x, p) :: Concerns(s, x, p);
  }

  /** Checkout's half makes it equal to what inventory is about to commit. */
  lemma DeliverKeepsTogether(s: State, step: Step, p: Sid)
    requires Together(s, p) && Enabled(s, step) && Orderly(s, step, p)
    requires step.DeliverChange? || step.SaveUpdate?
    ensures Together(Next(s, step), p)
  {
    var s' := Next(s, step);
    assert s'.stock == s.stock && s'.pending == s.pending;
    assert forall x | Concerns(s', x, p) :: Concerns(s, x, p);
    var change: Change := if step.DeliverChange? then step.change else s.saving[step.handler];
    if change.sid == p {
      assert s'.writer == Writing(change, true);
      DeliveredAgrees(s, s', change, p);
    } else {
      assert p in s'.sales.products <==> p in s.sales.products;
    }
  }

  lemma DeliveredAgrees(s: State, s': State, change: Change, p: Sid)
    requires Together(s, p) && Awaited(s, change) && change.sid == p
    requires s'.stock == s.stock && s'.writer == Writing(change, true)
    requires if change.Update? then s'.sales == SaveListing(s.sales, p, ListingOf(NewItem(change)))
             else ApplyAtCheckout(s.sales, change) == Ok(s'.sales)
    ensures Agrees(Committing(s'), s'.sales, p)
  {
  }

  lemma CommitKeepsTogether(s: State, p: Sid)
    requires Together(s, p) && Enabled(s, CommitChange) && Orderly(s, CommitChange, p)
    ensures Together(Next(s, CommitChange), p)
  {
    var s' := Next(s, CommitChange);
    assert s'.stock == Committing(s) && s'.sales == s.sales && s'.pending == s.pending;
    assert forall x | Concerns(s', x, p) :: Concerns(s, x, p);
  }

  lemma StepKeepsTogether(s: State, step: Step, p: Sid)
    requires Together(s, p) && Enabled(s, step) && Orderly(s, step, p)
    ensures Together(Next(s, step), p)
  {
    if step.Store? {
      StoreKeepsTogether(s, step.handler, p);
    } else if step.Deliver? {
      ReadKeepsTogether(s, step, p);
    } else if step.OpenChange? || step.ReadListing? || step.RollbackChange? {
      OpenKeepsTogether(s, step, p);
    } else if step.DeliverChange? || step.SaveUpdate? {
      DeliverKeepsTogether(s, step, p);
    } else if step.CommitChange? {
      CommitKeepsTogether(s, p);
    } else {
      OrderKeepsTogether(s, step, p);
    }
  }

  lemma {:induction false} RunKeepsTogether(s: State, steps: seq<Step>, p: Sid)
    requires Possible(s, steps) && OrderlyRun(s, steps, p) && Together(s, p)
    ensures Together(After(s, steps), p)
    decreases |steps|
  {
    if steps != [] {
      StepKeepsTogether(s, steps[0], p);
      RunKeepsTogether(Next(s, steps[0]), steps[1..], p);
    }
  }

  /** Orders, repeated deliveries and changes of other products may be interleaved at will:
      after a run that is orderly for `p` the catalogues agree on `p`, except while
      checkout has done its half of a change and inventory has not. */
  lemma {:induction false} CataloguesAgree(s: State, steps: seq<Step>, p: Sid)
    requires Initial(s) && Possible(s, steps) && OrderlyRun(s, steps, p) && Agrees(s.stock, s.sales, p)
    ensures !HalfDone(After(s, steps), p) ==> Agrees(After(s, steps).stock, After(s, steps).sales, p)
  {
    RunKeepsTogether(s, steps, p);
  }
}
