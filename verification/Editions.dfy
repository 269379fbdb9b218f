/** Exactly which runs keep the catalogues equal. A stale order writes back the name, the
    price and the currency that it read; whether the product's row shows an old edition can
    be read off the order of the reads and the commits. */
module Editions {
  import opened CatalogueAgreement
  import opened Conservation
  import opened Market
  import opened Numbers
  import opened Protocol
  import opened Refinement
  import opened SerialMarket
  import opened StaleReads

  // MARK: one stale order

  /** Writing `was` back over a row with the fields of `req` does not show: `Updates` skips
      the field, or it is the same at checkout. */
  predicate LeavesNoTrace(was: StockItem, req: ProductRequest) {
    && (was.name == "" || was.name == req.name)
    && (was.price == 0 || Int32(was.price) == Int32(req.price))
    && (was.currency == "" || was.currency == req.currency)
  }

  /** An order that read the product before an update commits after it: inventory's row and
      the one that checkout has saved are the same product exactly when each old field is
      skipped or equal. */
  lemma StaleOrderUndoesUpdate(db: StockDb, m: RegisterOrder, req: ProductRequest)
    requires Admit(db, m).Ok? && m.sid !in Sids(db.orders)
    ensures var p := m.productSid;
            var updated := ApplyAtInventory(db, Update(p, req)).value;
            var stored := StoreOrder(updated, Admit(db, m).value);
            && stored.Ok?
            && (SameProduct(stored.value.products[p], ListingOf(UpdatedItem(req)))
                <==> LeavesNoTrace(db.products[p], req))
  {
  }

  /** An order of one unit is sent and read by inventory. */
  lemma {:induction false} OrderRead(s: State, userId: nat, p: Sid) returns (steps: seq<Step>)
    requires Initial(s) && userId in s.sales.users && LiveListing(s.sales, p) && Reservable(s.stock, p, 1).Ok?
    ensures var m := OnTheWire("o", userId, p, 1);
            && Possible(s, steps) && Admit(s.stock, m).Ok?
            && After(s, steps).pending == map[0 := Admit(s.stock, m).value]
            && After(s, steps).stock == s.stock && After(s, steps).sales == s.sales && After(s, steps).writer == Idle
  {
    var req, none := OrderRequest(userId, p, 1), Faults(false, false, false, false, false);
    assert Precheck(WorldOf(s), req, none).Ok?;
    var sending := OrderSent(s, req, "o", none, 0);
    ReserveMatchesAdmission(s.stock, OnTheWire("o", userId, p, 1));
    RunThenStep(s, sending, Deliver("o", 0));
    steps := sending + [Deliver("o", 0)];
  }

  /** An update while that order is in flight, and then the order's transaction. */
  lemma {:induction false} UpdatedThenStored(s: State, p: Sid, req: ProductRequest) returns (steps: seq<Step>)
    requires s.writer.Idle? && LiveItem(s.stock, p) && LiveListing(s.sales, p)
    requires 0 in s.pending
    requires StoreOrder(ApplyAtInventory(s.stock, Update(p, req)).value, s.pending[0]).Ok?
    ensures Possible(s, steps)
    ensures After(s, steps).stock == StoreOrder(ApplyAtInventory(s.stock, Update(p, req)).value, s.pending[0]).value
    ensures After(s, steps).sales == SaveListing(s.sales, p, ListingOf(UpdatedItem(req)))
    ensures After(s, steps).writer.Idle?
  {
    steps := ChangeSent(s, Update(p, req), true);
    RunThenStep(s, steps, CommitChange);
    steps := steps + [CommitChange];
    RunThenStep(s, steps, Store(0));
    steps := steps + [Store(0)];
  }

  /** So the catalogues can disagree for good: from every start with a user and a product
      in stock, and for every update that changes a field at checkout which the product
      has, some run without any fault ends with two different products. */
  lemma {:induction false} StaleOrderDisagrees(s: State, userId: nat, p: Sid, req: ProductRequest)
    requires Initial(s) && userId in s.sales.users && LiveListing(s.sales, p) && Reservable(s.stock, p, 1).Ok?
    requires !LeavesNoTrace(s.stock.products[p], req)
    ensures exists t :: Reachable(t) && t.writer.Idle? && !Agrees(t.stock, t.sales, p)
  {
    var m := OnTheWire("o", userId, p, 1);
    StaleOrderUndoesUpdate(s.stock, m, req);
    var reading := OrderRead(s, userId, p);
    var storing := UpdatedThenStored(After(s, reading), p, req);
    RunThenRun(s, reading, storing);
    assert Reachable(After(s, reading + storing));
  }

  // MARK: the schedule

  /** Which rows show an edition of the product that has been replaced: the stored one, and
      those read by deliveries in flight. */
  datatype Old = Old(row: bool, seen: set<nat>)

  const CURRENT := Old(false, {})

  predicate Publishes(s: State, step: Step, p: Sid)
    requires Enabled(s, step)
  {
    step.CommitChange? && !s.writer.change.Remove? && s.writer.change.sid == p
  }

  /** A read copies the mark of the row, a commit on a live row writes the mark of its read,
      and a new edition makes all reads in flight old. */
  function Age(s: State, step: Step, p: Sid, t: Old): Old
    requires Enabled(s, step)
  {
    if Reads(s, step, p) then t.(seen := if t.row then t.seen + {step.handler} else t.seen - {step.handler})
    else if Commits(s, step, p) && LiveItem(s.stock, p) then t.(row := step.handler in t.seen)
    else if Publishes(s, step, p) then Old(false, InFlight(s, p))
    else t
  }

  function AgeAfter(s: State, steps: seq<Step>, p: Sid, t: Old): Old
    requires Possible(s, steps)
    decreases |steps|
  {
    if steps == [] then t else AgeAfter(Next(s, steps[0]), steps[1..], p, Age(s, steps[0], p, t))
  }

  // MARK: distinguishable editions

  /** No field that `Updates` would skip. */
  predicate Full(item: StockItem) {
    item.name != "" && item.price != 0 && item.currency != ""
  }

  /** The names used so far. */
  function NamesNow(s: State, step: Step, p: Sid, used: set<string>): set<string>
    requires Enabled(s, step)
  {
    if Publishes(s, step, p) then used + {NewItem(s.writer.change).name} else used
  }

  /** Every edition of `p` has all its fields and a name that none before it had. */
  predicate NewNames(s: State, steps: seq<Step>, p: Sid, used: set<string>)
    requires Possible(s, steps)
    decreases |steps|
  {
    steps == [] ||
    (&& (Publishes(s, steps[0], p) ==> Full(NewItem(s.writer.change)) && NewItem(s.writer.change).name !in used)
     && NewNames(Next(s, steps[0]), steps[1..], p, NamesNow(s, steps[0], p, used)))
  }

  predicate AnsweredRun(s: State, steps: seq<Step>, p: Sid)
    requires Possible(s, steps)
    decreases |steps|
  {
    steps == [] || (Answered(s, steps[0], p) && AnsweredRun(Next(s, steps[0]), steps[1..], p))
  }

  // MARK: the mark is the disagreement

  predicate SameFields(item: StockItem, l: Listing) {
    l.name == item.name && l.price == Int32(item.price) && l.currency == item.currency
  }

  /** The row or the read shows checkout's edition, or one with another name. */
  predicate Shows(item: StockItem, l: Listing, outdated: bool) {
    if outdated then item.name != l.name else SameFields(item, l)
  }

  ghost predicate Named(s: State, p: Sid, used: set<string>) {
    && (p in s.stock.products ==> Full(s.stock.products[p]) && s.stock.products[p].name in used)
    && forall h | Concerns(s, h, p) ::
         p in s.stock.products && Full(s.pending[h].item) && s.pending[h].item.name in used
  }

  /** A new edition is at checkout already and not yet at inventory. */
  predicate Pending(s: State, p: Sid) {
    HalfDone(s, p) && !s.writer.change.Remove?
  }

  ghost predicate Marked(s: State, p: Sid, t: Old) {
    p in s.stock.products && !Pending(s, p) ==>
      && p in s.sales.products
      && Shows(s.stock.products[p], s.sales.products[p], t.row)
      && forall h | Concerns(s, h, p) :: Shows(s.pending[h].item, s.sales.products[p], h in t.seen)
  }

  /** Apart from the three fields, checkout has what inventory has or is about to have. */
  predicate Aligned(s: State, p: Sid) {
    && (s.writer.Writing? ==> (s.writer.change.Create? <==> s.writer.change.sid !in s.stock.products))
    && (Pending(s, p) ==> p in s.sales.products && s.sales.products[p] == ListingOf(NewItem(s.writer.change)))
    && (HalfDone(s, p) && s.writer.change.Remove? ==> p in s.sales.products && s.sales.products[p].deleted)
    && (!HalfDone(s, p) ==>
          && (p in s.stock.products <==> p in s.sales.products)
          && (p in s.stock.products ==> s.stock.products[p].deleted == s.sales.products[p].deleted))
  }

  ghost predicate Dated(s: State, p: Sid, t: Old, used: set<string>) {
    Named(s, p, used) && Marked(s, p, t) && Aligned(s, p) && (p !in s.stock.products ==> !t.row)
  }

  lemma CommitDated(s: State, h: nat, p: Sid, t: Old, used: set<string>)
    requires Dated(s, p, t, used) && Enabled(s, Store(h))
    ensures Dated(Next(s, Store(h)), p, Age(s, Store(h), p, t), used)
  {
    var s' := Next(s, Store(h));
    assert s.pending[h].order.productSid == p ==> Concerns(s, h, p);
    assert forall x | Concerns(s', x, p) :: Concerns(s, x, p) && s'.pending[x] == s.pending[x];
  }

  lemma ReadDated(s: State, sid: Sid, h: nat, p: Sid, t: Old, used: set<string>)
    requires Dated(s, p, t, used) && Enabled(s, Deliver(sid, h))
    ensures Dated(Next(s, Deliver(sid, h)), p, Age(s, Deliver(sid, h), p, t), used)
  {
    var s' := Next(s, Deliver(sid, h));
    assert s'.stock == s.stock && s'.sales == s.sales && s'.writer == s.writer;
    assert forall x | Concerns(s', x, p) && x != h :: Concerns(s, x, p) && s'.pending[x] == s.pending[x];
  }

  /** A change that publishes nothing: it removes `p` or concerns another product. */
  lemma ChangeDated(s: State, p: Sid, t: Old, used: set<string>)
    requires Dated(s, p, t, used) && Enabled(s, CommitChange) && !Publishes(s, CommitChange, p)
    ensures Dated(Next(s, CommitChange), p, t, used)
  {
    var s' := Next(s, CommitChange);
    assert s'.sales == s.sales && s'.pending == s.pending;
    assert forall x | Concerns(s', x, p) :: Concerns(s, x, p);
  }

  lemma PublishDated(s: State, p: Sid, t: Old, used: set<string>)
    requires Dated(s, p, t, used) && Enabled(s, CommitChange) && Publishes(s, CommitChange, p)
    requires var item := NewItem(s.writer.change); Full(item) && item.name !in used
    ensures Dated(Next(s, CommitChange), p, Age(s, CommitChange, p, t), used + {NewItem(s.writer.change).name})
  {
    var s' := Next(s, CommitChange);
    assert s'.sales == s.sales && s'.pending == s.pending;
    assert s'.stock.products[p] == NewItem(s.writer.change);
    assert forall x | Concerns(s', x, p) :: Concerns(s, x, p);
  }

  /** Checkout adds or removes a product. */
  lemma DeliveryDated(s: State, step: Step, p: Sid, t: Old, used: set<string>)
    requires Dated(s, p, t, used) && Enabled(s, step) && Answered(s, step, p) && step.DeliverChange?
    ensures Dated(Next(s, step), p, t, used)
  {
    var s' := Next(s, step);
    assert s'.stock == s.stock && s'.pending == s.pending;
    assert forall x | Concerns(s', x, p) :: Concerns(s, x, p);
  }

  /** Checkout saves an update. */
  lemma SaveDated(s: State, step: Step, p: Sid, t: Old, used: set<string>)
    requires Dated(s, p, t, used) && Enabled(s, step) && Answered(s, step, p) && step.SaveUpdate?
    ensures Dated(Next(s, step), p, t, used)
  {
    var s' := Next(s, step);
    assert s'.stock == s.stock && s'.pending == s.pending;
    assert forall x | Concerns(s', x, p) :: Concerns(s, x, p);
  }

  /** Inventory begins a change, or takes back one that checkout has not confirmed. */
  lemma WriterDated(s: State, step: Step, p: Sid, t: Old, used: set<string>)
    requires Dated(s, p, t, used) && Enabled(s, step) && Answered(s, step, p)
    requires step.OpenChange? || step.RollbackChange?
    ensures Dated(Next(s, step), p, t, used)
  {
    var s' := Next(s, step);
    assert s'.stock == s.stock && s'.sales == s.sales && s'.pending == s.pending;
    assert forall x | Concerns(s', x, p) :: Concerns(s, x, p);
  }

  lemma SameDated(s: State, s': State, p: Sid, t: Old, used: set<string>)
    requires Dated(s, p, t, used)
    requires s'.stock == s.stock && s'.sales.products == s.sales.products && s'.writer == s.writer
    requires forall x | Concerns(s', x, p) :: Concerns(s, x, p) && s'.pending[x] == s.pending[x]
    ensures Dated(s', p, t, used)
  {
  }

  lemma OtherDated(s: State, step: Step, p: Sid, t: Old, used: set<string>)
    requires Dated(s, p, t, used) && Enabled(s, step)
    requires !step.Store? && !step.Deliver? && !step.CommitChange? && !step.DeliverChange? && !step.SaveUpdate?
    requires !step.OpenChange? && !step.RollbackChange?
    ensures Dated(Next(s, step), p, t, used)
  {
    var s' := Next(s, step);
    assert forall x | Concerns(s', x, p) :: Concerns(s, x, p) && s'.pending[x] == s.pending[x];
    SameDated(s, s', p, t, used);
  }

  lemma StepDated(s: State, step: Step, p: Sid, t: Old, used: set<string>)
    requires Enabled(s, step) && Answered(s, step, p) && Dated(s, p, t, used)
    requires Publishes(s, step, p) ==> Full(NewItem(s.writer.change)) && NewItem(s.writer.change).name !in used
    ensures Dated(Next(s, step), p, Age(s, step, p, t), NamesNow(s, step, p, used))
  {
    if step.Store? {
      CommitDated(s, step.handler, p, t, used);
    } else if step.Deliver? {
      ReadDated(s, step.sid, step.handler, p, t, used);
    } else if Publishes(s, step, p) {
      PublishDated(s, p, t, used);
    } else if step.CommitChange? {
      ChangeDated(s, p, t, used);
    } else if step.DeliverChange? {
      DeliveryDated(s, step, p, t, used);
    } else if step.SaveUpdate? {
      SaveDated(s, step, p, t, used);
    } else if step.OpenChange? || step.RollbackChange? {
      WriterDated(s, step, p, t, used);
    } else {
      OtherDated(s, step, p, t, used);
    }
  }

  lemma {:induction false} RunDated(s: State, steps: seq<Step>, p: Sid, t: Old, used: set<string>)
    returns (names: set<string>)
    requires Possible(s, steps) && AnsweredRun(s, steps, p) && NewNames(s, steps, p, used) && Dated(s, p, t, used)
    ensures Dated(After(s, steps), p, AgeAfter(s, steps, p, t), names)
    decreases |steps|
  {
    if steps == [] {
      names := used;
    } else {
      StepDated(s, steps[0], p, t, used);
      names := RunDated(Next(s, steps[0]), steps[1..], p, Age(s, steps[0], p, t), NamesNow(s, steps[0], p, used));
    }
  }

  /** The names of `p` before the run. */
  function NamesOf(s: State, p: Sid): set<string> {
    if p in s.stock.products then {s.stock.products[p].name} else {}
  }

  /** For every run in which checkout's replies about `p` arrive and its confirmed changes
      commit, while each edition of `p` has all its fields and a name of its own: unless
      checkout is just ahead, the catalogues agree on `p` if and only if inventory's row
      does not show an old edition. */
  lemma {:induction false} AgreeExactly(s: State, steps: seq<Step>, p: Sid)
    requires Initial(s) && Possible(s, steps) && Agrees(s.stock, s.sales, p)
    requires p in s.stock.products ==> Full(s.stock.products[p])
    requires AnsweredRun(s, steps, p) && NewNames(s, steps, p, NamesOf(s, p))
    ensures var t := After(s, steps);
            !HalfDone(t, p) ==> (Agrees(t.stock, t.sales, p) <==> !AgeAfter(s, steps, p, CURRENT).row)
  {
    var names := RunDated(s, steps, p, CURRENT, NamesOf(s, p));
  }
}
