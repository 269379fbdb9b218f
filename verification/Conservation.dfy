/** Stock over interleaved orders: what the read outside the transaction costs, and
    what it does not. */
module Conservation {
  import opened Market
  import opened Numbers
  import opened Protocol

  /** Units of product `p` sold by these orders. */
  function Sold(orders: seq<Order>, p: Sid): int {
    if orders == [] then 0
    else Sold(orders[..|orders| - 1], p)
         + if orders[|orders| - 1].productSid == p then orders[|orders| - 1].quantity else 0
  }

  /** Units of `p` sold by the orders after the first `n`. */
  function SoldSince(s: State, p: Sid, n: nat): int
    requires n <= |s.stock.orders|
  {
    Sold(s.stock.orders[n..], p)
  }

  lemma SoldSnoc(orders: seq<Order>, n: nat, o: Order, p: Sid)
    requires n <= |orders|
    ensures Sold((orders + [o])[n..], p) == Sold(orders[n..], p) + if o.productSid == p then o.quantity else 0
  {
    var all := (orders + [o])[n..];
    assert all[..|all| - 1] == orders[n..];
  }

  predicate Concerns(s: State, h: nat, p: Sid) {
    h in s.pending && s.pending[h].order.productSid == p
  }

  /** The available quantity that delivery `h` read. */
  function ReadBy(s: State, h: nat): int
    requires h in s.pending
  {
    s.pending[h].item.available + s.pending[h].order.quantity
  }

  predicate Restocks(s: State, step: Step, p: Sid) {
    step.CommitChange? && s.writer.Writing? && s.writer.change.Update? && s.writer.change.sid == p
  }

  /** The order of `p` that is read in this step has a non-negative quantity on the wire. */
  predicate OrdersForward(s: State, step: Step, p: Sid)
    requires Enabled(s, step)
  {
    step.Deliver? ==>
      var m := MessageOf(s.attempts[s.sent[step.sid]]);
      m.productSid == p ==> m.quantity >= 0
  }

  // MARK: one-sided conservation

  /** With `supply` units on hand when `n` orders were stored: nothing is invented, and
      whatever is missing was sold. The same holds for every stale read in flight. */
  ghost predicate Sound(s: State, p: Sid, supply: int, n: nat) {
    && p in s.stock.products && n <= |s.stock.orders|
    && 0 <= s.stock.products[p].available <= supply
    && s.stock.products[p].available + SoldSince(s, p, n) >= supply
    && forall h | Concerns(s, h, p) ::
         && s.pending[h].order.quantity >= 0 && s.pending[h].item.available >= 0
         && ReadBy(s, h) <= supply && ReadBy(s, h) + SoldSince(s, p, n) >= supply
  }

  lemma StoreIsSound(s: State, h: nat, p: Sid, supply: int, n: nat)
    requires Sound(s, p, supply, n) && Enabled(s, Store(h))
    ensures Sound(Next(s, Store(h)), p, supply, n)
  {
    var s' := Next(s, Store(h));
    var o := s.pending[h].order;
    assert s'.stock.orders == s.stock.orders + [o];
    SoldSnoc(s.stock.orders, n, o, p);
    assert o.productSid == p ==> Concerns(s, h, p);
    assert forall x | Concerns(s', x, p) :: Concerns(s, x, p) && s'.pending[x] == s.pending[x];
  }

  lemma DeliverIsSound(s: State, sid: Sid, h: nat, p: Sid, supply: int, n: nat)
    requires Sound(s, p, supply, n) && Enabled(s, Deliver(sid, h)) && OrdersForward(s, Deliver(sid, h), p)
    ensures Sound(Next(s, Deliver(sid, h)), p, supply, n)
  {
    var s' := Next(s, Deliver(sid, h));
    assert s'.stock == s.stock;
    assert forall x | Concerns(s', x, p) && x != h :: Concerns(s, x, p) && s'.pending[x] == s.pending[x];
  }

  lemma ChangeIsSound(s: State, p: Sid, supply: int, n: nat)
    requires Sound(s, p, supply, n) && Enabled(s, CommitChange) && !Restocks(s, CommitChange, p)
    ensures Sound(Next(s, CommitChange), p, supply, n)
  {
    var s' := Next(s, CommitChange);
    assert s'.stock.orders == s.stock.orders && s'.pending == s.pending;
    assert s'.stock.products[p].available == s.stock.products[p].available;
    assert forall x | Concerns(s', x, p) :: Concerns(s, x, p);
  }

  lemma OtherIsSound(s: State, step: Step, p: Sid, supply: int, n: nat)
    requires Sound(s, p, supply, n) && Enabled(s, step)
    requires !step.Store? && !step.Deliver? && !step.CommitChange?
    ensures Sound(Next(s, step), p, supply, n)
  {
    var s' := Next(s, step);
    assert s'.stock == s.stock;
    assert forall x | Concerns(s', x, p) :: Concerns(s, x, p) && s'.pending[x] == s.pending[x];
  }

  lemma StepIsSound(s: State, step: Step, p: Sid, supply: int, n: nat)
    requires Sound(s, p, supply, n) && Enabled(s, step)
    requires OrdersForward(s, step, p) && !Restocks(s, step, p)
    ensures Sound(Next(s, step), p, supply, n)
  {
    if step.Store? {
      StoreIsSound(s, step.handler, p, supply, n);
    } else if step.Deliver? {
      DeliverIsSound(s, step.sid, step.handler, p, supply, n);
    } else if step.CommitChange? {
      ChangeIsSound(s, p, supply, n);
    } else {
      OtherIsSound(s, step, p, supply, n);
    }
  }

  /** A run in which `p` is not restocked and is only ordered in non-negative quantities. */
  predicate Selling(s: State, steps: seq<Step>, p: Sid)
    requires Possible(s, steps)
    decreases |steps|
  {
    steps == [] ||
    (OrdersForward(s, steps[0], p) && !Restocks(s, steps[0], p) && Selling(Next(s, steps[0]), steps[1..], p))
  }

  lemma {:induction false} RunIsSound(s: State, steps: seq<Step>, p: Sid, supply: int, n: nat)
    requires Possible(s, steps) && Selling(s, steps, p) && Sound(s, p, supply, n)
    ensures Sound(After(s, steps), p, supply, n)
    decreases |steps|
  {
    if steps != [] {
      StepIsSound(s, steps[0], p, supply, n);
      RunIsSound(Next(s, steps[0]), steps[1..], p, supply, n);
    }
  }

  /** Over any interleaving: 0 <= available <= supply and available + sold >= supply. */
  lemma {:induction false} StockNeverInvented(s: State, steps: seq<Step>, p: Sid)
    requires Possible(s, steps) && Selling(s, steps, p)
    requires p in s.stock.products && s.stock.products[p].available >= 0
    requires forall h :: !Concerns(s, h, p)
    ensures var t := After(s, steps);
            var supply := s.stock.products[p].available;
            && p in t.stock.products && |s.stock.orders| <= |t.stock.orders|
            && 0 <= t.stock.products[p].available <= supply
            && t.stock.products[p].available + SoldSince(t, p, |s.stock.orders|) >= supply
  {
    assert s.stock.orders[|s.stock.orders|..] == [];
    RunIsSound(s, steps, p, s.stock.products[p].available, |s.stock.orders|);
  }

  // MARK: exact conservation

  /** No delivery reads `p` while another one is between its read and its transaction,
      and `p` is not deleted in between. */
  ghost predicate Undisturbed(s: State, step: Step, p: Sid)
    requires Enabled(s, step)
  {
    && (step.Deliver? && s.attempts[s.sent[step.sid]].productSid == p ==> forall h :: !Concerns(s, h, p))
    && (step.CommitChange? && s.writer.change == Remove(p) ==> forall h :: !Concerns(s, h, p))
  }

  ghost predicate Apart(s: State, steps: seq<Step>, p: Sid)
    requires Possible(s, steps)
    decreases |steps|
  {
    steps == [] ||
    (Undisturbed(s, steps[0], p) && !Restocks(s, steps[0], p) && Apart(Next(s, steps[0]), steps[1..], p))
  }

  /** Every unit is on hand or sold, and the one read in flight is up to date. */
  ghost predicate Exact(s: State, p: Sid, supply: int, n: nat) {
    && p in s.stock.products && n <= |s.stock.orders|
    && s.stock.products[p].available + SoldSince(s, p, n) == supply
    && (forall h, k | Concerns(s, h, p) && Concerns(s, k, p) :: h == k)
    && (forall h | Concerns(s, h, p) ::
          LiveItem(s.stock, p) && ReadBy(s, h) == s.stock.products[p].available)
  }

  lemma StoreIsExact(s: State, h: nat, p: Sid, supply: int, n: nat)
    requires Exact(s, p, supply, n) && Enabled(s, Store(h))
    ensures Exact(Next(s, Store(h)), p, supply, n)
  {
    var s' := Next(s, Store(h));
    var o := s.pending[h].order;
    assert s'.stock.orders == s.stock.orders + [o];
    SoldSnoc(s.stock.orders, n, o, p);
    assert o.productSid == p ==> Concerns(s, h, p);
    assert forall x | Concerns(s', x, p) :: Concerns(s, x, p) && s'.pending[x] == s.pending[x];
  }

  lemma DeliverIsExact(s: State, sid: Sid, h: nat, p: Sid, supply: int, n: nat)
    requires Exact(s, p, supply, n) && Enabled(s, Deliver(sid, h)) && Undisturbed(s, Deliver(sid, h), p)
    ensures Exact(Next(s, Deliver(sid, h)), p, supply, n)
  {
    var s' := Next(s, Deliver(sid, h));
    assert s'.stock == s.stock;
    assert forall x | Concerns(s', x, p) && x != h :: Concerns(s, x, p) && s'.pending[x] == s.pending[x];
  }

  lemma ChangeIsExact(s: State, p: Sid, supply: int, n: nat)
    requires Exact(s, p, supply, n) && Enabled(s, CommitChange)
    requires !Restocks(s, CommitChange, p) && Undisturbed(s, CommitChange, p)
    ensures Exact(Next(s, CommitChange), p, supply, n)
  {
    var s' := Next(s, CommitChange);
    assert s'.stock.orders == s.stock.orders && s'.pending == s.pending;
    assert s'.stock.products[p].available == s.stock.products[p].available;
    assert s.writer.change != Remove(p) ==> s'.stock.products[p] == s.stock.products[p];
    assert forall x | Concerns(s', x, p) :: Concerns(s, x, p);
  }

  lemma OtherIsExact(s: State, step: Step, p: Sid, supply: int, n: nat)
    requires Exact(s, p, supply, n) && Enabled(s, step)
    requires !step.Store? && !step.Deliver? && !step.CommitChange?
    ensures Exact(Next(s, step), p, supply, n)
  {
    var s' := Next(s, step);
    assert s'.stock == s.stock;
    assert forall x | Concerns(s', x, p) :: Concerns(s, x, p) && s'.pending[x] == s.pending[x];
  }

  lemma {:induction false} RunIsExact(s: State, steps: seq<Step>, p: Sid, supply: int, n: nat)
    requires Possible(s, steps) && Apart(s, steps, p) && Exact(s, p, supply, n)
    ensures Exact(After(s, steps), p, supply, n)
    decreases |steps|
  {
    if steps != [] {
      if steps[0].Store? {
        StoreIsExact(s, steps[0].handler, p, supply, n);
      } else if steps[0].Deliver? {
        DeliverIsExact(s, steps[0].sid, steps[0].handler, p, supply, n);
      } else if steps[0].CommitChange? {
        ChangeIsExact(s, p, supply, n);
      } else {
        OtherIsExact(s, steps[0], p, supply, n);
      }
      RunIsExact(Next(s, steps[0]), steps[1..], p, supply, n);
    }
  }

  /** When read-to-commit spans of one product do not overlap, stock is conserved exactly:
      no overselling, whatever other products, faults and repetitions do. */
  lemma {:induction false} ApartConservesStock(s: State, steps: seq<Step>, p: Sid)
    requires Possible(s, steps) && Apart(s, steps, p)
    requires p in s.stock.products && forall h :: !Concerns(s, h, p)
    ensures var t := After(s, steps);
            && p in t.stock.products && |s.stock.orders| <= |t.stock.orders|
            && t.stock.products[p].available + SoldSince(t, p, |s.stock.orders|) == s.stock.products[p].available
  {
    assert s.stock.orders[|s.stock.orders|..] == [];
    RunIsExact(s, steps, p, s.stock.products[p].available, |s.stock.orders|);
  }

  // MARK: stale rows

  /** By how much the row written in this step is out of date: the units that a Store of
      `p` puts back because its read was stale, or cannot take because `p` was deleted. */
  function Staleness(s: State, step: Step, p: Sid): int
    requires Enabled(s, step) && p in s.stock.products
  {
    if step.Store? && s.pending[step.handler].order.productSid == p then
      if LiveItem(s.stock, p) then ReadBy(s, step.handler) - s.stock.products[p].available
      else s.pending[step.handler].order.quantity
    else 0
  }

  /** Products are never removed from the table. */
  lemma ProductStays(s: State, step: Step, p: Sid)
    requires Enabled(s, step) && p in s.stock.products
    ensures p in Next(s, step).stock.products
  {
    if !step.Store? && !step.CommitChange? {
      assert Next(s, step).stock == s.stock;
    }
  }

  // MARK: why the conditions are there

  /** A transaction with a new SID on a live product. */
  lemma StoredLive(db: StockDb, p: Pending)
    requires LiveItem(db, p.order.productSid) && p.order.sid !in Sids(db.orders)
    ensures StoreOrder(db, p).Ok?
    ensures var db' := StoreOrder(db, p).value;
            && LiveItem(db', p.order.productSid) && db'.products[p.order.productSid].available == p.item.available
            && db'.orders == db.orders + [p.order] && Sids(db'.orders) == Sids(db.orders) + {p.order.sid}
  {
    var db' := StoreOrder(db, p).value;
    assert db'.orders == db.orders + [p.order];
    assert forall o | o in db'.orders :: o in db.orders || o == p.order;
    assert p.order in db'.orders;
  }

  /** Two orders that read the same stock and then both commit: the first decrement is
      lost as a whole, so exactly its quantity is sold without leaving the stock. */
  lemma {:induction false} OverlapLosesADecrement(db: StockDb, r1: RegisterOrder, r2: RegisterOrder)
    requires r1.productSid == r2.productSid && r1.sid != r2.sid
    requires r1.sid !in Sids(db.orders) && r2.sid !in Sids(db.orders)
    requires Admit(db, r1).Ok? && Admit(db, r2).Ok?
    ensures var p := r1.productSid;
            var first := StoreOrder(db, Admit(db, r1).value);
            first.Ok?
            && var second := StoreOrder(first.value, Admit(db, r2).value);
               second.Ok?
               && second.value.products[p].available + Sold(second.value.orders, p)
                  == db.products[p].available + Sold(db.orders, p) + r1.quantity
  {
    var db1 := StoreOrder(db, Admit(db, r1).value).value;
    StoredLive(db, Admit(db, r1).value);
    StoredLive(db1, Admit(db, r2).value);
    SoldSnoc(db.orders, 0, Admit(db, r1).value.order, r1.productSid);
    SoldSnoc(db1.orders, 0, Admit(db, r2).value.order, r1.productSid);
    assert db.orders[0..] == db.orders && db1.orders[0..] == db1.orders;
  }

  /** An admitted order raises the stock exactly when its quantity is negative on the
      wire, as it is for 2^31 units. */
  lemma {:induction false} NegativeQuantityRestocks(db: StockDb, sid: Sid, userId: nat, p: Sid, quantity: int)
    requires Admit(db, OnTheWire(sid, userId, p, quantity)).Ok?
    ensures Admit(db, OnTheWire(sid, userId, p, quantity)).value.item.available > db.products[p].available
            <==> Int32(quantity) < 0
    ensures 1 <= quantity < 0x1_0000_0000 ==> (Int32(quantity) < 0 <==> quantity >= 0x8000_0000)
  {
    assert 0 <= quantity < 0x1_0000_0000 ==> quantity % 0x1_0000_0000 == quantity;
  }

  // MARK: the out-of-stock flag

  /** Written rows and rows about to be written have a flag that matches the quantity. */
  predicate FlagsPaired(s: State) {
    && (forall p | p in s.touched ::
          p in s.stock.products && (s.stock.products[p].outOfStock <==> s.stock.products[p].available <= 0))
    && (forall h | h in s.pending :: s.pending[h].item.outOfStock <==> s.pending[h].item.available <= 0)
  }

  lemma StepKeepsFlags(s: State, step: Step)
    requires FlagsPaired(s) && Enabled(s, step)
    ensures FlagsPaired(Next(s, step))
  {
    if step.Store? {
      assert Next(s, step).stock == StoreOrder(s.stock, s.pending[step.handler]).value;
    } else if step.CommitChange? {
      ChangeKeepsFlags(s);
    } else {
      assert Next(s, step).stock == s.stock && Next(s, step).touched == s.touched;
    }
  }

  lemma ChangeKeepsFlags(s: State)
    requires FlagsPaired(s) && Enabled(s, CommitChange)
    ensures FlagsPaired(Next(s, CommitChange))
  {
  }

  lemma {:induction false} RunKeepsFlags(s: State, steps: seq<Step>)
    requires Possible(s, steps) && FlagsPaired(s)
    ensures FlagsPaired(After(s, steps))
    decreases |steps|
  {
    if steps != [] {
      StepKeepsFlags(s, steps[0]);
      RunKeepsFlags(Next(s, steps[0]), steps[1..]);
    }
  }

  /** In every reachable state, a product written by an order or an update is flagged out
      of stock exactly when nothing is available, although the writes may be stale. */
  lemma {:induction false} FlagMatchesQuantity(s: State, p: Sid)
    requires Reachable(s) && p in s.touched
    ensures p in s.stock.products
    ensures s.stock.products[p].outOfStock <==> s.stock.products[p].available <= 0
  {
    var start: State, steps: seq<Step> :| Initial(start) && Possible(start, steps) && After(start, steps) == s;
    RunKeepsFlags(start, steps);
  }

  /** The history of written products holds what its name says. */
  lemma TouchedExactly(s: State, step: Step, p: Sid)
    requires Enabled(s, step)
    ensures p in Next(s, step).touched
            <==> || p in s.touched
                 || (step.Store? && s.pending[step.handler].order.productSid == p && LiveItem(s.stock, p))
                 || (step.CommitChange? && s.writer.change.Update? && s.writer.change.sid == p)
  {
  }

  lemma {:induction false} TouchedStays(s: State, steps: seq<Step>, p: Sid)
    requires Possible(s, steps) && p in s.touched
    ensures p in After(s, steps).touched
    decreases |steps|
  {
    if steps != [] {
      TouchedExactly(s, steps[0], p);
      TouchedStays(Next(s, steps[0]), steps[1..], p);
    }
  }

  /** So from the first order or update that is committed on, the flag matches the quantity
      after every continuation. */
  lemma {:induction false} FlagMatchesFromFirstWrite(s: State, step: Step, steps: seq<Step>, p: Sid)
    requires Reachable(s) && Enabled(s, step) && Possible(Next(s, step), steps)
    requires || (step.Store? && s.pending[step.handler].order.productSid == p && LiveItem(s.stock, p))
             || (step.CommitChange? && s.writer.change.Update? && s.writer.change.sid == p)
    ensures var t := After(Next(s, step), steps);
            p in t.stock.products && (t.stock.products[p].outOfStock <==> t.stock.products[p].available <= 0)
  {
    TouchedExactly(s, step, p);
    TouchedStays(Next(s, step), steps, p);
    var start: State, before: seq<Step> :| Initial(start) && Possible(start, before) && After(start, before) == s;
    RunThenStep(start, before, step);
    RunThenRun(start, before + [step], steps);
    FlagMatchesQuantity(After(Next(s, step), steps), p);
  }
}
