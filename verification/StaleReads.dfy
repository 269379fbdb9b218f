/** Exactly which runs conserve the stock. What is lost by a stale read can be read off
    the order of the reads and the commits alone. */
module StaleReads {
  import opened Conservation
  import opened Market
  import opened Protocol

  // MARK: the schedule

  predicate Reads(s: State, step: Step, p: Sid)
    requires Enabled(s, step)
  {
    step.Deliver? && s.attempts[s.sent[step.sid]].productSid == p
  }

  predicate Commits(s: State, step: Step, p: Sid)
    requires Enabled(s, step)
  {
    step.Store? && Concerns(s, step.handler, p)
  }

  function InFlight(s: State, p: Sid): (hs: set<nat>)
    ensures forall h :: h in hs <==> Concerns(s, h, p)
  {
    set h | h in s.pending && Concerns(s, h, p)
  }

  /** Which stock levels of the product miss a decrement: that of the row, and those read
      by deliveries in flight. */
  datatype Taint = Taint(row: bool, seen: set<nat>)

  const CLEAN := Taint(false, {})

  /** A read copies the taint of the row, a commit writes the taint of its read, and any
      units sold taint the other reads in flight, which have not seen them. The units of a
      deleted product are taken from no row. */
  function Spread(s: State, step: Step, p: Sid, t: Taint): Taint
    requires Enabled(s, step)
  {
    if Reads(s, step, p) then
      t.(seen := if t.row then t.seen + {step.handler} else t.seen - {step.handler})
    else if Commits(s, step, p) then
      var sells := s.pending[step.handler].order.quantity > 0;
      Taint(if LiveItem(s.stock, p) then step.handler in t.seen else t.row || sells,
            if sells then InFlight(s, p) else t.seen)
    else t
  }

  function TaintAfter(s: State, steps: seq<Step>, p: Sid, t: Taint): Taint
    requires Possible(s, steps)
    decreases |steps|
  {
    if steps == [] then t else TaintAfter(Next(s, steps[0]), steps[1..], p, Spread(s, steps[0], p, t))
  }

  // MARK: taint is excess

  /** Stock on hand plus stock sold. */
  function Total(s: State, p: Sid, n: nat): int
    requires p in s.stock.products && n <= |s.stock.orders|
  {
    s.stock.products[p].available + SoldSince(s, p, n)
  }

  /** The taint says which stock levels exceed what the supply leaves. */
  ghost predicate Traced(s: State, p: Sid, supply: int, n: nat, t: Taint) {
    && p in s.stock.products && n <= |s.stock.orders|
    && Total(s, p, n) >= supply && (t.row <==> Total(s, p, n) > supply)
    && forall h | Concerns(s, h, p) ::
         && s.pending[h].order.quantity >= 0
         && ReadBy(s, h) + SoldSince(s, p, n) >= supply
         && (h in t.seen <==> ReadBy(s, h) + SoldSince(s, p, n) > supply)
  }

  lemma CommitTraced(s: State, h: nat, p: Sid, supply: int, n: nat, t: Taint)
    requires Traced(s, p, supply, n, t) && Enabled(s, Store(h))
    ensures Traced(Next(s, Store(h)), p, supply, n, Spread(s, Store(h), p, t))
  {
    var s' := Next(s, Store(h));
    var o := s.pending[h].order;
    assert s'.stock.orders == s.stock.orders + [o];
    SoldSnoc(s.stock.orders, n, o, p);
    assert o.productSid == p ==> Concerns(s, h, p);
    assert forall x | Concerns(s', x, p) :: Concerns(s, x, p) && s'.pending[x] == s.pending[x];
  }

  lemma ReadTraced(s: State, sid: Sid, h: nat, p: Sid, supply: int, n: nat, t: Taint)
    requires Traced(s, p, supply, n, t) && Enabled(s, Deliver(sid, h)) && OrdersForward(s, Deliver(sid, h), p)
    ensures Traced(Next(s, Deliver(sid, h)), p, supply, n, Spread(s, Deliver(sid, h), p, t))
  {
    var s' := Next(s, Deliver(sid, h));
    assert s'.stock == s.stock;
    assert forall x | Concerns(s', x, p) && x != h :: Concerns(s, x, p) && s'.pending[x] == s.pending[x];
  }

  lemma OtherTraced(s: State, step: Step, p: Sid, supply: int, n: nat, t: Taint)
    requires Traced(s, p, supply, n, t) && Enabled(s, step) && !Restocks(s, step, p)
    requires !step.Store? && !step.Deliver?
    ensures Traced(Next(s, step), p, supply, n, t)
  {
    var s' := Next(s, step);
    assert s'.stock.orders == s.stock.orders;
    assert p in s'.stock.products && s'.stock.products[p].available == s.stock.products[p].available;
    assert forall x | Concerns(s', x, p) :: Concerns(s, x, p) && s'.pending[x] == s.pending[x];
  }

  lemma StepTraced(s: State, step: Step, p: Sid, supply: int, n: nat, t: Taint)
    requires Traced(s, p, supply, n, t) && Enabled(s, step)
    requires OrdersForward(s, step, p) && !Restocks(s, step, p)
    ensures Traced(Next(s, step), p, supply, n, Spread(s, step, p, t))
  {
    if step.Store? {
      CommitTraced(s, step.handler, p, supply, n, t);
    } else if step.Deliver? {
      ReadTraced(s, step.sid, step.handler, p, supply, n, t);
    } else {
      OtherTraced(s, step, p, supply, n, t);
    }
  }

  lemma {:induction false} RunTraced(s: State, steps: seq<Step>, p: Sid, supply: int, n: nat, t: Taint)
    requires Possible(s, steps) && Selling(s, steps, p) && Traced(s, p, supply, n, t)
    ensures Traced(After(s, steps), p, supply, n, TaintAfter(s, steps, p, t))
    decreases |steps|
  {
    if steps != [] {
      StepTraced(s, steps[0], p, supply, n, t);
      RunTraced(Next(s, steps[0]), steps[1..], p, supply, n, Spread(s, steps[0], p, t));
    }
  }

  /** No delivery is between its read of `p` and its commit. */
  ghost predicate Quiet(s: State, p: Sid) {
    p in s.stock.products && forall h :: !Concerns(s, h, p)
  }

  lemma QuietIsTraced(s: State, p: Sid)
    requires Quiet(s, p)
    ensures Traced(s, p, s.stock.products[p].available, |s.stock.orders|, CLEAN)
  {
    assert s.stock.orders[|s.stock.orders|..] == [];
  }

  /** For every run that does not restock `p` and orders it in non-negative quantities:
      the stock is conserved if and only if the schedule leaves the row untainted. */
  lemma {:induction false} ConservedExactly(s: State, steps: seq<Step>, p: Sid)
    requires Possible(s, steps) && Selling(s, steps, p) && Quiet(s, p)
    ensures var t, n := After(s, steps), |s.stock.orders|;
            && p in t.stock.products && n <= |t.stock.orders|
            && (Total(t, p, n) == s.stock.products[p].available <==> !TaintAfter(s, steps, p, CLEAN).row)
  {
    QuietIsTraced(s, p);
    RunTraced(s, steps, p, s.stock.products[p].available, |s.stock.orders|, CLEAN);
  }

  // MARK: orders of at least one unit

  /** As `Selling`, with positive quantities only. */
  predicate SellingUnits(s: State, steps: seq<Step>, p: Sid)
    requires Possible(s, steps)
    decreases |steps|
  {
    steps == [] ||
    (&& (Reads(s, steps[0], p) ==> MessageOf(s.attempts[s.sent[steps[0].sid]]).quantity > 0)
     && !Restocks(s, steps[0], p) && SellingUnits(Next(s, steps[0]), steps[1..], p))
  }

  lemma {:induction false} UnitsAreSelling(s: State, steps: seq<Step>, p: Sid)
    requires Possible(s, steps) && SellingUnits(s, steps, p)
    ensures Selling(s, steps, p)
    decreases |steps|
  {
    if steps != [] {
      UnitsAreSelling(Next(s, steps[0]), steps[1..], p);
    }
  }

  /** The deliveries in flight whose read another commit has overtaken. */
  function Overtaken(s: State, step: Step, p: Sid, late: set<nat>): set<nat>
    requires Enabled(s, step)
  {
    if Reads(s, step, p) then late - {step.handler} else if Commits(s, step, p) then InFlight(s, p) else late
  }

  /** Every commit of `p` finds the product live, and no other commit of `p` fell between
      its read and itself. */
  predicate FreshCommits(s: State, steps: seq<Step>, p: Sid, late: set<nat>)
    requires Possible(s, steps)
    decreases |steps|
  {
    steps == [] ||
    (&& (Commits(s, steps[0], p) ==> LiveItem(s.stock, p) && steps[0].handler !in late)
     && FreshCommits(Next(s, steps[0]), steps[1..], p, Overtaken(s, steps[0], p, late)))
  }

  ghost predicate UnitsInFlight(s: State, p: Sid) {
    forall h | Concerns(s, h, p) :: s.pending[h].order.quantity > 0
  }

  lemma StepUnits(s: State, step: Step, p: Sid)
    requires UnitsInFlight(s, p) && Enabled(s, step)
    requires Reads(s, step, p) ==> MessageOf(s.attempts[s.sent[step.sid]]).quantity > 0
    ensures UnitsInFlight(Next(s, step), p)
    ensures forall h | Concerns(Next(s, step), h, p) ::
              Concerns(s, h, p) || (Reads(s, step, p) && h == step.handler)
    ensures Commits(s, step, p) ==> s.pending[step.handler].order.quantity > 0
  {
    var s' := Next(s, step);
    if step.Deliver? {
      assert forall h | Concerns(s', h, p) && h != step.handler :: Concerns(s, h, p) && s'.pending[h] == s.pending[h];
    } else {
      assert forall h | Concerns(s', h, p) :: Concerns(s, h, p) && s'.pending[h] == s.pending[h];
    }
  }

  /** Once the row and all reads in flight are tainted they stay so. */
  lemma {:induction false} TaintStays(s: State, steps: seq<Step>, p: Sid, t: Taint)
    requires Possible(s, steps) && SellingUnits(s, steps, p) && UnitsInFlight(s, p)
    requires t.row && forall h | Concerns(s, h, p) :: h in t.seen
    ensures TaintAfter(s, steps, p, t).row
    decreases |steps|
  {
    if steps != [] {
      StepUnits(s, steps[0], p);
      TaintStays(Next(s, steps[0]), steps[1..], p, Spread(s, steps[0], p, t));
    }
  }

  lemma {:induction false} CleanIsFresh(s: State, steps: seq<Step>, p: Sid, t: Taint, late: set<nat>)
    requires Possible(s, steps) && SellingUnits(s, steps, p) && UnitsInFlight(s, p)
    requires !t.row && forall h | Concerns(s, h, p) :: h in t.seen <==> h in late
    ensures !TaintAfter(s, steps, p, t).row <==> FreshCommits(s, steps, p, late)
    decreases |steps|
  {
    if steps != [] {
      var s', t' := Next(s, steps[0]), Spread(s, steps[0], p, t);
      StepUnits(s, steps[0], p);
      if t'.row {
        TaintStays(s', steps[1..], p, t');
      } else {
        CleanIsFresh(s', steps[1..], p, t', Overtaken(s, steps[0], p, late));
      }
    }
  }

  /** For every run that does not restock `p` and orders at least one unit at a time:
      nothing is oversold if and only if every commit of `p` finds the product live and no
      other commit fell between its read and itself. */
  lemma {:induction false} ConservedIfFresh(s: State, steps: seq<Step>, p: Sid)
    requires Possible(s, steps) && SellingUnits(s, steps, p) && Quiet(s, p)
    ensures var t, n := After(s, steps), |s.stock.orders|;
            && p in t.stock.products && n <= |t.stock.orders|
            && (Total(t, p, n) == s.stock.products[p].available <==> FreshCommits(s, steps, p, {}))
  {
    UnitsAreSelling(s, steps, p);
    ConservedExactly(s, steps, p);
    CleanIsFresh(s, steps, p, CLEAN, {});
  }

  lemma {:induction false} FreshPrefix(s: State, first: seq<Step>, second: seq<Step>, p: Sid, late: set<nat>)
    requires Possible(s, first) && Possible(s, first + second)
    requires SellingUnits(s, first + second, p)
    ensures SellingUnits(s, first, p)
    ensures FreshCommits(s, first + second, p, late) ==> FreshCommits(s, first, p, late)
    decreases |first|
  {
    if first != [] {
      assert (first + second)[0] == first[0] && (first + second)[1..] == first[1..] + second;
      FreshPrefix(Next(s, first[0]), first[1..], second, p, Overtaken(s, first[0], p, late));
    }
  }

  /** Such a loss is never made good: once more than the supply is on hand or sold, it
      stays so in every continuation. */
  lemma {:induction false} OversoldForGood(s: State, first: seq<Step>, second: seq<Step>, p: Sid)
    requires Possible(s, first) && Possible(s, first + second)
    requires SellingUnits(s, first + second, p) && Quiet(s, p)
    ensures var t, u, n := After(s, first), After(s, first + second), |s.stock.orders|;
            && p in t.stock.products && n <= |t.stock.orders| && p in u.stock.products && n <= |u.stock.orders|
            && (Total(t, p, n) > s.stock.products[p].available ==> Total(u, p, n) > s.stock.products[p].available)
  {
    FreshPrefix(s, first, second, p, {});
    ConservedIfFresh(s, first, p);
    ConservedIfFresh(s, first + second, p);
    UnitsAreSelling(s, first + second, p);
    QuietIsTraced(s, p);
    RunTraced(s, first + second, p, s.stock.products[p].available, |s.stock.orders|, CLEAN);
  }

  // MARK: staleness

  /** Every commit of `p` writes what the stock on hand leaves. */
  predicate UpToDate(s: State, steps: seq<Step>, p: Sid)
    requires Possible(s, steps) && p in s.stock.products
    decreases |steps|
  {
    steps == [] ||
    (ProductStays(s, steps[0], p);
     Staleness(s, steps[0], p) == 0 && UpToDate(Next(s, steps[0]), steps[1..], p))
  }

  /** In terms of the amounts: a commit is stale exactly when the schedule says so, as long
      as no earlier one was. */
  lemma {:induction false} FreshIsUpToDate(s: State, steps: seq<Step>, p: Sid, supply: int, n: nat, late: set<nat>)
    requires Possible(s, steps) && SellingUnits(s, steps, p) && UnitsInFlight(s, p)
    requires Traced(s, p, supply, n, Taint(false, late))
    ensures UpToDate(s, steps, p) <==> FreshCommits(s, steps, p, late)
    decreases |steps|
  {
    if steps != [] {
      var s', t' := Next(s, steps[0]), Spread(s, steps[0], p, Taint(false, late));
      StepUnits(s, steps[0], p);
      StepTraced(s, steps[0], p, supply, n, Taint(false, late));
      if !t'.row {
        FreshIsUpToDate(s', steps[1..], p, supply, n, Overtaken(s, steps[0], p, late));
      }
    }
  }

  // MARK: restocks

  /** The supply since the last update, the number of orders stored before it, and the
      deliveries in flight whose read a commit or an update has overtaken. */
  datatype Account = Account(supply: int, since: nat, late: set<nat>)

  function Booked(s: State, step: Step, p: Sid, a: Account): Account
    requires Enabled(s, step)
  {
    if Restocks(s, step, p) then Account(s.writer.change.req.available, |s.stock.orders|, InFlight(s, p))
    else a.(late := Overtaken(s, step, p, a.late))
  }

  function BookedAfter(s: State, steps: seq<Step>, p: Sid, a: Account): Account
    requires Possible(s, steps)
    decreases |steps|
  {
    if steps == [] then a else BookedAfter(Next(s, steps[0]), steps[1..], p, Booked(s, steps[0], p, a))
  }

  /** Every commit of `p` finds the product live, and neither another commit nor an update
      of it fell between its read and itself. */
  predicate FreshSinceUpdates(s: State, steps: seq<Step>, p: Sid, a: Account)
    requires Possible(s, steps)
    decreases |steps|
  {
    steps == [] ||
    (&& (Commits(s, steps[0], p) ==> LiveItem(s.stock, p) && steps[0].handler !in a.late)
     && FreshSinceUpdates(Next(s, steps[0]), steps[1..], p, Booked(s, steps[0], p, a)))
  }

  ghost predicate Balanced(s: State, p: Sid, a: Account) {
    && p in s.stock.products && a.since <= |s.stock.orders|
    && Total(s, p, a.since) == a.supply
    && forall h | Concerns(s, h, p) && h !in a.late :: ReadBy(s, h) == s.stock.products[p].available
  }

  lemma CommitBalanced(s: State, h: nat, p: Sid, a: Account)
    requires Balanced(s, p, a) && Enabled(s, Store(h))
    requires Commits(s, Store(h), p) ==> LiveItem(s.stock, p) && h !in a.late
    ensures Balanced(Next(s, Store(h)), p, Booked(s, Store(h), p, a))
  {
    var s' := Next(s, Store(h));
    var o := s.pending[h].order;
    assert s'.stock.orders == s.stock.orders + [o];
    SoldSnoc(s.stock.orders, a.since, o, p);
    assert o.productSid == p ==> Concerns(s, h, p);
    assert forall x | Concerns(s', x, p) :: Concerns(s, x, p) && s'.pending[x] == s.pending[x];
  }

  lemma RestockBalanced(s: State, p: Sid, a: Account)
    requires Balanced(s, p, a) && Enabled(s, CommitChange)
    ensures Balanced(Next(s, CommitChange), p, Booked(s, CommitChange, p, a))
  {
    var s' := Next(s, CommitChange);
    assert s'.stock.orders == s.stock.orders && s'.pending == s.pending;
    assert s.stock.orders[|s.stock.orders|..] == [];
    assert !Restocks(s, CommitChange, p) ==> s'.stock.products[p].available == s.stock.products[p].available;
    assert forall x | Concerns(s', x, p) :: Concerns(s, x, p);
  }

  lemma OtherBalanced(s: State, step: Step, p: Sid, a: Account)
    requires Balanced(s, p, a) && Enabled(s, step) && !step.Store? && !step.CommitChange?
    ensures Balanced(Next(s, step), p, Booked(s, step, p, a))
  {
    var s' := Next(s, step);
    assert s'.stock == s.stock;
    assert forall x | Concerns(s', x, p) && !(step.Deliver? && x == step.handler) ::
        Concerns(s, x, p) && s'.pending[x] == s.pending[x];
  }

  lemma {:induction false} RunBalanced(s: State, steps: seq<Step>, p: Sid, a: Account)
    requires Possible(s, steps) && FreshSinceUpdates(s, steps, p, a) && Balanced(s, p, a)
    ensures Balanced(After(s, steps), p, BookedAfter(s, steps, p, a))
    decreases |steps|
  {
    if steps != [] {
      if steps[0].Store? {
        CommitBalanced(s, steps[0].handler, p, a);
      } else if steps[0].CommitChange? {
        RestockBalanced(s, p, a);
      } else {
        OtherBalanced(s, steps[0], p, a);
      }
      RunBalanced(Next(s, steps[0]), steps[1..], p, Booked(s, steps[0], p, a));
    }
  }

  /** For every run, restocks and any quantities included: when each commit finds the
      product live and its read not overtaken by another commit or an update, what is on
      hand and what was sold since the last update add up to the supply it brought. */
  lemma {:induction false} FreshRunsBalance(s: State, steps: seq<Step>, p: Sid)
    requires Possible(s, steps) && Quiet(s, p)
    requires var a := Account(s.stock.products[p].available, |s.stock.orders|, {}); FreshSinceUpdates(s, steps, p, a)
    ensures var a := BookedAfter(s, steps, p, Account(s.stock.products[p].available, |s.stock.orders|, {}));
            var t := After(s, steps);
            && p in t.stock.products && a.since <= |t.stock.orders|
            && Total(t, p, a.since) == a.supply
  {
    assert s.stock.orders[|s.stock.orders|..] == [];
    RunBalanced(s, steps, p, Account(s.stock.products[p].available, |s.stock.orders|, {}));
  }

  // MARK: why the quantities matter

  /** Zero units on the wire, as for 2^32 units, are the reason why the general condition
      follows the taint: here the second and the third commit are stale, and yet nothing
      is lost in the end, because the third one read before the second one wrote. */
  lemma {:induction false} StaleCommitsCancel(db: StockDb, r1: RegisterOrder, r2: RegisterOrder, r3: RegisterOrder)
    requires r1.productSid == r2.productSid == r3.productSid
    requires r1.quantity > 0 && r2.quantity == 0 && r3.quantity > 0
    requires Admit(db, r1).Ok? && Admit(db, r2).Ok?
    requires var db1 := StoreOrder(db, Admit(db, r1).value);
             db1.Ok? && Admit(db1.value, r3).Ok?
             && var db2 := StoreOrder(db1.value, Admit(db, r2).value);
                db2.Ok? && StoreOrder(db2.value, Admit(db1.value, r3).value).Ok?
    ensures var p := r1.productSid;
            var db1 := StoreOrder(db, Admit(db, r1).value).value;
            var db2 := StoreOrder(db1, Admit(db, r2).value).value;
            var db3 := StoreOrder(db2, Admit(db1, r3).value).value;
            && db2.products[p].available == db1.products[p].available + r1.quantity
            && db3.products[p].available != db2.products[p].available - r3.quantity
            && db3.products[p].available + Sold(db3.orders, p) == db.products[p].available + Sold(db.orders, p)
  {
    var p := r1.productSid;
    var db1 := StoreOrder(db, Admit(db, r1).value).value;
    var db2 := StoreOrder(db1, Admit(db, r2).value).value;
    SoldSnoc(db.orders, 0, Admit(db, r1).value.order, p);
    SoldSnoc(db1.orders, 0, Admit(db, r2).value.order, p);
    SoldSnoc(db2.orders, 0, Admit(db1, r3).value.order, p);
    assert db.orders[0..] == db.orders && db1.orders[0..] == db1.orders && db2.orders[0..] == db2.orders;
  }
}
