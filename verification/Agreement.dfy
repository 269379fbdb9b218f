/** What every reachable state keeps about orders: the two order tables agree, a SID
    changes the stock at most once, and a published invoice has rows behind it. */
module Agreement {
  import opened InvoicePayload
  import opened Market
  import opened Numbers
  import opened Protocol
  import opened Wrappers

  // MARK: the invariant

  predicate Owned(s: State, sid: Sid) {
    sid in s.sent && s.sent[sid] in s.attempts
    && HasSid(s.attempts[s.sent[sid]]) && s.attempts[s.sent[sid]].phase.sid == sid
  }

  function OwnerOf(s: State, sid: Sid): Attempt
    requires Owned(s, sid)
  {
    s.attempts[s.sent[sid]]
  }

  /** An inventory order repeats the message of the request that sent its SID. */
  predicate Registered(s: State, o: Order) {
    Owned(s, o.sid)
    && var m := MessageOf(OwnerOf(s, o.sid));
       && o.userId == m.userId && o.productSid == m.productSid && o.quantity == m.quantity
       && o.total == Int64(o.quantity * o.pricePerItem)
  }

  predicate SentByOne(s: State) {
    && (forall sid | sid in s.sent :: Owned(s, sid))
    && (forall id | id in s.attempts && HasSid(s.attempts[id]) ::
          s.attempts[id].phase.sid in s.sent && s.sent[s.attempts[id].phase.sid] == id)
  }

  predicate InventorySide(s: State) {
    && (forall h | h in s.pending :: Registered(s, s.pending[h].order))
    && (forall o | o in s.stock.orders :: Registered(s, o))
    && UniqueSids(s.stock.orders)
    && s.answered <= Sids(s.stock.orders)
  }

  predicate CheckoutSide(s: State) {
    && (forall id | id in s.attempts && (s.attempts[id].phase.Acknowledged? || IsCommitted(s.attempts[id])) ::
          s.attempts[id].phase.sid in Sids(s.stock.orders))
    && (forall o | o in s.sales.orders ::
          Owned(s, o.sid) && IsCommitted(OwnerOf(s, o.sid)) && o == RowOf(OwnerOf(s, o.sid)))
    && (forall id | id in s.attempts && IsCommitted(s.attempts[id]) :: RowOf(s.attempts[id]) in s.sales.orders)
    && UniqueSids(s.sales.orders)
  }

  predicate Published(s: State) {
    && (forall m | m in s.published ::
          Owned(s, m.orderSid) && OwnerOf(s, m.orderSid).phase.Succeeded? && m == InvoiceOf(OwnerOf(s, m.orderSid)))
    && (forall i, j | 0 <= i < j < |s.published| :: s.published[i].orderSid != s.published[j].orderSid)
  }

  predicate Inv(s: State) {
    SentByOne(s) && InventorySide(s) && CheckoutSide(s) && Published(s)
  }

  // MARK: every step keeps it

  /** The two states have the same requests, messages and published invoices. */
  predicate SameRequests(s: State, s': State) {
    s'.attempts == s.attempts && s'.sent == s.sent && s'.published == s.published
  }

  /** The two states have the same rows, answers and deliveries. */
  predicate SameInventory(s: State, s': State) {
    s'.stock.orders == s.stock.orders && s'.answered == s.answered && s'.pending == s.pending
  }

  lemma StaysRegistered(s: State, s': State)
    requires forall sid | Owned(s, sid) :: Owned(s', sid) && MessageOf(OwnerOf(s', sid)) == MessageOf(OwnerOf(s, sid))
    ensures forall o | Registered(s, o) :: Registered(s', o)
  {
  }

  /** A request without a SID changes; nothing refers to it. */
  lemma BeforeSid(s: State, s': State, id: nat, a: Attempt)
    requires Inv(s) && !HasSid(a) && (id in s.attempts ==> !HasSid(s.attempts[id]))
    requires s' == s.(attempts := s.attempts[id := a])
    ensures Inv(s')
  {
    assert forall sid | Owned(s, sid) :: Owned(s', sid) && OwnerOf(s', sid) == OwnerOf(s, sid);
    StaysRegistered(s, s');
  }

  /** The checkout side, when the rows stay and no request enters its last phases. */
  lemma CheckoutCarried(s: State, s': State)
    requires CheckoutSide(s) && s'.sales.orders == s.sales.orders && s'.stock.orders == s.stock.orders
    requires forall x | Owned(s, x) :: Owned(s', x) && OwnerOf(s', x) == OwnerOf(s, x)
    requires forall i | i in s'.attempts && (s'.attempts[i].phase.Acknowledged? || IsCommitted(s'.attempts[i])) ::
               i in s.attempts && s.attempts[i] == s'.attempts[i]
    ensures CheckoutSide(s')
  {
  }

  /** A request gets its SID. */
  lemma GetsSid(s: State, s': State, id: nat, sid: Sid)
    requires Inv(s) && id in s.attempts && !HasSid(s.attempts[id]) && sid !in s.sent
    requires s' == s.(attempts := s.attempts[id := s.attempts[id].(phase := Registering(sid))], sent := s.sent[sid := id])
    ensures Inv(s')
  {
    OwnersStay(s, s', id, sid);
    StaysRegistered(s, s');
    CheckoutCarried(s, s');
  }

  lemma OwnersStay(s: State, s': State, id: nat, sid: Sid)
    requires SentByOne(s) && id in s.attempts && !HasSid(s.attempts[id]) && sid !in s.sent
    requires s'.attempts == s.attempts[id := s.attempts[id].(phase := Registering(sid))] && s'.sent == s.sent[sid := id]
    ensures SentByOne(s')
    ensures forall x | Owned(s, x) :: Owned(s', x) && OwnerOf(s', x) == OwnerOf(s, x)
  {
    forall x | Owned(s, x) ensures Owned(s', x) && OwnerOf(s', x) == OwnerOf(s, x) {
      assert s.sent[x] != id && x != sid;
    }
    assert Owned(s', sid);
  }

  /** A request with a SID moves on. */
  predicate Moved(s: State, s': State, id: nat, phase: Phase) {
    && id in s.attempts && HasSid(s.attempts[id])
    && var a := s.attempts[id].(phase := phase);
       HasSid(a) && phase.sid == s.attempts[id].phase.sid
       && s'.attempts == s.attempts[id := a] && s'.sent == s.sent
  }

  lemma MovedOwners(s: State, s': State, id: nat, phase: Phase, sid: Sid)
    requires SentByOne(s) && Moved(s, s', id, phase) && Owned(s, sid)
    ensures Owned(s', sid) && MessageOf(OwnerOf(s', sid)) == MessageOf(OwnerOf(s, sid))
    ensures OwnerOf(s', sid)
            == if sid == phase.sid then s.attempts[id].(phase := phase) else OwnerOf(s, sid)
  {
  }

  lemma MovedInventory(s: State, s': State, id: nat, phase: Phase)
    requires SentByOne(s) && InventorySide(s) && Moved(s, s', id, phase) && SameInventory(s, s')
    ensures SentByOne(s') && InventorySide(s')
  {
    forall sid | Owned(s, sid)
      ensures Owned(s', sid) && MessageOf(OwnerOf(s', sid)) == MessageOf(OwnerOf(s, sid))
    {
      MovedOwners(s, s', id, phase, sid);
    }
    StaysRegistered(s, s');
  }

  /** Published messages belong to requests that have finished, so a move of another
      request does not concern them. */
  lemma MovedPublished(s: State, s': State, id: nat, phase: Phase)
    requires SentByOne(s) && Published(s) && Moved(s, s', id, phase) && !s.attempts[id].phase.Succeeded?
    requires s'.published == s.published
    ensures Published(s')
  {
    forall m | m in s'.published
      ensures Owned(s', m.orderSid) && OwnerOf(s', m.orderSid).phase.Succeeded? && m == InvoiceOf(OwnerOf(s', m.orderSid))
    {
      MovedOwners(s, s', id, phase, m.orderSid);
    }
  }

  /** Before the commit: acknowledging and aborting. */
  lemma MovedUncommitted(s: State, s': State, id: nat, phase: Phase)
    requires Inv(s) && Moved(s, s', id, phase) && SameInventory(s, s')
    requires !IsCommitted(s.attempts[id]) && (phase.Acknowledged? || phase.Aborted?)
    requires phase.Acknowledged? ==> phase.sid in s.answered
    requires s'.sales.orders == s.sales.orders && s'.published == s.published
    ensures Inv(s')
  {
    MovedInventory(s, s', id, phase);
    MovedPublished(s, s', id, phase);
    forall o | o in s'.sales.orders
      ensures Owned(s', o.sid) && IsCommitted(OwnerOf(s', o.sid)) && o == RowOf(OwnerOf(s', o.sid))
    {
      MovedOwners(s, s', id, phase, o.sid);
    }
  }

  /** The commit inserts the row. */
  lemma MovedCommit(s: State, s': State, id: nat)
    requires Inv(s) && id in s.attempts && s.attempts[id].phase.Acknowledged?
    requires Moved(s, s', id, Committed(s.attempts[id].phase.sid)) && SameInventory(s, s')
    requires s'.sales.orders == s.sales.orders + [RowOf(s.attempts[id])] && s'.published == s.published
    ensures Inv(s')
  {
    var phase := Committed(s.attempts[id].phase.sid);
    MovedInventory(s, s', id, phase);
    MovedPublished(s, s', id, phase);
    RowInserted(s, s', id);
  }

  /** The committing request owns the SID of its row, and no row inserted so far. */
  lemma RowIsNew(s: State, s': State, id: nat)
    requires SentByOne(s) && CheckoutSide(s) && id in s.attempts && s.attempts[id].phase.Acknowledged?
    requires Moved(s, s', id, Committed(s.attempts[id].phase.sid))
    ensures var sid := s.attempts[id].phase.sid; Owned(s', sid) && OwnerOf(s', sid) == s'.attempts[id]
    ensures forall o | o in s.sales.orders ::
              o.sid != s.attempts[id].phase.sid && Owned(s', o.sid) && OwnerOf(s', o.sid) == OwnerOf(s, o.sid)
  {
    var phase := Committed(s.attempts[id].phase.sid);
    forall o | o in s.sales.orders
      ensures o.sid != phase.sid && Owned(s', o.sid) && OwnerOf(s', o.sid) == OwnerOf(s, o.sid)
    {
      MovedOwners(s, s', id, phase, o.sid);
    }
    MovedOwners(s, s', id, phase, phase.sid);
  }

  lemma RowInserted(s: State, s': State, id: nat)
    requires SentByOne(s) && CheckoutSide(s) && id in s.attempts && s.attempts[id].phase.Acknowledged?
    requires Moved(s, s', id, Committed(s.attempts[id].phase.sid))
    requires s'.sales.orders == s.sales.orders + [RowOf(s.attempts[id])] && s'.stock.orders == s.stock.orders
    ensures CheckoutSide(s')
  {
    var row := RowOf(s.attempts[id]);
    assert RowOf(s'.attempts[id]) == row && row.sid == s.attempts[id].phase.sid;
    RowIsNew(s, s', id);
    SidsSnoc(s.sales.orders, row);
    assert forall o | o in s'.sales.orders :: o in s.sales.orders || o == row;
    assert s'.sales.orders[|s.sales.orders|] == row;
    assert forall o | o in s.sales.orders :: o in s'.sales.orders;
  }

  /** The last move of a request adds at most its own message. */
  lemma MovedAndPublished(s: State, s': State, id: nat)
    requires SentByOne(s) && Published(s) && id in s.attempts && s.attempts[id].phase.Committed?
    requires Moved(s, s', id, Succeeded(s.attempts[id].phase.sid))
    requires s'.published == s.published || s'.published == s.published + [InvoiceOf(s.attempts[id])]
    ensures Published(s')
  {
    var phase := Succeeded(s.attempts[id].phase.sid);
    var invoice := InvoiceOf(s.attempts[id]);
    assert InvoiceOf(s'.attempts[id]) == invoice && invoice.orderSid == phase.sid;
    MovedOwners(s, s', id, phase, phase.sid);
    forall m | m in s.published
      ensures m.orderSid != phase.sid && Owned(s', m.orderSid) && OwnerOf(s', m.orderSid) == OwnerOf(s, m.orderSid)
    {
      MovedOwners(s, s', id, phase, m.orderSid);
    }
    assert forall m | m in s'.published :: m in s.published || m == invoice;
    assert forall i | 0 <= i < |s.published| :: s'.published[i] == s.published[i] && s.published[i] in s.published;
  }

  /** Publishing, or failing to, ends a committed request. */
  lemma MovedPublish(s: State, s': State, id: nat)
    requires Inv(s) && id in s.attempts && s.attempts[id].phase.Committed?
    requires Moved(s, s', id, Succeeded(s.attempts[id].phase.sid)) && SameInventory(s, s')
    requires s'.sales.orders == s.sales.orders
    requires s'.published == s.published || s'.published == s.published + [InvoiceOf(s.attempts[id])]
    ensures Inv(s')
  {
    var phase := Succeeded(s.attempts[id].phase.sid);
    MovedInventory(s, s', id, phase);
    MovedAndPublished(s, s', id);
    assert RowOf(s'.attempts[id]) == RowOf(s.attempts[id]);
    forall o | o in s.sales.orders
      ensures Owned(s', o.sid) && IsCommitted(OwnerOf(s', o.sid)) && o == RowOf(OwnerOf(s', o.sid))
    {
      MovedOwners(s, s', id, phase, o.sid);
    }
  }

  /** A delivery is stored: one more row, with a new SID. */
  lemma StoresRow(s: State, s': State, o: Order)
    requires Inv(s) && Registered(s, o) && o.sid !in Sids(s.stock.orders)
    requires SameRequests(s, s') && s'.sales.orders == s.sales.orders
    requires s'.stock.orders == s.stock.orders + [o] && s'.answered == s.answered + {o.sid}
    requires forall h | h in s'.pending :: h in s.pending && s'.pending[h] == s.pending[h]
    ensures Inv(s')
  {
    assert forall sid | Owned(s, sid) :: Owned(s', sid) && OwnerOf(s', sid) == OwnerOf(s, sid);
    RowStored(s, s', o);
    assert Sids(s.stock.orders) <= Sids(s'.stock.orders);
  }

  /** Inventory's side of it. */
  lemma RowStored(s: State, s': State, o: Order)
    requires InventorySide(s) && Registered(s, o) && o.sid !in Sids(s.stock.orders)
    requires forall sid | Owned(s, sid) :: Owned(s', sid) && OwnerOf(s', sid) == OwnerOf(s, sid)
    requires s'.stock.orders == s.stock.orders + [o] && s'.answered == s.answered + {o.sid}
    requires forall h | h in s'.pending :: h in s.pending && s'.pending[h] == s.pending[h]
    ensures InventorySide(s') && Sids(s'.stock.orders) == Sids(s.stock.orders) + {o.sid}
  {
    StaysRegistered(s, s');
    SidsSnoc(s.stock.orders, o);
  }

  lemma SidsSnoc(orders: seq<Order>, o: Order)
    ensures Sids(orders + [o]) == Sids(orders) + {o.sid}
    ensures UniqueSids(orders) && o.sid !in Sids(orders) ==> UniqueSids(orders + [o])
  {
    assert (orders + [o])[|orders|] == o;
    assert forall i | 0 <= i < |orders| :: (orders + [o])[i] == orders[i] && orders[i] in orders;
  }

  /** Deliveries come and go, catalogues change: the orders stay. */
  lemma OrdersUntouched(s: State, s': State)
    requires Inv(s) && SameRequests(s, s')
    requires s'.stock.orders == s.stock.orders && s'.sales.orders == s.sales.orders && s'.answered == s.answered
    requires forall h | h in s'.pending ::
               Registered(s, s'.pending[h].order) || (h in s.pending && s'.pending[h] == s.pending[h])
    ensures Inv(s')
  {
    assert forall sid | Owned(s, sid) :: Owned(s', sid) && OwnerOf(s', sid) == OwnerOf(s, sid);
    StaysRegistered(s, s');
  }

  lemma OnlyCatalogueChanged(s: State, s': State)
    requires Inv(s) && SameRequests(s, s') && SameInventory(s, s') && s'.sales.orders == s.sales.orders
    ensures Inv(s')
  {
    OrdersUntouched(s, s');
  }

  lemma RequestStepKeeps(s: State, step: Step)
    requires Inv(s) && Enabled(s, step)
    requires step.Begin? || step.Reserve? || step.Refuse? || step.Insert?
    ensures Inv(Next(s, step))
  {
    var s' := Next(s, step);
    if step.Insert? {
      GetsSid(s, s', step.id, step.sid);
    } else {
      BeforeSid(s, s', step.id, s'.attempts[step.id]);
    }
  }

  lemma MoveStepKeeps(s: State, step: Step)
    requires Inv(s) && Enabled(s, step)
    requires step.Acknowledge? || step.Abort? || step.Commit? || step.Publish?
    ensures Inv(Next(s, step))
  {
    var s' := Next(s, step);
    if step.Commit? {
      MovedCommit(s, s', step.id);
    } else if step.Publish? {
      MovedPublish(s, s', step.id);
    } else {
      MovedUncommitted(s, s', step.id, s'.attempts[step.id].phase);
    }
  }

  lemma StoreStepKeeps(s: State, step: Step)
    requires Inv(s) && Enabled(s, step) && step.Store?
    ensures Inv(Next(s, step))
  {
    StoresRow(s, Next(s, step), s.pending[step.handler].order);
  }

  lemma DeliveryStepKeeps(s: State, step: Step)
    requires Inv(s) && Enabled(s, step) && (step.Deliver? || step.Drop?)
    ensures Inv(Next(s, step))
  {
    OrdersUntouched(s, Next(s, step));
  }

  lemma CatalogueStepFrame(s: State, step: Step)
    requires Enabled(s, step)
    requires step.OpenChange? || step.DeliverChange? || step.ReadListing? || step.SaveUpdate?
             || step.CommitChange? || step.RollbackChange?
    ensures var s' := Next(s, step);
            SameRequests(s, s') && SameInventory(s, s') && s'.sales.orders == s.sales.orders
  {
  }

  lemma CatalogueStepKeeps(s: State, step: Step)
    requires Inv(s) && Enabled(s, step)
    requires step.OpenChange? || step.DeliverChange? || step.ReadListing? || step.SaveUpdate?
             || step.CommitChange? || step.RollbackChange?
    ensures Inv(Next(s, step))
  {
    CatalogueStepFrame(s, step);
    OnlyCatalogueChanged(s, Next(s, step));
  }

  /** Every step of every request, delivery and catalogue change keeps the invariant. */
  lemma {:induction false} StepKeeps(s: State, step: Step)
    requires Inv(s) && Enabled(s, step)
    ensures Inv(Next(s, step))
  {
    if step.Begin? || step.Reserve? || step.Refuse? || step.Insert? {
      RequestStepKeeps(s, step);
    } else if step.Acknowledge? || step.Abort? || step.Commit? || step.Publish? {
      MoveStepKeeps(s, step);
    } else if step.Store? {
      StoreStepKeeps(s, step);
    } else if step.Deliver? || step.Drop? {
      DeliveryStepKeeps(s, step);
    } else {
      CatalogueStepKeeps(s, step);
    }
  }

  lemma {:induction false} RunKeeps(s: State, steps: seq<Step>)
    requires Inv(s) && Possible(s, steps)
    ensures Inv(After(s, steps))
    decreases |steps|
  {
    if steps != [] {
      StepKeeps(s, steps[0]);
      RunKeeps(Next(s, steps[0]), steps[1..]);
    }
  }

  lemma {:induction false} ReachableInv(s: State)
    requires Reachable(s)
    ensures Inv(s)
  {
    var start: State, steps: seq<Step> :| Initial(start) && Possible(start, steps) && After(start, steps) == s;
    RunKeeps(start, steps);
  }

  // MARK: the promises

  /** Each checkout order has exactly one inventory order with its SID. That order names
      the same product, the same quantity exactly when the quantity is an int32, and the
      same user exactly when the id is at one of the ends of the 64-bit range. */
  lemma {:induction false} OrdersAgree(s: State, o: Order)
    requires Reachable(s) && o in s.sales.orders
    ensures exists i :: 0 <= i < |s.stock.orders| && s.stock.orders[i].sid == o.sid
                        && (forall j | 0 <= j < |s.stock.orders| && s.stock.orders[j].sid == o.sid :: j == i)
    ensures forall r | r in s.stock.orders && r.sid == o.sid ::
              && r.productSid == o.productSid && r.quantity == Int32(o.quantity)
              && (r.quantity == o.quantity <==> -0x8000_0000 <= o.quantity < 0x8000_0000)
              && r.userId == UInt64(Int32(o.userId))
              && (r.userId == o.userId
                  <==> o.userId < 0x8000_0000 || 0xFFFF_FFFF_8000_0000 <= o.userId < 0x1_0000_0000_0000_0000)
              && r.total == Int64(r.quantity * r.pricePerItem)
  {
    ReachableInv(s);
    var a := OwnerOf(s, o.sid);
    IdOnTheWire(o.userId);
    assert o.sid in Sids(s.stock.orders);
    var r :| r in s.stock.orders && r.sid == o.sid;
    var i :| 0 <= i < |s.stock.orders| && s.stock.orders[i] == r;
    assert forall j | 0 <= j < |s.stock.orders| && s.stock.orders[j].sid == o.sid :: j == i;
  }

  /** A request that returned success has its row at checkout and one at inventory. */
  lemma {:induction false} SuccessHasBothRows(s: State, id: nat)
    requires Reachable(s) && id in s.attempts && s.attempts[id].phase.Succeeded?
    ensures RowOf(s.attempts[id]) in s.sales.orders
    ensures exists r :: r in s.stock.orders && r.sid == s.attempts[id].phase.sid
  {
    ReachableInv(s);
  }

  /** An inventory order without a checkout row belongs to a request that is still
      waiting or that failed after sending RegisterOrder. */
  lemma {:induction false} OrphanIsUnfinished(s: State, r: Order)
    requires Reachable(s) && r in s.stock.orders && r.sid !in Sids(s.sales.orders)
    ensures exists id :: id in s.attempts
                         && var ph := s.attempts[id].phase;
                            (ph.Registering? || ph.Acknowledged? || ph.Aborted?) && ph.sid == r.sid
  {
    ReachableInv(s);
    var id := s.sent[r.sid];
    var a := s.attempts[id];
    assert IsCommitted(a) ==> RowOf(a) in s.sales.orders;
  }

  /** Every request holds the row of its user, which never changes. */
  predicate UsersRead(s: State) {
    forall id | id in s.attempts ::
      s.attempts[id].userId in s.sales.users && s.attempts[id].user == s.sales.users[s.attempts[id].userId]
  }

  lemma UserOfStep(s: State, step: Step)
    requires Enabled(s, step)
    ensures Next(s, step).sales.users == s.sales.users
    ensures forall id | id in Next(s, step).attempts ::
              var a := Next(s, step).attempts[id];
              if id in s.attempts then a.userId == s.attempts[id].userId && a.user == s.attempts[id].user
              else a.userId in s.sales.users && a.user == s.sales.users[a.userId]
  {
  }

  lemma {:induction false} RunReadsUsers(s: State, steps: seq<Step>)
    requires UsersRead(s) && Possible(s, steps)
    ensures UsersRead(After(s, steps)) && After(s, steps).sales.users == s.sales.users
    decreases |steps|
  {
    if steps != [] {
      UserOfStep(s, steps[0]);
      RunReadsUsers(Next(s, steps[0]), steps[1..]);
    }
  }

  lemma {:induction false} ReachableUsers(s: State)
    requires Reachable(s)
    ensures UsersRead(s)
  {
    var start: State, steps: seq<Step> :| Initial(start) && Possible(start, steps) && After(start, steps) == s;
    RunReadsUsers(start, steps);
  }

  /** Every published message describes an order committed at checkout, hence one at
      inventory, and the user who placed it; there is at most one per SID, and its total is
      the product of its quantity and price as a Go int. */
  lemma {:induction false} PublicationChain(s: State, m: InvoiceMsg)
    requires Reachable(s) && m in s.published
    ensures exists o :: o in s.sales.orders && o.sid == m.orderSid && o.productSid == m.productSid
                        && o.userId == m.userId && o.quantity == m.quantity && o.total == m.total
                        && o.pricePerItem == m.productPrice
    ensures exists r :: r in s.stock.orders && r.sid == m.orderSid && r.productSid == m.productSid
                        && r.quantity == Int32(m.quantity)
    ensures m.userId in s.sales.users
    ensures m.userName == s.sales.users[m.userId].name && m.userEmail == s.sales.users[m.userId].email
    ensures m.total == Int64(m.quantity * m.productPrice)
    ensures forall i, j | 0 <= i < |s.published| && 0 <= j < |s.published| ::
              s.published[i].orderSid == m.orderSid && s.published[j].orderSid == m.orderSid ==> i == j
  {
    ReachableInv(s);
    ReachableUsers(s);
    var a := OwnerOf(s, m.orderSid);
    var o := RowOf(a);
    assert o in s.sales.orders;
    OrdersAgree(s, o);
    var i :| 0 <= i < |s.stock.orders| && s.stock.orders[i].sid == o.sid;
    assert s.stock.orders[i] in s.stock.orders;
  }

  // MARK: at most once

  /** This step changes the stock, not as a catalogue change, and not for another SID. */
  predicate Affects(s: State, step: Step, sid: Sid)
    requires Enabled(s, step)
  {
    && Next(s, step).stock != s.stock && !step.CommitChange?
    && !(step.Store? && s.pending[step.handler].order.sid != sid)
  }

  /** How often a run does that. */
  function Effects(s: State, steps: seq<Step>, sid: Sid): nat
    requires Possible(s, steps)
    decreases |steps|
  {
    if steps == [] then 0
    else (if Affects(s, steps[0], sid) then 1 else 0) + Effects(Next(s, steps[0]), steps[1..], sid)
  }

  function Has(orders: seq<Order>, sid: Sid): nat {
    if sid in Sids(orders) then 1 else 0
  }

  lemma OneEffect(s: State, step: Step, sid: Sid)
    requires Enabled(s, step)
    ensures (if Affects(s, step, sid) then 1 else 0) + Has(s.stock.orders, sid) == Has(Next(s, step).stock.orders, sid)
  {
    var s' := Next(s, step);
    if step.Store? {
      var o := s.pending[step.handler].order;
      SidsSnoc(s.stock.orders, o);
      assert s'.stock.orders == s.stock.orders + [o];
      assert |s'.stock.orders| != |s.stock.orders|;
    } else if !step.CommitChange? {
      assert s'.stock == s.stock;
    }
  }

  /** However often and in whatever order RegisterOrder is delivered, a SID changes the
      stock at most once in a run, and exactly once if an order row with it has appeared.
      Any other change of the stock is a catalogue change. */
  lemma {:induction false} AtMostOneEffect(s: State, steps: seq<Step>, sid: Sid)
    requires Possible(s, steps)
    ensures Effects(s, steps, sid) + Has(s.stock.orders, sid) == Has(After(s, steps).stock.orders, sid) <= 1
    decreases |steps|
  {
    if steps != [] {
      OneEffect(s, steps[0], sid);
      AtMostOneEffect(Next(s, steps[0]), steps[1..], sid);
    }
  }

  /** A repetition of an order already stored fails as a whole: the stock update that
      precedes the insert is rolled back with it. */
  lemma RepeatedStoreRollsBack(db: StockDb, p: Pending, q: Pending)
    requires StoreOrder(db, p).Ok? && q.order.sid == p.order.sid
    ensures StoreOrder(StoreOrder(db, p).value, q) == Err(Duplicate)
  {
    var db' := StoreOrder(db, p).value;
    assert db'.orders[|db.orders|] == p.order;
    assert p.order in db'.orders;
  }
}
