/** Handling requests one at a time, with any faults, is one of the behaviours of the
    interleaved system: what holds in its reachable states holds after serial runs. */
module Refinement {
  import opened Agreement
  import opened Market
  import opened Numbers
  import opened Protocol
  import opened SerialMarket
  import opened Wrappers

  function WorldOf(s: State): World {
    World(s.stock, s.sales, s.published)
  }

  /** Some run from `s` leads to these tables, with inventory's writer idle again and no
      order SIDs used but `sids`. */
  ghost predicate Leads(s: State, steps: seq<Step>, w: World, sids: set<Sid>) {
    && Possible(s, steps) && WorldOf(After(s, steps)) == w && After(s, steps).writer.Idle?
    && After(s, steps).sent.Keys <= s.sent.Keys + sids
  }

  ghost predicate Simulated(s: State, w: World, sids: set<Sid>) {
    exists steps: seq<Step> :: Leads(s, steps, w, sids)
  }

  lemma {:induction false} FreshNat(used: set<nat>) returns (n: nat)
    ensures forall u | u in used :: u < n
  {
    if used == {} {
      n := 0;
    } else {
      var u :| u in used;
      var m := FreshNat(used - {u});
      n := if u < m then m else u + 1;
      assert forall v | v in used :: v == u || v in used - {u};
    }
  }

  // MARK: an order

  /** Up to the moment RegisterOrder is sent. */
  lemma {:induction false} OrderSent(s: State, req: OrderRequest, sid: Sid, f: Faults, id: nat)
    returns (steps: seq<Step>)
    requires Precheck(WorldOf(s), req, f).Ok? && sid !in s.sent && id !in s.attempts
    ensures Possible(s, steps)
    ensures var a := Attempt(req.userId, s.sales.users[req.userId], req.productSid,
                             s.sales.products[req.productSid], req.quantity, Registering(sid));
            After(s, steps) == s.(attempts := s.attempts[id := a], sent := s.sent[sid := id])
  {
    var a := Attempt(req.userId, s.sales.users[req.userId], req.productSid,
                     s.sales.products[req.productSid], req.quantity, Started);
    var s1 := s.(attempts := s.attempts[id := a]);
    var s2 := s.(attempts := s.attempts[id := a.(phase := Reserved)]);
    steps := [];
    RunThenStep(s, steps, Begin(id, req.userId, req.productSid, req.quantity));
    steps := steps + [Begin(id, req.userId, req.productSid, req.quantity)];
    assert After(s, steps) == s1;
    RunThenStep(s, steps, Reserve(id));
    steps := steps + [Reserve(id)];
    assert s1.attempts[id := a.(phase := Reserved)] == s2.attempts;
    assert After(s, steps) == s2;
    RunThenStep(s, steps, Insert(id, sid));
    steps := steps + [Insert(id, sid)];
    assert s2.attempts[id := a.(phase := Registering(sid))] == s.attempts[id := a.(phase := Registering(sid))];
  }

  /** A request that waits for its reply is delivered and stored. */
  lemma {:induction false} OrderStored(s: State, id: nat, h: nat, p: Pending)
    requires id in s.attempts && s.attempts[id].phase.Registering? && h !in s.pending && s.writer.Idle?
    requires var sid := s.attempts[id].phase.sid; sid in s.sent && s.sent[sid] == id
    requires Admit(s.stock, MessageOf(s.attempts[id])) == Ok(p) && StoreOrder(s.stock, p).Ok?
    ensures var steps := [Deliver(s.attempts[id].phase.sid, h), Store(h)];
            && Possible(s, steps)
            && After(s, steps) == s.(stock := StoreOrder(s.stock, p).value,
                                     answered := s.answered + {s.attempts[id].phase.sid},
                                     touched := TouchedByOrder(s, p))
  {
    var deliver := Deliver(s.attempts[id].phase.sid, h);
    RunThenStep(s, [], deliver);
    assert [] + [deliver] == [deliver];
    var s1 := After(s, [deliver]);
    assert s1 == s.(pending := s.pending[h := p]);
    RunThenStep(s, [deliver], Store(h));
    assert [deliver] + [Store(h)] == [deliver, Store(h)];
    assert s1.pending - {h} == s.pending;
  }

  /** The reply arrives, the transaction commits and the invoice is published, or not. */
  lemma {:induction false} OrderFinished(s: State, id: nat, redisOk: bool)
    requires id in s.attempts && s.attempts[id].phase.Registering? && s.attempts[id].phase.sid in s.answered
    ensures var steps := [Acknowledge(id), Commit(id), Publish(id, redisOk)];
            && Possible(s, steps)
            && WorldOf(After(s, steps))
               == World(s.stock, s.sales.(orders := s.sales.orders + [RowOf(s.attempts[id])]),
                        if redisOk then s.published + [InvoiceOf(s.attempts[id])] else s.published)
            && After(s, steps).writer == s.writer && After(s, steps).sent == s.sent
  {
    var a := s.attempts[id];
    var sid := a.phase.sid;
    RunThenStep(s, [], Acknowledge(id));
    assert [] + [Acknowledge(id)] == [Acknowledge(id)];
    var s1 := After(s, [Acknowledge(id)]);
    assert s1 == WithPhase(s, id, Acknowledged(sid));
    RunThenStep(s, [Acknowledge(id)], Commit(id));
    assert [Acknowledge(id)] + [Commit(id)] == [Acknowledge(id), Commit(id)];
    var s2 := After(s, [Acknowledge(id), Commit(id)]);
    assert RowOf(s1.attempts[id]) == RowOf(a) && RowOf(s2.attempts[id]) == RowOf(a);
    RunThenStep(s, [Acknowledge(id), Commit(id)], Publish(id, redisOk));
    assert [Acknowledge(id), Commit(id)] + [Publish(id, redisOk)] == [Acknowledge(id), Commit(id), Publish(id, redisOk)];
    assert InvoiceOf(s2.attempts[id]) == InvoiceOf(a);
  }

  lemma OrderAborted(s: State, id: nat)
    requires id in s.attempts && s.attempts[id].phase.Registering?
    ensures Possible(s, [Abort(id)])
    ensures WorldOf(After(s, [Abort(id)])) == WorldOf(s)
    ensures After(s, [Abort(id)]).writer == s.writer && After(s, [Abort(id)]).sent == s.sent
  {
    RunThenStep(s, [], Abort(id));
    assert [] + [Abort(id)] == [Abort(id)];
  }

  /** Whatever becomes of its reply, an order registered at inventory ends the request. */
  lemma {:induction false} OrderEnded(s: State, id: nat, f: Faults) returns (steps: seq<Step>)
    requires id in s.attempts && s.attempts[id].phase.Registering? && s.attempts[id].phase.sid in s.answered
    ensures Possible(s, steps)
    ensures WorldOf(After(s, steps))
            == if f.replyLost || f.commitFails then WorldOf(s)
               else World(s.stock, s.sales.(orders := s.sales.orders + [RowOf(s.attempts[id])]),
                          if f.publishFails then s.published else s.published + [InvoiceOf(s.attempts[id])])
    ensures After(s, steps).writer == s.writer && After(s, steps).sent == s.sent
  {
    if f.replyLost || f.commitFails {
      OrderAborted(s, id);
      steps := [Abort(id)];
    } else {
      OrderFinished(s, id, !f.publishFails);
      steps := [Acknowledge(id), Commit(id), Publish(id, !f.publishFails)];
    }
  }

  /** From the first check to inventory's answer. */
  lemma {:induction false} OrderRegistered(s: State, req: OrderRequest, sid: Sid, f: Faults, id: nat, p: Pending)
    returns (steps: seq<Step>)
    requires Precheck(WorldOf(s), req, f).Ok? && sid !in s.sent && id !in s.attempts && s.writer.Idle?
    requires var o := RequestedOrder(WorldOf(s), req, sid);
             Admit(s.stock, OnTheWire(sid, o.userId, req.productSid, req.quantity)) == Ok(p)
    requires StoreOrder(s.stock, p).Ok?
    ensures Possible(s, steps)
    ensures var a := Attempt(req.userId, s.sales.users[req.userId], req.productSid,
                             s.sales.products[req.productSid], req.quantity, Registering(sid));
            After(s, steps) == s.(stock := StoreOrder(s.stock, p).value,
                                  attempts := s.attempts[id := a], sent := s.sent[sid := id],
                                  answered := s.answered + {sid}, touched := TouchedByOrder(s, p))
  {
    var sending := OrderSent(s, req, sid, f, id);
    var h := FreshNat(s.pending.Keys);
    OrderStored(After(s, sending), id, h, p);
    RunThenRun(s, sending, [Deliver(sid, h), Store(h)]);
    steps := sending + [Deliver(sid, h), Store(h)];
  }

  /** The order handler, with a fresh SID and any faults, is a run. */
  lemma {:induction false} OrderIsARun(s: State, req: OrderRequest, sid: Sid, f: Faults)
    requires s.writer.Idle? && sid !in s.sent
    ensures Simulated(s, PlaceOrder(WorldOf(s), req, sid, f).0, {sid})
  {
    var w := WorldOf(s);
    var w' := PlaceOrder(w, req, sid, f).0;
    if w' == w {
      assert Leads(s, [], w', {sid});
    } else {
      var order := RequestedOrder(w, req, sid);
      var p := Admit(s.stock, OnTheWire(sid, order.userId, req.productSid, req.quantity)).value;
      var id := FreshNat(s.attempts.Keys);
      var registering := OrderRegistered(s, req, sid, f, id, p);
      var s1 := After(s, registering);
      var ending := OrderEnded(s1, id, f);
      RunThenRun(s, registering, ending);
      assert Leads(s, registering + ending, w', {sid});
    }
  }

  // MARK: a catalogue change

  /** Inventory has written its half and sent the request; checkout has done its half. */
  ghost predicate Sent(s: State, steps: seq<Step>, c: Change, replied: bool)
    requires ApplyAtCheckout(s.sales, c).Ok?
  {
    && Possible(s, steps)
    && After(s, steps) == s.(sales := ApplyAtCheckout(s.sales, c).value, writer := Writing(c, replied),
                             changes := s.changes + {c})
  }

  lemma {:induction false} ChangeSent(s: State, c: Change, replied: bool) returns (steps: seq<Step>)
    requires s.writer.Idle? && (c.Create? <==> c.sid !in s.stock.products)
    requires ApplyAtCheckout(s.sales, c).Ok?
    ensures Sent(s, steps, c, replied)
  {
    RunThenStep(s, [], OpenChange(c));
    assert [] + [OpenChange(c)] == [OpenChange(c)];
    if c.Update? {
      steps := UpdateDelivered(After(s, [OpenChange(c)]), c, replied);
    } else {
      RunThenStep(After(s, [OpenChange(c)]), [], DeliverChange(c, replied));
      steps := [] + [DeliverChange(c, replied)];
    }
    RunThenRun(s, [OpenChange(c)], steps);
    steps := [OpenChange(c)] + steps;
  }

  /** Checkout's update, with nothing between its read and its Save. */
  lemma {:induction false} UpdateDelivered(s: State, c: Edit, replied: bool) returns (steps: seq<Step>)
    requires c in s.changes && s.writer == Writing(c, false) && LiveListing(s.sales, c.sid)
    ensures Possible(s, steps)
    ensures After(s, steps) == s.(sales := ApplyAtCheckout(s.sales, c).value, writer := Writing(c, replied))
  {
    var h := FreshNat(s.saving.Keys);
    var s1 := s.(saving := s.saving[h := c]);
    RunThenStep(s, [], ReadListing(c, h));
    assert [] + [ReadListing(c, h)] == [ReadListing(c, h)];
    assert After(s, [ReadListing(c, h)]) == s1;
    RunThenStep(s, [ReadListing(c, h)], SaveUpdate(h, replied));
    assert s1.saving - {h} == s.saving;
    steps := [ReadListing(c, h)] + [SaveUpdate(h, replied)];
  }

  /** A catalogue handler, with any faults, is a run. */
  lemma {:induction false} ChangeIsARun(s: State, c: Change, f: Faults)
    requires s.writer.Idle?
    ensures Simulated(s, ChangeCatalogue(WorldOf(s), c, f).0, {})
  {
    var w' := ChangeCatalogue(WorldOf(s), c, f).0;
    var lost := f.replyLost || f.commitFails;
    if w' == WorldOf(s) {
      assert Leads(s, [], w', {});
    } else {
      var opening := ChangeSent(s, c, !lost);
      var last := if lost then RollbackChange else CommitChange;
      RunThenStep(s, opening, last);
      assert Leads(s, opening + [last], w', {});
    }
  }

  // MARK: serial runs

  /** ULIDs are never used twice. */
  predicate FreshSids(rs: seq<(Request, Faults)>, used: set<Sid>)
    decreases |rs|
  {
    rs == [] ||
    if rs[0].0.Order? then rs[0].0.sid !in used && FreshSids(rs[1..], used + {rs[0].0.sid})
    else FreshSids(rs[1..], used)
  }

  lemma {:induction false} FewerUsed(rs: seq<(Request, Faults)>, used: set<Sid>, fewer: set<Sid>)
    requires FreshSids(rs, used) && fewer <= used
    ensures FreshSids(rs, fewer)
    decreases |rs|
  {
    if rs != [] {
      if rs[0].0.Order? {
        FewerUsed(rs[1..], used + {rs[0].0.sid}, fewer + {rs[0].0.sid});
      } else {
        FewerUsed(rs[1..], used, fewer);
      }
    }
  }

  /** A serial run of requests with any faults leads to the same tables as some run of
      the interleaved system. */
  lemma {:induction false} SerialRunIsARun(s: State, rs: seq<(Request, Faults)>) returns (steps: seq<Step>)
    requires s.writer.Idle? && FreshSids(rs, s.sent.Keys)
    ensures Possible(s, steps) && WorldOf(After(s, steps)) == Serve(WorldOf(s), rs)
    decreases |rs|
  {
    if rs == [] {
      steps := [];
    } else {
      var r, f := rs[0].0, rs[0].1;
      var w := Handle(WorldOf(s), r, f).0;
      var sids := if r.Order? then {r.sid} else {};
      if r.Order? {
        OrderIsARun(s, r.req, r.sid, f);
      } else {
        ChangeIsARun(s, r.change, f);
      }
      var first: seq<Step> :| Leads(s, first, w, sids);
      var s' := After(s, first);
      assert s.sent.Keys + {} == s.sent.Keys;
      FewerUsed(rs[1..], s.sent.Keys + sids, s'.sent.Keys);
      var rest := SerialRunIsARun(s', rs[1..]);
      RunThenRun(s, first, rest);
      steps := first + rest;
    }
  }

  /** So what every reachable state keeps holds after a serial run with any faults: each
      checkout order has one inventory order with its SID. */
  lemma {:induction false} SerialOrdersAgree(s: State, rs: seq<(Request, Faults)>, o: Market.Order)
    requires Initial(s) && FreshSids(rs, {}) && o in Serve(WorldOf(s), rs).sales.orders
    ensures exists r :: r in Serve(WorldOf(s), rs).stock.orders
                        && r.sid == o.sid && r.productSid == o.productSid && r.quantity == Int32(o.quantity)
    ensures UniqueSids(Serve(WorldOf(s), rs).stock.orders)
  {
    assert s.sent.Keys == {};
    var steps := SerialRunIsARun(s, rs);
    var t := After(s, steps);
    assert Reachable(t);
    OrdersAgree(t, o);
    ReachableInv(t);
    var i :| 0 <= i < |t.stock.orders| && t.stock.orders[i].sid == o.sid;
    assert t.stock.orders[i] in t.stock.orders;
  }
}
