/** What each request does, for every state and every combination of faults, stated on the
    rows and fields themselves. */
module Effects {
  import opened Market
  import opened Numbers
  import opened SerialMarket
  import opened Wrappers

  // MARK: orders

  /** Checkout knows the user and sells the product, and inventory has enough of it. */
  predicate Orderable(w: World, req: OrderRequest) {
    && req.userId in w.sales.users && LiveListing(w.sales, req.productSid)
    && LiveItem(w.stock, req.productSid) && !w.stock.products[req.productSid].outOfStock
    && w.stock.products[req.productSid].available >= Int32(req.quantity)
  }

  /** Inventory registers the order. */
  predicate Registers(w: World, req: OrderRequest, sid: Sid, f: Faults) {
    && !f.here && !f.there && Orderable(w, req)
    && sid !in Sids(w.sales.orders) && sid !in Sids(w.stock.orders)
  }

  /** An order succeeds exactly when inventory registers it, the reply arrives and the local
      commit goes through; every error has its cause. */
  lemma {:induction false} OrderOutcome(w: World, req: OrderRequest, sid: Sid, f: Faults)
    ensures var r := PlaceOrder(w, req, sid, f).1;
            && (r.Ok? <==> Registers(w, req, sid, f) && !f.replyLost && !f.commitFails)
            && (r == Err(Injected) ==> f.here || f.there)
            && (r == Err(NotFound) ==> req.userId !in w.sales.users || !LiveListing(w.sales, req.productSid)
                                       || !LiveItem(w.stock, req.productSid))
            && (r == Err(Rejected) ==>
                  && LiveItem(w.stock, req.productSid)
                  && var item := w.stock.products[req.productSid];
                     item.outOfStock || item.available < Int32(req.quantity))
            && (r == Err(Duplicate) ==> sid in Sids(w.sales.orders) || sid in Sids(w.stock.orders))
            && (r == Err(Unavailable) ==> f.replyLost || f.commitFails)
  {
  }

  /** Inventory's row and table after an order that it registers: the wire quantity has left
      the stock, the flag says whether anything is left, and the new row has the message's
      SID, user, product and quantity at inventory's price. Nothing else has changed. */
  lemma {:induction false} OrderAtInventory(w: World, req: OrderRequest, sid: Sid, f: Faults)
    requires Registers(w, req, sid, f)
    ensures var w' := PlaceOrder(w, req, sid, f).0;
            var p, quantity := req.productSid, Int32(req.quantity);
            var item, item' := w.stock.products[p], w'.stock.products[p];
            && w'.stock.products == w.stock.products[p := item']
            && item'.available == item.available - quantity && (item'.outOfStock <==> item'.available <= 0)
            && item'.name == item.name && item'.price == item.price && item'.currency == item.currency
            && !item'.deleted
            && |w'.stock.orders| == |w.stock.orders| + 1 && w.stock.orders <= w'.stock.orders
            && var o := w'.stock.orders[|w.stock.orders|];
               && o.sid == sid && o.userId == UInt64(Int32(req.userId)) && o.productSid == p
               && o.quantity == quantity && o.pricePerItem == item.price && o.total == Int64(quantity * item.price)
  {
  }

  /** Without registration an order changes nothing at all; with it, checkout changes
      exactly when the order succeeds. */
  lemma {:induction false} OrderElsewhere(w: World, req: OrderRequest, sid: Sid, f: Faults)
    ensures var (w', r) := PlaceOrder(w, req, sid, f);
            && (!Registers(w, req, sid, f) ==> w' == w)
            && (r.Err? ==> w'.sales == w.sales && w'.published == w.published)
            && w'.sales.products == w.sales.products && w'.sales.users == w.sales.users
  {
  }

  /** Checkout after a successful order: one more row, which is the order returned, with the
      request's user, product and whole quantity at the price of the listing. */
  lemma {:induction false} OrderAtCheckout(w: World, req: OrderRequest, sid: Sid, f: Faults)
    requires PlaceOrder(w, req, sid, f).1.Ok?
    ensures var (w', r) := PlaceOrder(w, req, sid, f);
            var o := r.value;
            && w'.sales.orders == w.sales.orders + [o]
            && o.sid == sid && o.userId == req.userId && o.productSid == req.productSid && o.quantity == req.quantity
            && LiveListing(w.sales, req.productSid)
            && o.pricePerItem == w.sales.products[req.productSid].price
            && o.total == Int64(req.quantity * w.sales.products[req.productSid].price)
  {
  }

  /** A successful order publishes exactly one message, unless the publication fails: the
      order, the user who placed it and the listing that was read. */
  lemma {:induction false} OrderPublishes(w: World, req: OrderRequest, sid: Sid, f: Faults)
    requires PlaceOrder(w, req, sid, f).1.Ok?
    ensures var w' := PlaceOrder(w, req, sid, f).0;
            && req.userId in w.sales.users && LiveListing(w.sales, req.productSid)
            && if f.publishFails then w'.published == w.published
               else
                 && |w'.published| == |w.published| + 1 && w.published <= w'.published
                 && var m, user, listing :=
                      w'.published[|w.published|], w.sales.users[req.userId], w.sales.products[req.productSid];
                    && m.orderSid == sid && m.userId == req.userId && m.productSid == req.productSid
                    && m.quantity == req.quantity && m.productPrice == listing.price
                    && m.currency == listing.currency && m.total == Int64(req.quantity * listing.price)
                    && m.userName == user.name && m.userEmail == user.email && m.productName == listing.name
  {
  }

  // MARK: the catalogue

  /** Both services can make the change. */
  predicate Changeable(w: World, c: Change) {
    if c.Create? then c.sid !in w.stock.products && c.sid !in w.sales.products
    else LiveItem(w.stock, c.sid) && LiveListing(w.sales, c.sid)
  }

  /** Checkout makes the change. */
  predicate Delivered(w: World, c: Change, f: Faults) {
    !f.here && !f.there && Changeable(w, c)
  }

  /** A catalogue request succeeds exactly when checkout makes the change, its reply arrives
      and inventory's commit goes through; every error has its cause. */
  lemma {:induction false} ChangeOutcome(w: World, c: Change, f: Faults)
    ensures var r := ChangeCatalogue(w, c, f).1;
            && (r.Ok? <==> Delivered(w, c, f) && !f.replyLost && !f.commitFails)
            && (r == Err(Injected) ==> f.here || f.there)
            && (r == Err(NotFound) ==> !c.Create? && !Changeable(w, c))
            && (r == Err(Duplicate) ==> c.Create? && !Changeable(w, c))
            && (r == Err(Unavailable) ==> f.replyLost || f.commitFails)
            && (r.Err? ==> r.error != Rejected)
  {
  }

  /** Inventory changes exactly with success, checkout exactly with delivery, and orders and
      messages never. */
  lemma {:induction false} ChangeElsewhere(w: World, c: Change, f: Faults)
    ensures var (w', r) := ChangeCatalogue(w, c, f);
            && (r.Err? ==> w'.stock == w.stock)
            && (!Delivered(w, c, f) ==> w'.sales == w.sales)
            && w'.stock.orders == w.stock.orders && w'.sales.orders == w.sales.orders
            && w'.sales.users == w.sales.users && w'.published == w.published
            && (forall p | p in w.stock.products && p != c.sid ::
                  p in w'.stock.products && w'.stock.products[p] == w.stock.products[p])
            && (forall p | p in w.sales.products && p != c.sid ::
                  p in w'.sales.products && w'.sales.products[p] == w.sales.products[p])
            && w'.stock.products.Keys <= w.stock.products.Keys + {c.sid}
            && w'.sales.products.Keys <= w.sales.products.Keys + {c.sid}
  {
  }

  /** A created product has the request's fields, is live and is not flagged, even with
      nothing in stock; checkout lists it likewise, at the int32 price. */
  lemma {:induction false} CreateEffect(w: World, sid: Sid, req: ProductRequest, f: Faults)
    requires Delivered(w, Create(sid, req), f)
    ensures var (w', r) := ChangeCatalogue(w, Create(sid, req), f);
            && (r.Ok? ==>
                  && sid in w'.stock.products
                  && var item := w'.stock.products[sid];
                     && item.name == req.name && item.price == req.price && item.currency == req.currency
                     && item.available == req.available && !item.outOfStock && !item.deleted)
            && sid in w'.sales.products
            && var l := w'.sales.products[sid];
               && l.name == req.name && l.price == Int32(req.price) && l.currency == req.currency
               && !l.outOfStock && !l.deleted
  {
  }

  /** An updated product has the request's fields and is flagged exactly when nothing is
      available; checkout lists it likewise, flag included. */
  lemma {:induction false} UpdateEffect(w: World, sid: Sid, req: ProductRequest, f: Faults)
    requires Delivered(w, Update(sid, req), f)
    ensures var (w', r) := ChangeCatalogue(w, Update(sid, req), f);
            && (r.Ok? ==>
                  && sid in w'.stock.products
                  && var item := w'.stock.products[sid];
                     && item.name == req.name && item.price == req.price && item.currency == req.currency
                     && item.available == req.available && (item.outOfStock <==> req.available <= 0)
                     && !item.deleted)
            && sid in w'.sales.products
            && var l := w'.sales.products[sid];
               && l.name == req.name && l.price == Int32(req.price) && l.currency == req.currency
               && (l.outOfStock <==> req.available <= 0) && !l.deleted
  {
  }

  /** A deleted product keeps its fields and is marked, at both services. */
  lemma {:induction false} DeleteEffect(w: World, sid: Sid, f: Faults)
    requires Delivered(w, Remove(sid), f)
    ensures var (w', r) := ChangeCatalogue(w, Remove(sid), f);
            && (r.Ok? ==>
                  && sid in w'.stock.products
                  && var item, item' := w.stock.products[sid], w'.stock.products[sid];
                     && item'.deleted && item'.name == item.name && item'.price == item.price
                     && item'.currency == item.currency && item'.available == item.available
                     && item'.outOfStock == item.outOfStock)
            && sid in w'.sales.products
            && var l, l' := w.sales.products[sid], w'.sales.products[sid];
               && l'.deleted && l'.name == l.name && l'.price == l.price
               && l'.currency == l.currency && l'.outOfStock == l.outOfStock
  {
  }

  // MARK: serial runs

  /** One more request at the end of a run does to the tables what it does by itself. */
  lemma {:induction false} ServeOneMore(w: World, rs: seq<(Request, Faults)>, r: Request, f: Faults)
    ensures Serve(w, rs + [(r, f)])
            == match r
               case Order(req, sid) => PlaceOrder(Serve(w, rs), req, sid, f).0
               case Catalogue(c) => ChangeCatalogue(Serve(w, rs), c, f).0
    ensures Serve(w, []) == w
    decreases |rs|
  {
    var all := rs + [(r, f)];
    if rs == [] {
      assert all[1..] == [];
    } else {
      assert all[1..] == rs[1..] + [(r, f)];
      ServeOneMore(Handle(w, rs[0].0, rs[0].1).0, rs[1..], r, f);
    }
  }
}
