/** Requests handled one at a time, as functions on both services' tables, and what a
    serial run keeps between the two catalogues and the two order tables. */
module SerialMarket {
  import opened InvoicePayload
  import opened Market
  import opened Numbers
  import opened Wrappers

  /** Both databases and the messages published so far. */
  datatype World = World(stock: StockDb, sales: SalesDb, published: seq<InvoiceMsg>)

  /** What goes wrong during one request: errors injected at its own handler and at the
      handler it calls, a reply lost after the remote commit, a failed local commit, and
      a failed publication. */
  datatype Faults = Faults(here: bool, there: bool, replyLost: bool, commitFails: bool, publishFails: bool)

  /** Only injected errors, which strike before anything is written. */
  predicate OnlyInjected(f: Faults) {
    !f.replyLost && !f.commitFails
  }

  datatype OrderRequest = OrderRequest(userId: nat, productSid: Sid, quantity: int)

  // MARK: inventory's order handler

  function RegisterAtInventory(db: StockDb, injected: bool, req: RegisterOrder): (StockDb, Result<Order, Error>) {
    if injected then (db, Err(Injected))
    else
      match Admit(db, req)
      case Err(e) => (db, Err(e))
      case Ok(p) =>
        match StoreOrder(db, p)
        case Err(e) => (db, Err(e))
        case Ok(db') => (db', Ok(p.order))
  }

  // MARK: checkout's order handler

  /** The checks before the transaction. */
  function Precheck(w: World, req: OrderRequest, f: Faults): Result<(), Error> {
    if f.here then Err(Injected)
    else if req.userId !in w.sales.users then Err(NotFound)
    else if !LiveListing(w.sales, req.productSid) then Err(NotFound)
    else Reservable(w.stock, req.productSid, Int32(req.quantity))
  }

  /** The row checkout inserts for an admissible request. */
  function RequestedOrder(w: World, req: OrderRequest, sid: Sid): Order
    requires req.userId in w.sales.users && LiveListing(w.sales, req.productSid)
  {
    CheckoutOrder(sid, req.userId, req.productSid, w.sales.products[req.productSid], req.quantity)
  }

  function PlaceOrder(w: World, req: OrderRequest, sid: Sid, f: Faults): (World, Result<Order, Error>) {
    var checked := Precheck(w, req, f);
    if checked.Err? then (w, Err(checked.error))
    else
      var order := RequestedOrder(w, req, sid);
      if sid in Sids(w.sales.orders) then (w, Err(Duplicate))
      else
        var (stock, reply) :=
          RegisterAtInventory(w.stock, f.there, OnTheWire(sid, order.userId, req.productSid, req.quantity));
        if reply.Err? then (w.(stock := stock), Err(reply.error))
        else if f.replyLost || f.commitFails then (w.(stock := stock), Err(Unavailable))
        else
          var invoice := Payload(w.sales.users[req.userId], w.sales.products[req.productSid], order);
          (World(stock, w.sales.(orders := w.sales.orders + [order]),
                 if f.publishFails then w.published else w.published + [invoice]),
           Ok(order))
  }

  // MARK: inventory's catalogue handlers

  function ChangeCatalogue(w: World, c: Change, f: Faults): (World, Result<(), Error>) {
    if f.here then (w, Err(Injected))
    else if !c.Create? && !LiveItem(w.stock, c.sid) then (w, Err(NotFound))
    else
      match ApplyAtInventory(w.stock, c)
      case Err(e) => (w, Err(e))
      case Ok(stock) =>
        if f.there then (w, Err(Injected))
        else
          match ApplyAtCheckout(w.sales, c)
          case Err(e) => (w, Err(e))
          case Ok(sales) =>
            if f.replyLost || f.commitFails then (w.(sales := sales), Err(Unavailable))
            else (w.(stock := stock, sales := sales), Ok(()))
  }

  // MARK: serial runs

  datatype Request = Order(req: OrderRequest, sid: Sid) | Catalogue(change: Change)

  function Handle(w: World, r: Request, f: Faults): (World, bool) {
    match r
    case Order(req, sid) => (PlaceOrder(w, req, sid, f).0, PlaceOrder(w, req, sid, f).1.Ok?)
    case Catalogue(c) => (ChangeCatalogue(w, c, f).0, ChangeCatalogue(w, c, f).1.Ok?)
  }

  function Serve(w: World, rs: seq<(Request, Faults)>): World
    decreases |rs|
  {
    if rs == [] then w else Serve(Handle(w, rs[0].0, rs[0].1).0, rs[1..])
  }

  // MARK: all or nothing

  /** A request that reports failure has changed nothing in either service. */
  lemma {:induction false} FailureChangesNothing(w: World, r: Request, f: Faults)
    requires OnlyInjected(f) && !Handle(w, r, f).1
    ensures Handle(w, r, f).0 == w
  {
    if r.Order? {
      if Precheck(w, r.req, f).Ok? && r.sid !in Sids(w.sales.orders) {
        var order := RequestedOrder(w, r.req, r.sid);
        var m := OnTheWire(r.sid, order.userId, r.req.productSid, r.req.quantity);
        assert RegisterAtInventory(w.stock, f.there, m).1.Err? ==> RegisterAtInventory(w.stock, f.there, m).0 == w.stock;
      }
    }
  }

  /** With lost replies or failed commits the two services can differ, but only the one
      called last has changed. */
  lemma {:induction false} FailureTouchesOnlyTheRemoteSide(w: World, r: Request, f: Faults)
    requires !Handle(w, r, f).1
    ensures var w' := Handle(w, r, f).0;
            w'.published == w.published && if r.Order? then w'.sales == w.sales else w'.stock == w.stock
  {
  }

  // MARK: the services mirror each other

  /** The same product at both services. Orders do not propagate the out-of-stock flag,
      so it is not compared. */
  predicate SameProduct(item: StockItem, l: Listing) {
    l.name == item.name && l.price == Int32(item.price) && l.currency == item.currency && l.deleted == item.deleted
  }

  predicate SameCatalogue(w: World) {
    && w.stock.products.Keys == w.sales.products.Keys
    && forall p | p in w.stock.products :: SameProduct(w.stock.products[p], w.sales.products[p])
  }

  predicate SameOrder(r: Market.Order, o: Market.Order) {
    && r.sid == o.sid && r.productSid == o.productSid
    && r.quantity == Int32(o.quantity) && o.pricePerItem == Int32(r.pricePerItem)
  }

  /** The order tables agree row by row. */
  predicate SameOrders(w: World) {
    && |w.stock.orders| == |w.sales.orders|
    && forall i | 0 <= i < |w.stock.orders| :: SameOrder(w.stock.orders[i], w.sales.orders[i])
  }

  predicate Mirrored(w: World) {
    SameCatalogue(w) && SameOrders(w)
  }

  /** An order updates the row it has just read, so only the stock fields change. */
  lemma OrderKeepsCatalogue(db: StockDb, m: RegisterOrder)
    requires Admit(db, m).Ok? && StoreOrder(db, Admit(db, m).value).Ok?
    ensures var db' := StoreOrder(db, Admit(db, m).value).value;
            && db'.products == db.products[m.productSid := Admit(db, m).value.item]
            && db'.orders == db.orders + [Admit(db, m).value.order]
  {
    var row, item := db.products[m.productSid], Admit(db, m).value.item;
    assert Updated(row, item) == item;
  }

  lemma {:induction false} OrderMirrored(w: World, req: OrderRequest, sid: Sid, f: Faults)
    requires Mirrored(w) && OnlyInjected(f) && PlaceOrder(w, req, sid, f).1.Ok?
    ensures Mirrored(PlaceOrder(w, req, sid, f).0)
  {
    var w' := PlaceOrder(w, req, sid, f).0;
    var o := RequestedOrder(w, req, sid);
    var m := OnTheWire(sid, o.userId, req.productSid, req.quantity);
    OrderKeepsCatalogue(w.stock, m);
    assert w'.sales.orders == w.sales.orders + [o];
    assert SameProduct(w.stock.products[req.productSid], w.sales.products[req.productSid]);
    assert SameOrder(Admit(w.stock, m).value.order, o);
  }

  lemma {:induction false} ChangeMirrored(w: World, c: Change, f: Faults)
    requires Mirrored(w) && OnlyInjected(f) && ChangeCatalogue(w, c, f).1.Ok?
    ensures Mirrored(ChangeCatalogue(w, c, f).0)
  {
    var w' := ChangeCatalogue(w, c, f).0;
    assert SameProduct(w'.stock.products[c.sid], w'.sales.products[c.sid]);
  }

  /** In every serial run whose only faults are injected errors and rejections, live SIDs
      of the two catalogues coincide with equal name, price and currency, and the order
      tables agree row by row. */
  lemma {:induction false} SerialRunMirrors(w: World, rs: seq<(Request, Faults)>)
    requires Mirrored(w) && forall r | r in rs :: OnlyInjected(r.1)
    ensures Mirrored(Serve(w, rs))
    decreases |rs|
  {
    if rs != [] {
      var r, f := rs[0].0, rs[0].1;
      assert rs[0] in rs;
      if !Handle(w, r, f).1 {
        FailureChangesNothing(w, r, f);
      } else if r.Order? {
        OrderMirrored(w, r.req, r.sid, f);
      } else {
        ChangeMirrored(w, r.change, f);
      }
      SerialRunMirrors(Handle(w, r, f).0, rs[1..]);
    }
  }

  /** After such a run a product is live at both services or at neither, with the same name
      and currency, and with the same price exactly when the price is an int32. */
  lemma {:induction false} CataloguesCoincide(w: World, rs: seq<(Request, Faults)>, p: Sid)
    requires Mirrored(w) && forall r | r in rs :: OnlyInjected(r.1)
    ensures var w' := Serve(w, rs);
            && (LiveItem(w'.stock, p) <==> LiveListing(w'.sales, p))
            && (LiveItem(w'.stock, p) ==>
                  var item, l := w'.stock.products[p], w'.sales.products[p];
                  && l.name == item.name && l.currency == item.currency
                  && (l.price == item.price <==> -0x8000_0000 <= item.price < 0x8000_0000))
  {
    SerialRunMirrors(w, rs);
    var w' := Serve(w, rs);
    assert p in w'.stock.products ==> SameProduct(w'.stock.products[p], w'.sales.products[p]);
  }

  /** Of two mirrored catalogues, checkout never refuses what inventory has accepted: a
      catalogue request fails only by an injected error, an unknown product or a used SID. */
  lemma {:induction false} ChangeSucceedsExactly(w: World, c: Change, f: Faults)
    requires Mirrored(w) && OnlyInjected(f)
    ensures ChangeCatalogue(w, c, f).1.Ok?
            <==> !f.here && !f.there && if c.Create? then c.sid !in w.stock.products else LiveItem(w.stock, c.sid)
  {
    assert c.sid in w.stock.products ==> SameProduct(w.stock.products[c.sid], w.sales.products[c.sid]);
  }

  /** What ReserveProduct promises is what RegisterOrder grants, on the same stock. */
  lemma ReserveMatchesAdmission(db: StockDb, m: RegisterOrder)
    ensures Reservable(db, m.productSid, m.quantity).Ok? <==> Admit(db, m).Ok?
    ensures Admit(db, m).Ok? ==>
              var p := Admit(db, m).value;
              && p.item.available + m.quantity == db.products[m.productSid].available
              && p.order == Market.Order(m.sid, m.userId, m.productSid, m.quantity,
                                         db.products[m.productSid].price, p.order.total)
  {
  }

  /** Of two mirrored worlds, an order with a fresh SID succeeds exactly when no error is
      injected, the user and the product exist, and the stock admits the quantity that
      crosses the wire. */
  lemma {:induction false} OrderSucceedsExactly(w: World, req: OrderRequest, sid: Sid, f: Faults)
    requires Mirrored(w) && OnlyInjected(f) && sid !in Sids(w.sales.orders)
    ensures PlaceOrder(w, req, sid, f).1.Ok?
            <==> && !f.here && !f.there && req.userId in w.sales.users && LiveItem(w.stock, req.productSid)
                 && !w.stock.products[req.productSid].outOfStock
                 && w.stock.products[req.productSid].available >= Int32(req.quantity)
  {
    assert req.productSid in w.stock.products ==>
        SameProduct(w.stock.products[req.productSid], w.sales.products[req.productSid]);
    SameSids(w);
  }

  lemma SameSids(w: World)
    requires SameOrders(w)
    ensures Sids(w.stock.orders) == Sids(w.sales.orders)
  {
    forall i | 0 <= i < |w.stock.orders|
      ensures w.stock.orders[i].sid in Sids(w.sales.orders) && w.sales.orders[i].sid in Sids(w.stock.orders)
    {
      assert SameOrder(w.stock.orders[i], w.sales.orders[i]);
      assert w.stock.orders[i] in w.stock.orders && w.sales.orders[i] in w.sales.orders;
    }
  }

  /** Quantities outside the int32 range make the services disagree: 2^32 + 1 units are
      sold at checkout and 1 unit leaves the stock. */
  lemma {:induction false} HugeOrderDisagrees(w: World, req: OrderRequest, sid: Sid, f: Faults)
    requires Mirrored(w) && OnlyInjected(f) && req.quantity == 0x1_0000_0001
    requires PlaceOrder(w, req, sid, f).1.Ok?
    ensures var w' := PlaceOrder(w, req, sid, f).0;
            && w'.sales.orders[|w.sales.orders|].quantity == 0x1_0000_0001
            && w'.stock.orders[|w.stock.orders|].quantity == 1
            && w'.stock.products[req.productSid].available == w.stock.products[req.productSid].available - 1
  {
    var o := RequestedOrder(w, req, sid);
    OrderKeepsCatalogue(w.stock, OnTheWire(sid, o.userId, req.productSid, req.quantity));
    assert Int32(0x1_0000_0001) == 1;
  }
}
