/** From an order at checkout to the invoice struct in the third service. */
module EndToEnd {
  import opened Agreement
  import opened InvoiceParser
  import opened InvoicePayload
  import opened InvoiceStore
  import opened JsonReader
  import opened JsonScanner
  import opened Market
  import opened Numbers
  import opened Protocol
  import opened Refinement
  import opened SerialMarket
  import opened Wrappers

  /** Whatever was interleaved, lost or repeated: an invoice accepted from a published
      message names a committed checkout order and its inventory row. Its quantity is the
      low byte of the quantity that left the stock, its total is the low byte of the
      checkout total, and equals that total exactly when the total is in 0..255. */
  lemma {:induction false} AcceptedInvoiceHasOrders(s: State, m: InvoiceMsg, inv: Invoice, out: Invoice)
    requires Reachable(s) && m in s.published
    requires Parses(inv, PayloadText(m), 0, out)
    ensures exists o, r ::
              && o in s.sales.orders && r in s.stock.orders && r.sid == o.sid && r.productSid == o.productSid
              && Decode(out.orderSid) == Some(o.sid) && Decode(out.productSid) == Some(o.productSid)
              && out.userId == Byte(o.userId) && out.quantity == Byte(r.quantity) && out.total == Byte(o.total)
              && (out.total == o.total <==> 0 <= o.total < 256)
    ensures out.total == Byte(out.pricePerItem * out.quantity)
  {
    PublicationChain(s, m);
    InvoiceArithmetic(m, inv, out);
    AcceptedInvoice(m, inv, out);
    ByteOfInt32(m.quantity);
    var o :| o in s.sales.orders && o.sid == m.orderSid && o.productSid == m.productSid && o.userId == m.userId
             && o.total == m.total;
    var r :| r in s.stock.orders && r.sid == m.orderSid && r.productSid == m.productSid && r.quantity == Int32(m.quantity);
    assert r.sid == o.sid && r.productSid == o.productSid;
  }

  /** Receiving a published message, as the C code does: when the parser answers 0, the
      struct it was given describes an order that both services have committed. The
      caller answers for the local buffers. */
  method ReceiveInvoice(data: CString, slot: InvoiceSlot, ghost s: State, ghost m: InvoiceMsg)
    returns (code: nat)
    requires Reachable(s) && m in s.published && Text(data) == PayloadText(m)
    requires BuffersSuffice(PayloadText(m), 0)
    modifies slot
    ensures code == 0 <==> NothingHidden(m) && LowBytesNonZero(m) && StringsNonEmpty(m) && FitsLocals(m)
    ensures code == 0 ==> exists o, r ::
              && o in s.sales.orders && r in s.stock.orders && r.sid == o.sid && r.productSid == o.productSid
              && Decode(slot.inv.orderSid) == Some(o.sid) && Decode(slot.inv.productSid) == Some(o.productSid)
              && slot.inv.userId == Byte(o.userId) && slot.inv.quantity == Byte(r.quantity) && slot.inv.total == Byte(o.total)
    ensures code == 0 ==> slot.inv.total == Byte(slot.inv.pricePerItem * slot.inv.quantity)
  {
    ghost var inv := slot.inv;
    code := ParseMessage(data, slot, m);
    AcceptsExactly(m, inv);
    if code == 0 {
      AcceptedInvoice(m, inv, ParseFrom(inv, PayloadText(m), 0).1);
      AcceptedInvoiceHasOrders(s, m, inv, slot.inv);
    }
  }

  /** Receiving a published message and storing its invoice: the new row names the order's
      user, SID and product, with bodies that stand for the SIDs. */
  method StoreInvoice(data: CString, slot: InvoiceSlot, db: InvoiceDb, ghost s: State, ghost m: InvoiceMsg)
    returns (code: nat, rc: nat)
    requires Reachable(s) && m in s.published && Text(data) == PayloadText(m)
    requires BuffersSuffice(PayloadText(m), 0) && db.Valid()
    modifies slot, db
    ensures db.Valid()
    ensures code == 0 <==> NothingHidden(m) && LowBytesNonZero(m) && StringsNonEmpty(m) && FitsLocals(m)
    ensures code != 0 || rc != 0 ==> db.rows == old(db.rows)
    ensures code == 0 && rc == 0 ==>
              && |db.rows| == |old(db.rows)| + 1 && old(db.rows) <= db.rows
              && var row := db.rows[|old(db.rows)|].row;
                 && row.sid == old(slot.inv.sid) && row.createdAt == old(slot.inv.createdAt)
                 && Decode(row.orderSid) == Some(m.orderSid) && Decode(row.productSid) == Some(m.productSid)
                 && row.userId == Byte(m.userId)
                 && exists o :: o in s.sales.orders && Decode(row.orderSid) == Some(o.sid)
                                && Decode(row.productSid) == Some(o.productSid) && row.userId == Byte(o.userId)
  {
    rc := 0;
    code := ParseMessage(data, slot, m);
    if code == 0 {
      PublicationChain(s, m);
      rc := db.CreateInvoice(slot);
    }
  }

  const NO_FAULTS := Faults(false, false, false, false, false)

  /** None of this is empty: from any start, a request that the two services admit can
      reach a state in which its message is published, and that message is accepted
      exactly when nothing in it hides a key, its low bytes are non-zero, its strings are
      non-empty and its values fit in the buffers. */
  lemma {:induction false} OrderCanGetThrough(s: State, req: OrderRequest, sid: Sid, inv: Invoice)
    requires Initial(s) && Precheck(WorldOf(s), req, NO_FAULTS).Ok?
    ensures var user, product := s.sales.users[req.userId], s.sales.products[req.productSid];
            var m := Payload(user, product, RequestedOrder(WorldOf(s), req, sid));
            && (exists t :: Reachable(t) && t.published == [m] && |t.sales.orders| == 1 && |t.stock.orders| == 1)
            && (BuffersSuffice(PayloadText(m), 0) && ParseFrom(inv, PayloadText(m), 0).0 == 0
                <==> NothingHidden(m) && LowBytesNonZero(m) && StringsNonEmpty(m) && FitsLocals(m))
  {
    var w := WorldOf(s);
    var order := RequestedOrder(w, req, sid);
    var m := Payload(s.sales.users[req.userId], s.sales.products[req.productSid], order);
    AcceptsExactly(m, inv);
    ReserveMatchesAdmission(s.stock, OnTheWire(sid, order.userId, req.productSid, req.quantity));
    OrderIsARun(s, req, sid, NO_FAULTS);
    var w' := PlaceOrder(w, req, sid, NO_FAULTS).0;
    assert w'.published == [m];
    var steps: seq<Step> :| Leads(s, steps, w', {sid});
    assert Reachable(Protocol.After(s, steps));
  }
}
