/** Checkout and inventory as one transition system: any number of order requests in
    flight, split into steps where the code lets other requests in, with lost and
    repeated deliveries, failed commits and catalogue changes interleaved. */
module Protocol {
  import opened InvoicePayload
  import opened Market
  import opened Numbers

  // MARK: states

  /** How far a checkout PlaceNewOrder request has come. `Registering` holds its
      transaction open with the order row inserted; the later phases carry its SID. */
  datatype Phase =
    | Started
    | Reserved
    | Registering(sid: Sid)
    | Acknowledged(sid: Sid)
    | Committed(sid: Sid)
    | Succeeded(sid: Sid)
    | Refused
    | Aborted(sid: Sid)

  /** One request, with the rows it read at the start. */
  datatype Attempt = Attempt(userId: nat, user: User, productSid: Sid, product: Listing, quantity: int, phase: Phase)

  predicate HasSid(a: Attempt) {
    !a.phase.Started? && !a.phase.Reserved? && !a.phase.Refused?
  }

  /** The phases after the checkout commit. */
  predicate IsCommitted(a: Attempt) {
    a.phase.Committed? || a.phase.Succeeded?
  }

  function MessageOf(a: Attempt): RegisterOrder
    requires HasSid(a)
  {
    OnTheWire(a.phase.sid, a.userId, a.productSid, a.quantity)
  }

  function RowOf(a: Attempt): Order
    requires HasSid(a)
  {
    CheckoutOrder(a.phase.sid, a.userId, a.productSid, a.product, a.quantity)
  }

  function InvoiceOf(a: Attempt): InvoiceMsg
    requires HasSid(a)
  {
    Payload(a.user, a.product, RowOf(a))
  }

  /** Inventory's open catalogue transaction; SQLite admits one writer at a time. */
  datatype Writer = Idle | Writing(change: Change, confirmed: bool)

  datatype State = State(
    stock: StockDb,
    sales: SalesDb,
    attempts: map<nat, Attempt>,
    // which request sent RegisterOrder with which SID; a message may arrive any number
    // of times, at any time
    sent: map<Sid, nat>,
    // deliveries of RegisterOrder between the read and the transaction
    pending: map<nat, Pending>,
    // SIDs for which inventory has answered success
    answered: set<Sid>,
    writer: Writer,
    // catalogue requests ever sent to checkout
    changes: set<Change>,
    // checkout's UpdateProduct handlers between the read and the Save
    saving: map<nat, Edit>,
    published: seq<InvoiceMsg>,
    // products whose row has been written by an order or an update (history)
    touched: set<Sid>,
    // products whose deleted row at checkout a Save has inserted again (history)
    revived: set<Sid>)

  predicate Initial(s: State) {
    && s.attempts == map[] && s.sent == map[] && s.pending == map[] && s.answered == {}
    && s.writer.Idle? && s.changes == {} && s.saving == map[] && s.published == []
    && s.touched == {} && s.revived == {}
    && s.stock.orders == [] && s.sales.orders == []
    && (forall p | p in s.stock.products :: p in s.sales.products)
    && (forall p | p in s.stock.products && s.stock.products[p].deleted :: s.sales.products[p].deleted)
  }

  // MARK: steps

  datatype Step =
    // checkout PlaceNewOrder
    | Begin(id: nat, userId: nat, productSid: Sid, quantity: int)
    | Reserve(id: nat)
    | Refuse(id: nat)
    | Insert(id: nat, sid: Sid)
    | Acknowledge(id: nat)
    | Abort(id: nat)
    | Commit(id: nat)
    | Publish(id: nat, redisOk: bool)
    // inventory PlaceNewOrder, once per delivery
    | Deliver(sid: Sid, handler: nat)
    | Store(handler: nat)
    | Drop(handler: nat)
    // catalogue
    | OpenChange(change: Change)
    | DeliverChange(change: Change, replyArrives: bool)
    | ReadListing(change: Change, handler: nat)
    | SaveUpdate(handler: nat, replyArrives: bool)
    | CommitChange
    | RollbackChange

  function WithPhase(s: State, id: nat, phase: Phase): State
    requires id in s.attempts
  {
    s.(attempts := s.attempts[id := s.attempts[id].(phase := phase)])
  }

  predicate Enabled(s: State, step: Step) {
    match step
    // the request passed its injected fault, found its user and a live product
    case Begin(id, userId, productSid, quantity) =>
      id !in s.attempts && userId in s.sales.users && LiveListing(s.sales, productSid)
    case Reserve(id) =>
      && id in s.attempts && s.attempts[id].phase.Started?
      && Reservable(s.stock, s.attempts[id].productSid, Int32(s.attempts[id].quantity)).Ok?
    // a rejection, an injected error or no answer: nothing has been written yet
    case Refuse(id) =>
      id in s.attempts && (s.attempts[id].phase.Started? || s.attempts[id].phase.Reserved?)
    // tx.Create assigns a fresh ULID; then RegisterOrder is sent
    case Insert(id, sid) =>
      id in s.attempts && s.attempts[id].phase.Reserved? && sid !in s.sent
    // a success reply arrives
    case Acknowledge(id) =>
      && id in s.attempts && s.attempts[id].phase.Registering? && s.attempts[id].phase.sid in s.answered
    // an error reply, a lost reply, a timeout, or a failed commit
    case Abort(id) =>
      id in s.attempts && (s.attempts[id].phase.Registering? || s.attempts[id].phase.Acknowledged?)
    case Commit(id) =>
      id in s.attempts && s.attempts[id].phase.Acknowledged?
    case Publish(id, redisOk) =>
      id in s.attempts && s.attempts[id].phase.Committed?
    // first delivery or repetition; the injected fault did not strike
    case Deliver(sid, handler) =>
      && sid in s.sent && handler !in s.pending
      && s.sent[sid] in s.attempts && HasSid(s.attempts[s.sent[sid]])
      && Admit(s.stock, MessageOf(s.attempts[s.sent[sid]])).Ok?
    case Store(handler) =>
      handler in s.pending && s.writer.Idle? && StoreOrder(s.stock, s.pending[handler]).Ok?
    // the transaction failed and was rolled back
    case Drop(handler) =>
      handler in s.pending
    // the local write of CreateProduct, UpdateProduct or DeleteProduct; the product read
    // before it only shows that the row existed at some earlier time
    case OpenChange(change) =>
      && s.writer.Idle?
      && (change.Create? <==> change.sid !in s.stock.products)
    // checkout's AddNewProduct or DeleteProduct; also for requests whose sender has given up
    case DeliverChange(change, replyArrives) =>
      && change in s.changes && !change.Update?
      && ApplyAtCheckout(s.sales, change).Ok?
      && (replyArrives ==> Awaited(s, change))
    // checkout's UpdateProduct has no transaction around its read and its Save
    case ReadListing(change, handler) =>
      && change in s.changes && change.Update?
      && handler !in s.saving && LiveListing(s.sales, change.sid)
    case SaveUpdate(handler, replyArrives) =>
      handler in s.saving && (replyArrives ==> Awaited(s, s.saving[handler]))
    case CommitChange =>
      s.writer.Writing? && s.writer.confirmed
    // an error, a lost reply or a failed commit
    case RollbackChange =>
      s.writer.Writing?
  }

  /** Inventory waits for the reply to this request. */
  predicate Awaited(s: State, change: Change) {
    s.writer.Writing? && s.writer.change == change
  }

  /** The products written by an order. */
  function TouchedByOrder(s: State, p: Pending): set<Sid> {
    if LiveItem(s.stock, p.order.productSid) then s.touched + {p.order.productSid} else s.touched
  }

  function Next(s: State, step: Step): State
    requires Enabled(s, step)
  {
    match step
    case Begin(id, userId, productSid, quantity) =>
      s.(attempts := s.attempts[id := Attempt(userId, s.sales.users[userId], productSid,
                                              s.sales.products[productSid], quantity, Started)])
    case Reserve(id) => WithPhase(s, id, Reserved)
    case Refuse(id) => WithPhase(s, id, Refused)
    case Insert(id, sid) => WithPhase(s, id, Registering(sid)).(sent := s.sent[sid := id])
    case Acknowledge(id) => WithPhase(s, id, Acknowledged(s.attempts[id].phase.sid))
    case Abort(id) => WithPhase(s, id, Aborted(s.attempts[id].phase.sid))
    case Commit(id) =>
      WithPhase(s, id, Committed(s.attempts[id].phase.sid))
      .(sales := s.sales.(orders := s.sales.orders + [RowOf(s.attempts[id])]))
    case Publish(id, redisOk) =>
      WithPhase(s, id, Succeeded(s.attempts[id].phase.sid))
      .(published := if redisOk then s.published + [InvoiceOf(s.attempts[id])] else s.published)
    case Deliver(sid, handler) =>
      s.(pending := s.pending[handler := Admit(s.stock, MessageOf(s.attempts[s.sent[sid]])).value])
    case Store(handler) =>
      var p := s.pending[handler];
      s.(stock := StoreOrder(s.stock, p).value,
         pending := s.pending - {handler},
         answered := s.answered + {p.order.sid},
         touched := TouchedByOrder(s, p))
    case Drop(handler) => s.(pending := s.pending - {handler})
    case OpenChange(change) => s.(writer := Writing(change, false), changes := s.changes + {change})
    case DeliverChange(change, replyArrives) =>
      s.(sales := ApplyAtCheckout(s.sales, change).value,
         writer := if replyArrives then Writing(change, true) else s.writer)
    case ReadListing(change, handler) => s.(saving := s.saving[handler := change])
    case SaveUpdate(handler, replyArrives) =>
      var change := s.saving[handler];
      s.(sales := SaveListing(s.sales, change.sid, ListingOf(NewItem(change))),
         saving := s.saving - {handler},
         writer := if replyArrives then Writing(change, true) else s.writer,
         revived := if LiveListing(s.sales, change.sid) then s.revived else s.revived + {change.sid})
    case CommitChange =>
      var change := s.writer.change;
      var applied := ApplyAtInventory(s.stock, change);
      s.(stock := if applied.Ok? then applied.value else s.stock,
         writer := Idle,
         touched := if change.Update? then s.touched + {change.sid} else s.touched)
    case RollbackChange => s.(writer := Idle)
  }

  // MARK: runs

  /** `steps` can be taken one after the other, starting in `s`. */
  predicate Possible(s: State, steps: seq<Step>)
    decreases |steps|
  {
    steps == [] || (Enabled(s, steps[0]) && Possible(Next(s, steps[0]), steps[1..]))
  }

  function After(s: State, steps: seq<Step>): State
    requires Possible(s, steps)
    decreases |steps|
  {
    if steps == [] then s else After(Next(s, steps[0]), steps[1..])
  }

  lemma {:induction false} RunThenStep(s: State, steps: seq<Step>, step: Step)
    requires Possible(s, steps) && Enabled(After(s, steps), step)
    ensures Possible(s, steps + [step]) && After(s, steps + [step]) == Next(After(s, steps), step)
    decreases |steps|
  {
    var all := steps + [step];
    if steps == [] {
      assert all[1..] == [];
    } else {
      assert all[1..] == steps[1..] + [step];
      RunThenStep(Next(s, steps[0]), steps[1..], step);
    }
  }

  lemma {:induction false} RunThenRun(s: State, first: seq<Step>, second: seq<Step>)
    requires Possible(s, first) && Possible(After(s, first), second)
    ensures Possible(s, first + second) && After(s, first + second) == After(After(s, first), second)
    decreases |first|
  {
    if first == [] {
      assert first + second == second;
    } else {
      assert (first + second)[1..] == first[1..] + second;
      RunThenRun(Next(s, first[0]), first[1..], second);
    }
  }

  ghost predicate Reachable(s: State) {
    exists start: State, steps: seq<Step> :: Initial(start) && Possible(start, steps) && After(start, steps) == s
  }
}
