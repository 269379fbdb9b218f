/** The tables of the two Go services and the effect of each handler on them. A table
    changes only by whole transactions: a handler that fails inside its transaction
    leaves the table as it was. */
module Market {
  import opened InvoicePayload
  import opened Numbers
  import opened Wrappers

  /** ULIDs shared between the services; only equality matters. */
  type Sid = string

  // MARK: rows

  /** A product row at inventory. Deleting sets `deleted`; queries by SID skip such rows. */
  datatype StockItem = StockItem(
    name: string, price: int, currency: string,
    available: int, outOfStock: bool, deleted: bool)

  /** A product row at checkout. */
  datatype Listing = Listing(name: string, price: int, currency: string, outOfStock: bool, deleted: bool)

  /** An order row, at either service. */
  datatype Order = Order(
    sid: Sid, userId: nat, productSid: Sid,
    quantity: int, pricePerItem: int, total: int)

  /** A user row, without its primary key: user tables are maps by id. */
  datatype User = User(name: string, email: string)

  datatype StockDb = StockDb(products: map<Sid, StockItem>, orders: seq<Order>)

  datatype SalesDb = SalesDb(users: map<nat, User>, products: map<Sid, Listing>, orders: seq<Order>)

  predicate LiveItem(db: StockDb, sid: Sid) {
    sid in db.products && !db.products[sid].deleted
  }

  predicate LiveListing(db: SalesDb, sid: Sid) {
    sid in db.products && !db.products[sid].deleted
  }

  function Sids(orders: seq<Order>): set<Sid> {
    set o | o in orders :: o.sid
  }

  /** The unique index on the order SID. */
  predicate UniqueSids(orders: seq<Order>) {
    forall i, j | 0 <= i < j < |orders| :: orders[i].sid != orders[j].sid
  }

  datatype Error = Injected | NotFound | Rejected | Duplicate | Unavailable

  // MARK: orders at inventory

  /** The RegisterOrder message: what checkout puts on the wire, in the wire's types. */
  datatype RegisterOrder = RegisterOrder(sid: Sid, userId: nat, productSid: Sid, quantity: int)

  /** `int32(req.UserID)` and `int32(req.Quantity)` at checkout, `uint(req.UserId)` at
      inventory. */
  function OnTheWire(sid: Sid, userId: nat, productSid: Sid, quantity: int): RegisterOrder {
    RegisterOrder(sid, UInt64(Int32(userId)), productSid, Int32(quantity))
  }

  /** A request between its read of the product and its transaction: the row it will
      write, and the order. */
  datatype Pending = Pending(item: StockItem, order: Order)

  /** The admission part of inventory's PlaceNewOrder, outside any transaction. */
  function Admit(db: StockDb, req: RegisterOrder): Result<Pending, Error> {
    if !LiveItem(db, req.productSid) then Err(NotFound)
    else
      var product := db.products[req.productSid];
      if product.outOfStock || product.available < req.quantity then Err(Rejected)
      else
        var left := product.available - req.quantity;
        Ok(Pending(
             product.(available := left, outOfStock := if left <= 0 then true else product.outOfStock),
             Order(req.sid, req.userId, req.productSid, req.quantity, product.price,
                   Int64(req.quantity * product.price))))
  }

  /** GORM's `Updates` with a struct: zero-valued plain fields are skipped, the two
      pointer fields are always written. */
  function Updated(row: StockItem, item: StockItem): StockItem {
    StockItem(
      if item.name != "" then item.name else row.name,
      if item.price != 0 then item.price else row.price,
      if item.currency != "" then item.currency else row.currency,
      item.available, item.outOfStock, row.deleted)
  }

  /** The transaction of inventory's PlaceNewOrder. The stock update comes first; if the
      unique index then rejects the order, both are rolled back. A product deleted since
      the read is not updated. */
  function StoreOrder(db: StockDb, p: Pending): Result<StockDb, Error> {
    var sid := p.order.productSid;
    var products := if LiveItem(db, sid) then db.products[sid := Updated(db.products[sid], p.item)] else db.products;
    if p.order.sid in Sids(db.orders) then Err(Duplicate)
    else Ok(StockDb(products, db.orders + [p.order]))
  }

  /** CheckProductAvailability, as ReserveProduct's caller reads the reply. */
  function Reservable(db: StockDb, sid: Sid, quantity: int): Result<(), Error> {
    if !LiveItem(db, sid) then Err(NotFound)
    else if db.products[sid].outOfStock then Err(Rejected)
    else if db.products[sid].available < quantity then Err(Rejected)
    else Ok(())
  }

  // MARK: orders at checkout

  /** The order row that checkout inserts, for the product row it read. */
  function CheckoutOrder(sid: Sid, userId: nat, productSid: Sid, product: Listing, quantity: int): Order {
    Order(sid, userId, productSid, quantity, product.price, Int64(quantity * product.price))
  }

  function Payload(user: User, product: Listing, order: Order): InvoiceMsg {
    InvoiceMsg(order.sid, order.userId, order.productSid, order.quantity, product.price, product.currency,
               order.total, user.name, user.email, product.name)
  }

  // MARK: the catalogue

  /** The product fields of CreateProductRequest and UpdateProductRequest. */
  datatype ProductRequest = ProductRequest(name: string, price: int, currency: string, available: int)

  function CreatedItem(req: ProductRequest): StockItem {
    StockItem(req.name, req.price, req.currency, req.available, false, false)
  }

  /** The row UpdateProduct saves: every field but the SID comes from the request. */
  function UpdatedItem(req: ProductRequest): StockItem {
    StockItem(req.name, req.price, req.currency, req.available, req.available <= 0, false)
  }

  /** What checkout stores for an inventory row: the price crosses the wire as an int32. */
  function ListingOf(item: StockItem): Listing {
    Listing(item.name, Int32(item.price), item.currency, item.outOfStock, item.deleted)
  }

  /** A catalogue change: the request inventory sends, and the change it makes itself. */
  datatype Change = Create(sid: Sid, req: ProductRequest) | Update(sid: Sid, req: ProductRequest) | Remove(sid: Sid)

  type Edit = c: Change | c.Update? witness Update("", ProductRequest("", 0, "", 0))

  function NewItem(c: Change): StockItem
    requires !c.Remove?
  {
    if c.Create? then CreatedItem(c.req) else UpdatedItem(c.req)
  }

  /** Inventory's half. Save updates the live row, and otherwise inserts the row again. */
  function ApplyAtInventory(db: StockDb, c: Change): Result<StockDb, Error> {
    match c
    case Create(sid, req) =>
      if sid in db.products then Err(Duplicate) else Ok(db.(products := db.products[sid := NewItem(c)]))
    case Update(sid, req) => Ok(db.(products := db.products[sid := NewItem(c)]))
    case Remove(sid) =>
      Ok(if LiveItem(db, sid) then db.(products := db.products[sid := db.products[sid].(deleted := true)]) else db)
  }

  /** Checkout's half: AddNewProduct, UpdateProduct and DeleteProduct. */
  function AddListing(db: SalesDb, sid: Sid, row: Listing): Result<SalesDb, Error> {
    if sid in db.products then Err(Duplicate) else Ok(db.(products := db.products[sid := row]))
  }

  /** Save writes the row that was read earlier, whatever has happened to it since; it
      inserts a row deleted in between again. */
  function SaveListing(db: SalesDb, sid: Sid, row: Listing): SalesDb {
    db.(products := db.products[sid := row])
  }

  /** The read and the Save, with nothing in between. */
  function UpdateListing(db: SalesDb, sid: Sid, row: Listing): Result<SalesDb, Error> {
    if !LiveListing(db, sid) then Err(NotFound) else Ok(SaveListing(db, sid, row))
  }

  function RemoveListing(db: SalesDb, sid: Sid): Result<SalesDb, Error> {
    if !LiveListing(db, sid) then Err(NotFound)
    else Ok(db.(products := db.products[sid := db.products[sid].(deleted := true)]))
  }

  function ApplyAtCheckout(db: SalesDb, c: Change): Result<SalesDb, Error> {
    match c
    case Create(sid, req) => AddListing(db, sid, ListingOf(NewItem(c)))
    case Update(sid, req) => UpdateListing(db, sid, ListingOf(NewItem(c)))
    case Remove(sid) => RemoveListing(db, sid)
  }
}
