/** The handlers of the two Go services as they are written: objects whose tables are
    updated step by step, with the transactions undone on failure. Each is proved against
    the functions of Market and SerialMarket. */
module Services {
  import opened InvoicePayload
  import opened Market
  import opened Numbers
  import opened SerialMarket
  import opened Wrappers

  // MARK: checkout's catalogue and order tables

  class CheckoutService {
    var users: map<nat, User>
    var products: map<Sid, Listing>
    var orders: seq<Market.Order>
    var published: seq<InvoiceMsg>

    constructor (users: map<nat, User>)
      ensures Db() == SalesDb(users, map[], []) && published == []
    {
      this.users, products, orders, published := users, map[], [], [];
    }

    function Db(): SalesDb
      reads this
    {
      SalesDb(users, products, orders)
    }

    /** The contract of each catalogue handler: the change, or an error and no change. */
    twostate predicate Did(effect: Result<SalesDb, Error>, injected: bool, new r: Result<(), Error>)
      reads this
    {
      && published == old(published)
      && if injected then r == Err(Injected) && Db() == old(Db())
         else match effect
              case Err(e) => r == Err(e) && Db() == old(Db())
              case Ok(db) => r == Ok(()) && Db() == db
    }

    method AddNewProduct(injected: bool, sid: Sid, product: Listing) returns (r: Result<(), Error>)
      modifies this
      ensures Did(AddListing(old(Db()), sid, product), injected, r)
    {
      if injected {
        return Err(Injected);
      }
      if sid in products {
        return Err(Duplicate);
      }
      products := products[sid := product];
      return Ok(());
    }

    method UpdateProduct(injected: bool, sid: Sid, name: string, price: int, currency: string, outOfStock: bool)
      returns (r: Result<(), Error>)
      modifies this
      ensures Did(UpdateListing(old(Db()), sid, Listing(name, price, currency, outOfStock, false)), injected, r)
    {
      if injected {
        return Err(Injected);
      }
      if !LiveListing(Db(), sid) {
        return Err(NotFound);
      }
      var product := products[sid];
      product := product.(name := name);
      product := product.(price := price);
      product := product.(currency := currency);
      product := product.(outOfStock := outOfStock);
      products := products[sid := product];
      return Ok(());
    }

    method DeleteProduct(injected: bool, sid: Sid) returns (r: Result<(), Error>)
      modifies this
      ensures Did(RemoveListing(old(Db()), sid), injected, r)
    {
      if injected {
        return Err(Injected);
      }
      if !LiveListing(Db(), sid) {
        return Err(NotFound);
      }
      products := products[sid := products[sid].(deleted := true)];
      return Ok(());
    }

    /** checkout's PlaceNewOrder. `sid` is the ULID that tx.Create assigns. */
    method PlaceNewOrder(inventory: InventoryService?, req: OrderRequest, sid: Sid, f: Faults)
      returns (r: Result<Market.Order, Error>)
      modifies this, inventory
      ensures inventory == null ==> r.Err? && Db() == old(Db()) && published == old(published)
      ensures inventory != null ==>
                (World(inventory.Db(), Db(), published), r)
                == PlaceOrder(old(World(inventory.Db(), Db(), published)), req, sid, f)
    {
      if f.here {
        return Err(Injected);
      }
      if req.userId !in users {
        return Err(NotFound);
      }
      var user := users[req.userId];
      if !LiveListing(Db(), req.productSid) {
        return Err(NotFound);
      }
      var product := products[req.productSid];
      if inventory == null {
        return Err(Unavailable);
      }
      var reserved := inventory.CheckProductAvailability(req.productSid, Int32(req.quantity));
      if reserved.Err? {
        return Err(reserved.error);
      }
      if reserved.value.outOfStock || !reserved.value.isAvailable {
        return Err(Rejected);
      }
      var order := CheckoutOrder(sid, req.userId, req.productSid, product, req.quantity);
      // the transaction
      if order.sid in Sids(orders) {
        return Err(Duplicate);
      }
      var before := orders;
      orders := orders + [order];
      var registered := inventory.PlaceNewOrder(f.there, OnTheWire(order.sid, req.userId, req.productSid, req.quantity));
      if registered.Err? || f.replyLost || f.commitFails {
        orders := before;
        return if registered.Err? then Err(registered.error) else Err(Unavailable);
      }
      if !f.publishFails {
        published := published + [Payload(user, product, order)];
      }
      return Ok(order);
    }
  }

  // MARK: inventory

  datatype Availability = Availability(isAvailable: bool, availableQuantity: int, outOfStock: bool)

  class InventoryService {
    var products: map<Sid, StockItem>
    var orders: seq<Market.Order>

    constructor ()
      ensures Db() == StockDb(map[], [])
    {
      products, orders := map[], [];
    }

    function Db(): StockDb
      reads this
    {
      StockDb(products, orders)
    }

    method CheckProductAvailability(sid: Sid, quantity: int) returns (r: Result<Availability, Error>)
      ensures r.Err? <==> !LiveItem(Db(), sid)
      ensures r.Err? ==> r.error == NotFound
      ensures r.Ok? ==> (r.value.isAvailable && !r.value.outOfStock <==> Reservable(Db(), sid, quantity).Ok?)
      ensures r.Ok? ==> (r.value.isAvailable <==> products[sid].available >= quantity)
      ensures r.Ok? ==> r.value.availableQuantity == products[sid].available && r.value.outOfStock == products[sid].outOfStock
    {
      if !LiveItem(Db(), sid) {
        return Err(NotFound);
      }
      var product := products[sid];
      return Ok(Availability(product.available >= quantity, product.available, product.outOfStock));
    }

    /** inventory's PlaceNewOrder, behind RegisterOrder. */
    method PlaceNewOrder(injected: bool, req: RegisterOrder) returns (r: Result<Market.Order, Error>)
      modifies this
      ensures (Db(), r) == RegisterAtInventory(old(Db()), injected, req)
    {
      if injected {
        return Err(Injected);
      }
      if !LiveItem(Db(), req.productSid) {
        return Err(NotFound);
      }
      var product := products[req.productSid];
      if product.outOfStock || product.available < req.quantity {
        return Err(Rejected);
      }
      product := product.(available := product.available - req.quantity);
      if product.available <= 0 {
        product := product.(outOfStock := true);
      }
      var order := Market.Order(req.sid, req.userId, req.productSid, req.quantity, product.price,
                                Int64(req.quantity * product.price));
      // the transaction: the product first, then the order
      var before := products;
      products := products[req.productSid := Updated(products[req.productSid], product)];
      if order.sid in Sids(orders) {
        products := before;
        return Err(Duplicate);
      }
      orders := orders + [order];
      return Ok(order);
    }

    /** The contract of the catalogue handlers, over both services. */
    twostate predicate Changed(checkout: CheckoutService?, c: Change, f: Faults, new r: Result<(), Error>)
      reads this, checkout
    {
      if checkout == null then r.Err? && Db() == old(Db())
      else
        (World(Db(), checkout.Db(), checkout.published), r)
        == ChangeCatalogue(old(World(Db(), checkout.Db(), checkout.published)), c, f)
    }

    /** `sid` is the ULID that BeforeCreate assigns. */
    method CreateProduct(checkout: CheckoutService?, sid: Sid, req: ProductRequest, f: Faults)
      returns (r: Result<(), Error>)
      modifies this, checkout
      ensures Changed(checkout, Create(sid, req), f, r)
    {
      if f.here {
        return Err(Injected);
      }
      var product := StockItem(req.name, req.price, req.currency, req.available, false, false);
      if sid in products {
        return Err(Duplicate);
      }
      var before := products;
      products := products[sid := product];
      if checkout == null {
        products := before;
        return Err(Unavailable);
      }
      r := checkout.AddNewProduct(f.there, sid, ListingOf(product));
      if r.Err? || f.replyLost || f.commitFails {
        products := before;
        return if r.Err? then r else Err(Unavailable);
      }
    }

    method UpdateProduct(checkout: CheckoutService?, sid: Sid, req: ProductRequest, f: Faults)
      returns (r: Result<(), Error>)
      modifies this, checkout
      ensures Changed(checkout, Update(sid, req), f, r)
    {
      if f.here {
        return Err(Injected);
      }
      if !LiveItem(Db(), sid) {
        return Err(NotFound);
      }
      var product := products[sid];
      product := product.(name := req.name);
      product := product.(price := req.price);
      product := product.(currency := req.currency);
      product := product.(available := req.available);
      if req.available > 0 {
        product := product.(outOfStock := false);
      } else {
        product := product.(outOfStock := true);
      }
      var before := products;
      products := products[sid := product];
      if checkout == null {
        products := before;
        return Err(Unavailable);
      }
      r := checkout.UpdateProduct(f.there, sid, product.name, Int32(product.price), product.currency,
                                  product.outOfStock);
      if r.Err? || f.replyLost || f.commitFails {
        products := before;
        return if r.Err? then r else Err(Unavailable);
      }
    }

    method DeleteProduct(checkout: CheckoutService?, sid: Sid, f: Faults) returns (r: Result<(), Error>)
      modifies this, checkout
      ensures Changed(checkout, Remove(sid), f, r)
    {
      if f.here {
        return Err(Injected);
      }
      if !LiveItem(Db(), sid) {
        return Err(NotFound);
      }
      var before := products;
      products := products[sid := products[sid].(deleted := true)];
      if checkout == null {
        products := before;
        return Err(Unavailable);
      }
      r := checkout.DeleteProduct(f.there, sid);
      if r.Err? || f.replyLost || f.commitFails {
        products := before;
        return if r.Err? then r else Err(Unavailable);
      }
    }
  }
}
