/** The orders table: the in-memory list of orders, its id counter, and
    the handlers that create an order and change its status or payment. */
module Orders {
  import opened Values
  import IdTable

  /** The status every new order starts in. */
  const InitialStatus: string := "in_preparazione"
  /** Reply text of a create request that lacks table, covers or waiter. */
  const MissingOrderData: string := "Dati ordine mancanti"
  /** Reply text of an update naming an id that no order has. */
  const OrderNotFound: string := "Ordine non trovato"

  datatype Order = Order(
    id: int,
    table: Value,
    covers: Value,
    area: Value,
    waiter: Value,
    status: Value,
    createdAt: string,
    paid: bool)

  /** The body of a create request. */
  datatype OrderRequest = OrderRequest(table: Value, covers: Value, area: Value, waiter: Value)

  /** The presence check of a create request; `area` is not required. */
  predicate Complete(req: OrderRequest)
  {
    Truthy(req.table) && Truthy(req.covers) && Truthy(req.waiter)
  }

  function OrderId(o: Order): (id: int) { o.id }

  function Ids(orders: seq<Order>): (ids: seq<int>)
  {
    IdTable.Ids(orders, OrderId)
  }

  class OrderStore {
    var orders: seq<Order>
    var nextOrderId: int
    /** The list as last saved successfully; a failed save is taken to
        leave the file as it was. */
    ghost var persisted: seq<Order>

    /** The counter is always what a boot over the current list would
        compute, so it lies above every id in the list. */
    ghost predicate Valid()
      reads this
    {
      nextOrderId == IdTable.NextId(Ids(orders))
    }

    /** Boot: `loaded` is the list read from the orders file. */
    constructor (loaded: seq<Order>)
      ensures Valid()
      ensures orders == loaded && persisted == loaded
      ensures nextOrderId == IdTable.NextId(Ids(loaded))
    {
      orders := loaded;
      nextOrderId := IdTable.NextId(Ids(loaded));
      persisted := loaded;
    }

    /** POST /orders. `createdAt` is the clock reading; `writeOk` says
        whether saving the list to the file succeeded. */
    method Create(req: OrderRequest, createdAt: string, writeOk: bool) returns (reply: Reply<Order>)
      requires Valid()
      modifies this
      ensures Valid()
      ensures old(IdTable.Unique(Ids(orders))) ==> IdTable.Unique(Ids(orders))
      ensures !Complete(req) ==>
        && reply == BadRequest(MissingOrderData)
        && orders == old(orders)
        && nextOrderId == old(nextOrderId)
        && persisted == old(persisted)
      ensures Complete(req) ==>
        && reply == Created(Order(old(nextOrderId), req.table, req.covers, req.area, req.waiter,
                                  Text(InitialStatus), createdAt, false))
        && (forall i :: 0 <= i < |old(orders)| ==> old(orders)[i].id < reply.record.id)
        && orders == old(orders) + [reply.record]
        && nextOrderId == old(nextOrderId) + 1
        && persisted == (if writeOk then orders else old(persisted))
    {
      if !Complete(req) {
        return BadRequest(MissingOrderData);
      }
      var order := Order(nextOrderId, req.table, req.covers, req.area, req.waiter,
                         Text(InitialStatus), createdAt, false);
      IdTable.IdsAppend(orders, OrderId, order);
      IdTable.NextIdAfterAppend(Ids(orders));
      if IdTable.Unique(Ids(orders)) {
        IdTable.UniqueAfterAppend(Ids(orders), order.id);
      }
      nextOrderId := nextOrderId + 1;
      orders := orders + [order];
      if writeOk {
        persisted := orders;
      }
      reply := Created(order);
    }

    /** PATCH /orders/:id/status: the first order with that id takes
        `status` as sent, whatever it is. */
    method SetStatus(id: Option<int>, status: Value, writeOk: bool) returns (reply: Reply<Order>)
      requires Valid()
      modifies this
      ensures Valid() && nextOrderId == old(nextOrderId)
      ensures Ids(orders) == Ids(old(orders))
      ensures IdTable.Find(Ids(old(orders)), id).None? ==>
        && reply == NotFound(OrderNotFound)
        && orders == old(orders)
        && persisted == old(persisted)
      ensures IdTable.Find(Ids(old(orders)), id).Some? ==>
        var k := IdTable.Find(Ids(old(orders)), id).value;
        && k < |old(orders)|
        && orders == old(orders)[k := old(orders)[k].(status := status)]
        && reply == Ok(orders[k])
        && persisted == (if writeOk then orders else old(persisted))
    {
      var found := IdTable.Find(Ids(orders), id);
      if found.None? {
        return NotFound(OrderNotFound);
      }
      var k := found.value;
      var order := orders[k].(status := status);
      IdTable.IdsUpdate(orders, OrderId, k, order);
      orders := orders[k := order];
      if writeOk {
        persisted := orders;
      }
      reply := Ok(order);
    }

    /** PATCH /orders/:id/paid: the first order with that id takes the
        truthiness of `paid`. */
    method SetPaid(id: Option<int>, paid: Value, writeOk: bool) returns (reply: Reply<Order>)
      requires Valid()
      modifies this
      ensures Valid() && nextOrderId == old(nextOrderId)
      ensures Ids(orders) == Ids(old(orders))
      ensures IdTable.Find(Ids(old(orders)), id).None? ==>
        && reply == NotFound(OrderNotFound)
        && orders == old(orders)
        && persisted == old(persisted)
      ensures IdTable.Find(Ids(old(orders)), id).Some? ==>
        var k := IdTable.Find(Ids(old(orders)), id).value;
        && k < |old(orders)|
        && orders == old(orders)[k := old(orders)[k].(paid := Truthy(paid))]
        && reply == Ok(orders[k])
        && persisted == (if writeOk then orders else old(persisted))
    {
      var found := IdTable.Find(Ids(orders), id);
      if found.None? {
        return NotFound(OrderNotFound);
      }
      var k := found.value;
      var order := orders[k].(paid := Truthy(paid));
      IdTable.IdsUpdate(orders, OrderId, k, order);
      orders := orders[k := order];
      if writeOk {
        persisted := orders;
      }
      reply := Ok(order);
    }

    /** A restart: `stored` is what the orders file yields at the next boot.
        When every save succeeded, the new process serves the same list and
        hands out the same next id, so no id is reused. */
    method Reboot(stored: seq<Order>) returns (rebooted: OrderStore)
      requires Valid()
      requires stored == persisted
      ensures fresh(rebooted) && rebooted.Valid()
      ensures rebooted.orders == persisted
      ensures persisted == orders ==> rebooted.nextOrderId == nextOrderId
    {
      rebooted := new OrderStore(stored);
    }
  }
}
