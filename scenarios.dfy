/** Clients of the two stores: request sequences whose outcome is fixed by
    the handlers' contracts alone. */
module Scenarios {
  import opened Values
  import opened Orders
  import opened Inventory

  /** Adjusting an item by -d and then by +d leaves the table as it was. */
  method AdjustBackAndForth(store: InventoryStore, id: Option<int>, d: int, writeOk: bool)
    requires store.Valid()
    modifies store
    ensures store.Valid()
    ensures store.items == old(store.items)
    ensures store.nextInventoryId == old(store.nextInventoryId)
  {
    var down := store.Adjust(id, Some(-d), writeOk);
    var up := store.Adjust(id, Some(d), writeOk);
  }

  /** On an empty inventory, adding 10 kg of flour gives item 1, and taking
      3 away leaves 7. */
  method FlourScenario() returns (created: Reply<Item>, adjusted: Reply<Item>)
    ensures created == Created(Item(1, Text("Flour"), Text("kg"), 10))
    ensures created.StatusCode() == 201
    ensures adjusted == Ok(Item(1, Text("Flour"), Text("kg"), 7))
    ensures adjusted.StatusCode() == 200
  {
    var store := new InventoryStore([]);
    created := store.Create(ItemRequest(Text("Flour"), Text("kg"), Some(10)), true);
    adjusted := store.Adjust(Some(1), Some(-3), true);
  }

  /** On an empty order list, a complete order becomes order 1, waiting in
      the kitchen and unpaid; marking it paid sets only `paid`. */
  method OrderScenario(createdAt: string) returns (created: Reply<Order>, marked: Reply<Order>)
    ensures created == Created(Order(1, Number(5), Number(2), Text("sala"), Text("Luca"),
                                     Text("in_preparazione"), createdAt, false))
    ensures created.StatusCode() == 201
    ensures marked == Ok(created.record.(paid := true))
    ensures marked.StatusCode() == 200
  {
    var store := new OrderStore([]);
    created := store.Create(OrderRequest(Number(5), Number(2), Text("sala"), Text("Luca")), createdAt, true);
    marked := store.SetPaid(Some(1), Bool(true), true);
  }

  /** A request without a waiter is refused, and the next complete one
      still receives id 1. */
  method RejectedOrderScenario(createdAt: string) returns (refused: Reply<Order>, created: Reply<Order>)
    ensures refused == BadRequest("Dati ordine mancanti") && refused.StatusCode() == 400
    ensures created.Created? && created.record.id == 1
  {
    var store := new OrderStore([]);
    refused := store.Create(OrderRequest(Number(5), Number(2), Text("sala"), Text("")), createdAt, true);
    created := store.Create(OrderRequest(Number(5), Number(2), Text("sala"), Text("Luca")), createdAt, true);
  }
}
