/** The inventory table: the in-memory list of stock items, its id counter,
    and the handlers that add an item and adjust its quantity. */
module Inventory {
  import opened Values
  import IdTable

  /** Reply text of a create request that lacks name or unit. */
  const MissingNameOrUnit: string := "Nome e unit\U{e0} sono obbligatori"
  /** Reply text of an adjustment naming an id that no item has. */
  const ItemNotFound: string := "Prodotto non trovato"

  /** A stock item; `quantity` has no floor and may go negative. */
  datatype Item = Item(id: int, name: Value, unit: Value, quantity: int)

  /** The body of a create request; `quantity` as `Number()` converted it. */
  datatype ItemRequest = ItemRequest(name: Value, unit: Value, quantity: Option<int>)

  /** The presence check of a create request; `quantity` is not required. */
  predicate Complete(req: ItemRequest)
  {
    Truthy(req.name) && Truthy(req.unit)
  }

  function ItemId(item: Item): (id: int) { item.id }

  function Ids(items: seq<Item>): (ids: seq<int>)
  {
    IdTable.Ids(items, ItemId)
  }

  class InventoryStore {
    var items: seq<Item>
    var nextInventoryId: int
    /** The list as last saved successfully; a failed save is taken to
        leave the file as it was. */
    ghost var persisted: seq<Item>

    /** The counter is always what a boot over the current list would
        compute, so it lies above every id in the list. */
    ghost predicate Valid()
      reads this
    {
      nextInventoryId == IdTable.NextId(Ids(items))
    }

    /** Boot: `loaded` is the list read from the inventory file. */
    constructor (loaded: seq<Item>)
      ensures Valid()
      ensures items == loaded && persisted == loaded
      ensures nextInventoryId == IdTable.NextId(Ids(loaded))
    {
      items := loaded;
      nextInventoryId := IdTable.NextId(Ids(loaded));
      persisted := loaded;
    }

    /** POST /inventory. `writeOk` says whether saving the list succeeded. */
    method Create(req: ItemRequest, writeOk: bool) returns (reply: Reply<Item>)
      requires Valid()
      modifies this
      ensures Valid()
      ensures old(IdTable.Unique(Ids(items))) ==> IdTable.Unique(Ids(items))
      ensures !Complete(req) ==>
        && reply == BadRequest(MissingNameOrUnit)
        && items == old(items)
        && nextInventoryId == old(nextInventoryId)
        && persisted == old(persisted)
      ensures Complete(req) ==>
        && reply == Created(Item(old(nextInventoryId), req.name, req.unit, NumberOrZero(req.quantity)))
        && (req.quantity.None? ==> reply.record.quantity == 0)
        && (forall i :: 0 <= i < |old(items)| ==> old(items)[i].id < reply.record.id)
        && items == old(items) + [reply.record]
        && nextInventoryId == old(nextInventoryId) + 1
        && persisted == (if writeOk then items else old(persisted))
    {
      if !Complete(req) {
        return BadRequest(MissingNameOrUnit);
      }
      var qty := NumberOrZero(req.quantity);
      var item := Item(nextInventoryId, req.name, req.unit, qty);
      IdTable.IdsAppend(items, ItemId, item);
      IdTable.NextIdAfterAppend(Ids(items));
      if IdTable.Unique(Ids(items)) {
        IdTable.UniqueAfterAppend(Ids(items), item.id);
      }
      nextInventoryId := nextInventoryId + 1;
      items := items + [item];
      if writeOk {
        persisted := items;
      }
      reply := Created(item);
    }

    /** PATCH /inventory/:id/adjust: the first item with that id has the
        converted `delta` added to its quantity. */
    method Adjust(id: Option<int>, delta: Option<int>, writeOk: bool) returns (reply: Reply<Item>)
      requires Valid()
      modifies this
      ensures Valid() && nextInventoryId == old(nextInventoryId)
      ensures Ids(items) == Ids(old(items))
      ensures IdTable.Find(Ids(old(items)), id).None? ==>
        && reply == NotFound(ItemNotFound)
        && items == old(items)
        && persisted == old(persisted)
      ensures IdTable.Find(Ids(old(items)), id).Some? ==>
        var k := IdTable.Find(Ids(old(items)), id).value;
        && k < |old(items)|
        && items == old(items)[k := old(items)[k].(quantity := old(items)[k].quantity + NumberOrZero(delta))]
        && reply == Ok(items[k])
        && persisted == (if writeOk then items else old(persisted))
    {
      var found := IdTable.Find(Ids(items), id);
      if found.None? {
        return NotFound(ItemNotFound);
      }
      var k := found.value;
      var d := NumberOrZero(delta);
      var item := items[k].(quantity := items[k].quantity + d);
      IdTable.IdsUpdate(items, ItemId, k, item);
      items := items[k := item];
      if writeOk {
        persisted := items;
      }
      reply := Ok(item);
    }

    /** A restart: `stored` is what the inventory file yields at the next
        boot. When every save succeeded, the new process serves the same list
        and hands out the same next id. */
    method Reboot(stored: seq<Item>) returns (rebooted: InventoryStore)
      requires Valid()
      requires stored == persisted
      ensures fresh(rebooted) && rebooted.Valid()
      ensures rebooted.items == persisted
      ensures persisted == items ==> rebooted.nextInventoryId == nextInventoryId
    {
      rebooted := new InventoryStore(stored);
    }
  }
}
