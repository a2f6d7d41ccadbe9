/**
 The inventory store of inventory_system.py: the dict `stock_data`, updated in
 place by `add_item` and `remove_item` and read by `get_qty` and
 `check_low_items`. Each operation is proved against module LedgerSpec.
 */
module InventorySystem {
  import opened Seqs
  import opened LedgerSpec

  /** One entry of the caller's `logs` list: "<timestamp>: Added <qty> of <item>", without the timestamp. */
  datatype LogEntry = Added(qty: PyValue, item: string)

  /** The list a caller may pass to `add_item` as `logs`; `add_item` appends to it. */
  class LogList {
    var entries: seq<LogEntry>

    constructor ()
      ensures entries == []
    {
      entries := [];
    }
  }

  /** Which message `remove_item` logs: item not found, nothing, or quantity depleted. */
  datatype RemoveOutcome = NotFound | Decremented | Depleted

  class Inventory {
    /** The quantity of each item, as `stock_data` maps it. */
    var stock: map<string, int>
    /** The keys of `stock_data` in dict iteration (insertion) order. */
    var order: seq<string>

    /** The ledger value this object holds. */
    function Model(): Ledger
      reads this
    {
      Ledger(stock, order)
    }

    /** The object invariant: keys and order agree, and no quantity is negative. */
    ghost predicate Valid()
      reads this
    {
      WellFormed(Model()) && NonNegative(Model())
    }

    /** The store as the module starts it: `stock_data = {}`. */
    constructor ()
      ensures Valid() && Model() == Empty
    {
      stock := map[];
      order := [];
    }

    /** `get_qty`: the stored quantity, 0 for an absent item; reads the store and changes nothing. */
    function GetQty(item: string): (q: int)
      reads this
      requires Valid()
      ensures q == Qty(Model(), item)
      ensures q >= 0
      ensures q != 0 ==> item in stock
    {
      if item in stock then stock[item] else 0
    }

    /**
     `add_item`: rejects an empty or non-string item and a non-int or negative quantity
     without touching anything; otherwise adds `qty` to the item (creating it at the end
     of the order if absent) and appends one entry to `logs`.
     */
    method AddItem(item: PyValue := Str("default"), qty: PyValue := Int(0), logs: LogList? := null)
      returns (check: AddCheck)
      requires Valid()
      modifies this, logs
      ensures Valid()
      ensures check == CheckAddArgs(item, qty)
      ensures !check.Accepted? ==> Model() == old(Model())
      ensures check.Accepted? ==> Model() == Add(old(Model()), check.name, check.amount)
      ensures check.Accepted? ==> GetQty(check.name) == old(GetQty(check.name)) + check.amount
      ensures logs != null ==>
                logs.entries == old(logs.entries) + if check.Accepted? then [Added(qty, check.name)] else []
    {
      if !item.Str? || item.s == "" {
        return InvalidItem;
      }
      var amount: int;
      match qty {
        case Int(n) =>
          if n < 0 {
            return InvalidQuantity;
          }
          amount := n;
        case Bool(b) =>
          amount := if b then 1 else 0;
        case _ =>
          return InvalidQuantity;
      }
      var name := item.s;
      ghost var before := Model();
      if name !in stock {
        order := order + [name];
      }
      stock := stock[name := (if name in stock then stock[name] else 0) + amount];
      assert Model() == Add(before, name, amount);
      if logs != null {
        logs.entries := logs.entries + [Added(qty, name)];
      }
      check := Accepted(name, amount);
    }

    /**
     `remove_item`: an absent item is left alone; otherwise `qty` is subtracted and the
     item is deleted from the store, and from the order, once it reaches zero or below.
     */
    method RemoveItem(item: string, qty: int) returns (outcome: RemoveOutcome)
      requires Valid()
      modifies this
      ensures Valid()
      ensures Model() == Remove(old(Model()), item, qty)
      ensures outcome == NotFound <==> item !in old(stock)
      ensures outcome == Depleted <==> item in old(stock) && old(stock)[item] - qty <= 0
    {
      if item !in stock {
        return NotFound;
      }
      var left := stock[item] - qty;
      if left <= 0 {
        stock, order := stock - {item}, Without(order, item);
        return Depleted;
      }
      stock := stock[item := left];
      return Decremented;
    }

    /**
     `check_low_items`: walks the store in iteration order and collects every item whose
     quantity is below `threshold`.
     */
    method CheckLowItems(threshold: int := 5) returns (result: seq<string>)
      requires Valid()
      ensures result == LowItems(order, stock, threshold)
      ensures forall k :: k in result <==> k in stock && stock[k] < threshold
      ensures NoDuplicates(result)
    {
      result := [];
      var i := 0;
      while i < |order|
        invariant 0 <= i <= |order|
        invariant result == LowItems(order[..i], stock, threshold)
      {
        var item := order[i];
        var quantity := stock[item];
        if quantity < threshold {
          result := result + [item];
        }
        assert order[..i + 1][..i] == order[..i];
        i := i + 1;
      }
      assert order[..i] == order;
    }
  }

  /** The calls of `main` on a fresh store, read back with `get_qty` and `check_low_items`. */
  method Demo() returns (appleQty: int, lowItems: seq<string>)
    ensures appleQty == 7
    ensures lowItems == []
  {
    var inventory := new Inventory();
    var added := inventory.AddItem(Str("apple"), Int(10));
    assert added == Accepted("apple", 10);
    MainAddApple();
    added := inventory.AddItem(Str("banana"), Int(5));
    assert added == Accepted("banana", 5);
    MainAddBanana();
    added := inventory.AddItem(Int(123), Str("ten"));
    assert added == InvalidItem;
    var _ := inventory.RemoveItem("apple", 3);
    MainRemoveApple();
    var _ := inventory.RemoveItem("orange", 1);
    MainRemoveOrange();
    assert inventory.Model() == MainResult;
    appleQty := inventory.GetQty("apple");
    MainLowItems();
    lowItems := inventory.CheckLowItems();
  }
}
