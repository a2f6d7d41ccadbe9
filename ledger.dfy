/**
 The inventory ledger as a value: the quantity of each item together with the
 order in which the items were inserted (a Python dict iterates in insertion
 order, and re-inserting a deleted key puts it at the end). This module states
 what `add_item`, `remove_item`, `get_qty` and `check_low_items` of
 inventory_system.py do to that value; the class in module InventorySystem is
 proved to follow it.
 */
module LedgerSpec {
  import opened Seqs

  /** A Python value as a caller may pass it to `add_item`, which checks types at run time. */
  datatype PyValue = Str(s: string) | Int(i: int) | Bool(b: bool) | Other

  /** The module-global `stock_data` dict: quantities by item name, keys in iteration order. */
  datatype Ledger = Ledger(stock: map<string, int>, order: seq<string>)

  /** The keys of `stock` are exactly the entries of `order`, each once. */
  ghost predicate WellFormed(l: Ledger)
  {
    && NoDuplicates(l.order)
    && forall k :: k in l.stock <==> k in l.order
  }

  /** Every stored quantity is at least zero (a zero entry is possible: `add_item(x, 0)`). */
  ghost predicate NonNegative(l: Ledger)
  {
    forall k :: k in l.stock ==> l.stock[k] >= 0
  }

  /** The ledger at start-up: `stock_data = {}`. */
  const Empty := Ledger(map[], [])

  /** `get_qty`: the stored quantity, 0 for an item that is not in the ledger. */
  function Qty(l: Ledger, name: string): (q: int)
    ensures name in l.stock ==> q == l.stock[name]
    ensures name !in l.stock ==> q == 0
    ensures NonNegative(l) ==> q >= 0
  {
    if name in l.stock then l.stock[name] else 0
  }

  /** What the argument checks of `add_item` decide; the two rejections log different warnings. */
  datatype AddCheck = Accepted(name: string, amount: int) | InvalidItem | InvalidQuantity

  /**
   The checks at the head of `add_item`: the item must be a non-empty string, then
   the quantity an int (a bool is one in Python, as 0 or 1) that is not negative.
   */
  function CheckAddArgs(item: PyValue, qty: PyValue): (c: AddCheck)
    ensures c.InvalidItem? <==> !(item.Str? && item.s != "")
    ensures c.InvalidQuantity? <==> item.Str? && item.s != "" && !qty.Bool? && !(qty.Int? && qty.i >= 0)
    ensures c.Accepted? ==> item == Str(c.name) && c.name != "" && c.amount >= 0
    ensures c.Accepted? ==> (qty.Int? && c.amount == qty.i) || (qty.Bool? && c.amount == if qty.b then 1 else 0)
  {
    if !item.Str? || item.s == "" then InvalidItem
    else
      match qty
      case Int(n) => if n < 0 then InvalidQuantity else Accepted(item.s, n)
      case Bool(b) => Accepted(item.s, if b then 1 else 0)
      case _ => InvalidQuantity
  }

  /** `stock_data[item] = stock_data.get(item, 0) + qty` for arguments that passed the checks. */
  function Add(l: Ledger, name: string, amount: int): (r: Ledger)
    requires WellFormed(l)
    ensures WellFormed(r)
    ensures name in r.stock && Qty(r, name) == Qty(l, name) + amount
    ensures forall k :: k != name ==> Qty(r, k) == Qty(l, k)
    ensures r.stock.Keys == l.stock.Keys + {name}
    ensures name in l.stock ==> r.order == l.order
    ensures name !in l.stock ==> r.order == l.order + [name]
    ensures NonNegative(l) && amount >= 0 ==> NonNegative(r)
  {
    if name in l.stock then
      Ledger(l.stock[name := l.stock[name] + amount], l.order)
    else
      Ledger(l.stock[name := amount], l.order + [name])
  }

  /**
   `remove_item`: nothing happens to an absent item; otherwise `qty` is subtracted and
   the item is deleted once its quantity is zero or below. `qty` is not checked, so a
   negative one adds stock.
   */
  function Remove(l: Ledger, name: string, qty: int): (r: Ledger)
    requires WellFormed(l)
    ensures WellFormed(r)
    ensures name !in l.stock ==> r == l
    ensures name in l.stock && l.stock[name] - qty > 0 ==>
              r.order == l.order && name in r.stock && r.stock[name] == l.stock[name] - qty
    ensures name in l.stock && l.stock[name] - qty <= 0 ==>
              r.order == Without(l.order, name) && r.stock.Keys == l.stock.Keys - {name}
    ensures name in l.stock && l.stock[name] - qty <= 0 ==>
              r.order == l.order[..IndexOf(l.order, name)] + l.order[IndexOf(l.order, name) + 1..]
    ensures forall k :: k != name ==> Qty(r, k) == Qty(l, k)
    ensures name !in r.stock || r.stock[name] > 0
    ensures NonNegative(l) ==> NonNegative(r)
  {
    if name !in l.stock then l
    else
      var left := l.stock[name] - qty;
      if left > 0 then Ledger(l.stock[name := left], l.order)
      else
        WithoutSplits(l.order, name);
        Ledger(l.stock - {name}, Without(l.order, name))
  }

  /**
   `check_low_items`: the items of `order` whose stored quantity is below `threshold`,
   in the order they appear there.
   */
  function LowItems(order: seq<string>, stock: map<string, int>, threshold: int): (r: seq<string>)
    ensures forall k :: k in r <==> k in order && k in stock && stock[k] < threshold
    ensures NoDuplicates(order) ==> NoDuplicates(r)
    decreases |order|
  {
    if order == [] then []
    else
      var init := order[..|order| - 1];
      var last := order[|order| - 1];
      var low := LowItems(init, stock, threshold);
      assert NoDuplicates(order) ==> last !in init;
      if last in stock && stock[last] < threshold then low + [last] else low
  }

  /** The low items come in the order their keys were inserted. */
  lemma {:induction false} LowItemsKeepOrder(order: seq<string>, stock: map<string, int>, threshold: int, i: nat, j: nat)
    requires NoDuplicates(order)
    requires i < j < |LowItems(order, stock, threshold)|
    ensures var r := LowItems(order, stock, threshold);
            IndexOf(order, r[i]) < IndexOf(order, r[j])
  {
    var r := LowItems(order, stock, threshold);
    var n := |order|;
    var init := order[..n - 1];
    var low := LowItems(init, stock, threshold);
    assert order == init + [order[n - 1]];
    if j < |low| {
      LowItemsKeepOrder(init, stock, threshold, i, j);
      assert r[i] == low[i] && r[j] == low[j];
      IndexOfPrefix(order, n - 1, low[i]);
      IndexOfPrefix(order, n - 1, low[j]);
    } else {
      assert r[j] == order[n - 1] && r[i] == low[i];
      IndexOfPrefix(order, n - 1, low[i]);
      var p := IndexOf(order, order[n - 1]);
      assert p == n - 1;
    }
  }

  /** In a sequence without duplicates, an element of a prefix keeps its index. */
  lemma IndexOfPrefix(s: seq<string>, k: nat, x: string)
    requires NoDuplicates(s) && k <= |s| && x in s[..k]
    ensures IndexOf(s, x) == IndexOf(s[..k], x) < k
  {
  }

  /** One call the demo in `main` makes on the ledger. */
  datatype Op = AddItem(item: PyValue, qty: PyValue) | RemoveItem(name: string, amount: int)

  /** The effect of one call on the ledger; a rejected `add_item` changes nothing. */
  function Step(l: Ledger, op: Op): (r: Ledger)
    requires WellFormed(l)
    ensures WellFormed(r)
    ensures NonNegative(l) ==> NonNegative(r)
  {
    match op
    case AddItem(item, qty) =>
      var c := CheckAddArgs(item, qty);
      if c.Accepted? then Add(l, c.name, c.amount) else l
    case RemoveItem(name, qty) => Remove(l, name, qty)
  }

  /** The effect of a sequence of calls, first to last. */
  function Run(l: Ledger, ops: seq<Op>): (r: Ledger)
    requires WellFormed(l)
    ensures WellFormed(r)
    ensures NonNegative(l) ==> NonNegative(r)
    decreases |ops|
  {
    if ops == [] then l else Run(Step(l, ops[0]), ops[1..])
  }

  /** Running two sequences of calls one after the other is running their concatenation. */
  lemma {:induction false} RunAppend(l: Ledger, first: seq<Op>, second: seq<Op>)
    requires WellFormed(l)
    ensures Run(l, first + second) == Run(Run(l, first), second)
    decreases |first|
  {
    if first != [] {
      assert (first + second)[0] == first[0];
      assert (first + second)[1..] == first[1..] + second;
      RunAppend(Step(l, first[0]), first[1..], second);
    } else {
      assert first + second == second;
    }
  }

  /** From the empty ledger, every sequence of calls leaves all quantities at zero or above. */
  lemma ReachableIsNonNegative(ops: seq<Op>)
    ensures WellFormed(Run(Empty, ops)) && NonNegative(Run(Empty, ops))
  {
  }

  /** A rejected `add_item` leaves the ledger unchanged. */
  lemma RejectedAddIsNoOp(l: Ledger, item: PyValue, qty: PyValue)
    requires WellFormed(l)
    requires item == Str("") || (qty.Int? && qty.i < 0) || !item.Str?
    ensures Step(l, AddItem(item, qty)) == l
  {
  }

  /**
   Adding to an item and then removing the same amount restores the ledger exactly,
   key order included, unless the item was stored at zero or below.
   */
  lemma AddThenRemove(l: Ledger, name: string, amount: int)
    requires WellFormed(l)
    requires name !in l.stock || l.stock[name] > 0
    ensures Remove(Add(l, name, amount), name, amount) == l
  {
    if name !in l.stock {
      WithoutAppended(l.order, name);
      assert (l.stock[name := amount] - {name}) == l.stock;
    } else {
      assert l.stock[name := l.stock[name] + amount][name := l.stock[name]] == l.stock;
    }
  }

  /** Once an item has been deleted, adding it again moves it to the end of the order. */
  lemma DepleteThenAddMovesToEnd(l: Ledger, name: string, qty: int, amount: int)
    requires WellFormed(l)
    requires name in l.stock && l.stock[name] <= qty
    ensures var r := Add(Remove(l, name, qty), name, amount);
            r.order == Without(l.order, name) + [name] && Qty(r, name) == amount
  {
  }

  /** A zero entry is reachable: `add_item(x, 0)` on an absent item stores 0. */
  lemma ZeroQuantityIsStored()
    ensures Run(Empty, [AddItem(Str("x"), Int(0))]) == Ledger(map["x" := 0], ["x"])
  {
  }

  /** The ledger of `main` after apple is added, after banana is added, and at the end. */
  const AppleStocked := Ledger(map["apple" := 10], ["apple"])
  const BothStocked := Ledger(map["apple" := 10, "banana" := 5], ["apple", "banana"])
  const MainResult := Ledger(map["apple" := 7, "banana" := 5], ["apple", "banana"])

  /** `add_item("apple", 10)` on the empty ledger. */
  lemma MainAddApple()
    ensures Add(Empty, "apple", 10) == AppleStocked
  {
  }

  /** `add_item("banana", 5)` appends banana after apple. */
  lemma MainAddBanana()
    ensures WellFormed(AppleStocked) && Add(AppleStocked, "banana", 5) == BothStocked
  {
    assert Add(AppleStocked, "banana", 5).stock == BothStocked.stock;
  }

  /** `remove_item("apple", 3)` leaves 7 apples in place. */
  lemma MainRemoveApple()
    ensures WellFormed(BothStocked) && Remove(BothStocked, "apple", 3) == MainResult
  {
    assert Remove(BothStocked, "apple", 3).stock == MainResult.stock;
  }

  /** `remove_item("orange", 1)`: orange is absent, so nothing changes. */
  lemma MainRemoveOrange()
    ensures WellFormed(MainResult) && Remove(MainResult, "orange", 1) == MainResult
  {
  }

  /** The three `add_item` calls of `main`; `add_item(123, "ten")` is rejected. */
  lemma MainAddsRun()
    ensures Run(Empty, MainAdds()) == BothStocked
  {
    var a1, a2, a3 := AddItem(Str("apple"), Int(10)), AddItem(Str("banana"), Int(5)), AddItem(Int(123), Str("ten"));
    MainAddApple();
    MainAddBanana();
    assert Run(BothStocked, [a3]) == BothStocked by {
      assert [a3][1..] == [];
    }
    assert Run(AppleStocked, [a2, a3]) == BothStocked by {
      assert [a2, a3][1..] == [a3];
    }
    assert [a1, a2, a3][1..] == [a2, a3];
  }

  /** The two `remove_item` calls of `main`. */
  lemma MainRemovesRun()
    ensures WellFormed(BothStocked)
    ensures Run(BothStocked, MainRemoves()) == MainResult
  {
    var r1, r2 := RemoveItem("apple", 3), RemoveItem("orange", 1);
    MainRemoveApple();
    MainRemoveOrange();
    assert Run(MainResult, [r2]) == MainResult by {
      assert [r2][1..] == [];
    }
    assert [r1, r2][1..] == [r2];
  }

  /** The demo in `main`: apple ends at 7 and banana at 5. */
  lemma MainScenario()
    ensures Run(Empty, MainCalls()) == MainResult
    ensures Qty(MainResult, "apple") == 7 && Qty(MainResult, "banana") == 5
  {
    MainAddsRun();
    MainRemovesRun();
    RunAppend(Empty, MainAdds(), MainRemoves());
  }

  /** `check_low_items` on the ledger `main` ends with: empty at the default threshold 5, banana at 6. */
  lemma MainLowItems()
    ensures LowItems(MainResult.order, MainResult.stock, 5) == []
    ensures LowItems(MainResult.order, MainResult.stock, 6) == ["banana"]
  {
    var stock := map["apple" := 7, "banana" := 5];
    var order := ["apple", "banana"];
    assert order[..1] == ["apple"];
    assert ["apple"][..0] == [];
    assert LowItems(["apple"], stock, 5) == [];
    assert LowItems(["apple"], stock, 6) == [];
  }

  /** The calls `main` makes before reading the ledger back. */
  function MainCalls(): seq<Op>
  {
    MainAdds() + MainRemoves()
  }

  /** The `add_item` calls of `main`, in order. */
  function MainAdds(): seq<Op>
  {
    [AddItem(Str("apple"), Int(10)), AddItem(Str("banana"), Int(5)), AddItem(Int(123), Str("ten"))]
  }

  /** The `remove_item` calls of `main`, in order. */
  function MainRemoves(): seq<Op>
  {
    [RemoveItem("apple", 3), RemoveItem("orange", 1)]
  }
}
