# Inventory ledger

A Dafny model of the inventory store in `inventory_system.py`. The store is the
module-global dict `stock_data`, which maps item names to integer quantities.
Four functions work on it:

- `add_item` checks its arguments, adds a quantity to an item and appends a
  line to the caller's log list.
- `remove_item` subtracts a quantity and deletes the item once it reaches zero
  or below.
- `get_qty` reads a quantity, with 0 for an absent item.
- `check_low_items` lists the items below a threshold, in dict iteration order.

The state is a map plus the order in which its keys were inserted. A Python dict
iterates in insertion order, and a key that is deleted and added again goes to
the end. `check_low_items` returns its result in that order.

The project has three modules:

- `Seqs` (seqs.dfy): sequences without duplicates, the index of an element, and
  deleting an element from the key order.
- `LedgerSpec` (ledger.dfy): the ledger as a value (`Ledger`: the map and the key
  order). It holds the specification of each operation as a function, the
  invariants `WellFormed` (keys and order agree, no key twice) and `NonNegative`,
  and the lemmas about them. `Op`, `Step` and `Run` describe a sequence of calls.
  The call sequence of `main` is proved as a scenario.
- `InventorySystem` (inventory.dfy): class `Inventory` with the fields `stock` and
  `order`, updated in place by `AddItem` and `RemoveItem`. `GetQty` is a function
  that only reads. `CheckLowItems` is the source's loop with its invariant. Class
  `LogList` is the list a caller passes as `logs`. Every method is proved against
  the functions of `LedgerSpec`.

Python's run-time type checks in `add_item` are modelled with `PyValue`: a string,
an int, a bool or any other value. `bool` is a subclass of `int` in Python, so
`add_item("x", True)` is accepted and adds 1. The two warnings `add_item` can log
are told apart by its result (`InvalidItem`, `InvalidQuantity`). The result of
`remove_item` is `NotFound` (it logs "not found"), `Depleted` (it logs that the
item was removed) or `Decremented` (it logs nothing).

The ledger is meant to keep every quantity strictly positive. The code does not:
`add_item(x, 0)` on an absent item stores 0 (inventory_system.py:45). The model
follows the code. The invariant it proves is that every quantity is at least zero
(`ZeroQuantityIsStored` shows a zero entry). `remove_item` does not check `qty`,
so a negative `qty` adds stock. The model keeps that too.

## Model

| member | source | states |
|---|---|---|
| `Seqs.Without` | inventory_system.py:69 | deleting a key from the order keeps every other key and drops that one; no key appears twice afterwards; deleting an absent key changes nothing |
| `Seqs.WithoutSplits` | inventory_system.py:69 | in an order without duplicates, deleting a key leaves the keys before it followed by the keys after it, each group in its old order, as `del` does to a dict's iteration order |
| `Seqs.WithoutAppended` | inventory_system.py:45-69 | deleting a key that was just appended gives back the previous order |
| `LedgerSpec.Qty` | inventory_system.py:90 | the stored quantity for a present item, 0 for an absent one, never negative in a non-negative ledger |
| `LedgerSpec.CheckAddArgs` | inventory_system.py:37-43 | the item is rejected exactly when it is not a non-empty string; otherwise the quantity is rejected exactly when it is neither a bool nor an int of at least 0; an accepted call has a non-empty name and an amount of at least 0, which is the int quantity itself, or 1 for `True` and 0 for `False` |
| `LedgerSpec.Add` | inventory_system.py:45 | the item's quantity becomes its old quantity plus the amount; no other item's quantity changes; a new item is appended to the key order and an existing one keeps its place; the invariant is kept, and so is non-negativity for an amount of at least 0 |
| `LedgerSpec.Remove` | inventory_system.py:63-69 | an absent item leaves the ledger unchanged; if old minus qty is above 0, that becomes the quantity and the order is unchanged; otherwise the key leaves both the map and the order, and the other keys keep their relative order; no other item changes; afterwards the item is absent or strictly positive, so non-negativity is kept for every qty |
| `LedgerSpec.LowItems` | inventory_system.py:162-166 | a name is in the result exactly when it is a stored key whose quantity is below the threshold; no name appears twice |
| `LedgerSpec.LowItemsKeepOrder` | inventory_system.py:163-165 | the low items appear in the same relative order as their keys in the insertion order |
| `LedgerSpec.Step` | inventory_system.py:22-77 | one `add_item` or `remove_item` call keeps the invariant and non-negativity |
| `LedgerSpec.Run` | inventory_system.py:19-77 | any sequence of calls keeps the invariant and non-negativity |
| `LedgerSpec.RunAppend` | inventory_system.py:178-182 | running two call sequences one after the other is the same as running their concatenation |
| `LedgerSpec.ReachableIsNonNegative` | inventory_system.py:19-69 | from the empty ledger, every sequence of calls leaves every quantity at 0 or above |
| `LedgerSpec.RejectedAddIsNoOp` | inventory_system.py:37-43 | `add_item` with an empty or non-string name or a negative int quantity leaves the ledger unchanged |
| `LedgerSpec.AddThenRemove` | inventory_system.py:45-69 | adding an amount and then removing the same amount restores the ledger exactly, key order included, unless the item was stored at 0 or below |
| `LedgerSpec.DepleteThenAddMovesToEnd` | inventory_system.py:45-69 | once an item has been removed down to zero, adding it again puts it last in the order, with exactly the added amount |
| `LedgerSpec.ZeroQuantityIsStored` | inventory_system.py:41-45 | `add_item("x", 0)` on the empty ledger stores "x" with quantity 0, so "every quantity is positive" does not hold |
| `LedgerSpec.MainAddApple` | inventory_system.py:178 | `add_item("apple", 10)` on the empty ledger gives {apple: 10} |
| `LedgerSpec.MainAddBanana` | inventory_system.py:179 | `add_item("banana", 5)` then gives {apple: 10, banana: 5}, with banana second |
| `LedgerSpec.MainRemoveApple` | inventory_system.py:181 | `remove_item("apple", 3)` then gives {apple: 7, banana: 5}, with the order unchanged |
| `LedgerSpec.MainRemoveOrange` | inventory_system.py:182 | `remove_item("orange", 1)` on a ledger without orange changes nothing |
| `LedgerSpec.MainAddsRun` | inventory_system.py:178-180 | the three `add_item` calls of `main`, including the rejected `add_item(123, "ten")`, give {apple: 10, banana: 5} |
| `LedgerSpec.MainRemovesRun` | inventory_system.py:181-182 | the two `remove_item` calls of `main` then give {apple: 7, banana: 5} |
| `LedgerSpec.MainScenario` | inventory_system.py:178-184 | the calls of `main` end with apple at 7 and banana at 5 |
| `LedgerSpec.MainLowItems` | inventory_system.py:187 | on that ledger no item is below the default threshold 5, because 5 is not below 5; at threshold 6 the result is exactly ["banana"] |
| `InventorySystem.LogList.constructor` | inventory_system.py:22-47 | the caller's `logs` list starts empty; it is only a data stand-in, which `AddItem` appends to |
| `InventorySystem.Inventory.constructor` | inventory_system.py:19 | the store starts as the empty ledger and satisfies its invariant |
| `InventorySystem.Inventory.GetQty` | inventory_system.py:80-90 | reads the store without changing it; gives the stored quantity, or 0 for an absent item; never negative |
| `InventorySystem.Inventory.AddItem` | inventory_system.py:22-48 | returns the verdict of the argument checks; a rejected call changes neither the store nor the log list; an accepted call updates the store as `Add` does, raises the item's `GetQty` by the amount, and appends exactly one entry (quantity and item) to a given log list; the invariant is kept |
| `InventorySystem.Inventory.RemoveItem` | inventory_system.py:51-77 | updates the store as `Remove` does and keeps the invariant; reports NotFound exactly when the item was absent, and Depleted exactly when the item was present and old minus qty is at most 0 |
| `InventorySystem.Inventory.CheckLowItems` | inventory_system.py:152-166 | the result is `LowItems` of the store in iteration order; a name is in it exactly when it is stored with a quantity below the threshold, and no name appears twice; the default threshold is 5 |
| `InventorySystem.Demo` | inventory_system.py:169-188 | the calls of `main` on a fresh store give `get_qty("apple") == 7` and no low items at the default threshold |

## Left out

- `load_data` and `save_data` (inventory_system.py:93-135) are not modelled. They do file I/O and call Python's `json` module, which this model cannot see.
- `print_data` (inventory_system.py:138-149) and the `print` calls of `main` are not modelled. They only write to the console.
- The `logging` calls are not modelled. Which message an operation would log is given by the result of `AddItem` and `RemoveItem`.
- The `datetime.now()` timestamp in a log entry is not modelled. It depends on the clock, so `LogEntry` keeps only the quantity as passed and the item name.
- The `KeyError` and `TypeError` handlers of `remove_item` (inventory_system.py:74-77) are not modelled. `qty` is an `int` in the model, so they cannot fire. A float or non-numeric `qty` is not modelled.
- When `logs` is `None`, `add_item` appends to a fresh list that nothing else can see. The model uses `null` for that case and records nothing.
- For a non-string item, Python's truthiness test is not modelled. Every such item is rejected whether it is truthy or not, so all of them become `Int`, `Bool` or `Other`.
- `main` is not modelled as code. Its calls are the scenario lemmas and `Demo`. Its `save_data`, `load_data` and `print_data` steps (inventory_system.py:190-192) are left out with those functions.
