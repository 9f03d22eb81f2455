# Artemisa Florería: the order cart, in Dafny

`floreria.py` is a one-page Streamlit quote tool for a flower shop. Its logic is
small. A fixed price list (`productos`) is reordered by name. A sidebar loop
reads one quantity per product and keeps the session's order
(`st.session_state.pedido`) in step with those quantities. A button clears the
order. The page then shows the sum of the order's subtotals, or a "nothing
selected yet" note when the order is empty.

This project models that logic in two modules:

- `catalog.dfy` (module `Catalog`) models the price list.
  - `Table` is the dictionary literal in its written order.
  - `Precedes` is Python's `<` on `str`: code point by code point, with a proper prefix first.
  - `SortByName` is a stable insertion sort standing for `sorted(..., key=lambda x: x[0])`.
  - `ToMap` stands for `dict(...)`.
  - `Entries`, `Names` and `Prices` are the catalog after line 102. The lemmas prove that `Entries` is exactly `SortByName(Table)` and that sorting kept every name at its price.
- `cart.dfy` (module `Cart`) models the order.
  - A line item (`cantidad`, `precio_unitario`, `subtotal`) is the datatype `LineItem`.
  - One step of the sidebar loop is the pure function `Updated`.
  - A full pass is `Selected`. The values the number inputs start from are `Shown` and `Defaults`.
  - The total is `Total`, a sum over the map taken in any order.
  - The session's order is the class `Order`, whose `lines` field the methods `SetQuantity`, `ApplySidebar` and `Clear` update in place. `TotalAmount` adds the subtotals in a loop.

The price table is a parameter of the cart functions and a field of `Order`.
`NewSession` builds an `Order` over the shop's own catalog. `ShopCatalog` proves
that this catalog meets what the order relies on: positive prices, and one
listed name per key.

Prices and quantities are whole numbers, as in the source. Python's `int` is
unbounded, like Dafny's `int`, so nothing wraps around.

## Model

| member | source | states |
|---|---|---|
| `Catalog.PrecedesIrreflexive` | floreria.py:102 | No name sorts before itself. |
| `Catalog.PrecedesTransitive` | floreria.py:102 | The order on names used as the sort key is transitive. |
| `Catalog.PrecedesTotal` | floreria.py:102 | Any two different names are ordered one way or the other. |
| `Catalog.PrecedesAsymmetric` | floreria.py:102 | Two names are never each before the other. |
| `Catalog.SortByName` | floreria.py:102 | `sorted` returns a permutation of the items. When no name repeats, the result is strictly ascending by name. |
| `Catalog.ToMap` | floreria.py:102 | `dict(items)` has a key for every row's name. Every key comes from a row with that price. Without repeated names, every row's name maps to that row's price. |
| `Catalog.PermutedSameMap` | floreria.py:102 | Two orderings of the same rows, with no repeated name, build the same dictionary. |
| `Catalog.SortedTable` | floreria.py:102 | Sorting a table without repeated names gives an ascending table with the same dictionary. |
| `Catalog.SortedIs` | floreria.py:102 | The sort of a duplicate-free table is the only ascending sequence of its rows. |
| `Catalog.AscendingDictionary` | floreria.py:102 | From an ascending table, the dictionary's keys are exactly the listed names, one per row, in ascending order, each at its row's price. |
| `Catalog.TableDistinct` | floreria.py:78-101 | The 22 names of the literal are pairwise different. |
| `Catalog.EntriesAscending` | floreria.py:102 | The reordered table is strictly ascending in code-point order. |
| `Catalog.CatalogSorted` | floreria.py:78-102 | Sorting the literal's items by name gives exactly `Entries`, row for row. |
| `Catalog.CatalogSamePrices` | floreria.py:78-102 | The reordered dictionary pairs every name with the same price as the literal. |
| `Catalog.NamesAreKeys` | floreria.py:102 | The catalog has 22 products. The names listed are exactly its keys, each once, in ascending order. |
| `Catalog.PricesPositive` | floreria.py:78-101 | Every unit price is positive. |
| `Catalog.DelphinumLast` | floreria.py:90-102 | Lower-case "delphinum" sorts after every capitalised name, "Roxana" included, so it is listed last. |
| `Catalog.PriceOf` | floreria.py:78-102 | Each row of the catalog is found in the dictionary at its own price. |
| `Cart.LineFor` | floreria.py:151-155 | The stored line holds the quantity, the catalog's unit price and their product. |
| `Cart.Updated` | floreria.py:150-157 | After one step, the product has a line iff its quantity is positive. That line holds the quantity, the catalog price and the subtotal `q * price`. Zero on a product with no line changes nothing. Every other product's line is untouched. The order's invariant is kept. |
| `Cart.Shown` | floreria.py:147 | The input starts at the stored quantity, or at 0 without a line. On a well-formed order that value is in range, and it is positive iff the product has a line. |
| `Cart.UpdatedShown` | floreria.py:147-157 | Feeding a product its own starting value back leaves the order unchanged. |
| `Cart.Selected` | floreria.py:142-157 | After a full pass, the order's keys are exactly the products with a positive quantity, each line at that quantity. The order's invariant holds. |
| `Cart.Defaults` | floreria.py:143-149 | The starting values cover every catalog product and lie within 0..100. A value is positive iff the product has a line. |
| `Cart.RerunUnchanged` | floreria.py:142-157 | A rerun in which no input is touched reproduces the order exactly. |
| `Cart.TotalRemove` | floreria.py:177 | The sum of subtotals does not depend on the order of summation: any line can be taken first. |
| `Cart.TotalPositive` | floreria.py:177 | With positive prices the total is never negative. It is 0 exactly when the order is empty. |
| `Cart.TotalUpdated` | floreria.py:150-157 | One step of the loop changes the total by the product's new subtotal minus its old one. |
| `Cart.ShopCatalog` | floreria.py:78-102 | The shop's catalog has positive prices and lists each of its keys. |
| `Cart.Order.constructor` | floreria.py:107-108 | A session starts with an empty, well-formed order. |
| `Cart.NewSession` | floreria.py:107-108 | The first run creates an empty order over the shop's catalog. |
| `Cart.Order.SetQuantity` | floreria.py:150-157 | One iteration updates `pedido` to `Updated` of its old value, keeps the invariant, and moves the total by new minus old subtotal. |
| `Cart.Order.ApplySidebar` | floreria.py:142-157 | Visiting every catalog product in catalog order leaves the order equal to `Selected` of the quantities read, whatever it held before. |
| `Cart.Order.Clear` | floreria.py:160-161 | Clearing empties the order whatever it held, so clearing twice is the same as once. The total becomes 0. |
| `Cart.Order.TotalAmount` | floreria.py:177 | Adding the subtotals one line at a time gives the order's total. |
| `Cart.Order.HasSelection` | floreria.py:165-181 | The summary is shown iff the order is non-empty. On a well-formed order, that is iff the total is positive. |
| `Cart.TwoProductSession` | floreria.py:150-177 | With Rosa at 30 and Clavel at 20, three roses and five carnations total 190. Setting roses to 0 leaves 100, and clearing leaves 0. |

## Left out

- The page's CSS (floreria.py:8-64), logo loading from disk (69-75), title and welcome text (111-116), and the free-text promotions box (121-129): presentation only.
- The catalog and summary tables (133-138, 166-175) and the currency formatting of the total (178-179): the DataFrame building and `f"${x:,.2f}"` rendering are display only.
- Lines in a Python `dict` keep insertion order, and that order decides the row order of the summary table. The model keeps the order as a `map`, so the summary's row order is not modelled.
- The widgets are replaced by their values. `ApplySidebar` takes the quantity each input reads as a parameter. `Defaults` gives the `value=` the page passes. How Streamlit keeps a widget's state between reruns is not modelled, nor is `st.rerun()` (162).
- The number input's bounds (0..100) and the catalog membership of a name are preconditions of `Updated`, `SetQuantity` and `ApplySidebar`. floreria.py has no error path for them, because the widget cannot produce other values and the loop only visits catalog names. An API with "not found" and "invalid quantity" error results, or a per-product `remove`, does not exist in the code, so it is not modelled.
- Catalog.SortByName: its contract states the permutation and, for tables without repeated names, the ascending order. Stability for equal names is not stated, because the keys of a dictionary never repeat.
- Catalog.ToMap: "the last row wins" for a repeated name is not stated. Python collapses repeated keys of a dict literal before `items()` is called, so `dict(sorted(...))` never sees one.
- `Total` is a ghost function. Python's `sum` adds in insertion order. `TotalRemove` shows that the order of summation does not matter for integers.
