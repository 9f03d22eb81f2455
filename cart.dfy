/**
 The order of one session (`st.session_state.pedido` in floreria.py): a
 dictionary from product name to a line item. The sidebar's loop over the
 catalog stores a line for every positive quantity and drops the line at zero,
 the clear button empties it, and the total is the sum of the subtotals.

 The functions below take the price table as an argument `prices`; the
 session's `Order` holds the shop's catalog (`Catalog.Prices`) there.
 */
module Cart {
  import Catalog

  type Name = Catalog.Name

  /** The number input's upper bound (`max_value=100`); its lower bound is 0. */
  const MaxQuantity: int := 100

  /** A line of the order: `cantidad`, `precio_unitario` and `subtotal`, in MXN. */
  datatype LineItem = LineItem(quantity: int, unitPrice: int, subtotal: int)

  /** A value the number input can hold. */
  predicate InRange(q: int)
  {
    0 <= q <= MaxQuantity
  }

  /** A price table as the shop's: every price positive, the names listed each key. */
  ghost predicate CatalogShape(prices: map<Name, int>, names: seq<Name>)
  {
    && (forall n :: n in prices ==> prices[n] > 0)
    && (forall n :: n in prices <==> n in names)
  }

  /** A stored line: a catalog product, a positive quantity, the catalog price, and their product. */
  predicate ValidLine(prices: map<Name, int>, name: Name, item: LineItem)
  {
    && name in prices
    && 1 <= item.quantity <= MaxQuantity
    && item.unitPrice == prices[name]
    && item.subtotal == item.quantity * item.unitPrice
  }

  /** The order's invariant: every line is a valid line of its product. */
  predicate WellFormed(prices: map<Name, int>, lines: map<Name, LineItem>)
  {
    forall n :: n in lines ==> ValidLine(prices, n, lines[n])
  }

  /** The line the sidebar writes for `name` at a positive quantity `q`. */
  function LineFor(prices: map<Name, int>, name: Name, q: int): (item: LineItem)
    requires name in prices && 1 <= q <= MaxQuantity
    ensures ValidLine(prices, name, item) && item.quantity == q
  {
    LineItem(q, prices[name], q * prices[name])
  }

  // ---------------------------------------------------------------------------
  // One pass of the sidebar
  // ---------------------------------------------------------------------------

  /**
   One step of the sidebar loop: a positive quantity stores (or overwrites) the
   product's line, zero removes it if it is there.
   */
  function Updated(prices: map<Name, int>, lines: map<Name, LineItem>, name: Name, q: int): (r: map<Name, LineItem>)
    requires name in prices && InRange(q)
    ensures name in r <==> q > 0
    ensures q > 0 ==> r[name].quantity == q && r[name].unitPrice == prices[name]
                      && r[name].subtotal == q * prices[name]
    ensures q == 0 && name !in lines ==> r == lines
    ensures forall n :: n != name ==> (n in r <==> n in lines) && (n in r ==> r[n] == lines[n])
    ensures WellFormed(prices, lines) ==> WellFormed(prices, r)
  {
    if q > 0 then lines[name := LineFor(prices, name, q)]
    else if name in lines then lines - {name}
    else lines
  }

  /** The value the number input starts from: the stored quantity, or 0 when there is no line. */
  function Shown(lines: map<Name, LineItem>, name: Name): (q: int)
    ensures name in lines ==> q == lines[name].quantity
    ensures forall prices :: WellFormed(prices, lines) ==> InRange(q) && (q > 0 <==> name in lines)
  {
    if name in lines then lines[name].quantity else 0
  }

  /** Feeding a product its own shown value back changes nothing. */
  lemma UpdatedShown(prices: map<Name, int>, lines: map<Name, LineItem>, name: Name)
    requires WellFormed(prices, lines) && name in prices
    ensures Updated(prices, lines, name, Shown(lines, name)) == lines
  {
    var r := Updated(prices, lines, name, Shown(lines, name));
    if name in lines {
      assert r[name] == lines[name];
    }
  }

  /** A quantity for every catalog product, each within the number input's bounds. */
  predicate ValidChoice(prices: map<Name, int>, qs: map<Name, int>)
  {
    qs.Keys == prices.Keys && forall n :: n in qs ==> InRange(qs[n])
  }

  /** The order after one full pass over the catalog with the quantities `qs`. */
  function Selected(prices: map<Name, int>, qs: map<Name, int>): (r: map<Name, LineItem>)
    requires ValidChoice(prices, qs)
    ensures WellFormed(prices, r)
    ensures forall n :: n in r <==> n in qs && qs[n] > 0
    ensures forall n :: n in r ==> r[n].quantity == qs[n]
  {
    map n | n in qs && qs[n] > 0 :: LineFor(prices, n, qs[n])
  }

  /** The values every number input shows when the page is drawn from the order `lines`. */
  function Defaults(prices: map<Name, int>, lines: map<Name, LineItem>): (qs: map<Name, int>)
    requires WellFormed(prices, lines)
    ensures ValidChoice(prices, qs)
    ensures forall n :: n in qs ==> (qs[n] > 0 <==> n in lines)
  {
    map n | n in prices :: Shown(lines, n)
  }

  /** A rerun in which nobody touches an input leaves the order as it was. */
  lemma RerunUnchanged(prices: map<Name, int>, lines: map<Name, LineItem>)
    requires WellFormed(prices, lines)
    ensures Selected(prices, Defaults(prices, lines)) == lines
  {
    var r := Selected(prices, Defaults(prices, lines));
    forall n | n in lines ensures n in r && r[n] == lines[n] {
      assert Defaults(prices, lines)[n] == lines[n].quantity;
    }
  }

  // ---------------------------------------------------------------------------
  // The total
  // ---------------------------------------------------------------------------

  /** The sum of the subtotals of all lines, taken in any order. */
  ghost function Total(lines: map<Name, LineItem>): int
    decreases |lines|
  {
    if lines == map[] then 0
    else
      var n :| n in lines;
      assert |lines - {n}| < |lines| by {
        assert (lines - {n}).Keys == lines.Keys - {n};
      }
      lines[n].subtotal + Total(lines - {n})
  }

  /** Any line can be summed first. */
  lemma {:induction false} TotalRemove(lines: map<Name, LineItem>, n: Name)
    requires n in lines
    ensures Total(lines) == lines[n].subtotal + Total(lines - {n})
    decreases |lines|
  {
    var m :| m in lines && Total(lines) == lines[m].subtotal + Total(lines - {m});
    if m != n {
      assert |lines - {m}| < |lines| by {
        assert (lines - {m}).Keys == lines.Keys - {m};
      }
      assert |lines - {n}| < |lines| by {
        assert (lines - {n}).Keys == lines.Keys - {n};
      }
      TotalRemove(lines - {m}, n);
      TotalRemove(lines - {n}, m);
      assert lines - {m} - {n} == lines - {n} - {m};
    }
  }

  /** With positive prices the total is positive exactly when the order has a line. */
  lemma {:induction false} TotalPositive(prices: map<Name, int>, lines: map<Name, LineItem>)
    requires WellFormed(prices, lines)
    requires forall n :: n in prices ==> prices[n] > 0
    ensures Total(lines) >= 0
    ensures Total(lines) == 0 <==> lines == map[]
    decreases |lines|
  {
    if lines != map[] {
      var n :| n in lines;
      TotalRemove(lines, n);
      assert |lines - {n}| < |lines| by {
        assert (lines - {n}).Keys == lines.Keys - {n};
      }
      TotalPositive(prices, lines - {n});
      LinePositive(prices, n, lines[n]);
    }
  }

  /** A stored line of a positively priced product has a positive subtotal. */
  lemma LinePositive(prices: map<Name, int>, name: Name, item: LineItem)
    requires ValidLine(prices, name, item) && prices[name] > 0
    ensures item.subtotal >= item.unitPrice > 0
  {
    var q, p := item.quantity, item.unitPrice;
    assert q * p == (q - 1) * p + p;
  }

  /** How one step of the sidebar moves the total: the old subtotal out, the new one in. */
  lemma TotalUpdated(prices: map<Name, int>, lines: map<Name, LineItem>, name: Name, q: int)
    requires name in prices && InRange(q)
    ensures Total(Updated(prices, lines, name, q))
         == Total(lines) - (if name in lines then lines[name].subtotal else 0) + q * prices[name]
  {
    TotalWithout(lines, name);
    if q > 0 {
      TotalStored(prices, lines, name, q);
    } else {
      assert Updated(prices, lines, name, q) == lines - {name};
      assert q * prices[name] == 0;
    }
  }

  /** A stored line replaces whatever the product had: its subtotal plus the rest. */
  lemma TotalStored(prices: map<Name, int>, lines: map<Name, LineItem>, name: Name, q: int)
    requires name in prices && 1 <= q <= MaxQuantity
    ensures Total(Updated(prices, lines, name, q)) == q * prices[name] + Total(lines - {name})
  {
    var item := LineFor(prices, name, q);
    assert Updated(prices, lines, name, q) == (lines - {name})[name := item];
    TotalInsert(lines - {name}, name, item);
  }

  /** Taking a product's line out, if it has one, takes its subtotal off the total. */
  lemma TotalWithout(lines: map<Name, LineItem>, name: Name)
    ensures Total(lines) == (if name in lines then lines[name].subtotal else 0) + Total(lines - {name})
  {
    if name in lines {
      TotalRemove(lines, name);
    } else {
      assert lines - {name} == lines;
    }
  }

  /** A new line adds its subtotal to the total. */
  lemma TotalInsert(lines: map<Name, LineItem>, name: Name, item: LineItem)
    requires name !in lines
    ensures Total(lines[name := item]) == item.subtotal + Total(lines)
  {
    TotalRemove(lines[name := item], name);
    assert lines[name := item] - {name} == lines;
  }

  /** The shop's catalog has the shape the order relies on. */
  lemma ShopCatalog()
    ensures CatalogShape(Catalog.Prices, Catalog.Names)
  {
    Catalog.PricesPositive();
    Catalog.NamesAreKeys();
  }

  // ---------------------------------------------------------------------------
  // The session's order
  // ---------------------------------------------------------------------------

  class Order {
    /** The catalog the sidebar reads (`productos`). */
    const prices: map<Name, int>
    /** The catalog's names, in the order the sidebar loop visits them. */
    const names: seq<Name>
    /** `st.session_state.pedido`: product name to line item. */
    var lines: map<Name, LineItem>

    ghost predicate Valid()
      reads this
    {
      CatalogShape(prices, names) && WellFormed(prices, lines)
    }

    /** A session starts with an empty order over the catalog `prices`, listed as `names`. */
    constructor (prices: map<Name, int>, names: seq<Name>)
      requires CatalogShape(prices, names)
      ensures Valid() && lines == map[]
      ensures this.prices == prices && this.names == names
    {
      this.prices := prices;
      this.names := names;
      lines := map[];
    }

    /** One iteration of the sidebar loop, for the product `name` whose input reads `q`. */
    method SetQuantity(name: Name, q: int)
      requires Valid() && name in prices && InRange(q)
      modifies this
      ensures Valid()
      ensures lines == Updated(prices, old(lines), name, q)
      ensures Total(lines) == Total(old(lines)) - (if name in old(lines) then old(lines)[name].subtotal else 0)
                                                + q * prices[name]
    {
      TotalUpdated(prices, lines, name, q);
      if q > 0 {
        lines := lines[name := LineFor(prices, name, q)];
      } else if name in lines {
        lines := lines - {name};
      }
    }

    /**
     The whole sidebar loop: every catalog product, in catalog order, gets the
     quantity its input reads. Afterwards the order depends on those quantities only.
     */
    method ApplySidebar(qs: map<Name, int>)
      requires Valid() && ValidChoice(prices, qs)
      modifies this
      ensures Valid()
      ensures lines == Selected(prices, qs)
    {
      var i := 0;
      while i < |names|
        invariant 0 <= i <= |names|
        invariant Valid()
        invariant forall n :: n in names[..i] ==> (n in lines <==> qs[n] > 0)
        invariant forall n :: n in names[..i] && n in lines ==> lines[n] == LineFor(prices, n, qs[n])
        invariant forall n :: n !in names[..i] ==> (n in lines <==> n in old(lines))
        invariant forall n :: n !in names[..i] && n in lines ==> lines[n] == old(lines)[n]
      {
        var name := names[i];
        assert names[..i + 1] == names[..i] + [name];
        SetQuantity(name, qs[name]);
        i := i + 1;
      }
      assert names[..i] == names;
      var want := Selected(prices, qs);
      forall n | n in lines ensures n in want && lines[n] == want[n] {
      }
    }

    /** The clear button: the order becomes empty, whatever it held. */
    method Clear()
      modifies this
      requires Valid()
      ensures Valid() && lines == map[]
      ensures Total(lines) == 0
    {
      lines := map[];
    }

    /** The total shown under the summary: the subtotals of the order's lines, added one by one. */
    method TotalAmount() returns (t: int)
      ensures t == Total(lines)
    {
      t := 0;
      var rest := lines;
      while rest != map[]
        invariant t + Total(rest) == Total(lines)
        decreases |rest|
      {
        var n :| n in rest;
        TotalRemove(rest, n);
        t := t + rest[n].subtotal;
        assert |rest - {n}| < |rest| by {
          assert (rest - {n}).Keys == rest.Keys - {n};
        }
        rest := rest - {n};
      }
    }

    /** Whether the page shows the summary and the total rather than "nothing selected yet". */
    function HasSelection(): (b: bool)
      reads this
      ensures b <==> lines != map[]
      ensures Valid() ==> (b <==> Total(lines) > 0)
    {
      assert Valid() ==> (lines != map[] <==> Total(lines) > 0) by {
        if Valid() {
          TotalPositive(prices, lines);
        }
      }
      |lines| > 0
    }
  }

  /** The first run of a session: `pedido` is set to an empty order over the shop's catalog. */
  method NewSession() returns (o: Order)
    ensures fresh(o) && o.Valid() && o.lines == map[]
    ensures o.prices == Catalog.Prices && o.names == Catalog.Names
  {
    ShopCatalog();
    o := new Order(Catalog.Prices, Catalog.Names);
  }

  /**
   A short session over two products: three roses and five carnations cost 190,
   dropping the roses leaves 100, and clearing leaves 0.
   */
  method TwoProductSession() returns (both: int, carnationsOnly: int, cleared: int)
    ensures both == 190 && carnationsOnly == 100 && cleared == 0
  {
    var o := new Order(map["Rosa" := 30, "Clavel" := 20], ["Clavel", "Rosa"]);
    o.SetQuantity("Rosa", 3);
    o.SetQuantity("Clavel", 5);
    both := o.TotalAmount();
    o.SetQuantity("Rosa", 0);
    carnationsOnly := o.TotalAmount();
    o.Clear();
    cleared := o.TotalAmount();
  }
}
