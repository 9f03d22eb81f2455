/**
 The shop's fixed price list (`productos` in floreria.py) and the reordering
 `dict(sorted(productos.items(), key=lambda x: x[0]))` that the page applies to
 it once, before anything reads it.
 */
module Catalog {

  type Name = string

  /** A catalog row: a flower name and its unit price in MXN (whole pesos). */
  type Entry = (Name, int)

  /** The table as the dictionary literal lists it, in its written order. */
  const Table: seq<Entry> := [
    ("Rosa", 30),
    ("Lisianthus", 40),
    ("Clavel", 20),
    ("Margarita", 20),
    ("Mini rosa", 35),
    ("Tulipan", 100),
    ("Hortencia", 200),
    ("Gerbera", 40),
    ("Mini gerbera", 45),
    ("Ranunculos", 120),
    ("Anemona", 120),
    ("delphinum", 75),
    ("Perrito", 25),
    ("Roxana", 30),
    ("Eucalipto", 10),
    ("Miller", 25),
    ("Encaje", 30),
    ("Escabriosa", 30),
    ("Craspedia", 30),
    ("Girasol", 75),
    ("Rosa Inglesa", 75),
    ("Rosa Ohara", 35)
  ]

  // ---------------------------------------------------------------------------
  // Python's ordering on str
  // ---------------------------------------------------------------------------

  /** `a < b` on Python strings: lexicographic by code point, a proper prefix first. */
  predicate Precedes(a: Name, b: Name)
  {
    PrecedesFrom(a, b, 0)
  }

  /** The comparison from position `i` on, the two names agreeing before it. */
  predicate PrecedesFrom(a: Name, b: Name, i: nat)
    requires i <= |a| && i <= |b|
    decreases |a| - i
  {
    if i == |a| then i < |b|
    else if i == |b| then false
    else if a[i] != b[i] then a[i] < b[i]
    else PrecedesFrom(a, b, i + 1)
  }

  lemma {:induction false} FromIrreflexive(a: Name, i: nat)
    requires i <= |a|
    ensures !PrecedesFrom(a, a, i)
    decreases |a| - i
  {
    if i < |a| {
      FromIrreflexive(a, i + 1);
    }
  }

  lemma {:induction false} FromTransitive(a: Name, b: Name, c: Name, i: nat)
    requires i <= |a| && i <= |b| && i <= |c|
    requires PrecedesFrom(a, b, i) && PrecedesFrom(b, c, i)
    ensures PrecedesFrom(a, c, i)
    decreases |a| - i
  {
    if i < |a| && i < |b| && i < |c| && a[i] == b[i] && b[i] == c[i] {
      FromTransitive(a, b, c, i + 1);
    }
  }

  lemma {:induction false} FromTotal(a: Name, b: Name, i: nat)
    requires i <= |a| && i <= |b|
    ensures PrecedesFrom(a, b, i) || PrecedesFrom(b, a, i) || a[i..] == b[i..]
    decreases |a| - i
  {
    if i < |a| && i < |b| && a[i] == b[i] {
      FromTotal(a, b, i + 1);
      assert a[i..] == [a[i]] + a[i + 1..] && b[i..] == [b[i]] + b[i + 1..];
    }
  }

  lemma PrecedesIrreflexive(a: Name)
    ensures !Precedes(a, a)
  {
    FromIrreflexive(a, 0);
  }

  lemma PrecedesTransitive(a: Name, b: Name, c: Name)
    requires Precedes(a, b) && Precedes(b, c)
    ensures Precedes(a, c)
  {
    FromTransitive(a, b, c, 0);
  }

  lemma PrecedesTotal(a: Name, b: Name)
    requires a != b
    ensures Precedes(a, b) || Precedes(b, a)
  {
    FromTotal(a, b, 0);
    assert a[0..] == a && b[0..] == b;
  }

  lemma PrecedesAsymmetric(a: Name, b: Name)
    requires Precedes(a, b)
    ensures !Precedes(b, a)
  {
    if Precedes(b, a) {
      PrecedesTransitive(a, b, a);
      PrecedesIrreflexive(a);
    }
  }

  // ---------------------------------------------------------------------------
  // sorted(items, key=name): a stable insertion sort on the name
  // ---------------------------------------------------------------------------

  /** Every name precedes every later name: strictly ascending, hence no name twice. */
  predicate Ascending(s: seq<Entry>)
  {
    forall i, j :: 0 <= i < j < |s| ==> Precedes(s[i].0, s[j].0)
  }

  /** No name occurs twice, as in the keys of a dictionary. */
  predicate DistinctNames(s: seq<Entry>)
  {
    forall i, j :: 0 <= i < j < |s| ==> s[i].0 != s[j].0
  }

  /** Places `e` before the first row whose name does not precede its own. */
  function Insert(e: Entry, s: seq<Entry>): (r: seq<Entry>)
    ensures multiset(r) == multiset(s) + multiset{e}
    ensures Ascending(s) && (forall x :: x in s ==> x.0 != e.0) ==> Ascending(r)
  {
    if s == [] then [e]
    else if Precedes(s[0].0, e.0) then
      var rest := Insert(e, s[1..]);
      assert s == [s[0]] + s[1..];
      assert forall x :: x in rest ==> x == e || x in s[1..] by {
        forall x | x in rest ensures x == e || x in s[1..] {
          assert x in multiset(rest);
        }
      }
      InsertAscendingHead(s[0], e, s[1..], rest);
      [s[0]] + rest
    else
      PrependAscending(e, s);
      [e] + s
  }

  /** The row kept in front stays in front: it precedes `e` and all later rows. */
  lemma InsertAscendingHead(h: Entry, e: Entry, tail: seq<Entry>, rest: seq<Entry>)
    requires Precedes(h.0, e.0)
    requires forall x :: x in rest ==> x == e || x in tail
    requires Ascending(tail) && (forall x :: x in tail ==> x.0 != e.0) ==> Ascending(rest)
    ensures Ascending([h] + tail) && (forall x :: x in [h] + tail ==> x.0 != e.0) ==> Ascending([h] + rest)
  {
    var s := [h] + tail;
    if Ascending(s) && (forall x :: x in s ==> x.0 != e.0) {
      forall x | x in tail ensures Precedes(h.0, x.0) {
        var k :| 0 <= k < |tail| && tail[k] == x;
        assert s[0] == h && s[k + 1] == x;
      }
      assert Ascending(tail) by {
        forall i, j | 0 <= i < j < |tail| ensures Precedes(tail[i].0, tail[j].0) {
          assert s[i + 1] == tail[i] && s[j + 1] == tail[j];
        }
      }
      assert forall x :: x in tail ==> x.0 != e.0 by {
        forall x | x in tail ensures x.0 != e.0 {
          assert x in s;
        }
      }
      forall i, j | 0 <= i < j < |[h] + rest| ensures Precedes(([h] + rest)[i].0, ([h] + rest)[j].0) {
        if i == 0 {
          assert ([h] + rest)[j] in rest;
        } else {
          assert ([h] + rest)[i] == rest[i - 1] && ([h] + rest)[j] == rest[j - 1];
        }
      }
    }
  }

  /** `e` goes in front when the first row does not precede it. */
  lemma PrependAscending(e: Entry, s: seq<Entry>)
    requires s != [] && !Precedes(s[0].0, e.0)
    ensures Ascending(s) && (forall x :: x in s ==> x.0 != e.0) ==> Ascending([e] + s)
  {
    if Ascending(s) && (forall x :: x in s ==> x.0 != e.0) {
      assert s[0] in s;
      PrecedesTotal(e.0, s[0].0);
      forall i, j | 0 <= i < j < |[e] + s| ensures Precedes(([e] + s)[i].0, ([e] + s)[j].0) {
        if i == 0 {
          if j > 1 {
            PrecedesTransitive(e.0, s[0].0, s[j - 1].0);
          }
        } else {
          assert ([e] + s)[i] == s[i - 1] && ([e] + s)[j] == s[j - 1];
        }
      }
    }
  }

  /** Python's `sorted(items, key=lambda x: x[0])`: insertion from the back keeps it stable. */
  function SortByName(s: seq<Entry>): (r: seq<Entry>)
    ensures multiset(r) == multiset(s)
    ensures DistinctNames(s) ==> Ascending(r)
  {
    if s == [] then []
    else
      var rest := SortByName(s[1..]);
      assert s == [s[0]] + s[1..];
      assert DistinctNames(s) ==> DistinctNames(s[1..]) && forall x :: x in rest ==> x.0 != s[0].0 by {
        if DistinctNames(s) {
          forall x | x in rest ensures x.0 != s[0].0 {
            assert x in multiset(s[1..]);
            var k :| 0 <= k < |s[1..]| && s[1..][k] == x;
            assert s[k + 1] == x;
          }
        }
      }
      Insert(s[0], rest)
  }

  lemma AscendingDistinct(s: seq<Entry>)
    requires Ascending(s)
    ensures DistinctNames(s)
  {
    forall i, j | 0 <= i < j < |s| ensures s[i].0 != s[j].0 {
      PrecedesIrreflexive(s[i].0);
    }
  }

  // ---------------------------------------------------------------------------
  // dict(items): later rows overwrite earlier ones
  // ---------------------------------------------------------------------------

  /** The names of the rows, in row order. */
  function NamesOf(s: seq<Entry>): (r: seq<Name>)
    ensures |r| == |s| && forall i :: 0 <= i < |s| ==> r[i] == s[i].0
  {
    seq(|s|, i requires 0 <= i < |s| => s[i].0)
  }

  /** Python's `dict(items)`: the map from name to price, the last row for a name winning. */
  function ToMap(s: seq<Entry>): (m: map<Name, int>)
    ensures forall x :: x in s ==> x.0 in m
    ensures forall n :: n in m ==> exists x :: x in s && x.0 == n && m[n] == x.1
    ensures DistinctNames(s) ==> forall x :: x in s ==> m[x.0] == x.1
  {
    if s == [] then map[]
    else
      var init := s[..|s| - 1];
      var last := s[|s| - 1];
      assert s == init + [last];
      assert DistinctNames(s) ==> DistinctNames(init) && forall x :: x in init ==> x.0 != last.0 by {
        if DistinctNames(s) {
          forall x | x in init ensures x.0 != last.0 {
            var k :| 0 <= k < |init| && init[k] == x;
            assert s[k] == x;
          }
        }
      }
      ToMap(init)[last.0 := last.1]
  }

  /** Two orderings of the same rows, without a repeated name, make the same dictionary. */
  lemma {:induction false} PermutedSameMap(a: seq<Entry>, b: seq<Entry>)
    requires multiset(a) == multiset(b)
    requires DistinctNames(a) && DistinctNames(b)
    ensures ToMap(a) == ToMap(b)
  {
    var ma, mb := ToMap(a), ToMap(b);
    forall n | n in ma ensures n in mb && mb[n] == ma[n] {
      var x :| x in a && x.0 == n && ma[n] == x.1;
      assert x in multiset(a);
      assert x in b;
    }
    forall n | n in mb ensures n in ma {
      var x :| x in b && x.0 == n && mb[n] == x.1;
      assert x in multiset(b);
      assert x in a;
    }
  }

  lemma {:induction false} DistinctCard(s: seq<Name>)
    requires forall i, j :: 0 <= i < j < |s| ==> s[i] != s[j]
    ensures |set n | n in s| == |s|
  {
    if s != [] {
      var tail := s[1..];
      forall i, j | 0 <= i < j < |tail| ensures tail[i] != tail[j] {
        assert tail[i] == s[i + 1] && tail[j] == s[j + 1];
      }
      DistinctCard(tail);
      forall k | 0 <= k < |tail| ensures tail[k] != s[0] {
        assert tail[k] == s[k + 1];
      }
      assert (set n | n in s) == (set n | n in tail) + {s[0]} by {
        assert s == [s[0]] + tail;
      }
    }
  }

  /** Sorting keeps the rows: the same rows, as many of them. */
  lemma SortedRows(t: seq<Entry>)
    ensures |SortByName(t)| == |t|
    ensures forall x :: x in SortByName(t) <==> x in t
  {
    var s := SortByName(t);
    assert |multiset(s)| == |multiset(t)|;
    forall x ensures x in s <==> x in t {
      assert x in s <==> x in multiset(s);
      assert x in t <==> x in multiset(t);
    }
  }

  /** Sorting a table without repeated names: strictly ascending, and the same dictionary. */
  lemma SortedTable(t: seq<Entry>)
    requires DistinctNames(t)
    ensures Ascending(SortByName(t))
    ensures ToMap(SortByName(t)) == ToMap(t)
  {
    AscendingDistinct(SortByName(t));
    PermutedSameMap(SortByName(t), t);
  }

  /** The keys of the dictionary made from a table are the table's names. */
  lemma KeysAreNames(s: seq<Entry>)
    ensures forall n :: n in ToMap(s) <==> n in NamesOf(s)
  {
    var names := NamesOf(s);
    forall n | n in ToMap(s) ensures n in names {
      var x :| x in s && x.0 == n && ToMap(s)[n] == x.1;
      var k :| 0 <= k < |s| && s[k] == x;
      assert names[k] == n;
    }
    forall n | n in names ensures n in ToMap(s) {
      var k :| 0 <= k < |names| && names[k] == n;
      assert s[k] in s;
    }
  }

  /** A table without repeated names makes a dictionary with one key per row. */
  lemma DistinctKeyCount(s: seq<Entry>)
    requires DistinctNames(s)
    ensures |ToMap(s)| == |s|
  {
    var names := NamesOf(s);
    KeysAreNames(s);
    assert ToMap(s).Keys == set n | n in names;
    DistinctCard(names);
  }

  /** Strict order between neighbours is enough: `Precedes` is transitive. */
  lemma {:induction false} NeighboursAscending(s: seq<Entry>)
    requires forall i :: 0 <= i < |s| - 1 ==> Precedes(s[i].0, s[i + 1].0)
    ensures Ascending(s)
  {
    if |s| > 1 {
      var tail := s[1..];
      forall i | 0 <= i < |tail| - 1 ensures Precedes(tail[i].0, tail[i + 1].0) {
        assert tail[i] == s[i + 1] && tail[i + 1] == s[i + 2];
      }
      NeighboursAscending(tail);
      forall i, j | 0 <= i < j < |s| ensures Precedes(s[i].0, s[j].0) {
        if i == 0 {
          if j > 1 {
            assert tail[0] == s[1] && tail[j - 1] == s[j];
            PrecedesTransitive(s[0].0, s[1].0, s[j].0);
          }
        } else {
          assert tail[i - 1] == s[i] && tail[j - 1] == s[j];
        }
      }
    }
  }

  /** Positive prices in the rows give positive values in the dictionary. */
  lemma PositiveDictionary(s: seq<Entry>)
    requires forall x :: x in s ==> x.1 > 0
    ensures forall n :: n in ToMap(s) ==> ToMap(s)[n] > 0
  {
  }

  /** Two strictly ascending tables with the same rows are the same table. */
  lemma {:induction false} AscendingUnique(a: seq<Entry>, b: seq<Entry>)
    requires Ascending(a) && Ascending(b)
    requires forall x :: x in a <==> x in b
    ensures a == b
  {
    assert a == [] <==> b == [] by {
      if a != [] {
        assert a[0] in a;
      }
      if b != [] {
        assert b[0] in b;
      }
    }
    if a != [] {
      assert a[0] in b;
      assert b[0] in a;
      var j :| 0 <= j < |b| && b[j] == a[0];
      var i :| 0 <= i < |a| && a[i] == b[0];
      if j != 0 {
        if i == 0 {
          PrecedesIrreflexive(b[0].0);
        } else {
          PrecedesAsymmetric(a[0].0, b[0].0);
        }
      }
      assert a[0] == b[0];
      var ta, tb := a[1..], b[1..];
      assert Ascending(ta) by {
        forall p, q | 0 <= p < q < |ta| ensures Precedes(ta[p].0, ta[q].0) {
          assert ta[p] == a[p + 1] && ta[q] == a[q + 1];
        }
      }
      assert Ascending(tb) by {
        forall p, q | 0 <= p < q < |tb| ensures Precedes(tb[p].0, tb[q].0) {
          assert tb[p] == b[p + 1] && tb[q] == b[q + 1];
        }
      }
      forall x ensures x in ta <==> x in tb {
        if x in ta {
          var k :| 0 <= k < |ta| && ta[k] == x;
          assert a[k + 1] == x;
          PrecedesIrreflexive(a[0].0);
          assert x in b && x != b[0];
          var m :| 0 <= m < |b| && b[m] == x;
          assert tb[m - 1] == x;
        }
        if x in tb {
          var k :| 0 <= k < |tb| && tb[k] == x;
          assert b[k + 1] == x;
          PrecedesIrreflexive(b[0].0);
          assert x in a && x != a[0];
          var m :| 0 <= m < |a| && a[m] == x;
          assert ta[m - 1] == x;
        }
      }
      AscendingUnique(ta, tb);
      assert a == [a[0]] + ta && b == [b[0]] + tb;
    }
  }

  /** Sorting a table without repeated names yields the one ascending table of its rows. */
  lemma SortedIs(t: seq<Entry>, e: seq<Entry>)
    requires DistinctNames(t) && Ascending(e)
    requires forall x :: x in e <==> x in t
    ensures SortByName(t) == e
  {
    SortedTable(t);
    SortedRows(t);
    AscendingUnique(SortByName(t), e);
  }

  /** The dictionary made from an ascending table: its keys are the names, listed in order. */
  lemma AscendingDictionary(s: seq<Entry>)
    requires Ascending(s)
    ensures |NamesOf(s)| == |ToMap(s)| == |s|
    ensures forall n :: n in ToMap(s) <==> n in NamesOf(s)
    ensures forall i, j :: 0 <= i < j < |NamesOf(s)| ==> Precedes(NamesOf(s)[i], NamesOf(s)[j])
    ensures forall x :: x in s ==> ToMap(s)[x.0] == x.1
  {
    AscendingDistinct(s);
    KeysAreNames(s);
    DistinctKeyCount(s);
  }

  // ---------------------------------------------------------------------------
  // The catalog the page works with
  // ---------------------------------------------------------------------------

  /** `productos.items()` after line 102: the rows in ascending code-point order of name. */
  const Entries: seq<Entry> := [
    ("Anemona", 120),
    ("Clavel", 20),
    ("Craspedia", 30),
    ("Encaje", 30),
    ("Escabriosa", 30),
    ("Eucalipto", 10),
    ("Gerbera", 40),
    ("Girasol", 75),
    ("Hortencia", 200),
    ("Lisianthus", 40),
    ("Margarita", 20),
    ("Miller", 25),
    ("Mini gerbera", 45),
    ("Mini rosa", 35),
    ("Perrito", 25),
    ("Ranunculos", 120),
    ("Rosa", 30),
    ("Rosa Inglesa", 75),
    ("Rosa Ohara", 35),
    ("Roxana", 30),
    ("Tulipan", 100),
    ("delphinum", 75)
  ]

  /** The product names in the order the catalog and the sidebar list them. */
  const Names: seq<Name> := NamesOf(Entries)

  /** `productos` as a dictionary: name to unit price. */
  const Prices: map<Name, int> := ToMap(Entries)

  lemma TableDistinct()
    ensures DistinctNames(Table)
  {
    forall i, j | 0 <= i < j < |Table| ensures Table[i].0 != Table[j].0 {
      assert |Table| == 22;
      assert i < 22 && j < 22;
    }
  }

  // The neighbour comparisons, evaluated on the literal in two halves.

  lemma EntriesInOrderLow()
    ensures forall i :: 0 <= i < 11 ==> Precedes(Entries[i].0, Entries[i + 1].0)
  {
  }

  lemma EntriesInOrderHigh()
    ensures forall i :: 11 <= i < 21 ==> Precedes(Entries[i].0, Entries[i + 1].0)
  {
  }

  /** The table above is strictly ascending in Python's order on names. */
  lemma EntriesAscending()
    ensures Ascending(Entries)
  {
    EntriesInOrderLow();
    EntriesInOrderHigh();
    NeighboursAscending(Entries);
  }

  lemma EntriesRows()
    ensures forall x :: x in Entries <==> x in Table
  {
  }

  /** Line 102 reorders the literal into exactly the table above. */
  lemma CatalogSorted()
    ensures SortByName(Table) == Entries
  {
    TableDistinct();
    EntriesAscending();
    EntriesRows();
    SortedIs(Table, Entries);
  }

  /** Sorting changes the order only: the dictionary is the literal's, name for name. */
  lemma CatalogSamePrices()
    ensures Prices == ToMap(Table)
  {
    TableDistinct();
    SortedTable(Table);
    CatalogSorted();
  }

  /** The names listed are exactly the catalog's keys, each once, in ascending order. */
  lemma NamesAreKeys()
    ensures |Names| == |Prices| == 22
    ensures forall n :: n in Prices <==> n in Names
    ensures forall i, j :: 0 <= i < j < |Names| ==> Precedes(Names[i], Names[j])
  {
    EntriesAscending();
    AscendingDictionary(Entries);
  }

  /** Every unit price in the catalog is a positive number of pesos. */
  lemma PricesPositive()
    ensures forall n :: n in Prices ==> Prices[n] > 0
  {
    PositiveDictionary(Entries);
  }

  /** All other names start with a capital, below 'd': the lower-case "delphinum" sorts last. */
  lemma DelphinumLast()
    ensures Names[|Names| - 1] == "delphinum"
    ensures exists i :: 0 <= i < |Names| - 1 && Names[i] == "Roxana"
    ensures forall i :: 0 <= i < |Names| - 1 ==> Precedes(Names[i], "delphinum")
  {
    EntriesAscending();
    assert Names[19] == "Roxana";
  }

  /** A row of the catalog is found in the dictionary at its own price. */
  lemma PriceOf(x: Entry)
    requires x in Entries
    ensures x.0 in Prices && Prices[x.0] == x.1
  {
    EntriesAscending();
    AscendingDictionary(Entries);
  }
}
