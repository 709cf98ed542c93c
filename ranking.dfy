/** The stock chart's data: a copy of the catalog sorted by ascending stock with a stable sort, cut to the
    first ten entries (the ten lowest stocks). */
module Ranking {
  import opened Inventory

  predicate SortedByStock(s: seq<Product>) {
    forall i, j :: 0 <= i < j < |s| ==> s[i].stock <= s[j].stock
  }

  /** The entries with stock `v`, in their order in `s`: two sequences that agree on this for every `v`
      hold the same entries, and entries with equal stock appear in the same relative order. */
  function WithStock(s: seq<Product>, v: int): seq<Product> {
    if s == [] then [] else (if s[0].stock == v then [s[0]] else []) + WithStock(s[1..], v)
  }

  lemma WithStockCons(x: Product, t: seq<Product>, v: int)
    ensures WithStock([x] + t, v) == (if x.stock == v then [x] else []) + WithStock(t, v)
  {
    assert ([x] + t)[1..] == t;
  }

  lemma {:induction false} WithStockConcat(a: seq<Product>, b: seq<Product>, v: int)
    ensures WithStock(a + b, v) == WithStock(a, v) + WithStock(b, v)
  {
    if a == [] {
      assert a + b == b;
    } else {
      assert (a + b)[0] == a[0];
      assert (a + b)[1..] == a[1..] + b;
      WithStockConcat(a[1..], b, v);
    }
  }

  /** Inserts `x` before the first entry whose stock is not below its own, so that `x` precedes every
      entry of equal stock: the step of an insertion sort that takes entries from the front. */
  function Insert(x: Product, t: seq<Product>): (r: seq<Product>)
    requires SortedByStock(t)
    ensures SortedByStock(r)
    ensures multiset(r) == multiset(t) + multiset{x}
  {
    if t == [] || x.stock <= t[0].stock then
      ConsSorted(x, t);
      [x] + t
    else
      var rest := Insert(x, t[1..]);
      assert t == [t[0]] + t[1..];
      BelowAll(t[0], x, t[1..], rest);
      ConsSorted(t[0], rest);
      [t[0]] + rest
  }

  /** Putting an entry in front of a sorted sequence keeps it sorted when no entry has a lower stock. */
  lemma ConsSorted(y: Product, r: seq<Product>)
    requires SortedByStock(r)
    requires r != [] ==> y.stock <= r[0].stock
    ensures SortedByStock([y] + r)
  {
  }

  /** The head of the rest, after `x` was inserted into the tail of a sorted sequence, is not below the
      old head. */
  lemma BelowAll(h: Product, x: Product, tail: seq<Product>, rest: seq<Product>)
    requires SortedByStock([h] + tail) && h.stock < x.stock
    requires multiset(rest) == multiset(tail) + multiset{x}
    ensures rest != [] ==> h.stock <= rest[0].stock
  {
    if rest != [] {
      assert rest[0] in multiset(rest);
      if rest[0] != x {
        assert rest[0] in tail;
        var k :| 0 <= k < |tail| && tail[k] == rest[0];
        assert ([h] + tail)[0] == h && ([h] + tail)[k + 1] == rest[0];
      }
    }
  }

  /** Insertion puts `x` ahead of every entry of equal stock and keeps the others' relative order. */
  lemma {:induction false} InsertStable(x: Product, t: seq<Product>, v: int)
    requires SortedByStock(t)
    ensures WithStock(Insert(x, t), v) == WithStock([x] + t, v)
  {
    if !(t == [] || x.stock <= t[0].stock) {
      var h, tail := t[0], t[1..];
      assert t == [h] + tail;
      var rest := Insert(x, tail);
      assert Insert(x, t) == [h] + rest;
      InsertStable(x, tail, v);
      WithStockCons(h, rest, v);
      WithStockCons(x, tail, v);
      WithStockCons(x, t, v);
      WithStockCons(h, tail, v);
    }
  }

  /** `[...products].sort((a, b) => a.stock - b.stock)`: ascending by stock and a permutation of the
      catalog, which itself is left untouched. */
  function SortByStock(s: seq<Product>): (r: seq<Product>)
    ensures SortedByStock(r)
    ensures multiset(r) == multiset(s) && |r| == |s|
  {
    if s == [] then []
    else
      assert s == [s[0]] + s[1..];
      var r := Insert(s[0], SortByStock(s[1..]));
      assert |r| == |multiset(r)|;
      r
  }

  /** The sort is stable: for every stock level, the entries at that level keep their catalog order. */
  lemma {:induction false} SortByStockStable(s: seq<Product>, v: int)
    ensures WithStock(SortByStock(s), v) == WithStock(s, v)
  {
    if s != [] {
      var sorted := SortByStock(s[1..]);
      SortByStockStable(s[1..], v);
      InsertStable(s[0], sorted, v);
      WithStockCons(s[0], sorted, v);
      WithStockCons(s[0], s[1..], v);
      assert s == [s[0]] + s[1..];
    }
  }

  /** `.slice(0, 10)` of the sorted copy. */
  function LowestTen(s: seq<Product>): (r: seq<Product>)
    ensures |r| == if |s| < 10 then |s| else 10
    ensures SortedByStock(r)
  {
    var t := SortByStock(s);
    t[..if |s| < 10 then |s| else 10]
  }

  /** The ranking holds entries of the catalog, and entries of equal stock appear in it in catalog order:
      for every stock level, the ranked entries at that level are a prefix of the catalog's. */
  lemma LowestTenStable(s: seq<Product>, v: int)
    ensures multiset(LowestTen(s)) <= multiset(s)
    ensures WithStock(LowestTen(s), v) <= WithStock(s, v)
  {
    var t := SortByStock(s);
    var m := if |s| < 10 then |s| else 10;
    assert t == t[..m] + t[m..];
    WithStockConcat(t[..m], t[m..], v);
    SortByStockStable(s, v);
  }

  /** Every catalog entry left out of the ranking has at least the stock of every ranked entry. */
  lemma LowestTenIsLowest(s: seq<Product>, p: Product, q: Product)
    requires p in LowestTen(s) && q in multiset(s) - multiset(LowestTen(s))
    ensures p.stock <= q.stock
  {
    var t := SortByStock(s);
    var m := if |s| < 10 then |s| else 10;
    SplitRest(t, m, q);
    SplitSorted(t, m, p, q);
  }

  /** What is left of a sequence after taking its first `m` entries away is its suffix from `m` on. */
  lemma SplitRest(t: seq<Product>, m: int, q: Product)
    requires 0 <= m <= |t| && q in multiset(t) - multiset(t[..m])
    ensures q in t[m..]
  {
    assert t == t[..m] + t[m..];
    assert multiset(t) == multiset(t[..m]) + multiset(t[m..]);
  }

  /** In a sorted sequence, every entry before position `m` has at most the stock of every entry from it. */
  lemma SplitSorted(t: seq<Product>, m: int, p: Product, q: Product)
    requires SortedByStock(t) && 0 <= m <= |t| && p in t[..m] && q in t[m..]
    ensures p.stock <= q.stock
  {
    var i :| 0 <= i < m && t[..m][i] == p;
    var j :| 0 <= j < |t| - m && t[m..][j] == q;
    assert t[i] == p && t[m + j] == q;
  }
}
