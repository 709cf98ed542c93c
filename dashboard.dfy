/** The dashboard figures: product count, inventory value, low-stock products, recent movements and the
    insight banner. Each is a pure function of the catalog or of the movement log. */
module Dashboard {
  import opened Inventory
  import Catalog

  /** Contribution of one product to the inventory value. */
  function Worth(p: Product): real {
    p.price * p.stock as real
  }

  /** `products.reduce((acc, p) => acc + p.price * p.stock, 0)`: a left fold, so the last entry is added last. */
  function Value(s: seq<Product>): (v: real)
    ensures (forall i :: 0 <= i < |s| ==> s[i].price >= 0.0 && s[i].stock >= 0) ==> v >= 0.0
  {
    if s == [] then 0.0 else Value(s[..|s| - 1]) + Worth(s[|s| - 1])
  }

  /** The value of a catalog is the sum of the values of its parts. */
  lemma {:induction false} ValueConcat(a: seq<Product>, b: seq<Product>)
    ensures Value(a + b) == Value(a) + Value(b)
  {
    if b == [] {
      assert a + b == a;
    } else {
      assert (a + b)[..|a + b| - 1] == a + b[..|b| - 1];
      assert (a + b)[|a + b| - 1] == b[|b| - 1];
      ValueConcat(a, b[..|b| - 1]);
    }
  }

  /** Replacing one entry changes the value by exactly the difference of the two entries' worth. */
  lemma ValueUpdate(s: seq<Product>, i: int, p: Product)
    requires 0 <= i < |s|
    ensures Value(s[i := p]) == Value(s) - Worth(s[i]) + Worth(p)
  {
    var pre, post := s[..i], s[i + 1..];
    assert s == pre + [s[i]] + post;
    assert s[i := p] == pre + [p] + post;
    ValueConcat(pre + [s[i]], post);
    ValueConcat(pre, [s[i]]);
    ValueConcat(pre + [p], post);
    ValueConcat(pre, [p]);
    assert [p][..0] == [] && [s[i]][..0] == [];
  }

  /** A product is low on stock when its stock is at or below its reorder threshold. */
  predicate IsLow(p: Product) {
    p.stock <= p.minStock
  }

  /** `products.filter(p => p.stock <= p.minStock)`. */
  function LowStock(s: seq<Product>): (r: seq<Product>)
    ensures |r| <= |s|
    ensures forall p :: p in r <==> p in s && IsLow(p)
  {
    if s == [] then []
    else
      assert s == s[..|s| - 1] + [s[|s| - 1]];
      LowStock(s[..|s| - 1]) + (if IsLow(s[|s| - 1]) then [s[|s| - 1]] else [])
  }

  /** The positions of the low-stock entries: an independent account of what the filter keeps. */
  function LowIndices(s: seq<Product>): set<int> {
    set i | 0 <= i < |s| && IsLow(s[i])
  }

  /** One more entry adds its own position to the low-stock positions when it is low, and nothing else. */
  lemma LowIndicesStep(s: seq<Product>)
    requires s != []
    ensures var n := |s| - 1;
            LowIndices(s) == LowIndices(s[..n]) + (if IsLow(s[n]) then {n} else {})
  {
    var n := |s| - 1;
    var pre := s[..n];
    forall i | i in LowIndices(s) ensures i in LowIndices(pre) || (i == n && IsLow(s[n])) {
      if i < n { assert pre[i] == s[i]; }
    }
    forall i | i in LowIndices(pre) ensures i in LowIndices(s) {
      assert pre[i] == s[i];
    }
  }

  /** The low-stock list has one entry per low-stock position of the catalog. */
  lemma {:induction false} LowStockCount(s: seq<Product>)
    ensures |LowStock(s)| == |LowIndices(s)|
  {
    if s != [] {
      var n := |s| - 1;
      LowStockCount(s[..n]);
      LowIndicesStep(s);
      assert n !in LowIndices(s[..n]);
    }
  }

  lemma {:induction false} LowStockConcat(a: seq<Product>, b: seq<Product>)
    ensures LowStock(a + b) == LowStock(a) + LowStock(b)
  {
    if b != [] {
      assert (a + b)[..|a + b| - 1] == a + b[..|b| - 1];
      assert (a + b)[|a + b| - 1] == b[|b| - 1];
      LowStockConcat(a, b[..|b| - 1]);
    } else {
      assert a + b == a;
    }
  }

  /** Deleting a product takes exactly its entries out of the low-stock list and leaves the rest in order. */
  lemma {:induction false} LowStockAfterDelete(s: seq<Product>, id: string)
    ensures LowStock(Catalog.Without(s, id)) == Catalog.Without(LowStock(s), id)
  {
    if s != [] {
      var head, tail := [s[0]], s[1..];
      assert s == head + tail;
      var kept := if s[0].id == id then [] else head;
      assert Catalog.Without(s, id) == kept + Catalog.Without(tail, id);
      LowStockConcat(kept, Catalog.Without(tail, id));
      LowStockAfterDelete(tail, id);
      LowStockConcat(head, tail);
      Catalog.WithoutConcat(LowStock(head), LowStock(tail), id);
      assert head[..0] == [];
      assert LowStock(head) == if IsLow(s[0]) then head else [];
      assert LowStock(kept) == Catalog.Without(LowStock(head), id);
    }
  }

  /** The three KPI cards of the dashboard. */
  datatype Kpis = Kpis(totalProducts: nat, inventoryValue: real, lowStockCount: nat)

  function ComputeKpis(s: seq<Product>): (k: Kpis)
    ensures k.totalProducts == |s|
    ensures k.lowStockCount == |LowIndices(s)| <= k.totalProducts
    ensures k.inventoryValue == Value(s)
  {
    LowStockCount(s);
    Kpis(|s|, Value(s), |LowStock(s)|)
  }

  /** The insight banner of the reports view: a critical notice carrying the low-stock count, or healthy. */
  datatype Insight = Critical(count: nat) | Healthy

  function InsightOf(s: seq<Product>): (r: Insight)
    ensures r.Healthy? <==> forall i :: 0 <= i < |s| ==> !IsLow(s[i])
    ensures r.Critical? ==> 0 < r.count == |LowIndices(s)|
  {
    var low := LowStock(s);
    LowStockCount(s);
    assert |low| > 0 ==> low[0] in low;
    assert forall i :: 0 <= i < |s| && IsLow(s[i]) ==> s[i] in low;
    if |low| > 0 then Critical(|low|) else Healthy
  }

  /** Reversal of a sequence. */
  function Reverse<T>(s: seq<T>): (r: seq<T>)
    ensures |r| == |s|
    ensures forall k :: 0 <= k < |s| ==> r[k] == s[|s| - 1 - k]
  {
    if s == [] then [] else [s[|s| - 1]] + Reverse(s[..|s| - 1])
  }

  /** `movements.slice(-5).reverse()`: the last five entries of the log, newest first. */
  function RecentMovements(log: seq<Movement>): (r: seq<Movement>)
    ensures |r| == if |log| < 5 then |log| else 5
    ensures forall k :: 0 <= k < |r| ==> r[k] == log[|log| - 1 - k]
  {
    var take := if |log| < 5 then |log| else 5;
    Reverse(log[|log| - take..])
  }

  /** After a movement is logged, it heads the recent list and the previous head entries follow it. */
  lemma RecentAfterAppend(log: seq<Movement>, m: Movement)
    ensures RecentMovements(log + [m]) == [m] + RecentMovements(log)[..if |log| < 4 then |log| else 4]
  {
    var r, old_ := RecentMovements(log + [m]), RecentMovements(log);
    var expected := [m] + old_[..if |log| < 4 then |log| else 4];
    assert |r| == |expected|;
    forall k | 0 <= k < |r| ensures r[k] == expected[k] {
      if k > 0 {
        assert (log + [m])[|log| - k] == log[|log| - k];
      }
    }
  }
}
