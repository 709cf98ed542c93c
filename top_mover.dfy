/** The reports view's choice of product: the one with the most "out" movements. The source counts "out"
    movements per product id into an object, sorts the object's keys by descending count with a stable sort
    and takes the first key, then looks the product up in the catalog. */
module TopMover {
  import opened Inventory
  import Catalog

  predicate IsOutOf(m: Movement, id: string) {
    m.kind == Out && m.productId == id
  }

  /** Number of "out" movements of product `id` in the log. */
  function OutCount(log: seq<Movement>, id: string): (n: nat)
    ensures n <= |log|
  {
    if log == [] then 0
    else OutCount(log[..|log| - 1], id) + (if IsOutOf(log[|log| - 1], id) then 1 else 0)
  }

  /** Position of the first "out" movement of `id`, or |log| when there is none. */
  function FirstOut(log: seq<Movement>, id: string): (f: nat)
    ensures f <= |log|
    ensures f < |log| ==> IsOutOf(log[f], id)
    ensures forall j :: 0 <= j < f ==> !IsOutOf(log[j], id)
  {
    if log == [] then 0
    else
      var f := FirstOut(log[..|log| - 1], id);
      if f < |log| - 1 then f
      else if IsOutOf(log[|log| - 1], id) then |log| - 1
      else |log|
  }

  /** The keys of the count object in the order they were first added: the ids of "out" movements, each
      once, in the order of their first "out" movement. */
  function OutKeys(log: seq<Movement>): (keys: seq<string>)
    ensures |keys| <= |log|
  {
    if log == [] then []
    else
      var keys := OutKeys(log[..|log| - 1]);
      var m := log[|log| - 1];
      if m.kind == Out && m.productId !in keys then keys + [m.productId] else keys
  }

  /** The count object itself: each key mapped to its number of "out" movements. */
  function OutCounts(log: seq<Movement>): (counts: map<string, nat>)
    ensures forall id :: id in counts <==> OutCount(log, id) > 0
    ensures forall id :: id in counts ==> counts[id] == OutCount(log, id)
  {
    OutKeysMembersAll(log);
    map id | id in OutKeys(log) :: OutCount(log, id)
  }

  /** A product has a positive count exactly when it has an "out" movement. */
  lemma {:induction false} OutCountPositive(log: seq<Movement>, id: string)
    ensures OutCount(log, id) > 0 <==> FirstOut(log, id) < |log|
  {
    if log != [] {
      OutCountPositive(log[..|log| - 1], id);
    }
  }

  /** The keys are exactly the ids with at least one "out" movement. */
  lemma {:induction false} OutKeysMembers(log: seq<Movement>, id: string)
    ensures id in OutKeys(log) <==> OutCount(log, id) > 0
  {
    if log != [] {
      OutKeysMembers(log[..|log| - 1], id);
    }
  }

  lemma OutKeysMembersAll(log: seq<Movement>)
    ensures forall id :: id in OutKeys(log) <==> OutCount(log, id) > 0
  {
    forall id ensures id in OutKeys(log) <==> OutCount(log, id) > 0 {
      OutKeysMembers(log, id);
    }
  }

  /** No key appears twice, and keys come in the order of their first "out" movement. */
  lemma {:induction false} OutKeysOrder(log: seq<Movement>)
    ensures forall k :: 0 <= k < |OutKeys(log)| ==> FirstOut(log, OutKeys(log)[k]) < |log|
    ensures forall a, b :: 0 <= a < b < |OutKeys(log)| ==>
              FirstOut(log, OutKeys(log)[a]) < FirstOut(log, OutKeys(log)[b])
  {
    if log != [] {
      var pre := log[..|log| - 1];
      var keys, m := OutKeys(pre), log[|log| - 1];
      OutKeysOrder(pre);
      if m.kind == Out && m.productId !in keys {
        var id := m.productId;
        OutKeysMembers(pre, id);
        OutCountPositive(pre, id);
        assert FirstOut(log, id) == |log| - 1;
      }
    }
  }

  lemma OutKeysDistinct(log: seq<Movement>)
    ensures forall a, b :: 0 <= a < b < |OutKeys(log)| ==> OutKeys(log)[a] != OutKeys(log)[b]
  {
    OutKeysOrder(log);
  }

  /** The index of the first key with the greatest count: what a stable sort by descending count puts
      first. */
  function FirstMax(keys: seq<string>, counts: map<string, nat>): (k: nat)
    requires |keys| > 0
    requires forall key :: key in keys ==> key in counts
    ensures k < |keys|
    ensures forall j :: 0 <= j < |keys| ==> counts[keys[j]] <= counts[keys[k]]
    ensures forall j :: 0 <= j < k ==> counts[keys[j]] < counts[keys[k]]
  {
    if |keys| == 1 then 0
    else
      var k := FirstMax(keys[1..], counts);
      assert forall j :: 1 <= j < |keys| ==> keys[j] == keys[1..][j - 1];
      if counts[keys[0]] >= counts[keys[k + 1]] then 0 else k + 1
  }

  /** The id of the top mover, if any product has an "out" movement. */
  function Winner(log: seq<Movement>): (w: Option<string>)
    ensures w.None? <==> |OutKeys(log)| == 0
    ensures w.Some? ==> w.value in OutKeys(log) &&
                        forall id :: id in OutKeys(log) ==> OutCount(log, id) <= OutCount(log, w.value)
  {
    var keys := OutKeys(log);
    if |keys| == 0 then None else Some(keys[FirstMax(keys, OutCounts(log))])
  }

  /** There is a winner exactly when the log holds an "out" movement. */
  lemma WinnerExists(log: seq<Movement>)
    ensures Winner(log).None? <==> forall j :: 0 <= j < |log| ==> log[j].kind != Out
  {
    var keys := OutKeys(log);
    if |keys| == 0 {
      forall j | 0 <= j < |log| ensures log[j].kind != Out {
        var id := log[j].productId;
        OutKeysMembers(log, id);
        OutCountPositive(log, id);
      }
    } else {
      OutKeysMembers(log, keys[0]);
      OutCountPositive(log, keys[0]);
    }
  }

  /** The winner has the greatest count of "out" movements; among ids with that count it is the one whose
      first "out" movement came first. */
  lemma WinnerIsFirstMax(log: seq<Movement>)
    requires Winner(log).Some?
    ensures var w := Winner(log).value;
            && OutCount(log, w) > 0
            && (forall id :: OutCount(log, id) <= OutCount(log, w))
            && (forall id :: OutCount(log, id) == OutCount(log, w) ==> FirstOut(log, w) <= FirstOut(log, id))
  {
    var keys, counts := OutKeys(log), OutCounts(log);
    var k := FirstMax(keys, counts);
    var w := keys[k];
    OutKeysMembers(log, w);
    forall id ensures OutCount(log, id) <= OutCount(log, w)
    {
      OutKeysMembers(log, id);
    }
    OutKeysOrder(log);
    forall id | OutCount(log, id) == OutCount(log, w) ensures FirstOut(log, w) <= FirstOut(log, id)
    {
      OutKeysMembers(log, id);
      var b :| 0 <= b < |keys| && keys[b] == id;
      assert counts[keys[b]] == counts[w];
    }
  }

  /** `products.find(p => p.id === topProductId)`: the catalog entry of the winner, if it still exists. */
  function TopMoverOf(products: seq<Product>, log: seq<Movement>): (top: Option<Product>)
    ensures top.None? <==> Winner(log).None? || !Catalog.Contains(products, Winner(log).value)
    ensures top.Some? ==> top.value in products && Winner(log) == Some(top.value.id)
    ensures top.Some? ==> top.value == products[Catalog.FindIndex(products, top.value.id)]
  {
    match Winner(log)
    case None => None
    case Some(w) =>
      var i := Catalog.FindIndex(products, w);
      if i == -1 then None else Some(products[i])
  }

  /** The top mover is absent when no "out" movement was logged or its product was deleted; otherwise it
      is the first catalog entry with the winner's id. */
  lemma TopMoverSpec(products: seq<Product>, log: seq<Movement>)
    ensures TopMoverOf(products, log).None? <==>
              ((forall j :: 0 <= j < |log| ==> log[j].kind != Out) ||
               (Winner(log).Some? && !Catalog.Contains(products, Winner(log).value)))
    ensures TopMoverOf(products, log).Some? ==>
              var p := TopMoverOf(products, log).value;
              && p in products
              && Winner(log) == Some(p.id)
              && p == products[Catalog.FindIndex(products, p.id)]
              && forall id :: OutCount(log, id) <= OutCount(log, p.id)
  {
    WinnerExists(log);
    if Winner(log).Some? {
      WinnerIsFirstMax(log);
    }
  }

  /** One more movement adds one to the count of the product it issues and leaves every other count. */
  lemma OutCountStep(log: seq<Movement>, i: int, id: string)
    requires 0 <= i < |log|
    ensures OutCount(log[..i + 1], id) == OutCount(log[..i], id) + (if IsOutOf(log[i], id) then 1 else 0)
  {
    assert log[..i + 1][..i] == log[..i];
  }

  /** One more movement updates the count object the way the loop body does. */
  lemma OutCountsStep(log: seq<Movement>, i: int)
    requires 0 <= i < |log|
    ensures var counts, m := OutCounts(log[..i]), log[i];
            OutCounts(log[..i + 1]) ==
              if m.kind == Out then
                counts[m.productId := (if m.productId in counts then counts[m.productId] else 0) + 1]
              else counts
  {
    var counts, m := OutCounts(log[..i]), log[i];
    var expected :=
      if m.kind == Out then counts[m.productId := (if m.productId in counts then counts[m.productId] else 0) + 1]
      else counts;
    forall id
      ensures id in OutCounts(log[..i + 1]) <==> id in expected
      ensures id in expected ==> OutCounts(log[..i + 1])[id] == expected[id]
    {
      OutCountStep(log, i, id);
    }
    assert OutCounts(log[..i + 1]).Keys == expected.Keys;
  }

  /** One more movement appends its product to the keys exactly when it is an "out" movement of a product the
      count object does not hold yet. */
  lemma OutKeysStep(log: seq<Movement>, i: int)
    requires 0 <= i < |log|
    ensures var keys, m := OutKeys(log[..i]), log[i];
            OutKeys(log[..i + 1]) ==
              if m.kind == Out && m.productId !in OutCounts(log[..i]) then keys + [m.productId] else keys
  {
    assert log[..i + 1][..i] == log[..i];
    OutKeysMembers(log[..i], log[i].productId);
  }

  /** The count loop of the reports view: the keys of the count object in insertion order and the object. */
  method CountOuts(log: seq<Movement>) returns (keys: seq<string>, counts: map<string, nat>)
    ensures keys == OutKeys(log) && counts == OutCounts(log)
  {
    keys, counts := [], map[];
    var i := 0;
    while i < |log|
      invariant 0 <= i <= |log|
      invariant keys == OutKeys(log[..i])
      invariant counts == OutCounts(log[..i])
    {
      OutCountsStep(log, i);
      OutKeysStep(log, i);
      var m := log[i];
      if m.kind == Out {
        if m.productId !in counts {
          keys := keys + [m.productId];
        }
        counts := counts[m.productId := (if m.productId in counts then counts[m.productId] else 0) + 1];
      }
      i := i + 1;
    }
    assert log[..i] == log;
  }

  /** The choice of the top mover: the first key of largest count, looked up in the catalog. */
  method TopMover(products: seq<Product>, log: seq<Movement>) returns (top: Option<Product>)
    ensures top == TopMoverOf(products, log)
    ensures top.Some? ==> top.value in products && forall id :: OutCount(log, id) <= OutCount(log, top.value.id)
  {
    TopMoverSpec(products, log);
    if |log| == 0 {
      return None;
    }
    var keys, counts := CountOuts(log);
    if |keys| == 0 {
      return None;
    }
    var topId := keys[FirstMax(keys, counts)];
    var index := Catalog.FindIndex(products, topId);
    if index == -1 {
      return None;
    }
    top := Some(products[index]);
  }

  /** Three issues of p1 and one of p2: p1 is the top mover. */
  lemma TopMoverScenario()
    ensures var log := [Movement("m1", "p1", "A", Out, 1, ""), Movement("m2", "p1", "A", Out, 1, ""),
                        Movement("m3", "p1", "A", Out, 1, ""), Movement("m4", "p2", "B", Out, 1, "")];
            Winner(log) == Some("p1")
  {
    var log := [Movement("m1", "p1", "A", Out, 1, ""), Movement("m2", "p1", "A", Out, 1, ""),
                Movement("m3", "p1", "A", Out, 1, ""), Movement("m4", "p2", "B", Out, 1, "")];
    assert log[..3][..2][..1][..0] == [];
    assert log[..3][..2][..1] == log[..1];
    assert log[..3][..2] == log[..2];
    assert log[..4] == log;
    assert log[..3] == log[..4][..3];
    assert OutKeys(log[..1]) == ["p1"];
    assert OutKeys(log[..2]) == ["p1"];
    assert OutKeys(log[..3]) == ["p1"];
    assert OutKeys(log) == ["p1", "p2"];
    assert OutCount(log[..1], "p1") == 1;
    assert OutCount(log[..2], "p1") == 2;
    assert OutCount(log[..3], "p1") == 3;
    assert OutCount(log, "p1") == 3;
    assert OutCount(log[..1], "p2") == 0;
    assert OutCount(log[..2], "p2") == 0;
    assert OutCount(log[..3], "p2") == 0;
    assert OutCount(log, "p2") == 1;
    assert OutCounts(log) == map["p1" := 3, "p2" := 1];
  }
}
