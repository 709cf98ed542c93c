/** Lookup and removal on the product catalog: `find`/`findIndex` by id and the `filter` used by delete. */
module Catalog {
  import opened Inventory

  predicate Contains(s: seq<Product>, id: string) {
    exists i :: 0 <= i < |s| && s[i].id == id
  }

  /** No two catalog entries share an id. */
  predicate UniqueIds(s: seq<Product>) {
    forall i, j :: 0 <= i < j < |s| ==> s[i].id != s[j].id
  }

  /** `findIndex(p => p.id === id)`: the first position holding `id`, or -1 when there is none. */
  function FindIndex(s: seq<Product>, id: string): (i: int)
    ensures -1 <= i < |s|
    ensures i == -1 <==> !Contains(s, id)
    ensures 0 <= i ==> s[i].id == id && forall j :: 0 <= j < i ==> s[j].id != id
  {
    if s == [] then -1
    else if s[0].id == id then 0
    else
      var r := FindIndex(s[1..], id);
      assert forall j :: 1 <= j < |s| ==> s[j] == s[1..][j - 1];
      if r == -1 then -1 else r + 1
  }

  /** Lookup depends on the ids alone: changing other fields of entries leaves every position found as it was. */
  lemma {:induction false} FindIndexSameIds(s: seq<Product>, t: seq<Product>, id: string)
    requires |s| == |t| && forall i :: 0 <= i < |s| ==> s[i].id == t[i].id
    ensures FindIndex(s, id) == FindIndex(t, id)
  {
    if s != [] && s[0].id != id {
      FindIndexSameIds(s[1..], t[1..], id);
    }
  }

  /** Replacing an entry by one with the same id keeps catalog ids distinct. */
  lemma UpdateKeepsUniqueIds(s: seq<Product>, i: int, p: Product)
    requires 0 <= i < |s| && p.id == s[i].id && UniqueIds(s)
    ensures UniqueIds(s[i := p])
  {
    var t := s[i := p];
    forall a, b | 0 <= a < b < |t| ensures t[a].id != t[b].id {
      assert t[a].id == s[a].id && t[b].id == s[b].id;
    }
  }

  /** `filter(p => p.id !== id)`: the catalog without the entries holding `id`, in their original order. */
  function Without(s: seq<Product>, id: string): (r: seq<Product>)
    ensures |r| <= |s|
    ensures forall p :: p in r <==> p in s && p.id != id
  {
    if s == [] then []
    else
      assert forall p :: p in s <==> p == s[0] || p in s[1..];
      (if s[0].id == id then [] else [s[0]]) + Without(s[1..], id)
  }

  /** Filtering distributes over concatenation, so the kept entries stay in catalog order. */
  lemma {:induction false} WithoutConcat(a: seq<Product>, b: seq<Product>, id: string)
    ensures Without(a + b, id) == Without(a, id) + Without(b, id)
  {
    if a == [] {
      assert a + b == b;
    } else {
      assert (a + b)[0] == a[0];
      assert (a + b)[1..] == a[1..] + b;
      WithoutConcat(a[1..], b, id);
    }
  }

  /** Deleting an id that is not in the catalog changes nothing. */
  lemma {:induction false} WithoutAbsent(s: seq<Product>, id: string)
    requires !Contains(s, id)
    ensures Without(s, id) == s
  {
    if s != [] {
      assert s[0].id != id;
      assert !Contains(s[1..], id) by {
        forall j | 0 <= j < |s[1..]| ensures s[1..][j].id != id {
          assert s[1..][j] == s[j + 1];
        }
      }
      WithoutAbsent(s[1..], id);
    }
  }

  /** Adding a product with a fresh id and then deleting that id gives back the catalog. */
  lemma AddThenDelete(s: seq<Product>, p: Product)
    requires !Contains(s, p.id)
    ensures Without(s + [p], p.id) == s
  {
    WithoutConcat(s, [p], p.id);
    WithoutAbsent(s, p.id);
  }

  lemma UniqueIdsTail(s: seq<Product>)
    requires s != [] && UniqueIds(s)
    ensures UniqueIds(s[1..])
  {
    var t := s[1..];
    forall i, j | 0 <= i < j < |t| ensures t[i].id != t[j].id {
      assert t[i] == s[i + 1] && t[j] == s[j + 1];
    }
  }

  lemma UniqueIdsCons(x: Product, w: seq<Product>)
    requires UniqueIds(w) && forall q :: q in w ==> q.id != x.id
    ensures UniqueIds([x] + w)
  {
    var r := [x] + w;
    forall i, j | 0 <= i < j < |r| ensures r[i].id != r[j].id {
      assert r[j] == w[j - 1];
      if i > 0 { assert r[i] == w[i - 1]; }
    }
  }

  /** Deleting keeps the ids of the remaining entries distinct. */
  lemma {:induction false} WithoutKeepsUniqueIds(s: seq<Product>, id: string)
    requires UniqueIds(s)
    ensures UniqueIds(Without(s, id))
  {
    if s != [] {
      var t := s[1..];
      UniqueIdsTail(s);
      WithoutKeepsUniqueIds(t, id);
      var w := Without(t, id);
      if s[0].id != id {
        forall q | q in w ensures q.id != s[0].id {
          var k :| 0 <= k < |t| && t[k] == q;
          assert s[k + 1] == q;
        }
        UniqueIdsCons(s[0], w);
      }
    }
  }

  /** When ids are unique, deleting an id that is present removes exactly one entry. */
  lemma {:induction false} WithoutRemovesOne(s: seq<Product>, id: string)
    requires UniqueIds(s) && Contains(s, id)
    ensures |Without(s, id)| == |s| - 1
  {
    var t := s[1..];
    if s[0].id == id {
      assert !Contains(t, id) by {
        forall j | 0 <= j < |t| ensures t[j].id != id {
          assert t[j] == s[j + 1];
        }
      }
      WithoutAbsent(t, id);
    } else {
      UniqueIdsTail(s);
      var k :| 0 <= k < |s| && s[k].id == id;
      assert t[k - 1] == s[k];
      WithoutRemovesOne(t, id);
    }
  }
}
