/** The inventory state: the catalog and the movement log, changed in place by the product form (add or
    edit), the delete button and the movement form. */
module InventoryStore {
  import opened Inventory
  import opened Catalog
  import Dashboard

  datatype SaveOutcome = InvalidPrice | UnknownId | Edited(index: nat) | Added

  datatype MoveOutcome = UnknownProduct | InsufficientStock | Recorded

  predicate NonNegativeStock(s: seq<Product>) {
    forall i :: 0 <= i < |s| ==> s[i].stock >= 0
  }

  /** The signed change a movement makes to stock. */
  function Signed(kind: Kind, quantity: int): int {
    if kind == In then quantity else -quantity
  }

  /** `product.stock += quantity` for a receipt, `product.stock -= quantity` otherwise. */
  function Moved(p: Product, kind: Kind, quantity: int): (r: Product)
    ensures r == p.(stock := p.stock + Signed(kind, quantity))
  {
    p.(stock := if kind == In then p.stock + quantity else p.stock - quantity)
  }

  /** A movement changes the inventory value by the product's price times the signed quantity. */
  lemma MovedValue(s: seq<Product>, i: int, kind: Kind, quantity: int)
    requires 0 <= i < |s|
    ensures Dashboard.Value(s[i := Moved(s[i], kind, quantity)]) ==
              Dashboard.Value(s) + s[i].price * Signed(kind, quantity) as real
  {
    var p := s[i];
    var d := Signed(kind, quantity);
    Dashboard.ValueUpdate(s, i, Moved(p, kind, quantity));
    assert p.price * (p.stock + d) as real == p.price * p.stock as real + p.price * d as real;
  }

  /** A receipt of q followed by an issue of q gives back the product as it was. */
  lemma InThenOutRestores(p: Product, quantity: int)
    ensures Moved(Moved(p, In, quantity), Out, quantity) == p
  {
  }

  lemma UpdateKeepsNonNegative(s: seq<Product>, i: int, p: Product)
    requires 0 <= i < |s| && p.stock >= 0 && NonNegativeStock(s)
    ensures NonNegativeStock(s[i := p])
  {
    var t := s[i := p];
    forall j | 0 <= j < |t| ensures t[j].stock >= 0 {
      if j != i { assert t[j] == s[j]; }
    }
  }

  class Store {
    var products: seq<Product>
    var movements: seq<Movement>

    /** The state read back from storage at start-up. */
    constructor (loadedProducts: seq<Product>, loadedMovements: seq<Movement>)
      ensures products == loadedProducts && movements == loadedMovements
    {
      products := loadedProducts;
      movements := loadedMovements;
    }

    /** Submit of the product form. An empty `id` adds a product under `newId`; a non-empty one edits the
        first entry with that id. A NaN or negative price is refused before anything changes. */
    method SaveProduct(id: string, name: string, category: string, price: ParsedPrice, stock: int,
                       minStock: int, newId: string) returns (outcome: SaveOutcome)
      requires id == "" ==> !Contains(products, newId)
      modifies this
      ensures movements == old(movements)
      ensures price.NaN? || price.value < 0.0 ==> outcome == InvalidPrice && products == old(products)
      ensures price.Number? && price.value >= 0.0 && id != "" && !Contains(old(products), id) ==>
                outcome == UnknownId && products == old(products)
      ensures price.Number? && price.value >= 0.0 && id != "" && Contains(old(products), id) ==>
                var i := FindIndex(old(products), id);
                && outcome == Edited(i)
                && products == old(products)[i := Product(old(products)[i].id, name, category, price.value, stock, minStock)]
      ensures price.Number? && price.value >= 0.0 && id == "" ==>
                outcome == Added && products == old(products) + [Product(newId, name, category, price.value, stock, minStock)]
      ensures UniqueIds(old(products)) ==> UniqueIds(products)
    {
      if price.NaN? || price.value < 0.0 {
        return InvalidPrice;
      }
      if id != "" {
        var index := FindIndex(products, id);
        if index == -1 {
          // `products[-1] = ...` sets a property that is not an element: the catalog is unchanged.
          return UnknownId;
        }
        products := products[index := Product(products[index].id, name, category, price.value, stock, minStock)];
        outcome := Edited(index);
      } else {
        products := products + [Product(newId, name, category, price.value, stock, minStock)];
        outcome := Added;
      }
    }

    /** The delete button (once confirmed): every entry with `id` leaves the catalog; the log keeps the
        movements of the deleted product. */
    method DeleteProduct(id: string)
      modifies this
      ensures products == Without(old(products), id) && movements == old(movements)
      ensures !Contains(old(products), id) ==> products == old(products)
      ensures UniqueIds(old(products)) ==> UniqueIds(products)
      ensures UniqueIds(old(products)) && Contains(old(products), id) ==> |products| == |old(products)| - 1
    {
      if !Contains(products, id) {
        WithoutAbsent(products, id);
      }
      if UniqueIds(products) {
        WithoutKeepsUniqueIds(products, id);
        if Contains(products, id) {
          WithoutRemovesOne(products, id);
        }
      }
      products := Without(products, id);
    }

    /** Submit of the movement form. Refused when no product has `productId`, or when an "out" exceeds the
        stock; otherwise the stock of the first entry with that id moves by `quantity` and one movement
        naming the product as it is now is logged. */
    method RecordMovement(productId: string, kind: Kind, quantity: int, movementId: string, date: string)
      returns (outcome: MoveOutcome)
      modifies this
      ensures !Contains(old(products), productId) ==>
                outcome == UnknownProduct && products == old(products) && movements == old(movements)
      ensures Contains(old(products), productId) ==>
                var i := FindIndex(old(products), productId);
                var p := old(products)[i];
                if kind == Out && p.stock < quantity then
                  outcome == InsufficientStock && products == old(products) && movements == old(movements)
                else
                  && outcome == Recorded
                  && products == old(products)[i := Moved(p, kind, quantity)]
                  && movements == old(movements) + [Movement(movementId, productId, p.name, kind, quantity, date)]
      ensures NonNegativeStock(old(products)) && (kind == Out || quantity >= 0) ==> NonNegativeStock(products)
      ensures UniqueIds(old(products)) ==> UniqueIds(products)
    {
      var index := FindIndex(products, productId);
      if index == -1 {
        return UnknownProduct;
      }
      var product := products[index];
      if kind == Out && product.stock < quantity {
        return InsufficientStock;
      }
      var updated := Moved(product, kind, quantity);
      if UniqueIds(products) {
        UpdateKeepsUniqueIds(products, index, updated);
      }
      if NonNegativeStock(products) && (kind == Out || quantity >= 0) {
        UpdateKeepsNonNegative(products, index, updated);
      }
      products := products[index := updated];
      movements := movements + [Movement(movementId, productId, product.name, kind, quantity, date)];
      outcome := Recorded;
    }
  }

  /** A receipt of `q` followed by an issue of `q` puts the catalog back as it was, provided the product's
      stock was not negative; the log gains the two movements. */
  method InThenOut(store: Store, productId: string, q: int, inId: string, outId: string, date: string)
    requires Contains(store.products, productId)
    requires store.products[FindIndex(store.products, productId)].stock >= 0
    modifies store
    ensures store.products == old(store.products)
    ensures |store.movements| == |old(store.movements)| + 2
    ensures store.movements[..|old(store.movements)|] == old(store.movements)
  {
    ghost var before := store.products;
    ghost var i := FindIndex(before, productId);
    ghost var p := before[i];
    var first := store.RecordMovement(productId, In, q, inId, date);
    ghost var middle := before[i := Moved(p, In, q)];
    assert first == Recorded && store.products == middle;
    FindIndexSameIds(middle, before, productId);
    assert middle[i] == Moved(p, In, q);
    var second := store.RecordMovement(productId, Out, q, outId, date);
    assert second == Recorded && store.products == middle[i := Moved(Moved(p, In, q), Out, q)];
    InThenOutRestores(p, q);
    assert middle[i := p] == before;
  }

  /** Adding a product and deleting it again leaves the catalog as it was and the log untouched. */
  method AddThenDeleteRestores(store: Store, newId: string, name: string, category: string, price: real, stock: int,
                       minStock: int)
    requires price >= 0.0 && !Contains(store.products, newId)
    modifies store
    ensures store.products == old(store.products) && store.movements == old(store.movements)
  {
    var saved := store.SaveProduct("", name, category, Number(price), stock, minStock, newId);
    Catalog.AddThenDelete(old(store.products), Product(newId, name, category, price, stock, minStock));
    store.DeleteProduct(newId);
  }

  /** A restock and a refused oversell on a one-product catalog: a receipt of 20 on stock 5 gives 25, and
      an issue of 30 is refused with nothing changed. The product is low on stock beforehand. */
  method RestockScenario() returns (store: Store, insight: Dashboard.Insight, refused: MoveOutcome)
    ensures insight == Dashboard.Critical(1)
    ensures refused == InsufficientStock
    ensures |store.products| == 1 && store.products[0].stock == 25 && |store.movements| == 1
  {
    var widget := Product("p1", "Widget", "Tools", 10.0, 5, 10);
    store := new Store([widget], []);
    assert Dashboard.InsightOf(store.products) == Dashboard.Critical(1) by {
      assert Dashboard.IsLow(store.products[0]);
      assert Dashboard.LowIndices(store.products) == {0};
    }
    insight := Dashboard.InsightOf(store.products);
    assert FindIndex(store.products, "p1") == 0;
    var first := store.RecordMovement("p1", In, 20, "m1", "2024-01-01");
    assert first == Recorded && store.products[0].stock == 25;
    refused := store.RecordMovement("p1", Out, 30, "m2", "2024-01-02");
  }

}
