/** The records the inventory tracker keeps: products in the catalog and entries of the movement log. */
module Inventory {

  datatype Option<+T> = None | Some(value: T)

  /** Direction of a stock movement: a receipt ("in") or an issue ("out"). */
  datatype Kind = In | Out

  /** A catalog entry. The price is a JavaScript number in the source; here it is an exact real. */
  datatype Product = Product(
    id: string,
    name: string,
    category: string,
    price: real,
    stock: int,
    minStock: int)

  /** A log entry. `productName` is a snapshot of the product's name when the movement was recorded. */
  datatype Movement = Movement(
    id: string,
    productId: string,
    productName: string,
    kind: Kind,
    quantity: int,
    date: string)

  /** What `parseFloat` made of the price field: a number, or NaN. */
  datatype ParsedPrice = NaN | Number(value: real)
}
