/** The persisted entities (persistense/Product.java, persistense/Price.java) and the explicit
    copies that stand in for the object mapper between them and the request body. */
module Entities {
  import opened Wrappers
  import ProductDtos

  /** A price row: its generated id, the back-reference to its product (by that product's id,
      `product_id`), and the amount. */
  datatype Price = Price(id: Option<int>, product: Option<int>, value: int)

  /** A product: its generated id, the three non-null columns and the Price it owns one-to-one. */
  datatype Product = Product(
    id: Option<int>,
    name: string,
    barcode: int,
    countInStock: int,
    price: Option<Price>)

  /** A persisted Price has its id and a non-null product reference. */
  predicate IsPersistedPrice(p: Price) {
    p.id.Some? && p.product.Some?
  }

  /** A persisted Product has its id and owns a persisted Price that refers back to it. */
  predicate IsPersistedProduct(p: Product) {
    && p.id.Some?
    && p.price.Some?
    && IsPersistedPrice(p.price.value)
    && p.price.value.product == p.id
  }

  /** `new Price(value)`: only the amount is set; the price is not yet persisted. */
  function NewPrice(value: int): (p: Price)
    ensures p.value == value && p.id.None? && p.product.None?
    ensures !IsPersistedPrice(p)
  {
    Price(None, None, value)
  }

  /** The request body's fields copied onto a new Product (the mapper's work, written out);
      the price is attached separately. */
  function FromDto(d: ProductDtos.ProductDto): Product
    requires d.name.Some? && d.barcode.Some? && d.countInStock.Some?
  {
    Product(d.id, d.name.value, d.barcode.value, d.countInStock.value, None)
  }

  /** A Product as a response body: its fields, with the owned price flattened to its amount. */
  function ToDto(p: Product): ProductDtos.ProductDto {
    ProductDtos.ProductDto(
      p.id, Some(p.name), Some(p.barcode), Some(p.countInStock),
      if p.price.Some? then Some(p.price.value.value) else None)
  }

  /** Copying a complete body onto a Product, attaching `new Price(body.price)` and copying back
      gives the body again. */
  lemma DtoRoundTrip(d: ProductDtos.ProductDto)
    requires d.name.Some? && d.barcode.Some? && d.countInStock.Some? && d.price.Some?
    ensures ToDto(FromDto(d).(price := Some(NewPrice(d.price.value)))) == d
  {
  }
}
