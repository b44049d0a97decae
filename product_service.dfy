/** The product service (web/api/modules/product/service/ProductService.java) over an in-memory
    model of its two repositories. */
module Service {
  import opened Wrappers
  import opened Entities
  import opened Sequences
  import opened ProductUpdateDtos
  import Decimal
  import ProductDtos

  const NotFoundPrefix := "Could not find product with id "

  /** The reason carried by the NOT_FOUND failure: the prefix, then the id as `Long.toString` writes it. */
  function NotFoundReason(id: int): (s: string)
    ensures |s| > |NotFoundPrefix| && s[..|NotFoundPrefix|] == NotFoundPrefix
    ensures s[|NotFoundPrefix|..] == Decimal.LongToString(id)
    ensures Decimal.IsNumeral(s[|NotFoundPrefix|..]) && Decimal.ParseLong(s[|NotFoundPrefix|..]) == id
  {
    Decimal.NatToStringRoundTrip(if id < 0 then -id else id);
    Decimal.LongToStringRoundTrip(id);
    var s := NotFoundPrefix + Decimal.LongToString(id);
    assert s[|NotFoundPrefix|..] == Decimal.LongToString(id);
    s
  }

  /** The reason names the id unambiguously: two reasons are equal exactly when their ids are. */
  lemma NotFoundReasonIdentifiesId(a: int, b: int)
    ensures NotFoundReason(a) == NotFoundReason(b) <==> a == b
  {
    if NotFoundReason(a) == NotFoundReason(b) {
      var n := |NotFoundPrefix|;
      assert NotFoundReason(a)[n..] == Decimal.LongToString(a);
      assert NotFoundReason(b)[n..] == Decimal.LongToString(b);
      Decimal.LongToStringInjective(a, b);
    }
  }

  /** The reason the service tests expect for id 1. */
  lemma NotFoundReasonForOne()
    ensures NotFoundReason(1) == "Could not find product with id 1"
  {
  }

  /** What a service call gives back: its value, or the NOT_FOUND failure for the missing id. */
  datatype Result<T> = Ok(value: T) | NotFound(id: int) {
    function Reason(): string
      requires NotFound?
    {
      NotFoundReason(id)
    }
  }

  /** One call on a repository: `findAll`, `findById`, `save` and `delete` on the products
      repository, `findByProductId` and `save` on the prices repository. */
  datatype RepositoryCall =
    | FindAll
    | FindById(id: int)
    | Save(id: int)
    | Delete(id: int)
    | FindPriceByProductId(productId: int)
    | SavePrice(priceId: int)

  /** The non-null columns of a products row. */
  datatype ProductRow = ProductRow(name: string, barcode: int, countInStock: int)

  /** The columns of a prices row other than its primary key: the owning product's id and the amount. */
  datatype PriceRow = PriceRow(productId: int, value: int)

  /** The product columns after a partial update: each field sent overwrites, each null keeps. */
  function MergeRow(row: ProductRow, dto: ProductUpdateDto): ProductRow {
    ProductRow(dto.name.GetOr(row.name), dto.barcode.GetOr(row.barcode), dto.countInStock.GetOr(row.countInStock))
  }

  /** The price row after a partial update: a price sent overwrites the amount, the row keeps its product. */
  function MergePrice(row: PriceRow, dto: ProductUpdateDto): PriceRow {
    row.(value := dto.price.GetOr(row.value))
  }

  /** A merged field differs from the stored one only if the request sent that very value, and a
      field the request sent always ends up with the sent value. */
  lemma MergeChangesOnlySentFields(row: ProductRow, price: PriceRow, dto: ProductUpdateDto)
    ensures var r, p := MergeRow(row, dto), MergePrice(price, dto);
      && (dto.name.Some? ==> r.name == dto.name.value) && (dto.name.None? ==> r.name == row.name)
      && (dto.barcode.Some? ==> r.barcode == dto.barcode.value) && (dto.barcode.None? ==> r.barcode == row.barcode)
      && (dto.countInStock.Some? ==> r.countInStock == dto.countInStock.value)
      && (dto.countInStock.None? ==> r.countInStock == row.countInStock)
      && (dto.price.Some? ==> p.value == dto.price.value) && (dto.price.None? ==> p.value == price.value)
      && p.productId == price.productId
  {
  }

  /** An update with every field null leaves the row and its price as they were. */
  lemma EmptyUpdateKeepsRow(row: ProductRow, price: PriceRow)
    ensures MergeRow(row, ProductUpdateDto(None, None, None, None)) == row
    ensures MergePrice(price, ProductUpdateDto(None, None, None, None)) == price
  {
  }

  /** Sending the same update twice has the effect of sending it once. */
  lemma MergeIdempotent(row: ProductRow, price: PriceRow, dto: ProductUpdateDto)
    ensures MergeRow(MergeRow(row, dto), dto) == MergeRow(row, dto)
    ensures MergePrice(MergePrice(price, dto), dto) == MergePrice(price, dto)
  {
  }

  /** The service together with the tables its repositories reach. */
  class ProductService {
    /** The products table: each product id to its row. */
    var products: map<int, ProductRow>
    /** The prices table: each price id to its row. */
    var prices: map<int, PriceRow>
    /** The unique index on the prices table's `product_id` column: each product id to its price id. */
    var priceIndex: map<int, int>
    /** The product ids in the order the table returns its rows. */
    var order: seq<int>
    /** The next value of the id sequence both tables draw from. */
    var nextId: int
    /** Every repository call the service has made, oldest first. */
    var calls: seq<RepositoryCall>

    /** The store's invariant: the row order lists each product once; each product has exactly one
        price, found through the index; each price belongs to a stored product and is the one the
        index holds for it; every id is below the sequence's next value. */
    ghost predicate Valid()
      reads this
    {
      && NoDuplicates(order)
      && (forall id :: id in order <==> id in products)
      && priceIndex.Keys == products.Keys
      && (forall id :: id in priceIndex ==> priceIndex[id] in prices && prices[priceIndex[id]].productId == id)
      && (forall pid :: pid in prices ==> prices[pid].productId in priceIndex && priceIndex[prices[pid].productId] == pid)
      && (forall id :: id in products ==> id < nextId)
      && (forall pid :: pid in prices ==> pid < nextId)
    }

    /** At most one price refers to a product: a price row's id is determined by its `product_id`. */
    lemma OnePricePerProduct(a: int, b: int)
      requires Valid() && a in prices && b in prices
      ensures prices[a].productId == prices[b].productId <==> a == b
    {
    }

    /** The Price row of a stored product, as `findByProductId` loads it. */
    function PriceEntity(productId: int): (p: Price)
      reads this
      requires Valid() && productId in products
      ensures IsPersistedPrice(p) && p.product == Some(productId)
    {
      var pid := priceIndex[productId];
      Price(Some(pid), Some(productId), prices[pid].value)
    }

    /** The Product entity of a stored id, with its Price fetched eagerly. */
    function Entity(id: int): (p: Product)
      reads this
      requires Valid() && id in products
      ensures IsPersistedProduct(p) && p.id == Some(id)
    {
      var row := products[id];
      Product(Some(id), row.name, row.barcode, row.countInStock, Some(PriceEntity(id)))
    }

    /** The entities of the given ids, in that order. */
    function Listing(ids: seq<int>): (ps: seq<Product>)
      reads this
      requires Valid() && forall i :: 0 <= i < |ids| ==> ids[i] in products
      ensures |ps| == |ids| && forall i :: 0 <= i < |ids| ==> ps[i] == Entity(ids[i])
      decreases |ids|
    {
      if ids == [] then [] else [Entity(ids[0])] + Listing(ids[1..])
    }

    /** The row order lists exactly as many ids as there are products. */
    lemma OrderCountsProducts()
      requires Valid()
      ensures |order| == |products|
    {
      DistinctCardinality(order);
      assert (set x | x in order) == products.Keys by {
        forall x ensures x in (set y | y in order) <==> x in products.Keys {
        }
      }
    }

    /** An empty store whose id sequence starts at 1. */
    constructor ()
      ensures Valid()
      ensures products == map[] && prices == map[] && priceIndex == map[] && order == [] && nextId == 1 && calls == []
    {
      products, prices, priceIndex, order, nextId, calls := map[], map[], map[], [], 1, [];
    }

    /** `getAll`: every stored product and nothing else, in row order, with one `findAll`. */
    method GetAll() returns (all: seq<Product>)
      requires Valid()
      modifies this`calls
      ensures Valid()
      ensures calls == old(calls) + [FindAll]
      ensures |all| == |order| == |products|
      ensures forall i :: 0 <= i < |all| ==> all[i] == Entity(order[i])
      ensures forall id :: id in products <==> exists i :: 0 <= i < |all| && all[i].id == Some(id)
    {
      assert forall id :: id in order <==> id in products;
      assert forall i :: 0 <= i < |order| ==> order[i] in order;
      calls := calls + [FindAll];
      all := Listing(order);
      OrderCountsProducts();
      forall id | id in products ensures exists i :: 0 <= i < |all| && all[i].id == Some(id) {
        var i :| 0 <= i < |order| && order[i] == id;
        assert all[i].id == Some(id);
      }
    }

    /** `getSpecific`: the stored product, or NOT_FOUND; the tables are untouched either way. */
    method GetSpecific(id: int) returns (r: Result<Product>)
      requires Valid()
      modifies this`calls
      ensures Valid()
      ensures calls == old(calls) + [FindById(id)]
      ensures id in products ==> r == Ok(Entity(id))
      ensures id !in products ==> r == NotFound(id)
    {
      calls := calls + [FindById(id)];
      if id in products {
        r := Ok(Entity(id));
      } else {
        r := NotFound(id);
      }
    }

    /** `addProduct`: stores the body's fields under a fresh id together with a new Price of the body's
        amount, linked both ways, in one save; the products stored before are unchanged. The body has
        passed the create constraints, so its id is null and the other fields are present. */
    method AddProduct(dto: ProductDtos.ProductDto) returns (saved: Product)
      requires Valid()
      requires dto.id.None? && dto.name.Some? && dto.barcode.Some? && dto.countInStock.Some? && dto.price.Some?
      modifies this
      ensures Valid()
      ensures old(nextId) !in old(products) && old(nextId) + 1 !in old(prices) && nextId == old(nextId) + 2
      ensures products == old(products)[old(nextId) := ProductRow(dto.name.value, dto.barcode.value, dto.countInStock.value)]
      ensures prices == old(prices)[old(nextId) + 1 := PriceRow(old(nextId), dto.price.value)]
      ensures priceIndex == old(priceIndex)[old(nextId) := old(nextId) + 1]
      ensures order == old(order) + [old(nextId)]
      ensures calls == old(calls) + [Save(old(nextId))]
      ensures saved == Entity(old(nextId))
      ensures saved.price == Some(Price(Some(old(nextId) + 1), saved.id, dto.price.value))
      ensures ToDto(saved) == dto.(id := saved.id)
    {
      var product := FromDto(dto);
      var price := NewPrice(dto.price.value);
      // productRepository.save(product), cascading to its price; both ids come from the sequence
      var id := nextId;
      assert id !in order;
      var priceId := nextId + 1;
      nextId := nextId + 2;
      // price.setProduct(product) and product.setPrice(price): the reference is the product's id
      price := price.(product := Some(id));
      product := product.(price := Some(price));
      products := products[id := ProductRow(product.name, product.barcode, product.countInStock)];
      prices := prices[priceId := PriceRow(price.product.value, product.price.value.value)];
      priceIndex := priceIndex[id := priceId];
      order := order + [id];
      calls := calls + [Save(id)];
      saved := Entity(id);
    }

    /** `updateProduct`: NOT_FOUND with no save when the id is absent; otherwise the field-by-field
        merge of the request into that product, the price going through its own lookup and save, then
        one save of the product. Other products, all other prices and the row order are unchanged. */
    method UpdateProduct(id: int, dto: ProductUpdateDto) returns (r: Result<Product>)
      requires Valid()
      modifies this
      ensures Valid()
      ensures order == old(order) && nextId == old(nextId) && priceIndex == old(priceIndex)
      ensures id !in old(products) ==>
        && r == NotFound(id)
        && products == old(products) && prices == old(prices)
        && calls == old(calls) + [FindById(id)]
      ensures id in old(products) ==>
        && products == old(products)[id := MergeRow(old(products[id]), dto)]
        && prices == old(prices)[old(priceIndex[id]) := MergePrice(old(prices[priceIndex[id]]), dto)]
        && (dto.price.None? ==> calls == old(calls) + [FindById(id), Save(id)])
        && (dto.price.Some? ==>
              calls == old(calls) + [FindById(id), FindPriceByProductId(id), SavePrice(old(priceIndex[id])), Save(id)])
        && r == Ok(Entity(id))
    {
      calls := calls + [FindById(id)];
      if id !in products {
        return NotFound(id);
      }
      var productFromDb := Entity(id);
      if dto.name.Some? {
        productFromDb := productFromDb.(name := dto.name.value);
      }
      if dto.price.Some? {
        var priceFromDb := UpdatePrice(id, dto.price.value);
        productFromDb := productFromDb.(price := Some(priceFromDb));
      }
      if dto.barcode.Some? {
        productFromDb := productFromDb.(barcode := dto.barcode.value);
      }
      if dto.countInStock.Some? {
        productFromDb := productFromDb.(countInStock := dto.countInStock.value);
      }
      Persist(productFromDb);
      r := Ok(Entity(id));
    }

    /** The price branch of `updateProduct`: load the product's Price through `findByProductId`, set
        its amount, and save it; only that price row changes. */
    method UpdatePrice(productId: int, value: int) returns (saved: Price)
      requires Valid() && productId in products
      modifies this`prices, this`calls
      ensures Valid()
      ensures prices == old(prices)[priceIndex[productId] := PriceRow(productId, value)]
      ensures calls == old(calls) + [FindPriceByProductId(productId), SavePrice(priceIndex[productId])]
      ensures saved == PriceEntity(productId) && saved.value == value
    {
      calls := calls + [FindPriceByProductId(productId)];
      var priceFromDb := PriceEntity(productId);
      priceFromDb := priceFromDb.(value := value);
      var pid := priceFromDb.id.value;
      prices := prices[pid := PriceRow(productId, priceFromDb.value)];
      calls := calls + [SavePrice(pid)];
      saved := priceFromDb;
    }

    /** `productRepository.save` of a stored product: its row is written back and, by cascade, the
        Price it holds, which is the stored one. */
    method Persist(p: Product)
      requires Valid() && p.id.Some? && p.id.value in products
      requires p.price == Some(PriceEntity(p.id.value))
      modifies this`products, this`prices, this`calls
      ensures Valid()
      ensures products == old(products)[p.id.value := ProductRow(p.name, p.barcode, p.countInStock)]
      ensures prices == old(prices)
      ensures calls == old(calls) + [Save(p.id.value)]
    {
      var id := p.id.value;
      var owned := p.price.value;
      products := products[id := ProductRow(p.name, p.barcode, p.countInStock)];
      prices := prices[owned.id.value := PriceRow(id, owned.value)];
      calls := calls + [Save(id)];
    }

    /** `deleteProduct`: NOT_FOUND with the tables untouched when the id is absent; otherwise exactly
        that product is removed, and by cascade its price. */
    method DeleteProduct(id: int) returns (r: Result<()>)
      requires Valid()
      modifies this
      ensures Valid()
      ensures nextId == old(nextId)
      ensures id !in old(products) ==>
        && r == NotFound(id)
        && products == old(products) && prices == old(prices) && priceIndex == old(priceIndex)
        && order == old(order)
        && calls == old(calls) + [FindById(id)]
      ensures id in old(products) ==>
        && r == Ok(())
        && products == old(products) - {id}
        && prices == old(prices) - {old(priceIndex[id])}
        && priceIndex == old(priceIndex) - {id}
        && order == Without(old(order), id)
        && calls == old(calls) + [FindById(id), Delete(id)]
    {
      calls := calls + [FindById(id)];
      if id !in products {
        return NotFound(id);
      }
      prices := prices - {priceIndex[id]};
      priceIndex := priceIndex - {id};
      products := products - {id};
      order := Without(order, id);
      calls := calls + [Delete(id)];
      r := Ok(());
    }
  }

  /** A stored product `{name: "Test", barcode: 1, countInStock: 1, price: 1}` is patched with the
      create body `{name: "Updated", barcode: 1, countInStock: 1, price: 66}`: the same product now has
      the new name and the new price, and its other fields are as they were. */
  method UpdateScenario() returns (stored: Product, patched: Result<Product>)
    ensures stored.id.Some? && stored.name == "Test" && stored.price.Some? && stored.price.value.value == 1
    ensures patched.Ok? && patched.value.id == stored.id
    ensures patched.value.name == "Updated" && patched.value.price.Some? && patched.value.price.value.value == 66
    ensures patched.value.barcode == stored.barcode == 1 && patched.value.countInStock == stored.countInStock == 1
  {
    var service := new ProductService();
    stored := service.AddProduct(ProductDtos.ProductDto(None, Some("Test"), Some(1), Some(1), Some(1)));
    var body := ProductDtos.ProductDto(None, Some("Updated"), Some(1), Some(1), Some(66));
    patched := service.UpdateProduct(stored.id.value, FromCreateBody(body));
  }

  /** A stored product is deleted successfully, and a lookup of its id afterwards is NOT_FOUND. */
  method DeleteScenario() returns (stored: Product, deleted: Result<()>, afterDelete: Result<Product>)
    ensures stored.id.Some? && deleted == Ok(())
    ensures afterDelete == NotFound(stored.id.value)
    ensures afterDelete.Reason() == NotFoundReason(stored.id.value)
  {
    var service := new ProductService();
    stored := service.AddProduct(ProductDtos.ProductDto(None, Some("Test"), Some(1), Some(1), Some(1)));
    var id := stored.id.value;
    deleted := service.DeleteProduct(id);
    afterDelete := service.GetSpecific(id);
  }
}
