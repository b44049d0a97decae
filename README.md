# Product inventory service, modelled in Dafny

A model of the core of a small Spring CRUD backend for products. It covers the product service's five operations over the `products` and `prices` tables, the two persisted entities, and the declarative validation constraints on the create and partial-update request bodies. Validation failures are reported as `(fieldName, message)` violations.

Files:

- `wrappers.dfy` (`Wrappers`): `Option`, the model of a nullable Java reference.
- `violation.dfy` (`Violations`): the immutable `Violation` value.
- `name_pattern.dfy` (`NamePattern`): the name pattern `([A-Z][a-zA-Z]*)`, in two forms:
  - a three-state automaton run over the whole string, which is `Matcher.matches()` semantics;
  - a reference predicate.
  The two are proved equivalent.
- `constraints.dfy` (`Constraints`): `@Null`, `@NotNull`, `@Size(3, 255)`, `@Pattern` and `@Positive` as explicit checks. Each check yields its violations with the messages Hibernate Validator uses. A null passes `@Size`, `@Pattern` and `@Positive`.
- `product_dto.dfy` (`ProductDtos`), `product_update_dto.dfy` (`ProductUpdateDtos`): the two request bodies. Each has its validator, a field-by-field validity predicate, and the lemmas that connect the two.
- `entities.dfy` (`Entities`): `Product` and `Price`, the `new Price(value)` constructor, and the persisted-entity invariants. It also holds the explicit field copies that stand in for the object mapper.
- `decimal.dfy` (`Decimal`): `Long.toString`, with its inverse, so the NOT_FOUND reason `"Could not find product with id " + id` can be stated and shown to identify the id.
- `sequences.dfy` (`Sequences`): duplicate-free id sequences, which give the table's row order.
- `product_service.dfy` (`Service`): the `ProductService` class. It holds:
  - `products`, the products table;
  - `prices`, the prices table, keyed by price id;
  - `priceIndex`, the unique index on `product_id`, which is what `findByProductId` reads;
  - `order`, the row order `findAll` returns;
  - `nextId`, the id sequence;
  - `calls`, a trace of every repository call.

  `Valid()` states the store's invariants:
  - every product has exactly one price. The schema guarantees only "at most one" (`product_id` is unique and non-null, and the product side of the link is optional); the service keeps "at least one", because `addProduct` always attaches a price and nothing removes a price on its own;
  - every price belongs to a stored product;
  - `product_id` is unique;
  - ids are unique and fresh.

  Each service method states its whole new state and its trace. `GetSpecific`, `UpdateProduct` and `DeleteProduct` also state their NOT_FOUND path. The trace makes it possible to state "no save on a missing id" and "exactly one lookup and one save".

`updateProduct` calls `priceFromDb.setPrice(...)` on a `Price`, at `ProductService.java:56`. `Price` only has the fields `id`, `product` and `value`, so Lombok generates no `setPrice`. The integration test expects the price amount to become 66 after the PATCH. The model therefore implements the evidently intended `setValue`: `UpdatePrice` sets the Price row's amount.

## Model

| member | source | states |
|---|---|---|
| `Violations.EqualExactlyWhenFieldsEqual` | src/main/java/ru/elseff/demo/exception/handling/dto/Violation.java:8-13 | two violations are equal exactly when both field name and message are equal |
| `Violations.ConstructorKeepsArguments` | src/main/java/ru/elseff/demo/exception/handling/dto/Violation.java:9-13 | the constructor takes (fieldName, message) in declaration order and stores both unchanged |
| `NamePattern.FullMatchIffPattern` | src/main/java/ru/elseff/demo/web/api/modules/product/dto/ProductDto.java:19 | the pattern matches the whole string exactly when it is one upper-case ASCII letter followed only by ASCII letters |
| `Constraints.NameViolationsExact` | src/main/java/ru/elseff/demo/web/api/modules/product/dto/ProductDto.java:17-19 | name: no violation iff valid (or null and optional); "must not be null" iff required and null; the size message iff present with length outside 3..255; "name should be valid" iff present and not matching; every violation is on field `name` |
| `Constraints.PositiveViolationsExact` | src/main/java/ru/elseff/demo/web/api/modules/product/dto/ProductDto.java:22-32 | a Long field: no violation iff positive (or null and optional); "must not be null" iff required and null; "must be greater than 0" iff present and <= 0 |
| `Constraints.OptionalNameReportsLess` | src/main/java/ru/elseff/demo/web/api/modules/product/dto/ProductUpdateDto.java:18-20 | an optional name reports a sub-multiset of what a required name reports |
| `Constraints.OptionalPositiveReportsLess` | src/main/java/ru/elseff/demo/web/api/modules/product/dto/ProductUpdateDto.java:22-29 | an optional `@Positive` field reports a sub-multiset of what the same field reports when required |
| `ProductDtos.ValidateAcceptsExactlyValid` | src/main/java/ru/elseff/demo/web/api/modules/product/dto/ProductDto.java:14-32 | a create body has no violations iff its id is null, its name is present, 3..255 long and matches, and barcode, countInStock and price are present and > 0 |
| `ProductDtos.ValidateReportsEachBrokenRule` | src/main/java/ru/elseff/demo/web/api/modules/product/dto/ProductDto.java:14-32 | each of the ten (field, message) violations is reported exactly when its rule fails |
| `ProductDtos.ValidateReportsNothingElse` | src/main/java/ru/elseff/demo/web/api/modules/product/dto/ProductDto.java:14-32 | a create body's list holds only those ten violations, each at most once: one entry per failed constraint |
| `ProductDtos.TooShortNameReportsSizeOnly` | src/test/java/ru/elseff/demo/web/api/modules/product/controller/ProductControllerTest.java:159-182 | {name "Tt", 5, 5, 5} yields exactly [("name", "size must be between 3 and 255")] |
| `ProductDtos.TestRequestIsValid` | src/test/java/ru/elseff/demo/web/api/modules/product/controller/ProductControllerTest.java:286-293 | {name "Test", barcode 1, countInStock 1, price 10} yields no violations |
| `ProductUpdateDtos.ValidateAcceptsExactlyValid` | src/main/java/ru/elseff/demo/web/api/modules/product/dto/ProductUpdateDto.java:18-29 | an update body has no violations iff every present field obeys its rule |
| `ProductUpdateDtos.ValidateReportsEachBrokenRule` | src/main/java/ru/elseff/demo/web/api/modules/product/dto/ProductUpdateDto.java:18-29 | no violation names a field the body left null; each rule broken by a present field is reported with its field and message |
| `ProductUpdateDtos.ValidateReportsNothingElse` | src/main/java/ru/elseff/demo/web/api/modules/product/dto/ProductUpdateDto.java:18-29 | an update body's list holds only the size, pattern and three positivity violations, each at most once |
| `ProductUpdateDtos.EmptyUpdateIsValid` | src/main/java/ru/elseff/demo/web/api/modules/product/dto/ProductUpdateDto.java:18-29 | an update with every field null has no violations |
| `ProductUpdateDtos.CreateRulesImplyUpdateRules` | src/main/java/ru/elseff/demo/web/api/modules/product/dto/ProductUpdateDto.java:18-29 | the update violations of a body are a sub-multiset of its create violations, so whatever create accepts, update accepts |
| `ProductUpdateDtos.TooShortNameReportsSizeOnly` | src/test/java/ru/elseff/demo/web/api/modules/product/controller/ProductControllerTest.java:239-265 | patching with name "Tt" and positive numbers yields exactly [("name", "size must be between 3 and 255")] |
| `Entities.NewPrice` | src/main/java/ru/elseff/demo/persistense/Price.java:32-34 | `new Price(value)` sets the amount and leaves id and product unset, so the price is not persisted |
| `Entities.DtoRoundTrip` | src/main/java/ru/elseff/demo/web/api/modules/product/service/ProductService.java:38-42 | copying a complete body onto a Product with `new Price(body.price)` and copying it back yields the body |
| `Service.NotFoundReason` | src/main/java/ru/elseff/demo/web/api/modules/product/service/ProductService.java:35 | the reason is "Could not find product with id " followed by exactly the id's decimal text, which reads back as the id |
| `Decimal.NatToStringNoLeadingZero` | src/main/java/ru/elseff/demo/web/api/modules/product/service/ProductService.java:35 | the id's digits, as `Long.toString` writes them, never start with a redundant zero |
| `Service.NotFoundReasonIdentifiesId` | src/main/java/ru/elseff/demo/web/api/modules/product/service/ProductService.java:35 | two reasons are equal exactly when their ids are equal |
| `Service.NotFoundReasonForOne` | src/test/java/ru/elseff/demo/web/api/modules/product/service/ProductServiceTest.java:79-88 | the reason for id 1 is "Could not find product with id 1" |
| `Service.MergeChangesOnlySentFields` | src/main/java/ru/elseff/demo/web/api/modules/product/service/ProductService.java:51-64 | each of name, barcode, countInStock and the price amount takes the sent value when non-null and keeps the stored one when null; the price row keeps its product |
| `Service.EmptyUpdateKeepsRow` | src/main/java/ru/elseff/demo/web/api/modules/product/service/ProductService.java:47-65 | an all-null update leaves the product row and its price row unchanged |
| `Service.MergeIdempotent` | src/main/java/ru/elseff/demo/web/api/modules/product/service/ProductService.java:51-64 | applying the same update twice equals applying it once |
| `Service.ProductService.OnePricePerProduct` | src/main/java/ru/elseff/demo/persistense/Price.java:23-27 | under the invariant two prices share a product_id only if they are the same row (the unique key) |
| `Service.ProductService.PriceEntity` | src/main/java/ru/elseff/demo/persistense/Price.java:21-30 | the Price a product's lookup loads is persisted and refers back to that product |
| `Service.ProductService.Entity` | src/main/java/ru/elseff/demo/persistense/Product.java:16-31 | a stored product has its id and owns a persisted Price that refers back to it |
| `Service.ProductService.OrderCountsProducts` | src/main/java/ru/elseff/demo/web/api/modules/product/service/ProductService.java:29-31 | the row order `findAll` returns lists each stored id once, so it has as many entries as there are products |
| `Service.ProductService.constructor` | src/main/java/ru/elseff/demo/web/api/modules/product/service/ProductService.java:19-27 | a service over empty tables satisfies the invariant, with the sequence at 1 and an empty trace |
| `Service.ProductService.GetAll` | src/main/java/ru/elseff/demo/web/api/modules/product/service/ProductService.java:29-31 | returns every stored product and nothing else, as many as are stored, after one findAll; the tables are unchanged |
| `Service.ProductService.GetSpecific` | src/main/java/ru/elseff/demo/web/api/modules/product/service/ProductService.java:33-36 | Ok(the stored product) when the id is present, otherwise NotFound(id); one findById; the tables are unchanged |
| `Service.ProductService.AddProduct` | src/main/java/ru/elseff/demo/web/api/modules/product/service/ProductService.java:38-43 | stores the body's fields under a fresh id, with a Price of the body's amount under a fresh id whose back-reference is the new product; earlier rows unchanged; one save; the returned product echoes the body |
| `Service.ProductService.UpdateProduct` | src/main/java/ru/elseff/demo/web/api/modules/product/service/ProductService.java:47-66 | absent id: NotFound, only a findById, nothing changed; present: that row becomes the merge, that product's price row takes the sent amount, nothing else changes; trace findById, [findByProductId, price save], save |
| `Service.ProductService.UpdatePrice` | src/main/java/ru/elseff/demo/web/api/modules/product/service/ProductService.java:54-58 | loads the product's Price through the product_id index, sets its amount, saves it; only that price row changes |
| `Service.ProductService.Persist` | src/main/java/ru/elseff/demo/persistense/Product.java:30-31 | saving a loaded product writes its row back and, cascading, its Price, which leaves the prices table as it was |
| `Service.ProductService.DeleteProduct` | src/main/java/ru/elseff/demo/web/api/modules/product/service/ProductService.java:68-72 | absent id: NotFound with the tables untouched; present: exactly that product and, cascading, its price are removed; trace findById, delete |
| `Service.UpdateScenario` | src/test/java/ru/elseff/demo/web/api/modules/product/controller/ProductControllerTest.java:185-215 | a stored product {"Test", 1, 1, price 1} patched with the create body {"Updated", 1, 1, 66} keeps its id and now has name "Updated" and price 66, barcode and countInStock unchanged (the product is stored through `AddProduct` rather than a direct repository save) |
| `Service.DeleteScenario` | src/test/java/ru/elseff/demo/web/api/modules/product/controller/ProductControllerTest.java:268-275 | deleting a stored product succeeds, and a lookup of its id afterwards is NOT_FOUND with that id's reason |

## Left out

- HTTP routing, status codes (200/201/204/400/404), `@Valid` interception and the JSON shape of error responses are not modelled. Only the validators' violation lists and the service results are.
- The object mapper is not modelled. `Entities.FromDto` and `Entities.ToDto` are explicit copies, assumed to do what the mapper does:
  - name, barcode and countInStock are copied;
  - the Price's amount is flattened onto the body's `price`.
- Java `Long` is modelled as an unbounded integer, so 64-bit overflow of values and of the id sequence is not modelled. Nothing in the core does arithmetic on the values.
- Name length is counted in `char`s. UTF-16 surrogate pairs and Unicode are not treated specially, and the pattern is over ASCII letters only.
- Bean Validation does not define the order of violations. The validators list them in field declaration order, and the lemmas speak of membership and multisets. A list with a single violation is the same in any order.
- Id generation is modelled as one store-wide sequence that starts at 1 and gives a product and then its price consecutive values. Hibernate's sequence and allocation details are not modelled.
- `findAll` has no ordering guarantee. The model returns products in insertion order.
- Service.ProductService.AddProduct requires a null id and non-null name, barcode, countInStock and price, which the create body's `@Null` and `@NotNull` constraints guarantee, since the controller validates the body with `@Valid` before calling the service. A body with an id would take `save`'s merge path instead of an insert, and a null column would raise a fatal store error; neither path is modelled.
- `findByProductId` returning null is not modelled, because the invariant gives every stored product exactly one price. A product stored without a price (possible through the repository, not through this service) would make the price branch of `updateProduct` fail with a NullPointerException; that path is not modelled.
- Other persistence failures are not modelled (connectivity, constraint violations raised by the store). Neither are transactions or concurrent requests, which the service layer does not handle.
- The mocked repositories and mapper of the unit tests are not modelled. The model states what a real store does instead.
