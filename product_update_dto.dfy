/** The partial-update request body (web/api/modules/product/dto/ProductUpdateDto.java) and its constraints. */
module ProductUpdateDtos {
  import opened Wrappers
  import opened Violations
  import opened Constraints
  import opened Sequences
  import ProductDtos

  /** Every field is optional: `None` means "leave the stored value alone". */
  datatype ProductUpdateDto = ProductUpdateDto(
    name: Option<string>,
    barcode: Option<int>,
    countInStock: Option<int>,
    price: Option<int>)

  /** The update constraints: each field, when present, obeys the same rule as on create. */
  predicate IsValid(d: ProductUpdateDto) {
    && (d.name.Some? ==> IsValidName(d.name.value))
    && (d.barcode.Some? ==> d.barcode.value > 0)
    && (d.countInStock.Some? ==> d.countInStock.value > 0)
    && (d.price.Some? ==> d.price.value > 0)
  }

  /** The violations an update request causes, fields in declaration order. */
  function Validate(d: ProductUpdateDto): seq<Violation> {
    NameViolations(d.name, false)
    + PositiveViolations("barcode", d.barcode, false)
    + PositiveViolations("countInStock", d.countInStock, false)
    + PositiveViolations("price", d.price, false)
  }

  /** An update request passes validation exactly when every present field obeys its rule. */
  lemma ValidateAcceptsExactlyValid(d: ProductUpdateDto)
    ensures Validate(d) == [] <==> IsValid(d)
  {
    NameViolationsExact(d.name, false);
  }

  /** Each broken rule of a present field is reported, and a missing field never is. */
  lemma ValidateReportsEachBrokenRule(d: ProductUpdateDto)
    ensures var vs := Validate(d);
      && (d.name.None? ==> forall v :: v in vs ==> v.fieldName != "name")
      && (d.barcode.None? ==> forall v :: v in vs ==> v.fieldName != "barcode")
      && (d.countInStock.None? ==> forall v :: v in vs ==> v.fieldName != "countInStock")
      && (d.price.None? ==> forall v :: v in vs ==> v.fieldName != "price")
      && (Violation("name", SizeMessage) in vs <==> d.name.Some? && !SizeInRange(d.name.value))
      && (Violation("name", NameMessage) in vs <==> d.name.Some? && !NamePattern.MatchesNamePattern(d.name.value))
      && (Violation("barcode", PositiveMessage) in vs <==> d.barcode.Some? && d.barcode.value <= 0)
      && (Violation("countInStock", PositiveMessage) in vs <==> d.countInStock.Some? && d.countInStock.value <= 0)
      && (Violation("price", PositiveMessage) in vs <==> d.price.Some? && d.price.value <= 0)
  {
    NameViolationsExact(d.name, false);
    PositiveViolationsExact("barcode", d.barcode, false);
    PositiveViolationsExact("countInStock", d.countInStock, false);
    PositiveViolationsExact("price", d.price, false);
  }

  /** Nothing but those five violations is ever reported, and none is reported twice. */
  lemma ValidateReportsNothingElse(d: ProductUpdateDto)
    ensures var vs := Validate(d);
      && (forall v :: v in vs ==> v in {
            Violation("name", SizeMessage), Violation("name", NameMessage),
            Violation("barcode", PositiveMessage), Violation("countInStock", PositiveMessage),
            Violation("price", PositiveMessage)})
      && NoDuplicates(vs)
  {
    var names := NameViolations(d.name, false);
    var barcodes := PositiveViolations("barcode", d.barcode, false);
    var counts := PositiveViolations("countInStock", d.countInStock, false);
    var prices := PositiveViolations("price", d.price, false);
    NameViolationsExact(d.name, false);
    PositiveViolationsExact("barcode", d.barcode, false);
    PositiveViolationsExact("countInStock", d.countInStock, false);
    PositiveViolationsExact("price", d.price, false);
    DistinctAppend(names, barcodes);
    DistinctAppend(names + barcodes, counts);
    DistinctAppend(names + barcodes + counts, prices);
  }

  /** An update that sets nothing has nothing to violate. */
  lemma EmptyUpdateIsValid()
    ensures Validate(ProductUpdateDto(None, None, None, None)) == []
  {
  }

  /** The update body a create body reads as: the same field names, `id` ignored. */
  function FromCreateBody(d: ProductDtos.ProductDto): ProductUpdateDto {
    ProductUpdateDto(d.name, d.barcode, d.countInStock, d.price)
  }

  /** The update rules are the create rules without `@Null` and `@NotNull`: a body reports on update a
      sub-multiset of what it reports on create, so whatever create accepts, update accepts. */
  lemma CreateRulesImplyUpdateRules(d: ProductDtos.ProductDto)
    ensures multiset(Validate(FromCreateBody(d))) <= multiset(ProductDtos.Validate(d))
    ensures ProductDtos.IsValid(d) ==> IsValid(FromCreateBody(d))
  {
    OptionalNameReportsLess(d.name);
    OptionalPositiveReportsLess("barcode", d.barcode);
    OptionalPositiveReportsLess("countInStock", d.countInStock);
    OptionalPositiveReportsLess("price", d.price);
  }

  /** Patching with the too-short name "Tt" reports only the size message on `name`. */
  lemma TooShortNameReportsSizeOnly()
    ensures Validate(ProductUpdateDto(Some("Tt"), Some(5), Some(5), Some(5)))
         == [Violation("name", SizeMessage)]
  {
    NamePattern.FullMatchIffPattern("Tt");
  }
}
