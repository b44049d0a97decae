/** The create request body (web/api/modules/product/dto/ProductDto.java) and its constraints. */
module ProductDtos {
  import opened Wrappers
  import opened Violations
  import opened Constraints
  import opened Sequences

  /** Every field is a nullable `Long` or `String`. */
  datatype ProductDto = ProductDto(
    id: Option<int>,
    name: Option<string>,
    barcode: Option<int>,
    countInStock: Option<int>,
    price: Option<int>)

  /** The create constraints, field by field: no id; a name of 3 to 255 characters matching the
      pattern; barcode, count in stock and price present and strictly positive. */
  predicate IsValid(d: ProductDto) {
    && d.id.None?
    && d.name.Some? && IsValidName(d.name.value)
    && d.barcode.Some? && d.barcode.value > 0
    && d.countInStock.Some? && d.countInStock.value > 0
    && d.price.Some? && d.price.value > 0
  }

  /** The violations a create request causes, fields in declaration order. */
  function Validate(d: ProductDto): seq<Violation> {
    NullViolations("id", d.id)
    + NameViolations(d.name, true)
    + PositiveViolations("barcode", d.barcode, true)
    + PositiveViolations("countInStock", d.countInStock, true)
    + PositiveViolations("price", d.price, true)
  }

  /** A create request passes validation exactly when it meets every constraint. */
  lemma ValidateAcceptsExactlyValid(d: ProductDto)
    ensures Validate(d) == [] <==> IsValid(d)
  {
    NameViolationsExact(d.name, true);
  }

  /** Each broken rule is reported with its field and message. */
  lemma ValidateReportsEachBrokenRule(d: ProductDto)
    ensures var vs := Validate(d);
      && (Violation("id", NullMessage) in vs <==> d.id.Some?)
      && (Violation("name", NotNullMessage) in vs <==> d.name.None?)
      && (Violation("name", SizeMessage) in vs <==> d.name.Some? && !SizeInRange(d.name.value))
      && (Violation("name", NameMessage) in vs <==> d.name.Some? && !NamePattern.MatchesNamePattern(d.name.value))
      && (Violation("barcode", NotNullMessage) in vs <==> d.barcode.None?)
      && (Violation("barcode", PositiveMessage) in vs <==> d.barcode.Some? && d.barcode.value <= 0)
      && (Violation("countInStock", NotNullMessage) in vs <==> d.countInStock.None?)
      && (Violation("countInStock", PositiveMessage) in vs <==> d.countInStock.Some? && d.countInStock.value <= 0)
      && (Violation("price", NotNullMessage) in vs <==> d.price.None?)
      && (Violation("price", PositiveMessage) in vs <==> d.price.Some? && d.price.value <= 0)
  {
    NameViolationsExact(d.name, true);
    PositiveViolationsExact("barcode", d.barcode, true);
    PositiveViolationsExact("countInStock", d.countInStock, true);
    PositiveViolationsExact("price", d.price, true);
  }

  /** Nothing but those ten violations is ever reported, and none is reported twice. */
  lemma ValidateReportsNothingElse(d: ProductDto)
    ensures var vs := Validate(d);
      && (forall v :: v in vs ==> v in {
            Violation("id", NullMessage),
            Violation("name", NotNullMessage), Violation("name", SizeMessage), Violation("name", NameMessage),
            Violation("barcode", NotNullMessage), Violation("barcode", PositiveMessage),
            Violation("countInStock", NotNullMessage), Violation("countInStock", PositiveMessage),
            Violation("price", NotNullMessage), Violation("price", PositiveMessage)})
      && NoDuplicates(vs)
  {
    var ids := NullViolations("id", d.id);
    var names := NameViolations(d.name, true);
    var barcodes := PositiveViolations("barcode", d.barcode, true);
    var counts := PositiveViolations("countInStock", d.countInStock, true);
    var prices := PositiveViolations("price", d.price, true);
    assert Validate(d) == ids + names + barcodes + counts + prices;
    assert NoDuplicates(Validate(d)) by {
      NameViolationsExact(d.name, true);
      PositiveViolationsExact("barcode", d.barcode, true);
      PositiveViolationsExact("countInStock", d.countInStock, true);
      PositiveViolationsExact("price", d.price, true);
      DistinctAppend(ids, names);
      DistinctAppend(ids + names, barcodes);
      DistinctAppend(ids + names + barcodes, counts);
      DistinctAppend(ids + names + barcodes + counts, prices);
    }
  }

  /** "Tt" fits the pattern but is too short: the one violation is the size message on `name`. */
  lemma TooShortNameReportsSizeOnly()
    ensures Validate(ProductDto(None, Some("Tt"), Some(5), Some(5), Some(5)))
         == [Violation("name", SizeMessage)]
  {
    NamePattern.FullMatchIffPattern("Tt");
  }

  /** The request the controller tests create with has no violations. */
  lemma TestRequestIsValid()
    ensures Validate(ProductDto(None, Some("Test"), Some(1), Some(1), Some(10))) == []
  {
    ValidateAcceptsExactlyValid(ProductDto(None, Some("Test"), Some(1), Some(1), Some(10)));
  }
}
