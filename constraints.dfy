/** The Bean Validation constraints the two product DTOs declare, written out as explicit checks.
    A field's checks produce the violations it causes, in the order the annotations are listed. */
module Constraints {
  import opened Wrappers
  import opened Violations
  import opened NamePattern
  import opened Sequences

  const MinNameLength := 3
  const MaxNameLength := 255

  /** Default message of `@Null`. */
  const NullMessage := "must be null"
  /** Default message of `@NotNull`. */
  const NotNullMessage := "must not be null"
  /** Default message of `@Size(min = 3, max = 255)`. */
  const SizeMessage := "size must be between 3 and 255"
  /** Message given to the name's `@Pattern`. */
  const NameMessage := "name should be valid"
  /** Default message of `@Positive`. */
  const PositiveMessage := "must be greater than 0"

  predicate SizeInRange(s: string) {
    MinNameLength <= |s| <= MaxNameLength
  }

  /** A name that passes both `@Size` and `@Pattern`. */
  predicate IsValidName(s: string) {
    SizeInRange(s) && MatchesNamePattern(s)
  }

  /** `@Null` on `field`. */
  function NullViolations(field: string, v: Option<int>): seq<Violation> {
    if v.Some? then [Violation(field, NullMessage)] else []
  }

  /** The name field: `@NotNull` when `required`, then `@Size` and `@Pattern`, both of which a null passes. */
  function NameViolations(name: Option<string>, required: bool): seq<Violation> {
    match name
    case None => if required then [Violation("name", NotNullMessage)] else []
    case Some(s) =>
      (if SizeInRange(s) then [] else [Violation("name", SizeMessage)])
      + (if FullMatch(s) then [] else [Violation("name", NameMessage)])
  }

  /** A `Long` field: `@NotNull` when `required`, then `@Positive` (strictly greater than 0), which a null passes. */
  function PositiveViolations(field: string, v: Option<int>, required: bool): seq<Violation> {
    match v
    case None => if required then [Violation(field, NotNullMessage)] else []
    case Some(n) => if n > 0 then [] else [Violation(field, PositiveMessage)]
  }

  /** The name's violations, rule by rule: each message is reported exactly when its rule fails. */
  lemma NameViolationsExact(name: Option<string>, required: bool)
    ensures var vs := NameViolations(name, required);
      && (vs == [] <==> if name.Some? then IsValidName(name.value) else !required)
      && (Violation("name", NotNullMessage) in vs <==> required && name.None?)
      && (Violation("name", SizeMessage) in vs <==> name.Some? && !SizeInRange(name.value))
      && (Violation("name", NameMessage) in vs <==> name.Some? && !MatchesNamePattern(name.value))
      && (forall v :: v in vs ==> v.fieldName == "name")
      && NoDuplicates(vs)
  {
    if name.Some? {
      FullMatchIffPattern(name.value);
    }
  }

  /** A `Long` field's violations, rule by rule. */
  lemma PositiveViolationsExact(field: string, v: Option<int>, required: bool)
    ensures var vs := PositiveViolations(field, v, required);
      && (vs == [] <==> if v.Some? then v.value > 0 else !required)
      && (Violation(field, NotNullMessage) in vs <==> required && v.None?)
      && (Violation(field, PositiveMessage) in vs <==> v.Some? && v.value <= 0)
      && (forall x :: x in vs ==> x.fieldName == field)
      && NoDuplicates(vs)
  {
  }

  /** Two lists without repeats and without a common element join into a list without repeats. */
  lemma DistinctAppend(a: seq<Violation>, b: seq<Violation>)
    requires NoDuplicates(a) && NoDuplicates(b)
    requires forall x, y :: x in a && y in b ==> x.fieldName != y.fieldName
    ensures NoDuplicates(a + b)
  {
    var c := a + b;
    forall i, j | 0 <= i < j < |c| ensures c[i] != c[j] {
      if i < |a| && j >= |a| {
        assert c[i] in a && c[j] in b;
      }
    }
  }

  /** Dropping `@NotNull` from the name only ever removes violations: an optional name reports a
      sub-multiset of what a required name reports. */
  lemma OptionalNameReportsLess(name: Option<string>)
    ensures multiset(NameViolations(name, false)) <= multiset(NameViolations(name, true))
  {
  }

  /** Dropping `@NotNull` from a `@Positive` field only ever removes violations: the optional field
      reports a sub-multiset of what the same field reports when required. */
  lemma OptionalPositiveReportsLess(field: string, v: Option<int>)
    ensures multiset(PositiveViolations(field, v, false)) <= multiset(PositiveViolations(field, v, true))
  {
  }
}
