/** The element of a validation failure report (exception/handling/dto/Violation.java). */
module Violations {

  /** An immutable pair of the offending field's name and the failed constraint's message.
      Lombok's `@EqualsAndHashCode` over the two final fields is Dafny's structural equality. */
  datatype Violation = Violation(fieldName: string, message: string)

  /** Two violations are equal exactly when both their field names and their messages are. */
  lemma EqualExactlyWhenFieldsEqual(a: Violation, b: Violation)
    ensures a == b <==> a.fieldName == b.fieldName && a.message == b.message
  {
  }

  /** The constructor stores its two arguments unchanged and in declaration order. */
  lemma ConstructorKeepsArguments(fieldName: string, message: string)
    ensures Violation(fieldName, message).fieldName == fieldName
    ensures Violation(fieldName, message).message == message
  {
  }
}
