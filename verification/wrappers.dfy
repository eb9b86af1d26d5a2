/** Small value types shared by the vault model: optional values, explicit
    field assignments, and the truthiness rule the store's partial updates use. */
module Wrappers {

  /** A value that may be absent; stands for a nullable column or a `None` argument. */
  datatype Option<+T> = None | Some(value: T)

  /** A value, or the error that prevented computing it. */
  datatype Result<+T, +E> = Success(value: T) | Failure(error: E)

  /** One field of an explicit update: leave the field alone, or assign `value` to it. */
  datatype Patch<+T> = Keep | Set(value: T) {

    /** The field's value after the update, given its value before. */
    function Apply(current: T): T {
      match this
      case Keep => current
      case Set(v) => v
    }
  }

  /** Truthiness of an optional text argument: `None` and the empty string
      both count as "not supplied". */
  predicate Supplied(o: Option<string>) {
    o.Some? && o.value != ""
  }

  /** A truthiness-guarded assignment took effect: a supplied value replaced
      the field, otherwise the field kept its value. */
  ghost predicate Assigned(o: Option<string>, before: string, after: string) {
    && (Supplied(o) ==> after == o.value)
    && (!Supplied(o) ==> after == before)
  }

  /** The value of a text field after an assignment guarded by the argument's truthiness. */
  function Pick(o: Option<string>, current: string): string {
    if Supplied(o) then o.value else current
  }
}
