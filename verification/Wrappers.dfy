/** Optional values as the TypeScript source uses them. */
module Wrappers {

  datatype Option<+T> = None | Some(value: T) {

    /** The value, or a default when it is missing. */
    function GetOr(default: T): T {
      match this
      case Some(v) => v
      case None => default
    }

    /** The source's `??`: only a missing value falls through. */
    function OrElse(other: Option<T>): Option<T> {
      if Some? then this else other
    }
  }

  /** A missing string and an empty string are both falsy. */
  predicate Truthy(text: Option<string>) {
    text.Some? && text.value != ""
  }

  /** A timestamp string: empty, present but not a date, or an instant in milliseconds. */
  datatype Stamp = Blank | Unreadable | At(ms: int)

  /** Truthiness of an optional timestamp string. */
  predicate Given(stamp: Option<Stamp>) {
    stamp.Some? && stamp.value != Blank
  }
}
