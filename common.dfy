/** Types shared by the backend and the client model. */
module Common {

  /** A MongoDB ObjectId. The source compares ids either with `includes`
      (value equality on ObjectIds) or through `toString()`; both agree with
      equality on this abstract id. */
  type ObjectId = nat

  /** A JavaScript value that may be `null`/`undefined`. */
  datatype Option<+T> = None | Some(value: T)

  datatype Result<+T, +E> = Ok(value: T) | Err(error: E)

  /** JavaScript truthiness of an optional string: present and non-empty. */
  predicate Truthy(s: Option<string>)
  {
    s.Some? && s.value != ""
  }

  /** `a || b` for an optional string: `a` when it is truthy, otherwise `b`. */
  function OrElse(a: Option<string>, b: string): (r: string)
    ensures Truthy(a) ==> r == a.value
    ensures !Truthy(a) ==> r == b
  {
    if a.Some? && a.value != "" then a.value else b
  }

  function Max(a: int, b: int): int
  {
    if a < b then b else a
  }
}
