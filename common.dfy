/** Types shared by the three schemas, the store and the route handlers. */
module Common {

  /** A path of a document that may be absent (`undefined` in a request body, unset on a document). */
  datatype Option<+T> = None | Some(value: T)

  /** A document identifier (Mongo ObjectId); the store hands them out from a counter. */
  type Id = nat

  /** Mongoose's `required` validator on a String path: the value is there and is not the empty string. */
  predicate Present(s: Option<string>)
  {
    s.Some? && |s.value| > 0
  }

  /** Why a `save()` fails: a schema validator, a unique index (`_id`, `slug`, `email`), or an
      update of a document that is no longer in its collection. */
  datatype SaveError = ValidationFailed | DuplicateKey | DocumentNotFound
}
