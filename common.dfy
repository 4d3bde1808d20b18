/**
 * Vocabulary shared by the route handlers of the URL shortener: optional
 * request-body fields, the HTTP outcomes the handlers produce, and the
 * first-match lookup that `findOne` performs on a table.
 */
module Common {

  datatype Option<+T> = None | Some(value: T)

  /** A timestamp from `new Date()`; the model takes it as an input. */
  type Time = int

  /** The JSON `message` bodies the handlers send (SchemaError stands for the
      text of a yup validation error, ConstraintViolation for the text of a
      failed insert). */
  datatype Message =
    | SchemaError
    | ConstraintViolation
    | InvalidUrl
    | UrlNotFound
    | UrlUpdated
    | UrlDeleted
    | EmailAlreadyExists
    | InvalidCredentials

  /** An HTTP response reduced to its status and payload. */
  datatype Response<+T> =
    | Ok(value: T)                    // 200 with a JSON body
    | Created(value: T)               // 201 with a JSON body
    | Redirect(location: string)      // 302
    | BadRequest(message: Message)    // 400
    | Unauthorized(message: Message)  // 401
    | NotFound(message: Message)      // 404

  /** yup's `string().required()`: the field is present and not the empty string. */
  predicate Required(field: Option<string>)
  {
    field.Some? && field.value != ""
  }

  /** The index of the first element of `s` satisfying `p`, as a `findOne`
      returns the first row its `where` clause selects. */
  function FindFirst<T>(s: seq<T>, p: T -> bool): (r: Option<nat>)
    ensures r.Some? ==> r.value < |s| && p(s[r.value])
    ensures r.Some? ==> forall j :: 0 <= j < r.value ==> !p(s[j])
    ensures r.None? <==> forall j :: 0 <= j < |s| ==> !p(s[j])
  {
    if s == [] then None
    else if p(s[0]) then Some(0)
    else match FindFirst(s[1..], p)
      case None => None
      case Some(k) => Some(k + 1)
  }

  /** FindFirst depends only on which positions satisfy the predicate. */
  lemma SameMatchesSameFind<T>(s: seq<T>, p: T -> bool, s': seq<T>, p': T -> bool)
    requires |s| == |s'|
    requires forall j :: 0 <= j < |s| ==> p(s[j]) == p'(s'[j])
    ensures FindFirst(s, p) == FindFirst(s', p')
  {
  }
}
