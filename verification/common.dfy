/** Vocabulary shared by every part of the blog store model: identifiers,
    request actors, outcomes and the errors a request can end in. */
module Common {

  /** Primary keys are handed out by the database's per-table sequences. */
  type UserId = nat
  type ProfileId = nat
  type CategoryId = nat
  type PostId = nat
  type CommentId = nat

  /** The value an `auto_now_add` field receives; only its order matters here. */
  type Time = int

  /** A password as `check_password` compares it; hashing is not modelled. */
  type Password = string

  datatype Option<+T> = None | Some(value: T)

  /** Who sends a request: the session either carries a logged-in user or not. */
  datatype Actor = Anonymous | Authenticated(user: UserId)

  /** Why a submitted form was rejected. */
  datatype FormError =
    | FieldInvalid(field: string)   // a field-level validator of the framework (required, max_length, choice, slug, extension)
    | EmailNotUnique                // `clean_email` of the user forms
    | UsernameTaken                 // the unique constraint on `User.username`
    | PasswordMismatch              // the two new passwords differ
    | WrongOldPassword              // the current password was not confirmed
    | PasswordUnchanged             // `PasswordChangingForm.clean`

  /** How a request ends when it does not reach its mutation. */
  datatype Error =
    | LoginRequired            // redirect to the login entry point
    | NotAuthor                // redirect home with an informational notice
    | NotFound                 // `get_object_or_404` found nothing
    | Protected                // `ProtectedError`: a category still referenced by posts
    | IntegrityError           // a unique constraint refused the row
    | Invalid(reason: FormError)
    | ServerError              // an exception the view does not handle

  /** `Err` never carries a store: a failed request persists nothing. */
  datatype Result<+T> = Ok(value: T) | Err(error: Error)

  /** Cardinality of a set difference, used by the counter proofs. */
  lemma CardDifference<T>(a: set<T>, b: set<T>)
    requires b <= a
    ensures |a - b| == |a| - |b|
  {
    assert a == (a - b) + b;
    assert (a - b) !! b;
  }

  /** A membership flip: remove `x` if present, add it otherwise. */
  function Toggle(xs: set<nat>, x: nat): (r: set<nat>)
    ensures x in r <==> x !in xs
    ensures forall y :: y != x ==> (y in r <==> y in xs)
  {
    if x in xs then xs - {x} else xs + {x}
  }

  /** Flipping the same membership twice restores the set. */
  lemma ToggleTwice(xs: set<nat>, x: nat)
    ensures Toggle(Toggle(xs, x), x) == xs
  {
  }
}
