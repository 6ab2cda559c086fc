/**
 * The global error handler: a total classification of a thrown error into an
 * HTTP status and a JSON error body.  The error is modelled by its class
 * (whether it is an `HTTPException`, and then with which status), its `name`
 * and its `message`.
 */
module ErrorHandler {
  import opened Wrappers

  datatype ErrorClass = HTTPException(status: int) | OtherClass
  datatype Error = Error(cls: ErrorClass, name: string, message: string)

  /** `{error}` or `{error, details}`. */
  datatype ErrorBody = ErrorBody(error: string, details: Option<string>)
  datatype ErrorResponse = ErrorResponse(status: int, body: ErrorBody)

  const ZodErrorName := "ZodError"
  const PrismaKnownErrorName := "PrismaClientKnownRequestError"
  const UniqueConstraint := "Unique constraint"

  /** `sub` occurs in `s` starting at index `i`. */
  predicate OccursAt(s: string, sub: string, i: nat) {
    i + |sub| <= |s| && s[i..i + |sub|] == sub
  }

  /** An occurrence past index 0 of `s` is an occurrence in `s[1..]`, and back. */
  lemma OccursShift(s: string, sub: string)
    requires |s| > 0
    ensures forall j: nat :: OccursAt(s[1..], sub, j) ==> OccursAt(s, sub, j + 1)
    ensures forall i: nat :: i > 0 && OccursAt(s, sub, i) ==> OccursAt(s[1..], sub, i - 1)
  {
    forall j: nat | OccursAt(s[1..], sub, j)
      ensures OccursAt(s, sub, j + 1)
    {
      assert s[j + 1..j + 1 + |sub|] == s[1..][j..j + |sub|];
    }
    forall i: nat | i > 0 && OccursAt(s, sub, i)
      ensures OccursAt(s[1..], sub, i - 1)
    {
      var t := s[1..][i - 1..i - 1 + |sub|];
      forall k | 0 <= k < |sub| ensures t[k] == sub[k] {
        assert t[k] == s[i..i + |sub|][k];
      }
      assert t == sub;
    }
  }

  /** JavaScript's `String.prototype.includes`: `sub` occurs somewhere in `s`. */
  function Includes(s: string, sub: string): (b: bool)
    ensures b <==> exists i: nat :: OccursAt(s, sub, i)
    decreases |s|
  {
    if |sub| <= |s| && s[..|sub|] == sub then
      assert OccursAt(s, sub, 0);
      true
    else if |s| == 0 then
      false
    else
      OccursShift(s, sub);
      var rest := Includes(s[1..], sub);
      assert rest ==> exists i: nat :: OccursAt(s, sub, i) by {
        if rest {
          var j: nat :| OccursAt(s[1..], sub, j);
          assert OccursAt(s, sub, j + 1);
        }
      }
      assert (exists i: nat :: OccursAt(s, sub, i)) ==> rest by {
        if i: nat :| OccursAt(s, sub, i) {
          assert i > 0;
          assert OccursAt(s[1..], sub, i - 1);
        }
      }
      rest
  }

  /** The five response categories, defined independently of `Handle`. */
  predicate IsHttp(e: Error) { e.cls.HTTPException? }
  predicate IsValidation(e: Error) { !IsHttp(e) && e.name == ZodErrorName }
  predicate IsConflict(e: Error) {
    !IsHttp(e) && e.name == PrismaKnownErrorName && Includes(e.message, UniqueConstraint)
  }
  predicate IsDatabase(e: Error) {
    !IsHttp(e) && e.name == PrismaKnownErrorName && !Includes(e.message, UniqueConstraint)
  }
  predicate IsInternal(e: Error) {
    !IsHttp(e) && e.name != ZodErrorName && e.name != PrismaKnownErrorName
  }

  /** `errorHandler`: the response sent for a thrown error. */
  function Handle(e: Error): (r: ErrorResponse)
    ensures IsHttp(e) ==> r == ErrorResponse(e.cls.status, ErrorBody(e.message, None))
    ensures IsValidation(e) ==> r == ErrorResponse(400, ErrorBody("Validation error", Some(e.message)))
    ensures IsConflict(e) ==> r == ErrorResponse(409, ErrorBody("Resource already exists", None))
    ensures IsDatabase(e) ==> r == ErrorResponse(500, ErrorBody("Database error", None))
    ensures IsInternal(e) ==> r == ErrorResponse(500, ErrorBody("Internal server error", None))
  {
    if e.cls.HTTPException? then
      ErrorResponse(e.cls.status, ErrorBody(e.message, None))
    else if e.name == ZodErrorName then
      ErrorResponse(400, ErrorBody("Validation error", Some(e.message)))
    else if e.name == PrismaKnownErrorName then
      if Includes(e.message, UniqueConstraint) then
        ErrorResponse(409, ErrorBody("Resource already exists", None))
      else
        ErrorResponse(500, ErrorBody("Database error", None))
    else
      ErrorResponse(500, ErrorBody("Internal server error", None))
  }

  /** Every error falls in exactly one category, so exactly one response applies. */
  lemma ExactlyOneCategory(e: Error)
    ensures IsHttp(e) || IsValidation(e) || IsConflict(e) || IsDatabase(e) || IsInternal(e)
    ensures !(IsHttp(e) && (IsValidation(e) || IsConflict(e) || IsDatabase(e) || IsInternal(e)))
    ensures !(IsValidation(e) && (IsConflict(e) || IsDatabase(e) || IsInternal(e)))
    ensures !(IsConflict(e) && (IsDatabase(e) || IsInternal(e)))
    ensures !(IsDatabase(e) && IsInternal(e))
  {
  }

  /** The `HTTPException` test comes first: its name never changes the response. */
  lemma HttpExceptionWins(status: int, name1: string, name2: string, message: string)
    ensures Handle(Error(HTTPException(status), name1, message))
         == Handle(Error(HTTPException(status), name2, message))
    ensures Handle(Error(HTTPException(status), ZodErrorName, message)).status == status
  {
  }

  /** Outside `HTTPException`s the status is 400, 409 or 500, and only validation errors carry details. */
  lemma StatusesOutsideHttp(e: Error)
    requires !IsHttp(e)
    ensures Handle(e).status in {400, 409, 500}
    ensures Handle(e).body.details.Some? <==> IsValidation(e)
  {
  }

  /** A message mentioning a unique-constraint violation, anywhere, turns a Prisma error into a 409. */
  lemma UniqueViolationIsConflict(prefix: string, suffix: string)
    ensures Handle(Error(OtherClass, PrismaKnownErrorName, prefix + UniqueConstraint + suffix)).status == 409
  {
    var m := prefix + UniqueConstraint + suffix;
    assert m[|prefix|..|prefix| + |UniqueConstraint|] == UniqueConstraint;
    assert OccursAt(m, UniqueConstraint, |prefix|);
  }
}
