/**
 * The error values of the question/answer service and Go's `errors.Is` / `errors.Join` over them.
 *
 * Go compares sentinel errors by identity. Each sentinel is therefore its own constructor here, so that
 * `service.ErrQuestionNotExists` and `repository.ErrQuestionNotFound` are different values even though
 * they carry the same message text.
 */
module Errors {

  datatype Error =
    // Client-side sentinels of the service layer (internal/service/service.go:14-20)
    | ErrEmptyText
    | ErrEmptyUserID
    | ErrInvalidUserID
    | ErrQuestionNotExists
    | ErrAnswerNotExists
    // Internal-failure class of the service layer (internal/service/service.go:23-25)
    | ErrRepositoryFailure
    // Not-found sentinels of the repository layer (internal/repository/repository.go:13-16)
    | ErrQuestionNotFound
    | ErrAnswerNotFound
    // gorm.ErrRecordNotFound, the ORM's own not-found value
    | ErrRecordNotFound
    // A value made on the spot by `errors.New(msg)`; it is equal to none of the sentinels above
    | Adhoc(msg: string)
    // Any other failure reported by the database (connection loss, cancelled context, constraint
    // violation); `code` identifies it and nothing else about it is known
    | Driver(code: nat)
    // The value built by `errors.Join(errs...)`
    | Joined(errs: seq<Error>)

  /** Go's `errors.Is(err, target)`: `err` is `target`, or one of the errors it joins is. */
  function Is(err: Error, target: Error): (r: bool)
    ensures err == target ==> r
    ensures !err.Joined? ==> (r <==> err == target)
    decreases err
  {
    err == target || (err.Joined? && exists i | 0 <= i < |err.errs| :: Is(err.errs[i], target))
  }

  /** Go's `errors.Join(a, b)` for two non-nil errors. */
  function Join(a: Error, b: Error): (r: Error)
    ensures Is(r, a) && Is(r, b)
    ensures r != a && r != b
  {
    var r := Joined([a, b]);
    assert r.errs[0] == a && r.errs[1] == b;
    r
  }
}
