/**
 * The part of internal/handler/handler.go the endpoints share: the status codes they answer with, what a
 * handler decides (a status, and the service call it made, if any), and `errorStatusCode`.
 */
module Handler {
  import opened Wrappers
  import opened Errors
  import opened Service
  import opened Strconv

  const StatusOK: int := 200
  const StatusCreated: int := 201
  const StatusNoContent: int := 204
  const StatusBadRequest: int := 400
  const StatusNotFound: int := 404
  const StatusInternalServerError: int := 500

  /** An `{id}` path segment `strconv.ParseUint(_, 10, 32)` accepts. */
  predicate IsPathID(path: string) {
    IsDecimal(path) && DecimalValue(path) <= MaxUint32
  }

  /** The body of a create-answer request, once decoded. */
  datatype AnswerBody = AnswerBody(userId: string, text: string)

  /** A service call a handler makes, with the arguments it passes. */
  datatype Call =
    | CreateAnswerCall(questionId: nat, userId: string, text: string)
    | GetAnswerCall(answerId: nat)
    | DeleteAnswerCall(answerId: nat)
    | GetAllQuestionsCall
    | CreateQuestionCall(text: string)
    | GetQuestionWithAnswersCall(questionId: nat)
    | DeleteQuestionCall(questionId: nat)

  /** What a handler decides: the status it writes and the service call it made (`None`: none was made). */
  datatype Response = Response(status: int, call: Option<Call>)

  /** The literal table `errorStatusCode` builds; keys are compared as values, not with `errors.Is`. */
  const ServiceErrorStatus: map<Error, int> := map[
    ErrEmptyText := StatusBadRequest,
    ErrEmptyUserID := StatusBadRequest,
    ErrInvalidUserID := StatusBadRequest,
    ErrQuestionNotExists := StatusNotFound,
    ErrAnswerNotExists := StatusNotFound,
    ErrRepositoryFailure := StatusInternalServerError
  ]

  /**
   * `errorStatusCode`: 400 for the three validation sentinels, 404 for the two not-exists sentinels, and
   * 500 for everything else, including `ErrRepositoryFailure`, any error `internalError` builds (a join
   * is not a key of the table) and the repository's own not-found values.
   */
  function ErrorStatusCode(err: Error): (code: int)
    ensures code == StatusBadRequest || code == StatusNotFound || code == StatusInternalServerError
    ensures code == StatusBadRequest <==> err == ErrEmptyText || err == ErrEmptyUserID || err == ErrInvalidUserID
    ensures code == StatusNotFound <==> err == ErrQuestionNotExists || err == ErrAnswerNotExists
    ensures code < StatusInternalServerError <==> IsClientError(err)
    ensures !IsServiceSentinel(err) || IsInternalClass(err) ==> code == StatusInternalServerError
  {
    if err in ServiceErrorStatus then ServiceErrorStatus[err] else StatusInternalServerError
  }
}
