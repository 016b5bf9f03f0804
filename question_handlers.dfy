/**
 * The status decisions of the question endpoints (internal/handler/questions.go), as written: unlike the
 * answer endpoints they answer every service error with 500. `getQuestionWithAnswers` also receives
 * whether the service returned a question (`found`) besides its error.
 *
 * The `...Intended` variants answer service errors through `errorStatusCode`, as the handler tests
 * expect (internal/handler/handler_test.go:96-113, 173-190).
 */
module QuestionHandlers {
  import opened Wrappers
  import opened Errors
  import opened Strconv
  import opened Handler
  import Questions

  /** `getAllQuestions` (questions.go:12-23). */
  function GetAllQuestionsResponse(reply: Option<Error>): (r: Response)
    ensures r.call == Some(GetAllQuestionsCall)
    ensures r.status == StatusOK <==> reply.None?
    ensures reply.Some? ==> r.status == StatusInternalServerError
  {
    Response(if reply.Some? then StatusInternalServerError else StatusOK, Some(GetAllQuestionsCall))
  }

  /** `createQuestion` (questions.go:25-51): decode failure and empty text are both 400, with no call. */
  function CreateQuestionResponse(body: Option<string>, reply: Option<Error>): (r: Response)
    ensures body.None? || body == Some("") ==> r == Response(StatusBadRequest, None)
    ensures r.call.Some? <==> body.Some? && body.value != ""
    ensures r.call.Some? ==> r.call.value == CreateQuestionCall(body.value)
    ensures r.call.Some? && reply.Some? ==> r.status == StatusInternalServerError
    ensures r.call.Some? && reply.None? ==> r.status == StatusCreated
  {
    if body.None? || body.value == "" then Response(StatusBadRequest, None)
    else Response(if reply.Some? then StatusInternalServerError else StatusCreated, Some(CreateQuestionCall(body.value)))
  }

  /** `getQuestionWithAnswers` (questions.go:53-75): a nil question with no error is 404. */
  function GetQuestionWithAnswersResponse(path: string, reply: Option<Error>, found: bool): (r: Response)
    ensures !IsPathID(path) ==> r == Response(StatusBadRequest, None)
    ensures r.call.Some? <==> IsPathID(path)
    ensures r.call.Some? ==> r.call.value == GetQuestionWithAnswersCall(DecimalValue(path))
    ensures r.call.Some? && reply.Some? ==> r.status == StatusInternalServerError
    ensures r.call.Some? && reply.None? && !found ==> r.status == StatusNotFound
    ensures r.call.Some? && reply.None? && found ==> r.status == StatusOK
  {
    match ParseUint32(path)
    case None => Response(StatusBadRequest, None)
    case Some(id) =>
      var status := if reply.Some? then StatusInternalServerError else if !found then StatusNotFound else StatusOK;
      Response(status, Some(GetQuestionWithAnswersCall(id)))
  }

  /** `deleteQuestion` (questions.go:77-92). */
  function DeleteQuestionResponse(path: string, reply: Option<Error>): (r: Response)
    ensures !IsPathID(path) ==> r == Response(StatusBadRequest, None)
    ensures r.call.Some? <==> IsPathID(path)
    ensures r.call.Some? ==> r.call.value == DeleteQuestionCall(DecimalValue(path))
    ensures r.call.Some? && reply.Some? ==> r.status == StatusInternalServerError
    ensures r.call.Some? && reply.None? ==> r.status == StatusNoContent
  {
    match ParseUint32(path)
    case None => Response(StatusBadRequest, None)
    case Some(id) =>
      Response(if reply.Some? then StatusInternalServerError else StatusNoContent, Some(DeleteQuestionCall(id)))
  }

  /** `getQuestionWithAnswers` answering service errors through `errorStatusCode`. */
  function GetQuestionWithAnswersResponseIntended(path: string, reply: Option<Error>, found: bool): (r: Response)
    ensures r.call == GetQuestionWithAnswersResponse(path, reply, found).call
    ensures reply.None? ==> r == GetQuestionWithAnswersResponse(path, reply, found)
    ensures r.call.Some? && reply.Some? ==> r.status == ErrorStatusCode(reply.value)
  {
    match ParseUint32(path)
    case None => Response(StatusBadRequest, None)
    case Some(id) =>
      var status := if reply.Some? then ErrorStatusCode(reply.value) else if !found then StatusNotFound else StatusOK;
      Response(status, Some(GetQuestionWithAnswersCall(id)))
  }

  /** `deleteQuestion` answering service errors through `errorStatusCode`. */
  function DeleteQuestionResponseIntended(path: string, reply: Option<Error>): (r: Response)
    ensures r.call == DeleteQuestionResponse(path, reply).call
    ensures reply.None? ==> r == DeleteQuestionResponse(path, reply)
    ensures r.call.Some? && reply.Some? ==> r.status == ErrorStatusCode(reply.value)
  {
    match ParseUint32(path)
    case None => Response(StatusBadRequest, None)
    case Some(id) =>
      Response(if reply.Some? then ErrorStatusCode(reply.value) else StatusNoContent, Some(DeleteQuestionCall(id)))
  }

  /** A signed id such as "-123" is refused with 400 before the service is reached. */
  lemma SignedIDRejected(reply: Option<Error>, found: bool)
    ensures GetQuestionWithAnswersResponse("-123", reply, found) == Response(StatusBadRequest, None)
    ensures DeleteQuestionResponse("-123", reply) == Response(StatusBadRequest, None)
  {
    ParseRejectsSign("-123");
  }

  /** A missing question, which the question service reports as `ErrQuestionNotExists`, is answered with 500 as written. */
  lemma MissingQuestionAs500(path: string)
    requires IsPathID(path)
    ensures GetQuestionWithAnswersResponse(path, Some(Questions.TranslateRepositoryError(ErrQuestionNotFound)), false).status
            == StatusInternalServerError
    ensures DeleteQuestionResponse(path, Some(Questions.TranslateRepositoryError(ErrQuestionNotFound))).status
            == StatusInternalServerError
  {
  }

  /** Through `errorStatusCode` the same missing question is answered with the 404 the tests expect. */
  lemma MissingQuestionIs404(path: string)
    requires IsPathID(path)
    ensures GetQuestionWithAnswersResponseIntended(path, Some(Questions.TranslateRepositoryError(ErrQuestionNotFound)), false).status
            == StatusNotFound
    ensures DeleteQuestionResponseIntended(path, Some(Questions.TranslateRepositoryError(ErrQuestionNotFound))).status
            == StatusNotFound
  {
  }

  /** The intended handlers still answer 500 for a repository failure other than not-found. */
  lemma RepositoryFailureStill500(path: string, failure: Error, found: bool)
    requires IsPathID(path)
    requires !Errors.Is(failure, ErrQuestionNotFound)
    ensures GetQuestionWithAnswersResponseIntended(path, Some(Questions.TranslateRepositoryError(failure)), found).status
            == StatusInternalServerError
    ensures DeleteQuestionResponseIntended(path, Some(Questions.TranslateRepositoryError(failure))).status
            == StatusInternalServerError
  {
  }
}
