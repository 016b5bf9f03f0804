/**
 * The status decisions of the answer endpoints (internal/handler/answer.go). Each handler is a function
 * of the `{id}` path segment, the decoded body (`None`: decoding failed) and the error the service
 * returns when it is called (`None`: success). Response bodies and headers are not modelled.
 */
module AnswerHandlers {
  import opened Wrappers
  import opened Errors
  import opened Strconv
  import opened Handler
  import Model
  import Answers
  import Questions

  /** `createAnswer` (answer.go:11-39). */
  function CreateAnswerResponse(path: string, body: Option<AnswerBody>, reply: Option<Error>): (r: Response)
    ensures !IsPathID(path) ==> r == Response(StatusBadRequest, None)
    ensures IsPathID(path) && body.None? ==> r == Response(StatusBadRequest, None)
    ensures r.call.Some? <==> IsPathID(path) && body.Some?
    ensures r.call.Some? ==> r.call.value == CreateAnswerCall(DecimalValue(path), body.value.userId, body.value.text)
    ensures r.call.Some? && reply.Some? ==> r.status == ErrorStatusCode(reply.value)
    ensures r.call.Some? && reply.None? ==> r.status == StatusCreated
  {
    match ParseUint32(path)
    case None => Response(StatusBadRequest, None)
    case Some(questionId) =>
      if body.None? then Response(StatusBadRequest, None)
      else
        var call := CreateAnswerCall(questionId, body.value.userId, body.value.text);
        if reply.Some? then Response(ErrorStatusCode(reply.value), Some(call))
        else Response(StatusCreated, Some(call))
  }

  /** `getAnswer` (answer.go:41-58); success leaves the status at its default, 200. */
  function GetAnswerResponse(path: string, reply: Option<Error>): (r: Response)
    ensures !IsPathID(path) ==> r == Response(StatusBadRequest, None)
    ensures r.call.Some? <==> IsPathID(path)
    ensures r.call.Some? ==> r.call.value == GetAnswerCall(DecimalValue(path))
    ensures r.call.Some? && reply.Some? ==> r.status == ErrorStatusCode(reply.value)
    ensures r.call.Some? && reply.None? ==> r.status == StatusOK
  {
    match ParseUint32(path)
    case None => Response(StatusBadRequest, None)
    case Some(id) =>
      Response(if reply.Some? then ErrorStatusCode(reply.value) else StatusOK, Some(GetAnswerCall(id)))
  }

  /** `deleteAnswer` (answer.go:60-75). */
  function DeleteAnswerResponse(path: string, reply: Option<Error>): (r: Response)
    ensures !IsPathID(path) ==> r == Response(StatusBadRequest, None)
    ensures r.call.Some? <==> IsPathID(path)
    ensures r.call.Some? ==> r.call.value == DeleteAnswerCall(DecimalValue(path))
    ensures r.call.Some? && reply.Some? ==> r.status == ErrorStatusCode(reply.value)
    ensures r.call.Some? && reply.None? ==> r.status == StatusNoContent
  {
    match ParseUint32(path)
    case None => Response(StatusBadRequest, None)
    case Some(id) =>
      Response(if reply.Some? then ErrorStatusCode(reply.value) else StatusNoContent, Some(DeleteAnswerCall(id)))
  }

  /** Every id the service can hand out within 32 bits, written back in decimal, reaches the service as itself. */
  lemma PathIDRoundTrip(id: nat, reply: Option<Error>)
    requires id <= MaxUint32
    ensures GetAnswerResponse(FormatUint(id), reply).call == Some(GetAnswerCall(id))
    ensures DeleteAnswerResponse(FormatUint(id), reply).call == Some(DeleteAnswerCall(id))
  {
    ParseFormatRoundTrip(id);
  }

  /**
   * Create-answer statuses with the service as written: both guards of answer.go answer with errors
   * outside the status table, so a request with an empty text or user ID gets 500, not 400.
   */
  lemma CreateAnswerGuardsAs500(path: string, body: AnswerBody)
    requires IsPathID(path)
    requires body.text == "" || body.userId == ""
    ensures CreateAnswerResponse(path, Some(body),
              Answers.CheckAsWritten(Model.Answer(0, DecimalValue(path), body.userId, body.text))).status
            == StatusInternalServerError
  {
  }

  /** With the intended validation, every rejected body gets 400. */
  lemma CreateAnswerValidationIs400(path: string, body: AnswerBody)
    requires IsPathID(path)
    requires Answers.ValidateAnswer(body.userId, body.text).Some?
    ensures CreateAnswerResponse(path, Some(body), Answers.ValidateAnswer(body.userId, body.text)).status
            == StatusBadRequest
  {
  }

  /** A missing question, as written: the service passes on the repository's `ErrQuestionNotFound`, which the table does not know. */
  lemma CreateAnswerMissingQuestionAs500(path: string, body: AnswerBody)
    requires IsPathID(path)
    ensures CreateAnswerResponse(path, Some(body),
              Some(Answers.TranslateLookupAsWritten(ErrQuestionNotFound))).status == StatusInternalServerError
  {
    Answers.MissingQuestionRawAsWritten();
  }

  /** A missing question, translated as the question service does: `ErrQuestionNotExists`, hence 404. */
  lemma CreateAnswerMissingQuestionIs404(path: string, body: AnswerBody)
    requires IsPathID(path)
    ensures CreateAnswerResponse(path, Some(body),
              Some(Questions.TranslateRepositoryError(ErrQuestionNotFound))).status == StatusNotFound
  {
  }

  /** A missing answer, as written: `GetByID` and `Delete` pass on the repository's `ErrAnswerNotFound`, answered with 500. */
  lemma MissingAnswerAs500(path: string)
    requires IsPathID(path)
    ensures GetAnswerResponse(path, Some(ErrAnswerNotFound)).status == StatusInternalServerError
    ensures DeleteAnswerResponse(path, Some(ErrAnswerNotFound)).status == StatusInternalServerError
  {
  }

  /** A missing answer translated to `ErrAnswerNotExists` is answered with 404. */
  lemma MissingAnswerIs404(path: string)
    requires IsPathID(path)
    ensures GetAnswerResponse(path, Some(Answers.TranslateAnswerError(ErrAnswerNotFound))).status == StatusNotFound
    ensures DeleteAnswerResponse(path, Some(Answers.TranslateAnswerError(ErrAnswerNotFound))).status == StatusNotFound
  {
  }
}
