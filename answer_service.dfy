/**
 * The answer service (internal/service/answer.go).
 *
 * `AnswerService.Create` follows answer.go as written. It takes a whole record and returns only an error.
 * It rejects an empty text and then an empty user ID, each with a fresh `errors.New` value rather than the
 * sentinels. It never checks the user ID's format. It then looks the question up and passes any lookup
 * error on unchanged, because the `gorm.ErrRecordNotFound` it tests for has already become
 * `ErrQuestionNotFound` in the repository. Only then does it insert.
 *
 * `AnswerService.CreateAsDeclared` is the operation the `AnswerService` interface declares
 * (internal/service/service.go:48-49) with the checks the handler tests expect
 * (internal/handler/handler_test.go:238-333): empty text, empty user ID, malformed user ID, then the
 * question lookup, each reported with its sentinel.
 */
module Answers {
  import opened Wrappers
  import opened Errors
  import opened Model
  import opened Service
  import opened Repository
  import Questions

  /** answer.go:24-29: the two guards of `Create`, answering with errors made on the spot. */
  function CheckAsWritten(answer: Answer): (r: Option<Error>)
    ensures r.None? <==> answer.text != "" && answer.userId != ""
    ensures answer.text == "" ==> r == Some(Adhoc("answer text cannot be empty"))
    ensures answer.text != "" && answer.userId == "" ==> r == Some(Adhoc("user ID cannot be empty"))
    ensures r.Some? ==> !IsServiceSentinel(r.value)
  {
    if answer.text == "" then Some(Adhoc("answer text cannot be empty"))
    else if answer.userId == "" then Some(Adhoc("user ID cannot be empty"))
    else None
  }

  /** answer.go:32-36: a failed question lookup, as `Create` reports it. */
  function TranslateLookupAsWritten(err: Error): (r: Error)
    ensures Is(err, ErrRecordNotFound) ==> r == Adhoc("question does not exist")
    ensures !Is(err, ErrRecordNotFound) ==> r == err
  {
    if Is(err, ErrRecordNotFound) then Adhoc("question does not exist") else err
  }

  /**
   * The checks `Create` is meant to make, in the order the handler tests rely on: text, then user ID
   * present, then user ID well-formed. `ErrInvalidUserID` comes from the tests alone
   * (internal/handler/handler_test.go:284-305); answer.go never produces it.
   */
  function ValidateAnswer(userId: string, text: string): (r: Option<Error>)
    ensures r.None? <==> text != "" && IsValidUUID(userId)
    ensures text == "" ==> r == Some(ErrEmptyText)
    ensures text != "" && userId == "" ==> r == Some(ErrEmptyUserID)
    ensures text != "" && userId != "" && !IsValidUUID(userId) ==> r == Some(ErrInvalidUserID)
    ensures r.Some? ==> IsClientError(r.value)
  {
    if text == "" then Some(ErrEmptyText)
    else if userId == "" then
      UuidRejectsMalformed();
      Some(ErrEmptyUserID)
    else if !IsValidUUID(userId) then Some(ErrInvalidUserID)
    else None
  }

  /** The answer-side counterpart of the question service's translation: not-found becomes `ErrAnswerNotExists`. */
  function TranslateAnswerError(err: Error): (r: Error)
    ensures Is(err, ErrAnswerNotFound) ==> r == ErrAnswerNotExists
    ensures !Is(err, ErrAnswerNotFound) ==> Is(r, ErrRepositoryFailure) && Is(r, err) && !IsServiceSentinel(r)
  {
    if Is(err, ErrAnswerNotFound) then ErrAnswerNotExists else InternalError(err, ErrRepositoryFailure)
  }

  /** As written, a user ID that is no UUID passes the guards; the intended checks reject it. */
  lemma MalformedUserIDAcceptedAsWritten()
    ensures CheckAsWritten(Answer(0, 1, "invalid-uuid", "Test answer")) == None
    ensures ValidateAnswer("invalid-uuid", "Test answer") == Some(ErrInvalidUserID)
  {
    UuidRejectsMalformed();
  }

  /** As written, the repository's not-found is not recognised and is passed on as it is. */
  lemma MissingQuestionRawAsWritten()
    ensures TranslateLookupAsWritten(ErrQuestionNotFound) == ErrQuestionNotFound
    ensures Questions.TranslateRepositoryError(ErrQuestionNotFound) == ErrQuestionNotExists
  {
  }

  class AnswerService {
    /** Both repositories of answerService (answer.go:13-16) are views of this one store. */
    const db: Store

    /** `NewAnswerService`. */
    constructor (db: Store)
      ensures this.db == db
    {
      this.db := db;
    }

    /**
     * `Create` as written (answer.go:23-39). `saved` is the record the caller's pointer holds afterwards:
     * with the new key when the insert happened, untouched otherwise.
     */
    method Create(answer: Answer, lookupFault: Option<nat>, insertFault: Option<nat>)
      returns (err: Option<Error>, saved: Answer)
      requires db.Valid()
      modifies db
      ensures db.Valid()
      ensures old(db.TextsNonEmpty()) ==> db.TextsNonEmpty()
      ensures CheckAsWritten(answer).Some? ==> err == CheckAsWritten(answer)
      ensures CheckAsWritten(answer).None? && lookupFault.Some? ==> err == Some(Driver(lookupFault.value))
      ensures CheckAsWritten(answer).None? && lookupFault.None? && answer.questionId !in old(db.questions) ==>
                err == Some(ErrQuestionNotFound)
      ensures (CheckAsWritten(answer).None? && lookupFault.None? && answer.questionId in old(db.questions)
               && insertFault.Some?) ==> err == Some(Driver(insertFault.value))
      ensures err.None? <==>
                CheckAsWritten(answer).None? && lookupFault.None? && insertFault.None?
                && answer.questionId in old(db.questions)
      ensures err.Some? ==> unchanged(db) && saved == answer
      ensures err.None? ==>
                && saved == answer.(id := old(db.nextAnswerId)) && saved.id !in old(db.answers)
                && db.answers == old(db.answers)[saved.id := saved]
                && db.questions == old(db.questions)
                && db.nextAnswerId == old(db.nextAnswerId) + 1 && db.nextQuestionId == old(db.nextQuestionId)
    {
      saved := answer;
      err := CheckAsWritten(answer);
      if err.Some? {
        return;
      }
      var lookup := db.GetQuestion(answer.questionId, lookupFault);
      if lookup.Failure? {
        return Some(TranslateLookupAsWritten(lookup.error)), saved;
      }
      var inserted := db.CreateAnswer(answer, insertFault);
      if inserted.Failure? {
        return Some(inserted.error), saved;
      }
      saved := inserted.value;
    }

    /**
     * `Create` as the interface declares it (service.go:49): validation first, then the question lookup
     * with the question service's translation, then the insert; any repository failure is internal.
     */
    method CreateAsDeclared(questionId: nat, userId: string, text: string,
                            lookupFault: Option<nat>, insertFault: Option<nat>)
      returns (r: Result<Answer, Error>)
      requires db.Valid()
      modifies db
      ensures db.Valid()
      ensures old(db.TextsNonEmpty()) ==> db.TextsNonEmpty()
      ensures ValidateAnswer(userId, text).Some? ==> r == Failure(ValidateAnswer(userId, text).value)
      ensures ValidateAnswer(userId, text).None? && lookupFault.None? && questionId !in old(db.questions) ==>
                r == Failure(ErrQuestionNotExists)
      ensures ValidateAnswer(userId, text).None? && (lookupFault.Some? || (questionId in old(db.questions) && insertFault.Some?)) ==>
                r.Failure? && Is(r.error, ErrRepositoryFailure)
      ensures r.Success? <==>
                ValidateAnswer(userId, text).None? && lookupFault.None? && insertFault.None?
                && questionId in old(db.questions)
      ensures r.Failure? ==> unchanged(db)
      ensures r.Success? ==>
                && r.value == Answer(old(db.nextAnswerId), questionId, userId, text)
                && r.value.id !in old(db.answers)
                && db.answers == old(db.answers)[r.value.id := r.value]
                && db.questions == old(db.questions)
                && db.nextAnswerId == old(db.nextAnswerId) + 1 && db.nextQuestionId == old(db.nextQuestionId)
    {
      var invalid := ValidateAnswer(userId, text);
      if invalid.Some? {
        return Failure(invalid.value);
      }
      var lookup := db.GetQuestion(questionId, lookupFault);
      if lookup.Failure? {
        return Failure(Questions.TranslateRepositoryError(lookup.error));
      }
      var inserted := db.CreateAnswer(Answer(0, questionId, userId, text), insertFault);
      if inserted.Failure? {
        return Failure(InternalError(inserted.error, ErrRepositoryFailure));
      }
      r := Success(inserted.value);
    }

    /** `GetByID` (answer.go:41-43): the repository's answer and error, passed on unchanged. */
    method GetByID(id: nat, fault: Option<nat>) returns (r: Result<Answer, Error>)
      requires db.Valid()
      ensures fault.Some? ==> r == Failure(Driver(fault.value))
      ensures fault.None? && id !in db.answers ==> r == Failure(ErrAnswerNotFound)
      ensures fault.None? && id in db.answers ==> r == Success(db.answers[id])
    {
      r := db.GetAnswer(id, fault);
    }

    /** `Delete` (answer.go:45-47): the repository's error, passed on unchanged. */
    method Delete(id: nat, fault: Option<nat>) returns (err: Option<Error>)
      requires db.Valid()
      modifies db
      ensures db.Valid()
      ensures old(db.TextsNonEmpty()) ==> db.TextsNonEmpty()
      ensures fault.Some? ==> err == Some(Driver(fault.value))
      ensures fault.None? && id !in old(db.answers) ==> err == Some(ErrAnswerNotFound)
      ensures err.None? <==> fault.None? && id in old(db.answers)
      ensures err.Some? ==> unchanged(db)
      ensures err.None? ==>
                && db.answers == old(db.answers) - {id} && db.questions == old(db.questions)
                && db.nextQuestionId == old(db.nextQuestionId) && db.nextAnswerId == old(db.nextAnswerId)
    {
      err := db.DeleteAnswer(id, fault);
    }
  }
}
