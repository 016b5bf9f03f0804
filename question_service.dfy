/**
 * The question service (internal/service/question.go): validates the text of a new question and turns
 * the repository's outcomes into the service's errors. A repository not-found becomes
 * `ErrQuestionNotExists`; any other repository error is tagged with the class `ErrRepositoryFailure`.
 */
module Questions {
  import opened Wrappers
  import opened Errors
  import opened Model
  import opened Service
  import opened Repository

  /** The error a failed repository call on a question is reported as (question.go:27, 33-38, 44-49, 55-57). */
  function TranslateRepositoryError(err: Error): (r: Error)
    ensures Is(err, ErrQuestionNotFound) ==> r == ErrQuestionNotExists
    ensures !Is(err, ErrQuestionNotFound) ==> Is(r, ErrRepositoryFailure) && Is(r, err) && !IsServiceSentinel(r)
    ensures r != ErrAnswerNotExists && r != ErrEmptyText && r != ErrEmptyUserID && r != ErrInvalidUserID
  {
    if Is(err, ErrQuestionNotFound) then ErrQuestionNotExists else InternalError(err, ErrRepositoryFailure)
  }

  class QuestionService {
    const repository: Store

    /** `NewQuestionService`. */
    constructor (repository: Store)
      ensures this.repository == repository
    {
      this.repository := repository;
    }

    /**
     * `Create` (question.go:20-30): an empty text is refused before the repository is reached; otherwise
     * one row with that text is inserted and returned, or the repository's failure is reported as internal.
     */
    method Create(text: string, fault: Option<nat>) returns (r: Result<Question, Error>)
      requires repository.Valid()
      modifies repository
      ensures repository.Valid()
      ensures old(repository.TextsNonEmpty()) ==> repository.TextsNonEmpty()
      ensures text == "" ==> r == Failure(ErrEmptyText) && unchanged(repository)
      ensures text != "" && fault.Some? ==>
                && r.Failure? && Is(r.error, ErrRepositoryFailure) && Is(r.error, Driver(fault.value))
                && unchanged(repository)
      ensures text != "" && fault.None? ==>
                && r.Success? && r.value.text == text && r.value.answers == []
                && r.value.id == old(repository.nextQuestionId) && r.value.id !in old(repository.questions)
                && repository.questions == old(repository.questions)[r.value.id := r.value]
                && repository.answers == old(repository.answers)
                && repository.nextQuestionId == old(repository.nextQuestionId) + 1
                && repository.nextAnswerId == old(repository.nextAnswerId)
    {
      if text == "" {
        return Failure(ErrEmptyText);
      }
      var created := repository.CreateQuestion(text, fault);
      if created.Failure? {
        return Failure(InternalError(created.error, ErrRepositoryFailure));
      }
      r := Success(created.value);
    }

    /**
     * `Delete` (question.go:32-40): succeeds exactly when the question is stored, and then removes it
     * together with its answers.
     */
    method Delete(id: nat, fault: Option<nat>) returns (err: Option<Error>)
      requires repository.Valid()
      modifies repository
      ensures repository.Valid()
      ensures old(repository.TextsNonEmpty()) ==> repository.TextsNonEmpty()
      ensures err.None? <==> fault.None? && id in old(repository.questions)
      ensures fault.None? && id !in old(repository.questions) ==> err == Some(ErrQuestionNotExists)
      ensures fault.Some? ==> err.Some? && Is(err.value, ErrRepositoryFailure) && Is(err.value, Driver(fault.value))
      ensures err.Some? ==> unchanged(repository)
      ensures err.None? ==>
                && repository.questions == old(repository.questions) - {id}
                && repository.answers == WithoutAnswersOf(old(repository.answers), id)
                && repository.nextQuestionId == old(repository.nextQuestionId)
                && repository.nextAnswerId == old(repository.nextAnswerId)
    {
      var e := repository.DeleteQuestion(id, fault);
      if e.Some? {
        return Some(TranslateRepositoryError(e.value));
      }
      err := None;
    }

    /** `GetByID` (question.go:42-51): the stored question with its answers, or `ErrQuestionNotExists`. */
    method GetByID(id: nat, fault: Option<nat>) returns (r: Result<Question, Error>)
      requires repository.Valid()
      ensures r.Success? <==> fault.None? && id in repository.questions
      ensures fault.None? && id !in repository.questions ==> r == Failure(ErrQuestionNotExists)
      ensures fault.Some? ==> r.Failure? && Is(r.error, ErrRepositoryFailure) && Is(r.error, Driver(fault.value))
      ensures r.Success? ==>
                && r.value.id == id && r.value.text == repository.questions[id].text
                && (forall a :: a in r.value.answers <==> a in repository.answers.Values && a.questionId == id)
      ensures r.Success? ==> r.value == repository.questions[id].(answers := repository.AnswersOf(id))
    {
      var found := repository.GetQuestion(id, fault);
      if found.Failure? {
        return Failure(TranslateRepositoryError(found.error));
      }
      r := Success(found.value);
    }

    /** `GetAll` (question.go:53-59): every stored question, or the repository's failure reported as internal. */
    method GetAll(fault: Option<nat>) returns (r: Result<seq<Question>, Error>)
      requires repository.Valid()
      ensures r.Success? <==> fault.None?
      ensures fault.Some? ==> Is(r.error, ErrRepositoryFailure) && Is(r.error, Driver(fault.value))
      ensures r.Success? ==> forall q :: q in r.value <==> q in repository.questions.Values
      ensures r.Success? ==> r.value == repository.AllQuestions()
    {
      var all := repository.GetAllQuestions(fault);
      if all.Failure? {
        return Failure(InternalError(all.error, ErrRepositoryFailure));
      }
      r := Success(all.value);
    }
  }
}
