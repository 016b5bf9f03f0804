/**
 * End-to-end runs of the two services over one fresh store, as the handler tests drive them
 * (internal/handler/handler_test.go). Each method starts from an empty database and states what the
 * caller observes. The user ID is a parameter; `Service.UuidAcceptsTestUserID` shows that the tests' own
 * ID meets the requirement of the well-formed cases and `Service.UuidRejectsMalformed` that "invalid-uuid"
 * meets that of the malformed one.
 */
module Scenarios {
  import opened Wrappers
  import opened Errors
  import opened Model
  import opened Service
  import opened Repository
  import opened Questions
  import opened Answers

  /**
   * Create question "Q1", answer it, then fetch it: the question gets key 1, the answer key 1 under
   * question 1, and the fetched question carries exactly that answer.
   */
  method AskAnswerFetch(userId: string) returns (question: Question, answer: Answer, fetched: Question)
    requires IsValidUUID(userId)
    ensures question == Question(1, "Q1", [])
    ensures answer == Answer(1, 1, userId, "A1")
    ensures fetched.id == 1 && fetched.text == "Q1"
    ensures fetched.answers == [answer]
  {
    var db := new Store();
    var questions := new QuestionService(db);
    var answers := new AnswerService(db);
    var created := questions.Create("Q1", None);
    question := created.value;
    var saved := answers.CreateAsDeclared(1, userId, "A1", None, None);
    answer := saved.value;
    assert db.answers == map[1 := answer];
    var got := questions.GetByID(1, None);
    fetched := got.value;
    // Every listed answer is `answer` and listed ids strictly ascend, so the first and the last coincide.
    assert AscendingIds(fetched.answers);
    assert answer in fetched.answers;
    assert fetched.answers[0] in fetched.answers && fetched.answers[|fetched.answers| - 1] in fetched.answers;
  }

  /** Answering a question that does not exist fails with `ErrQuestionNotExists` and stores nothing. */
  method AnswerMissingQuestion(userId: string, missing: nat) returns (r: Result<Answer, Error>, stored: map<nat, Answer>)
    requires IsValidUUID(userId)
    requires missing != 1
    ensures r == Failure(ErrQuestionNotExists)
    ensures stored == map[]
  {
    var db := new Store();
    var questions := new QuestionService(db);
    var answers := new AnswerService(db);
    var _ := questions.Create("Q1", None);
    r := answers.CreateAsDeclared(missing, userId, "A1", None, None);
    stored := db.answers;
  }

  /**
   * A user ID that is no UUID: the intended check refuses it with `ErrInvalidUserID`, while answer.go as
   * written stores the answer.
   */
  method MalformedUserID(userId: string)
    returns (intended: Result<Answer, Error>, asWritten: Option<Error>, stored: map<nat, Answer>)
    requires userId != "" && !IsValidUUID(userId)
    ensures intended == Failure(ErrInvalidUserID)
    ensures asWritten == None
    ensures stored == map[1 := Answer(1, 1, userId, "A1")]
  {
    var db := new Store();
    var questions := new QuestionService(db);
    var answers := new AnswerService(db);
    var _ := questions.Create("Q1", None);
    intended := answers.CreateAsDeclared(1, userId, "A1", None, None);
    var saved;
    asWritten, saved := answers.Create(Answer(0, 1, userId, "A1"), None, None);
    stored := db.answers;
  }

  /** Deleting an answered question removes its answers too; fetching it afterwards fails with `ErrQuestionNotExists`. */
  method DeleteThenFetch(userId: string) returns (deleted: Option<Error>, fetched: Result<Question, Error>, stored: map<nat, Answer>)
    requires IsValidUUID(userId)
    ensures deleted == None
    ensures fetched == Failure(ErrQuestionNotExists)
    ensures stored == map[]
  {
    var db := new Store();
    var questions := new QuestionService(db);
    var answers := new AnswerService(db);
    var _ := questions.Create("Q1", None);
    var _ := answers.CreateAsDeclared(1, userId, "A1", None, None);
    deleted := questions.Delete(1, None);
    fetched := questions.GetByID(1, None);
    stored := db.answers;
  }
}
