/**
 * The persistence gateway (internal/repository/repository.go and its PostgreSQL implementations
 * postgres_question.go and postgres_answer.go), as an in-memory store.
 *
 * Both repositories of the program wrap the same database handle, so one `Store` object holds both
 * tables. Each table is a map from serial primary key to row; keys are handed out from 1 upwards.
 * A failure of the database itself (lost connection, cancelled context) cannot be predicted from the
 * tables, so every operation takes it as an input: `fault == Some(code)` makes the call fail with
 * `Driver(code)` and change nothing.
 */
module Repository {
  import opened Wrappers
  import opened Errors
  import opened Model

  /** SQLSTATE 23503 (foreign_key_violation): an answer row must reference an existing question row. */
  const ForeignKeyViolation: nat := 23503

  /**
   * The rows of `table` whose key lies in [lo, hi), listed by ascending key. The queries of the
   * repositories carry no ORDER BY, so the database fixes no order; the model picks this one.
   */
  function Rows<T>(table: map<nat, T>, lo: nat, hi: nat): seq<T>
    decreases hi - lo
  {
    if lo >= hi then [] else (if lo in table then [table[lo]] else []) + Rows(table, lo + 1, hi)
  }

  lemma {:induction false} RowsContents<T>(table: map<nat, T>, lo: nat, hi: nat, x: T)
    ensures x in Rows(table, lo, hi) <==> exists k | lo <= k < hi :: k in table && table[k] == x
    decreases hi - lo
  {
    if lo < hi {
      RowsContents(table, lo + 1, hi, x);
      if x in Rows(table, lo + 1, hi) {
        var k :| lo + 1 <= k < hi && k in table && table[k] == x;
        assert lo <= k < hi;
      }
    }
  }

  /** The rows of `rows` that belong to question `qid`, in their order. */
  function OfQuestion(rows: seq<Answer>, qid: nat): seq<Answer>
  {
    if rows == [] then []
    else (if rows[0].questionId == qid then [rows[0]] else []) + OfQuestion(rows[1..], qid)
  }

  lemma {:induction false} OfQuestionContents(rows: seq<Answer>, qid: nat, a: Answer)
    ensures a in OfQuestion(rows, qid) <==> a in rows && a.questionId == qid
  {
    if rows != [] {
      OfQuestionContents(rows[1..], qid, a);
      assert rows == [rows[0]] + rows[1..];
    }
  }

  /** Rows of `Rows(table, lo, hi)` come by strictly ascending key, all at `lo` or above. */
  lemma {:induction false} RowsAscending<T>(table: map<nat, T>, key: T -> nat, lo: nat, hi: nat)
    requires forall k | k in table :: key(table[k]) == k
    ensures forall x | x in Rows(table, lo, hi) :: lo <= key(x)
    ensures forall i, j | 0 <= i < j < |Rows(table, lo, hi)| :: key(Rows(table, lo, hi)[i]) < key(Rows(table, lo, hi)[j])
    decreases hi - lo
  {
    if lo < hi {
      RowsAscending(table, key, lo + 1, hi);
      var tail := Rows(table, lo + 1, hi);
      var r := Rows(table, lo, hi);
      if lo in table {
        assert r == [table[lo]] + tail;
        forall i, j | 0 <= i < j < |r| ensures key(r[i]) < key(r[j]) {
          assert r[j] == tail[j - 1];
          if i > 0 {
            assert r[i] == tail[i - 1];
          }
        }
      } else {
        assert r == tail;
      }
    }
  }

  /** Answer rows listed by strictly ascending key, hence each at most once. */
  predicate AscendingIds(rows: seq<Answer>) {
    forall i, j | 0 <= i < j < |rows| :: rows[i].id < rows[j].id
  }

  /** In an ascending list every later row has a larger id than the first. */
  lemma AboveFirst(rows: seq<Answer>)
    requires AscendingIds(rows) && rows != []
    ensures AscendingIds(rows[1..])
    ensures forall a | a in rows[1..] :: rows[0].id < a.id
  {
    forall a | a in rows[1..] ensures rows[0].id < a.id {
      var k :| 0 <= k < |rows[1..]| && rows[1..][k] == a;
      assert rows[k + 1] == a;
    }
  }

  lemma {:induction false} OfQuestionAscending(rows: seq<Answer>, qid: nat)
    requires AscendingIds(rows)
    ensures AscendingIds(OfQuestion(rows, qid))
  {
    if rows != [] {
      AboveFirst(rows);
      OfQuestionAscending(rows[1..], qid);
      var tail := OfQuestion(rows[1..], qid);
      if rows[0].questionId == qid {
        forall a | a in tail ensures a in rows[1..] {
          OfQuestionContents(rows[1..], qid, a);
        }
        var r := OfQuestion(rows, qid);
        assert r == [rows[0]] + tail;
        forall i, j | 0 <= i < j < |r| ensures r[i].id < r[j].id {
          assert r[j] == tail[j - 1] && r[j] in tail;
          if i > 0 {
            assert r[i] == tail[i - 1];
          }
        }
      }
    }
  }

  /** The answer table once the answers of question `qid` are gone (ON DELETE CASCADE). */
  function WithoutAnswersOf(answers: map<nat, Answer>, qid: nat): (r: map<nat, Answer>)
    ensures forall k :: k in r <==> k in answers && answers[k].questionId != qid
    ensures forall k | k in r :: r[k] == answers[k]
  {
    map k | k in answers && answers[k].questionId != qid :: answers[k]
  }

  class Store {
    var questions: map<nat, Question>
    var answers: map<nat, Answer>
    var nextQuestionId: nat
    var nextAnswerId: nat

    /** Keys below the counters, rows know their own key, every answer references a stored question. */
    ghost predicate Valid()
      reads this
    {
      && 1 <= nextQuestionId && 1 <= nextAnswerId
      && (forall k | k in questions :: 1 <= k < nextQuestionId && questions[k].id == k && questions[k].answers == [])
      && (forall k | k in answers :: 1 <= k < nextAnswerId && answers[k].id == k && answers[k].questionId in questions)
    }

    /** The invariant the services keep on top of the store: no stored question or answer has empty text. */
    ghost predicate TextsNonEmpty()
      reads this
    {
      && (forall k | k in questions :: questions[k].text != "")
      && (forall k | k in answers :: answers[k].text != "")
    }

    constructor ()
      ensures Valid() && TextsNonEmpty()
      ensures questions == map[] && answers == map[] && nextQuestionId == 1 && nextAnswerId == 1
    {
      questions, answers := map[], map[];
      nextQuestionId, nextAnswerId := 1, 1;
    }

    /**
     * What `Preload("Answers")` loads: the stored answers of question `qid`, each once. The database
     * fixes no order; the model lists them by ascending key.
     */
    function AnswersOf(qid: nat): (r: seq<Answer>)
      reads this
      requires Valid()
      ensures forall a :: a in r <==> a in answers.Values && a.questionId == qid
      ensures AscendingIds(r)
    {
      var all := Rows(answers, 0, nextAnswerId);
      RowsAscending(answers, (a: Answer) => a.id, 0, nextAnswerId);
      OfQuestionAscending(all, qid);
      assert forall a :: a in all <==> a in answers.Values by {
        forall a ensures a in all <==> a in answers.Values {
          RowsContents(answers, 0, nextAnswerId, a);
        }
      }
      assert forall a :: a in OfQuestion(all, qid) <==> a in all && a.questionId == qid by {
        forall a ensures a in OfQuestion(all, qid) <==> a in all && a.questionId == qid {
          OfQuestionContents(all, qid, a);
        }
      }
      OfQuestion(all, qid)
    }

    /**
     * What `Find(&questions)` loads: every stored question once, answers not loaded. The database fixes
     * no order; the model lists them by ascending key.
     */
    function AllQuestions(): (r: seq<Question>)
      reads this
      requires Valid()
      ensures forall q :: q in r <==> q in questions.Values
      ensures forall q | q in r :: q.answers == []
      ensures forall i, j | 0 <= i < j < |r| :: r[i].id < r[j].id
    {
      var all := Rows(questions, 0, nextQuestionId);
      RowsAscending(questions, (q: Question) => q.id, 0, nextQuestionId);
      assert forall q :: q in all <==> q in questions.Values by {
        forall q ensures q in all <==> q in questions.Values {
          RowsContents(questions, 0, nextQuestionId, q);
        }
      }
      all
    }

    /** `QuestionRepository.Create`: inserts a row with a fresh key and returns it (postgres_question.go:21-23). */
    method CreateQuestion(text: string, fault: Option<nat>) returns (r: Result<Question, Error>)
      requires Valid()
      modifies this
      ensures Valid()
      ensures fault.Some? ==> r == Failure(Driver(fault.value)) && unchanged(this)
      ensures fault.None? ==> && r == Success(Question(old(nextQuestionId), text, []))
                              && questions == old(questions)[r.value.id := r.value]
                              && nextQuestionId == old(nextQuestionId) + 1
                              && answers == old(answers) && nextAnswerId == old(nextAnswerId)
    {
      if fault.Some? {
        return Failure(Driver(fault.value));
      }
      var q := Question(nextQuestionId, text, []);
      questions := questions[q.id := q];
      nextQuestionId := nextQuestionId + 1;
      r := Success(q);
    }

    /**
     * `QuestionRepository.Delete` (postgres_question.go:25-33): a missing row is reported as
     * `ErrQuestionNotFound`; deleting a question deletes its answers with it.
     */
    method DeleteQuestion(id: nat, fault: Option<nat>) returns (err: Option<Error>)
      requires Valid()
      modifies this
      ensures Valid()
      ensures fault.Some? ==> err == Some(Driver(fault.value)) && unchanged(this)
      ensures fault.None? && id !in old(questions) ==> err == Some(ErrQuestionNotFound) && unchanged(this)
      ensures fault.None? && id in old(questions) ==>
                && err == None
                && questions == old(questions) - {id}
                && answers == WithoutAnswersOf(old(answers), id)
                && nextQuestionId == old(nextQuestionId) && nextAnswerId == old(nextAnswerId)
    {
      if fault.Some? {
        return Some(Driver(fault.value));
      }
      if id !in questions {
        return Some(ErrQuestionNotFound);
      }
      questions := questions - {id};
      answers := WithoutAnswersOf(answers, id);
      err := None;
    }

    /** `QuestionRepository.GetByID` (postgres_question.go:35-44): the row with its answers preloaded. */
    method GetQuestion(id: nat, fault: Option<nat>) returns (r: Result<Question, Error>)
      requires Valid()
      ensures fault.Some? ==> r == Failure(Driver(fault.value))
      ensures fault.None? && id !in questions ==> r == Failure(ErrQuestionNotFound)
      ensures fault.None? && id in questions ==>
                r.Success? && r.value.id == id && r.value.text == questions[id].text
                && r.value.answers == AnswersOf(id)
    {
      if fault.Some? {
        return Failure(Driver(fault.value));
      }
      if id !in questions {
        return Failure(ErrQuestionNotFound);
      }
      r := Success(questions[id].(answers := AnswersOf(id)));
    }

    /** `QuestionRepository.GetAll` (postgres_question.go:46-50). */
    method GetAllQuestions(fault: Option<nat>) returns (r: Result<seq<Question>, Error>)
      requires Valid()
      ensures fault.Some? ==> r == Failure(Driver(fault.value))
      ensures fault.None? ==> r == Success(AllQuestions())
    {
      if fault.Some? {
        return Failure(Driver(fault.value));
      }
      r := Success(AllQuestions());
    }

    /**
     * `AnswerRepository.Create` (postgres_answer.go:21-23): inserts a row with a fresh key. The database
     * refuses a row whose question does not exist (foreign key); the key the caller put in the record is
     * not used.
     */
    method CreateAnswer(answer: Answer, fault: Option<nat>) returns (r: Result<Answer, Error>)
      requires Valid()
      modifies this
      ensures Valid()
      ensures fault.Some? ==> r == Failure(Driver(fault.value)) && unchanged(this)
      ensures fault.None? && answer.questionId !in old(questions) ==>
                r == Failure(Driver(ForeignKeyViolation)) && unchanged(this)
      ensures fault.None? && answer.questionId in old(questions) ==>
                && r == Success(answer.(id := old(nextAnswerId)))
                && answers == old(answers)[r.value.id := r.value]
                && nextAnswerId == old(nextAnswerId) + 1
                && questions == old(questions) && nextQuestionId == old(nextQuestionId)
    {
      if fault.Some? {
        return Failure(Driver(fault.value));
      }
      if answer.questionId !in questions {
        return Failure(Driver(ForeignKeyViolation));
      }
      var a := answer.(id := nextAnswerId);
      answers := answers[a.id := a];
      nextAnswerId := nextAnswerId + 1;
      r := Success(a);
    }

    /** `AnswerRepository.Delete` (postgres_answer.go:25-33): a missing row is reported as `ErrAnswerNotFound`. */
    method DeleteAnswer(id: nat, fault: Option<nat>) returns (err: Option<Error>)
      requires Valid()
      modifies this
      ensures Valid()
      ensures fault.Some? ==> err == Some(Driver(fault.value)) && unchanged(this)
      ensures fault.None? && id !in old(answers) ==> err == Some(ErrAnswerNotFound) && unchanged(this)
      ensures fault.None? && id in old(answers) ==>
                && err == None
                && answers == old(answers) - {id}
                && questions == old(questions)
                && nextQuestionId == old(nextQuestionId) && nextAnswerId == old(nextAnswerId)
    {
      if fault.Some? {
        return Some(Driver(fault.value));
      }
      if id !in answers {
        return Some(ErrAnswerNotFound);
      }
      answers := answers - {id};
      err := None;
    }

    /** `AnswerRepository.GetByID` (postgres_answer.go:35-44). */
    method GetAnswer(id: nat, fault: Option<nat>) returns (r: Result<Answer, Error>)
      requires Valid()
      ensures fault.Some? ==> r == Failure(Driver(fault.value))
      ensures fault.None? && id !in answers ==> r == Failure(ErrAnswerNotFound)
      ensures fault.None? && id in answers ==> r == Success(answers[id]) && r.value.id == id
    {
      if fault.Some? {
        return Failure(Driver(fault.value));
      }
      if id !in answers {
        return Failure(ErrAnswerNotFound);
      }
      r := Success(answers[id]);
    }
  }
}
