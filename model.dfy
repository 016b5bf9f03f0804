/**
 * The two domain records (internal/model/model.go). The creation timestamps are not part of this model.
 * Identifiers are the store's serial primary keys; 0 stands for "not assigned yet", as in Go's zero value.
 */
module Model {

  datatype Answer = Answer(id: nat, questionId: nat, userId: string, text: string)

  /** `answers` is filled in only when the store preloads them; a stored row keeps it empty. */
  datatype Question = Question(id: nat, text: string, answers: seq<Answer>)
}
