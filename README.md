# qna-api: a Dafny model of the question/answer service core

qna-api is a small REST service. Clients create questions, answer them with a user ID, fetch a question
together with its answers, and delete either kind of record. This project models its decision logic:

- **Errors and the user-ID check.** The service layer's error taxonomy, `internalError`, and the
  user-ID format check `isValidUUID` (`errors.dfy`, `service.dfy`).
- **Question service.** Text validation, and how repository outcomes are translated into domain
  errors (`question_service.dfy`).
- **Answer service.** Both as written and as its interface and the handler tests expect
  (`answer_service.dfy`).
- **HTTP status decision.** `errorStatusCode`, the shared status table (`handler.dfy`). Each endpoint
  is a pure function from the `{id}` path segment, the decoded body and the service's reply to a status
  and the service call made (`answer_handlers.dfy`, `question_handlers.dfy`). The path segment is read
  with `strconv.ParseUint(s, 10, 32)` (`strconv.dfy`).
- **Repositories.** The PostgreSQL repositories are an in-memory `Store` class (`repository.dfy`).
  - It has two tables keyed by serial primary keys.
  - It enforces the answer-to-question foreign key and ON DELETE CASCADE.
  - It reports not-found as a distinct error.
  - A database failure is an explicit input, `fault`.
- **Scenarios** (`scenarios.dfy`). End-to-end runs of the two services over a fresh store.

The Go error values are one datatype, `Errors.Error`, with one constructor per sentinel.
`errors.Is` is `Errors.Is` and `errors.Join` is `Errors.Join`. `errorStatusCode` compares errors as
map keys, so by identity, not with `errors.Is`, and the model keeps that distinction.

## Model

| member | source | states |
|---|---|---|
| Errors.Is | internal/service/question.go:34 | an error is itself; an error that is not a join matches exactly itself |
| Errors.Join | internal/service/service.go:59 | a joined error matches both of its parts under `errors.Is`, yet equals neither |
| Service.SentinelTaxonomy | internal/service/service.go:13-25 | the client-side and internal groups do not overlap, and five of the six sentinels are client-side |
| Service.InternalError | internal/service/service.go:58-62 | the result is of class `errClass` and wraps `err`; it is neither of them and no sentinel |
| Service.IsValidUUID | internal/service/service.go:65-68 | an accepted string has 36 characters with hyphens at 8, 13, 18 and 23 |
| Service.IsValidUUIDShape | internal/service/service.go:65-68 | the anchored 8-4-4-4-12 pattern holds iff the string has 36 characters, hyphens at 8, 13, 18 and 23, and hex digits everywhere else |
| Service.MatchFromFits | internal/service/service.go:66 | matching the hex groups one after another is the same as the position-by-position layout |
| Service.UuidLength | internal/service/service.go:66 | every accepted string is exactly 36 characters long (so "" is rejected) |
| Service.UuidCaseInsensitive | internal/service/service.go:66 | strings equal up to ASCII case get the same verdict |
| Service.UuidFromGroups | internal/service/service.go:66 | four hyphens at 8, 13, 18 and 23 around hex runs make a 36-character string acceptable |
| Service.UuidAcceptsTestUserID | internal/handler/handler_test.go:192-236 | "123e4567-e89b-12d3-a456-426614174000" is accepted |
| Service.UuidRejectsMalformed | internal/handler/handler_test.go:284-305 | "invalid-uuid" and "" are rejected |
| Strconv.ParseUint32 | internal/handler/answer.go:13 | succeeds iff the string is a non-empty run of decimal digits with value at most 2^32-1, and then yields that value |
| Strconv.Scan | internal/handler/answer.go:13 | the loop succeeds only if every remaining character is a digit, never lowers the value read so far, and never yields more than 2^32-1 from an in-range start |
| Strconv.ScanCorrect | internal/handler/answer.go:13 | the left-to-right scan that stops at the first non-digit or overflowing digit yields the decimal value exactly when the whole string is digits within 32 bits |
| Strconv.ParseFormatRoundTrip | internal/handler/answer.go:43 | every 32-bit id written in decimal parses back to itself |
| Strconv.ParseFormatOverflow | internal/handler/answer.go:62 | the decimal rendering of any value beyond 32 bits is refused |
| Strconv.ParseRejectsSign | internal/handler/questions.go:55-59 | a string with a leading sign, such as "-123", is refused |
| Repository.Store.AnswersOf | internal/repository/postgres_question.go:37 | the preloaded answers are exactly the stored answers of that question, each listed once (ids strictly ascending) |
| Repository.Store.AllQuestions | internal/repository/postgres_question.go:46-50 | the listed questions are exactly the stored ones, each listed once (ids strictly ascending), without answers (no preload) |
| Repository.Store.CreateQuestion | internal/repository/postgres_question.go:21-23 | a fault changes nothing; otherwise the row is stored under the next key and returned; the store stays valid |
| Repository.Store.DeleteQuestion | internal/repository/postgres_question.go:25-33 | a fault or a missing key changes nothing and reports `Driver` or `ErrQuestionNotFound`; otherwise the question and all its answers are removed |
| Repository.Store.GetQuestion | internal/repository/postgres_question.go:35-44 | a missing key gives `ErrQuestionNotFound`; otherwise the stored question with its answers preloaded |
| Repository.Store.GetAllQuestions | internal/repository/postgres_question.go:46-50 | a fault gives `Driver`; otherwise every stored question |
| Repository.Store.CreateAnswer | internal/repository/postgres_answer.go:21-23 | a missing question is a foreign-key violation (23503) that changes nothing; otherwise the answer is stored under the next key |
| Repository.Store.DeleteAnswer | internal/repository/postgres_answer.go:25-33 | a missing key gives `ErrAnswerNotFound` and changes nothing; otherwise only that answer is removed |
| Repository.Store.GetAnswer | internal/repository/postgres_answer.go:35-44 | a missing key gives `ErrAnswerNotFound`; otherwise the stored answer |
| Questions.TranslateRepositoryError | internal/service/question.go:33-38 | not-found becomes `ErrQuestionNotExists`; anything else becomes a `RepositoryFailure`-class error wrapping it; never an answer or user-ID error |
| Questions.QuestionService.Create | internal/service/question.go:20-30 | empty text gives `ErrEmptyText` with the store unchanged; a fault gives an internal error, store unchanged; otherwise one question with that text is added under the next key and returned |
| Questions.QuestionService.Delete | internal/service/question.go:32-40 | succeeds iff no fault and the question exists; missing gives `ErrQuestionNotExists`; success removes the question and its answers |
| Questions.QuestionService.GetByID | internal/service/question.go:42-51 | the repository's question with its preloaded answers, passed on unchanged; `ErrQuestionNotExists` when missing, an internal error on a fault |
| Questions.QuestionService.GetAll | internal/service/question.go:53-59 | the repository's list of stored questions, passed on unchanged, or an internal error on a fault |
| Answers.CheckAsWritten | internal/service/answer.go:24-29 | empty text is rejected first and empty user ID second, each with an ad-hoc error that is no sentinel; passes iff both are non-empty |
| Answers.TranslateLookupAsWritten | internal/service/answer.go:32-36 | only an error that is `gorm.ErrRecordNotFound` becomes "question does not exist"; everything else is passed on as it is |
| Answers.ValidateAnswer | internal/handler/handler_test.go:238-305 | passes iff the text is non-empty and the user ID is a UUID; otherwise `ErrEmptyText`, then `ErrEmptyUserID`, then `ErrInvalidUserID`, in that order |
| Answers.TranslateAnswerError | internal/handler/handler_test.go:368-388 | the repository's `ErrAnswerNotFound` becomes `ErrAnswerNotExists`; other failures become internal |
| Answers.MalformedUserIDAcceptedAsWritten | internal/service/answer.go:24-30 | "invalid-uuid" passes the guards as written but fails the intended validation with `ErrInvalidUserID` |
| Answers.MissingQuestionRawAsWritten | internal/service/answer.go:31-37 | the lookup's `ErrQuestionNotFound` is passed on raw, where the question service would report `ErrQuestionNotExists` |
| Answers.AnswerService.Create | internal/service/answer.go:23-39 | guards, then lookup, then insert; every failure leaves the store unchanged; success stores the caller's answer with a fresh key |
| Answers.AnswerService.CreateAsDeclared | internal/service/service.go:48-49 | validation, then lookup (`ErrQuestionNotExists` when missing), then insert; success iff valid, no fault and the question exists, and then the answer carries the given question id, user ID and text |
| Answers.AnswerService.GetByID | internal/service/answer.go:41-43 | the repository's answer or error, untranslated |
| Answers.AnswerService.Delete | internal/service/answer.go:45-47 | the repository's error, untranslated; success removes exactly that answer |
| Handler.ErrorStatusCode | internal/handler/handler.go:42-60 | always 400, 404 or 500; 400 iff one of the three validation sentinels, 404 iff one of the two not-exists sentinels, below 500 iff a client-side sentinel; any other error, joined ones included, is 500 |
| AnswerHandlers.CreateAnswerResponse | internal/handler/answer.go:11-39 | a bad path id or undecodable body gives 400 with no call; otherwise the service gets the parsed id, `user_id` and `text` unchanged and the status is `errorStatusCode(err)` or 201 |
| AnswerHandlers.GetAnswerResponse | internal/handler/answer.go:41-58 | a bad path id gives 400 with no call; otherwise the service gets the parsed id and the status is `errorStatusCode(err)` or 200 |
| AnswerHandlers.DeleteAnswerResponse | internal/handler/answer.go:60-75 | a bad path id gives 400 with no call; otherwise the service gets the parsed id and the status is `errorStatusCode(err)` or 204 |
| AnswerHandlers.PathIDRoundTrip | internal/handler/answer.go:43-49 | every 32-bit id written in decimal reaches the service as itself |
| AnswerHandlers.CreateAnswerGuardsAs500 | internal/service/answer.go:24-29 | as written, an empty text or user ID is answered with 500 |
| AnswerHandlers.CreateAnswerValidationIs400 | internal/handler/handler_test.go:238-305 | with the intended validation, every rejected body is answered with 400 |
| AnswerHandlers.CreateAnswerMissingQuestionAs500 | internal/service/answer.go:31-37 | as written, answering a missing question is answered with 500 |
| AnswerHandlers.CreateAnswerMissingQuestionIs404 | internal/handler/handler_test.go:307-333 | with the question service's translation, answering a missing question is answered with 404 |
| AnswerHandlers.MissingAnswerAs500 | internal/service/answer.go:41-47 | as written, getting or deleting a missing answer is answered with 500 |
| AnswerHandlers.MissingAnswerIs404 | internal/handler/handler_test.go:368-426 | with the answer translation, getting or deleting a missing answer is answered with 404 |
| QuestionHandlers.GetAllQuestionsResponse | internal/handler/questions.go:12-23 | the service is always called; 200 iff it succeeds, otherwise 500 |
| QuestionHandlers.CreateQuestionResponse | internal/handler/questions.go:25-51 | an undecodable body or empty text gives 400 with no call; otherwise the service gets the text, and the status is 500 on any error or 201 |
| QuestionHandlers.GetQuestionWithAnswersResponse | internal/handler/questions.go:53-75 | a bad path id gives 400 with no call; any service error 500; no question 404; otherwise 200 |
| QuestionHandlers.DeleteQuestionResponse | internal/handler/questions.go:77-92 | a bad path id gives 400 with no call; any service error 500; otherwise 204 |
| QuestionHandlers.GetQuestionWithAnswersResponseIntended | internal/handler/handler_test.go:96-113 | same calls and success statuses as written, but service errors go through `errorStatusCode` |
| QuestionHandlers.DeleteQuestionResponseIntended | internal/handler/handler_test.go:173-190 | same calls and success statuses as written, but service errors go through `errorStatusCode` |
| QuestionHandlers.SignedIDRejected | internal/handler/handler_test.go:115-127 | "-123" gives 400 before any service call |
| QuestionHandlers.MissingQuestionAs500 | internal/handler/questions.go:62-64 | as written, getting or deleting a missing question is answered with 500 |
| QuestionHandlers.MissingQuestionIs404 | internal/handler/handler_test.go:96-113 | through `errorStatusCode`, getting or deleting a missing question is answered with 404 |
| QuestionHandlers.RepositoryFailureStill500 | internal/handler/handler.go:51-57 | through `errorStatusCode`, a repository failure other than not-found is still answered with 500 |
| Scenarios.AskAnswerFetch | internal/handler/handler_test.go:192-236 | on a fresh store: "Q1" gets id 1, its answer id 1 under question 1, and fetching the question returns the answer list `[answer]` |
| Scenarios.AnswerMissingQuestion | internal/handler/handler_test.go:307-333 | answering a question that does not exist fails with `ErrQuestionNotExists` and stores nothing |
| Scenarios.MalformedUserID | internal/handler/handler_test.go:284-305 | a non-UUID user ID is refused with `ErrInvalidUserID` by the intended service but stored by the service as written |
| Scenarios.DeleteThenFetch | internal/model/model.go:17 | deleting an answered question removes its answers, and fetching it afterwards gives `ErrQuestionNotExists` |

## Left out

- `CreatedAt` timestamps (internal/model/model.go:16, 27) are not modelled; they are set by the database clock.
- Response bodies, headers, JSON encoding and error messages are not modelled; only statuses and service calls are. For the same reason the model does not capture one disagreement: the code writes "invalid question id" (internal/handler/questions.go:57), while the test looks for "invalid question ID" (internal/handler/handler_test.go:126).
- JSON decoding is reduced to success (the decoded fields) or failure.
- Logging (the `slog` call in `internalError`, `LoggingMiddleware`), configuration loading and process start-up and shutdown are not modelled.
- The request context and cancellation are not modelled. A database failure of any kind is the `fault` input of each store call.
- Concurrency is not modelled. The answer service's lookup and insert are two separate store calls, so the race between them is not captured.
- `NewRouter` registers a handler named `getQuestionByID` (internal/handler/handler.go:31) that is defined nowhere. The model takes `getQuestionWithAnswers` to be the handler for that route.
- `QuestionHandlers.CreateQuestionResponse` and `QuestionHandlers.GetQuestionWithAnswersResponse` record the calls the handler makes. The handler calls `Create(ctx, &question)` and `GetWithAnswers`, which the `QuestionService` interface does not declare (internal/service/service.go:30-42). The service side of those calls is modelled by `QuestionService.Create` and `QuestionService.GetByID`.
- `Answers.AnswerService.Create` returns only an error, as answer.go does. Its final line returns the two results of the repository's `Create` where one is declared (internal/service/answer.go:38). The model keeps the error and reflects the stored record in `saved`.
- `Repository.Store.DeleteQuestion` and `Repository.Store.DeleteAnswer` report not-found for a missing key. Whether GORM's `Delete` really reports that for zero affected rows is library behaviour outside the model.
- `Repository.Store.CreateQuestion` and `Repository.Store.CreateAnswer` leave the key counters unchanged when an insert fails. A PostgreSQL serial sequence is not rolled back after a failed insert, so the model does not capture the gaps in keys this leaves.
- The repositories' list queries carry no ORDER BY, so the database fixes no order. The model lists rows by ascending key; no promise of the source depends on the order.
- Keys the caller puts into a new record are ignored: the store always assigns the next serial key. Keys are unbounded naturals; the 32-bit limit is modelled only in the path-id parse.
- The legacy packages internal/models and internal/repository/question.go and answer.go are not part of this model. Neither are the test mocks.

## Findings

| source | as written | input that shows it | evidently intended | confidence | as-written member | corrected member |
|---|---|---|---|---|---|---|
| internal/service/answer.go:24-29 | empty text or user ID is rejected with an `errors.New` value outside the status table, so the handler answers 500 | POST /questions/1/answers/ with `{"user_id":"","text":"x"}` | `ErrEmptyText` / `ErrEmptyUserID`, answered with 400 (internal/handler/handler_test.go:238-282) | high, not executed | AnswerHandlers.CreateAnswerGuardsAs500 | AnswerHandlers.CreateAnswerValidationIs400 |
| internal/service/answer.go:23-30 | the user ID's format is never checked, so a non-UUID user ID is stored | user_id "invalid-uuid", text "Test answer", question 1 exists | `ErrInvalidUserID`, answered with 400 (internal/handler/handler_test.go:284-305) | high, not executed | Answers.MalformedUserIDAcceptedAsWritten | Answers.ValidateAnswer |
| internal/service/answer.go:31-37 | the test for `gorm.ErrRecordNotFound` never matches, because the repository already turned it into `ErrQuestionNotFound`; that raw error is answered with 500 | POST /questions/999/answers/ with a valid body and no question 999 | `ErrQuestionNotExists`, answered with 404 (internal/handler/handler_test.go:307-333) | high, not executed | AnswerHandlers.CreateAnswerMissingQuestionAs500 | AnswerHandlers.CreateAnswerMissingQuestionIs404 |
| internal/service/answer.go:41-47 | the repository's `ErrAnswerNotFound` is passed on untranslated and answered with 500 | GET /answers/999 or DELETE /answers/999 with no answer 999 | `ErrAnswerNotExists`, answered with 404 (internal/handler/handler_test.go:368-426) | high, not executed | AnswerHandlers.MissingAnswerAs500 | AnswerHandlers.MissingAnswerIs404 |
| internal/handler/questions.go:62-64 | every service error is answered with 500, `ErrQuestionNotExists` included | GET /questions/999 or DELETE /questions/999 with no question 999 | 404 via `errorStatusCode` (internal/handler/handler_test.go:96-113, 173-190) | high, not executed | QuestionHandlers.MissingQuestionAs500 | QuestionHandlers.MissingQuestionIs404 |
