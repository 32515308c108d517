# Survey back end: a Dafny model

This project models the core of a small survey back end (an Express server over two
MongoDB collections). Administrators create, update and delete surveys and export a
survey's responses as a spreadsheet mailed to them. Respondents submit a response
answering a survey's questions. A compound unique index on `(surveyId, phone)` allows
at most one response per phone number per survey.

Modules, one per source file or component:

- `Wrappers` (wrappers.dfy): the `Option` type. It stands for request fields that may be absent and for lookups that may miss.
- `SurveyModel` (survey_model.dfy): models/Survey.js. Questions, the question-kind enumeration, surveys, and the validation done on create and on update.
- `ResponseModel` (response_model.dfy): models/Response.js. Answers, responses, validation with the `submittedAt` default, and the unique `(surveyId, phone)` index as the predicate `Unique`.
- `ResponseQuery` (query.dfy): the collection queries the handlers issue. These are `find({ surveyId })`, `sort({ submittedAt: 1 })` and `deleteMany({ surveyId })`.
- `Report` (report.dfy): the export's sheet compilation. It is an imperative `Compile` method with the two nested loops of the handler, proved equal to the function `Compiled`. Lemmas give the header, row and cell shapes.
- `Store` (store.dfy): the class `SurveyStore`, which holds the two collections. It has one method per handler: create, update, delete with cascade, submit and export. Submitting uses an atomic insert-if-key-absent step. `StoreInvariant` is kept by every method: ids were handed out, every record passes its schema, every response names a stored survey, and the index is unique.

Status codes are the source's own. They are given by the `Status()` functions of the outcome types.

The model follows the code, including in these places where it departs from the documented intent of the system:

- A validation failure on submit, create or update falls into the handler's generic catch. It yields 500, where the documented intent is 400/422.
- This revision of the code has no new-response notification, although the documented intent calls for one.
- Export has a single failure path for the mail transport, also 500. Missing configuration and transport failure are not told apart.
- The cascade deletes the survey first and then its responses.

## Model

| member | source | states |
|---|---|---|
| SurveyModel.ParseKind | models/Survey.js:11-17 | a kind string is accepted exactly when it is one of `text`, `choice`, `rating`, `dropdown`, and the kind returned is the one it names |
| SurveyModel.ParseKindName | models/Survey.js:15 | every kind's stored name is accepted as that same kind |
| SurveyModel.NewQuestion | models/Survey.js:6-21 | a question is accepted iff its text and its type are present and non-empty and the type is in the enumeration; the stored question keeps the text and kind, and options default to the empty list |
| SurveyModel.NewQuestions | models/Survey.js:32 | a question array is accepted iff every element is; the stored array keeps length and order |
| SurveyModel.NewSurvey | models/Survey.js:24-37 | a survey is accepted iff the title is present and non-empty and every question is accepted; the description is optional and kept as given; the stored questions are exactly the validated drafts, in order; `createdAt` is the supplied time, else the creation time; the result is well formed |
| SurveyModel.PatchSurvey | index.js:91-97 | an update is accepted iff the supplied title is non-empty and the supplied questions validate; supplied fields replace the stored ones, absent fields and `createdAt` are kept |
| SurveyModel.PatchKeepsValid | index.js:93-97 | an accepted update of a well-formed survey is well formed |
| ResponseModel.NewAnswers | models/Response.js:6-15 | an answer array is accepted iff every answer has a non-empty `questionText` and `value`; the stored answers keep both, in order |
| ResponseModel.NewResponse | models/Response.js:18-43 | a response is accepted iff name and phone are present and non-empty and every answer is accepted; it keeps surveyId, name and phone, and its answers are exactly the validated drafts, in order; `submittedAt` is the supplied time, else the creation time; answers default to none |
| ResponseModel.UniqueAtMostOne | models/Response.js:45-47 | under the unique index no `(surveyId, phone)` key is held by more than one stored response |
| ResponseModel.AppendKeepsUnique | models/Response.js:47 | writing a response whose key is free keeps the index unique |
| ResponseModel.SamePhoneAcrossSurveys | models/Response.js:45-47 | the same phone under two different surveys does not violate the index |
| ResponseQuery.ResponsesFor | index.js:230 | `find({ surveyId })` returns exactly the stored responses naming that survey |
| ResponseQuery.Without | index.js:128 | `deleteMany({ surveyId })` leaves exactly the stored responses naming another survey |
| ResponseQuery.PartitionBySurvey | index.js:128 | the responses deleted and the responses left partition the collection: counts add up and the multisets sum to the original |
| ResponseQuery.WithoutKeepsOthers | index.js:128 | the cascade leaves every other survey's responses exactly as they were, in order |
| ResponseQuery.WithoutLeavesNone | index.js:128 | after the cascade no response to the deleted survey is left |
| ResponseQuery.WithoutKeepsUnique | index.js:128 | the cascade keeps the unique index intact |
| ResponseQuery.SortByTime | index.js:230 | the sorted responses are a permutation of the found ones |
| ResponseQuery.SortByTimeSorted | index.js:230 | the sorted responses are in ascending `submittedAt` order |
| Report.HeaderShape | index.js:239 | the header is `제출 시간`, `이름`, `전화번호` followed by every question text in question order |
| Report.FindAnswerFirst | index.js:251 | the lookup misses exactly when no answer carries the question's text; otherwise it returns the first answer, by position, that does |
| Report.CellAtFirstMatch | index.js:251-252 | the cell holds the value of the first answer whose text equals the question's text |
| Report.CellWithoutMatch | index.js:252 | the cell holds `(무응답)` when no answer carries the question's text |
| Report.RowShape | index.js:243-253 | a row has 3 + number-of-questions cells: submission time, name, phone, then question j's cell at position 3 + j |
| Report.CompiledShape | index.js:240-255 | the sheet has one row more than there are responses: the header first, then row i + 1 built from response i |
| Report.CellIgnoresShadowed | index.js:251-252 | an answer placed anywhere changes no cell when its text is another question's, or when an earlier answer already has its text |
| Report.RowIgnoresShadowed | index.js:250-253 | extra answers that match no question, and later duplicate answers, never change a row |
| Report.RowIgnoresAnswerOrder | index.js:250-253 | when a response's answers have distinct texts, reordering them leaves its row unchanged; columns follow the survey |
| Report.TwoResponseExample | index.js:239-255 | for questions Q1, Q2, a response answering only Q1 and a later one answering only Q2, the sheet is the header and two rows with `(무응답)` in the unanswered cells |
| Report.Compile | index.js:239-255 | the loop-built sheet equals `Compiled`: the header first, then one row per response, in response order |
| Store.AdmitAllTaken | models/Response.js:47 | once a key is held, every later write with that key is refused and the collection stays as it is |
| Store.SameKeyAdmitsExactlyOne | index.js:191-200 | any number of submissions with one free `(surveyId, phone)` key, written one after another, store exactly one record, the first one |
| Store.SurveyStore.InsertIfAbsent | models/Response.js:47 | the atomic write stores the record iff its key is free and reports which; nothing else changes; the store invariant is kept |
| Store.SurveyStore.CreateSurvey | index.js:57-68 | an invalid body is refused with nothing changed; a valid one is stored under a fresh id, with `createdAt` set to the creation time |
| Store.SurveyStore.UpdateSurvey | index.js:88-110 | an invalid patch gives 500 and a missing id gives 404, both with nothing changed; otherwise exactly that survey is replaced by the patched one; responses are untouched |
| Store.SurveyStore.DeleteSurvey | index.js:116-137 | a missing id gives 404 with nothing changed; otherwise the survey and exactly its responses are removed, `removed` is the count the handler logs, and every other survey and response is kept |
| Store.SurveyStore.Submit | index.js:170-206 | a missing or unknown survey gives 404, an invalid record 500, a held key 409, all with nothing changed; otherwise exactly one record is appended, with `submittedAt` set to the submission time (201) |
| Store.SurveyStore.Export | index.js:219-287 | an unknown survey gives 404; no responses gives 400 before any compilation or mail; otherwise the mail carries the survey title in its subject, the response count and the sheet compiled from the responses sorted by submission time; a transport failure gives 500 |

## Left out

- Express routing, middleware, CORS, body parsing and the listening server (index.js:3-20, index.js:291-293). This is HTTP plumbing.
- The MongoDB connection and the credentials (index.js:22-37). The store is an in-memory class, and each handler is one atomic step.
- Concurrency. Simultaneous submissions are modelled as atomic writes applied one after another (`AdmitAll`). The window between the survey lookup and the write is not modelled. A survey deleted in that window could be left with an orphan response.
- The list and get-one survey routes and the test route (index.js:42-45, index.js:74-82, index.js:150-164). None of them changes state.
- `ObjectId` casting: ids are abstract numbers. A malformed id string, which the source answers with 400 or 500, cannot arise.
- Mongoose's casting of non-string values (for example a number given as an answer value) to strings. Request bodies carry strings or nothing; JSON `null` is not modelled.
- Mongoose's validation error detail. It reports every failing path; the model only reports that validation failed.
- Response `_id` values, which nothing in the core reads.
- The spreadsheet serialization (index.js:258-261). The model stops at the two-dimensional array of cells.
- The time column's `toLocaleString('ko-KR')` formatting. The cell holds the raw timestamp (`When`).
- Mail addresses, the timestamped attachment file name with `Date.now()`, and the content type (index.js:266-278). The mail keeps its subject, the response count its text reports, and the sheet. The transport's own behaviour is a boolean parameter.
- Clocks: the creation time is passed in as `now`.
- Console logging and the generic 500 path for unexpected store failures.
- ResponseQuery.SortByTime: MongoDB leaves the order of responses with equal `submittedAt` unspecified. The model sorts stably and proves only order and permutation.
- SurveyModel.PatchSurvey: it assumes Mongoose 6 or later, which drops undefined keys from updates, and assumes a supplied empty title fails the `required` update validator.
