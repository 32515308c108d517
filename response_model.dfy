/**
 * The Response collection's schema (models/Response.js): a response names its survey,
 * the submitter's name and phone, an ordered list of answers and a submission time.
 * An answer is joined back to a question by its text. The compound index
 * `{ surveyId: 1, phone: 1 }` is unique.
 */
module ResponseModel {
  import opened Wrappers
  import opened SurveyModel

  /** A stored answer. */
  datatype Answer = Answer(questionText: string, value: string)

  /** A stored response. */
  datatype Response = Response(surveyId: Id, name: string, phone: string,
                               answers: seq<Answer>, submittedAt: Time)

  /** An answer as it arrives in a request body. */
  datatype AnswerDraft = AnswerDraft(questionText: Option<string>, value: Option<string>)

  /** Well-formedness of a stored answer: both paths are required. */
  predicate ValidAnswer(a: Answer)
  {
    a.questionText != "" && a.value != ""
  }

  /** Well-formedness of a stored response: name and phone required, every answer well formed. */
  predicate ValidResponse(r: Response)
  {
    r.name != "" && r.phone != "" && forall i :: 0 <= i < |r.answers| ==> ValidAnswer(r.answers[i])
  }

  /** A draft answer passes the AnswerSchema validators. */
  predicate AnswerDraftOk(d: AnswerDraft)
  {
    Supplied(d.questionText) && Supplied(d.value)
  }

  /** Casting and validating an answer array; None is a validation error. */
  function NewAnswers(ds: seq<AnswerDraft>): (r: Option<seq<Answer>>)
    ensures r.Some? <==> forall i :: 0 <= i < |ds| ==> AnswerDraftOk(ds[i])
    ensures r.Some? ==> (|r.value| == |ds| &&
                         forall i :: 0 <= i < |ds| ==>
                           ValidAnswer(r.value[i]) &&
                           Some(r.value[i].questionText) == ds[i].questionText &&
                           Some(r.value[i].value) == ds[i].value)
  {
    if ds == [] then Some([])
    else if !AnswerDraftOk(ds[0]) then None
    else
      match NewAnswers(ds[1..])
      case None =>
        assert forall i :: 0 <= i < |ds| - 1 ==> ds[1..][i] == ds[i + 1];
        None
      case Some(rest) =>
        assert forall i :: 1 <= i < |ds| ==> ds[i] == ds[1..][i - 1];
        Some([Answer(ds[0].questionText.value, ds[0].value.value)] + rest)
  }

  /**
   * `new Response({ surveyId, name, phone, answers })` validated as `save()` does before
   * the write: a missing answer list defaults to empty, `submittedAt` defaults to `now`
   * when not supplied; None is a validation error.
   */
  function NewResponse(surveyId: Id, name: Option<string>, phone: Option<string>,
                       answers: Option<seq<AnswerDraft>>, submittedAt: Option<Time>,
                       now: Time): (r: Option<Response>)
    ensures r.Some? <==> Supplied(name) && Supplied(phone)
                         && forall i :: 0 <= i < |answers.GetOr([])| ==> AnswerDraftOk(answers.GetOr([])[i])
    ensures r.Some? ==> (ValidResponse(r.value) &&
                         r.value.surveyId == surveyId &&
                         Some(r.value.name) == name && Some(r.value.phone) == phone &&
                         r.value.answers == NewAnswers(answers.GetOr([])).value &&
                         r.value.submittedAt == submittedAt.GetOr(now))
  {
    if !Supplied(name) || !Supplied(phone) then None
    else
      match NewAnswers(answers.GetOr([]))
      case None => None
      case Some(stored) => Some(Response(surveyId, name.value, phone.value, stored, submittedAt.GetOr(now)))
  }

  /** True when the two responses collide on the unique index `(surveyId, phone)`. */
  predicate SameKey(a: Response, b: Response)
  {
    a.surveyId == b.surveyId && a.phone == b.phone
  }

  /** The unique compound index holds over a collection. */
  predicate Unique(rs: seq<Response>)
  {
    forall i, j :: 0 <= i < j < |rs| ==> !SameKey(rs[i], rs[j])
  }

  /** Some stored response already holds the key `(surveyId, phone)`. */
  predicate KeyTaken(rs: seq<Response>, surveyId: Id, phone: string)
  {
    exists i :: 0 <= i < |rs| && rs[i].surveyId == surveyId && rs[i].phone == phone
  }

  /** The number of stored responses holding the key `(surveyId, phone)`. */
  function KeyCount(rs: seq<Response>, surveyId: Id, phone: string): (n: nat)
    ensures n <= |rs|
    ensures n == 0 <==> !KeyTaken(rs, surveyId, phone)
  {
    if rs == [] then 0
    else
      var here := if rs[0].surveyId == surveyId && rs[0].phone == phone then 1 else 0;
      assert forall i :: 1 <= i < |rs| ==> rs[i] == rs[1..][i - 1];
      assert KeyTaken(rs[1..], surveyId, phone) ==> KeyTaken(rs, surveyId, phone);
      here + KeyCount(rs[1..], surveyId, phone)
  }

  /** Under the unique index, at most one stored response holds any key. */
  lemma {:induction false} UniqueAtMostOne(rs: seq<Response>, surveyId: Id, phone: string)
    requires Unique(rs)
    ensures KeyCount(rs, surveyId, phone) <= 1
  {
    if rs != [] {
      assert Unique(rs[1..]) by {
        forall i, j | 0 <= i < j < |rs| - 1 ensures !SameKey(rs[1..][i], rs[1..][j]) {
          assert rs[1..][i] == rs[i + 1] && rs[1..][j] == rs[j + 1];
        }
      }
      UniqueAtMostOne(rs[1..], surveyId, phone);
    }
  }

  /** Appending a response whose key is free keeps the index unique. */
  lemma AppendKeepsUnique(rs: seq<Response>, r: Response)
    requires Unique(rs)
    requires !KeyTaken(rs, r.surveyId, r.phone)
    ensures Unique(rs + [r])
  {
  }

  /** The index constrains the pair only: one phone may answer two different surveys. */
  lemma SamePhoneAcrossSurveys(r: Response, s: Response)
    requires r.phone == s.phone && r.surveyId != s.surveyId
    ensures Unique([r, s])
  {
  }
}
