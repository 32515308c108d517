/**
 * The Survey collection's schema (models/Survey.js): a survey is a title, an optional
 * description, an ordered list of questions and a creation time. A question has a
 * text, a kind taken from a fixed enumeration and a list of option labels.
 */
module SurveyModel {
  import opened Wrappers

  /** Document identities (MongoDB ObjectIds), abstract. */
  type Id = nat

  /** Timestamps, an abstract ordered value (milliseconds since the epoch in the source). */
  type Time = int

  /** The `type` enumeration of a question. */
  datatype QuestionKind = TextKind | Choice | Rating | Dropdown

  /** The string the schema stores for each kind. */
  function KindName(k: QuestionKind): string
  {
    match k
    case TextKind => "text"
    case Choice => "choice"
    case Rating => "rating"
    case Dropdown => "dropdown"
  }

  /** The enum validator: a string is accepted exactly when it names one of the four kinds. */
  function ParseKind(s: string): (r: Option<QuestionKind>)
    ensures r.Some? ==> KindName(r.value) == s
    ensures r.None? ==> forall k: QuestionKind :: KindName(k) != s
  {
    if s == "text" then Some(TextKind)
    else if s == "choice" then Some(Choice)
    else if s == "rating" then Some(Rating)
    else if s == "dropdown" then Some(Dropdown)
    else None
  }

  lemma ParseKindName(k: QuestionKind)
    ensures ParseKind(KindName(k)) == Some(k)
  {
  }

  /** A stored question. */
  datatype Question = Question(text: string, kind: QuestionKind, options: seq<string>)

  /** A stored survey. */
  datatype Survey = Survey(title: string, description: Option<string>,
                           questions: seq<Question>, createdAt: Time)

  /** A question as it arrives in a request body: every field may be missing. */
  datatype QuestionDraft = QuestionDraft(text: Option<string>, kind: Option<string>,
                                         options: Option<seq<string>>)

  /** The `{ title, description, questions }` part of a request body. */
  datatype SurveyBody = SurveyBody(title: Option<string>, description: Option<string>,
                                   questions: Option<seq<QuestionDraft>>)

  /** A `required: true` String path: present and not the empty string. */
  predicate Supplied(v: Option<string>)
  {
    v.Some? && v.value != ""
  }

  /** Well-formedness of a stored question: its text is required. */
  predicate ValidQuestion(q: Question)
  {
    q.text != ""
  }

  /** Well-formedness of a stored survey: title required, every question well formed. */
  predicate ValidSurvey(s: Survey)
  {
    s.title != "" && forall i :: 0 <= i < |s.questions| ==> ValidQuestion(s.questions[i])
  }

  /** A draft question passes the QuestionSchema validators. */
  predicate QuestionDraftOk(d: QuestionDraft)
  {
    Supplied(d.text) && Supplied(d.kind) && ParseKind(d.kind.value).Some?
  }

  /** Casting and validating one question; None is a validation error. */
  function NewQuestion(d: QuestionDraft): (r: Option<Question>)
    ensures r.Some? <==> QuestionDraftOk(d)
    ensures r.Some? ==> ValidQuestion(r.value) && Some(r.value.text) == d.text
                        && Some(KindName(r.value.kind)) == d.kind
                        && r.value.options == d.options.GetOr([])
  {
    if QuestionDraftOk(d) then
      var k := ParseKind(d.kind.value).value;
      Some(Question(d.text.value, k, d.options.GetOr([])))
    else None
  }

  /** Casting and validating a question array, element by element. */
  function NewQuestions(ds: seq<QuestionDraft>): (r: Option<seq<Question>>)
    ensures r.Some? <==> forall i :: 0 <= i < |ds| ==> QuestionDraftOk(ds[i])
    ensures r.Some? ==> (|r.value| == |ds| &&
                         forall i :: 0 <= i < |ds| ==> NewQuestion(ds[i]) == Some(r.value[i]))
  {
    if ds == [] then Some([])
    else
      match (NewQuestion(ds[0]), NewQuestions(ds[1..]))
      case (Some(q), Some(qs)) =>
        assert forall i :: 1 <= i < |ds| ==> ds[i] == ds[1..][i - 1];
        Some([q] + qs)
      case (None, _) => None
      case (_, None) =>
        assert forall i :: 0 <= i < |ds| - 1 ==> ds[1..][i] == ds[i + 1];
        None
  }

  /**
   * `new Survey({ title, description, questions }).save()` up to the write: the
   * defaults (no questions, creation time `now` unless one is given) are applied,
   * then the validators run; None is a validation error.
   */
  function NewSurvey(body: SurveyBody, createdAt: Option<Time>, now: Time): (r: Option<Survey>)
    ensures r.Some? <==> Supplied(body.title) && NewQuestions(body.questions.GetOr([])).Some?
    ensures r.Some? ==> (ValidSurvey(r.value) &&
                         Some(r.value.title) == body.title &&
                         r.value.description == body.description &&
                         r.value.questions == NewQuestions(body.questions.GetOr([])).value &&
                         r.value.createdAt == createdAt.GetOr(now))
  {
    if !Supplied(body.title) then None
    else
      match NewQuestions(body.questions.GetOr([]))
      case None => None
      case Some(qs) =>
        assert forall i :: 0 <= i < |qs| ==> ValidQuestion(qs[i]) by {
          forall i | 0 <= i < |qs| ensures ValidQuestion(qs[i]) {
            assert NewQuestion(body.questions.GetOr([])[i]) == Some(qs[i]);
          }
        }
        Some(Survey(body.title.value, body.description, qs, createdAt.GetOr(now)))
  }

  /**
   * `findByIdAndUpdate(id, { title, description, questions }, { runValidators: true })`
   * applied to an existing survey: keys left undefined are dropped from the update,
   * each supplied path is validated, and the creation time is kept.
   */
  function PatchSurvey(s: Survey, body: SurveyBody): (r: Option<Survey>)
    ensures r.Some? <==> PatchValid(body)
    ensures r.Some? ==> (
      r.value.title == body.title.GetOr(s.title) &&
      r.value.description == (if body.description.Some? then body.description else s.description) &&
      r.value.questions == (if body.questions.Some? then NewQuestions(body.questions.value).value
                            else s.questions) &&
      r.value.createdAt == s.createdAt)
  {
    if body.title.Some? && body.title.value == "" then None
    else if body.questions.Some? && NewQuestions(body.questions.value).None? then None
    else
      var qs := if body.questions.Some? then NewQuestions(body.questions.value).value else s.questions;
      var desc := if body.description.Some? then body.description else s.description;
      Some(Survey(body.title.GetOr(s.title), desc, qs, s.createdAt))
  }

  /**
   * The update validators, which look only at the supplied paths: a supplied title must
   * be non-empty and every supplied question must pass the QuestionSchema validators.
   */
  predicate PatchValid(body: SurveyBody)
  {
    (body.title.Some? ==> body.title.value != "") &&
    (body.questions.Some? ==> forall i :: 0 <= i < |body.questions.value| ==> QuestionDraftOk(body.questions.value[i]))
  }

  /** A successful update of a well-formed survey is well formed. */
  lemma PatchKeepsValid(s: Survey, body: SurveyBody)
    requires ValidSurvey(s)
    requires PatchSurvey(s, body).Some?
    ensures ValidSurvey(PatchSurvey(s, body).value)
  {
  }
}
