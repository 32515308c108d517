/**
 * The handlers of index.js that touch the two collections, over an in-memory store:
 * creating, updating and deleting a survey (with its responses), submitting a
 * response under the unique `(surveyId, phone)` index, and exporting a survey's
 * responses as a sheet mailed to the administrator. Every handler runs as one
 * atomic step.
 */
module Store {
  import opened Wrappers
  import opened SurveyModel
  import opened ResponseModel
  import opened ResponseQuery
  import opened Report

  /** POST /api/surveys. */
  datatype CreateOutcome = SurveyCreated(id: Id, survey: Survey) | CreateInvalid {
    function Status(): int { if SurveyCreated? then 201 else 500 }
  }

  /** PUT /api/surveys/:id. */
  datatype UpdateOutcome = Updated(survey: Survey) | UpdateNotFound | UpdateInvalid {
    function Status(): int { match this case Updated(_) => 200 case UpdateNotFound => 404 case UpdateInvalid => 500 }
  }

  /** DELETE /api/surveys/:id; `removed` is the `deletedCount` of the cascade. */
  datatype DeleteOutcome = Deleted(removed: nat) | DeleteNotFound {
    function Status(): int { if Deleted? then 200 else 404 }
  }

  /** The `{ surveyId, name, phone, answers }` body of POST /api/responses. */
  datatype Submission = Submission(surveyId: Option<Id>, name: Option<string>, phone: Option<string>,
                                   answers: Option<seq<AnswerDraft>>)

  /** POST /api/responses: Invalid is a validation error, which reaches the generic 500 path. */
  datatype IntakeOutcome = Created(response: Response) | SurveyMissing | Invalid | Duplicate {
    function Status(): int {
      match this case Created(_) => 201 case SurveyMissing => 404 case Invalid => 500 case Duplicate => 409
    }
  }

  /** The report mail: subject, the response count its text reports, and the sheet it attaches. */
  datatype Mail = Mail(subject: string, responseCount: nat, sheet: Table)

  /** GET /api/surveys/:id/export. */
  datatype ExportOutcome = Delivered(mail: Mail) | ExportNotFound | NoResponses | TransportFailed {
    function Status(): int {
      match this case Delivered(_) => 200 case ExportNotFound => 404 case NoResponses => 400
      case TransportFailed => 500
    }
  }

  /** The mail sent for survey `s` and its sorted responses. */
  function ReportMail(s: Survey, rs: seq<Response>): Mail
  {
    Mail("[" + s.title + "] 설문조사 결과 보고서", |rs|, Compiled(s, rs))
  }

  /**
   * What the store keeps true: every id was handed out, every record passes its
   * schema, every response names a stored survey, and the `(surveyId, phone)` index is unique.
   */
  ghost predicate StoreInvariant(surveys: map<Id, Survey>, responses: seq<Response>, nextId: Id)
  {
    (forall id :: id in surveys ==> id < nextId && ValidSurvey(surveys[id])) &&
    (forall i :: 0 <= i < |responses| ==> ValidResponse(responses[i]) && responses[i].surveyId in surveys) &&
    Unique(responses)
  }

  /** The write under the unique index: the record goes in only if its key is free. */
  function Admit(rs: seq<Response>, r: Response): seq<Response>
  {
    if KeyTaken(rs, r.surveyId, r.phone) then rs else rs + [r]
  }

  /** Submissions reaching the store one after another, each as one atomic write. */
  function AdmitAll(rs: seq<Response>, batch: seq<Response>): seq<Response>
    decreases batch
  {
    if batch == [] then rs else AdmitAll(Admit(rs, batch[0]), batch[1..])
  }

  lemma {:induction false} KeyCountAppend(rs: seq<Response>, r: Response)
    ensures KeyCount(rs + [r], r.surveyId, r.phone) == KeyCount(rs, r.surveyId, r.phone) + 1
  {
    if rs != [] {
      KeyCountAppend(rs[1..], r);
      assert (rs + [r])[1..] == rs[1..] + [r];
    }
  }

  lemma {:induction false} AdmitAllTaken(rs: seq<Response>, batch: seq<Response>, surveyId: Id, phone: string)
    requires KeyTaken(rs, surveyId, phone)
    requires forall i :: 0 <= i < |batch| ==> batch[i].surveyId == surveyId && batch[i].phone == phone
    ensures AdmitAll(rs, batch) == rs
  {
    if batch != [] {
      AdmitAllTaken(rs, batch[1..], surveyId, phone);
    }
  }

  /**
   * However many submissions with one `(surveyId, phone)` reach a store that does not
   * hold the key yet, exactly the first is written and all the others are turned away.
   */
  lemma SameKeyAdmitsExactlyOne(rs: seq<Response>, batch: seq<Response>, surveyId: Id, phone: string)
    requires batch != []
    requires forall i :: 0 <= i < |batch| ==> batch[i].surveyId == surveyId && batch[i].phone == phone
    requires !KeyTaken(rs, surveyId, phone)
    ensures AdmitAll(rs, batch) == rs + [batch[0]]
    ensures KeyCount(AdmitAll(rs, batch), surveyId, phone) == 1
  {
    var first := rs + [batch[0]];
    assert first[|rs|] == batch[0];
    assert KeyTaken(first, surveyId, phone);
    AdmitAllTaken(first, batch[1..], surveyId, phone);
    KeyCountAppend(rs, batch[0]);
  }

  class SurveyStore {
    /** The Survey collection, by id. */
    var surveys: map<Id, Survey>
    /** The Response collection, in insertion order. */
    var responses: seq<Response>
    /** The next id to hand out. */
    var nextId: Id

    ghost predicate Valid()
      reads this
    {
      StoreInvariant(surveys, responses, nextId)
    }

    constructor ()
      ensures Valid()
      ensures surveys == map[] && responses == [] && nextId == 0
    {
      surveys, responses, nextId := map[], [], 0;
    }

    /** `save()` under the unique index: one atomic insert-if-key-absent. */
    method InsertIfAbsent(r: Response) returns (inserted: bool)
      requires Valid()
      requires ValidResponse(r) && r.surveyId in surveys
      modifies this
      ensures Valid()
      ensures inserted <==> !KeyTaken(old(responses), r.surveyId, r.phone)
      ensures responses == Admit(old(responses), r)
      ensures surveys == old(surveys) && nextId == old(nextId)
    {
      inserted := !KeyTaken(responses, r.surveyId, r.phone);
      if inserted {
        AppendKeepsUnique(responses, r);
        responses := responses + [r];
      }
    }

    /** POST /api/surveys: validate, default `createdAt` to `now`, store under a fresh id. */
    method CreateSurvey(body: SurveyBody, now: Time) returns (outcome: CreateOutcome)
      requires Valid()
      modifies this
      ensures Valid()
      ensures responses == old(responses)
      ensures NewSurvey(body, None, now).None? ==>
                outcome == CreateInvalid && surveys == old(surveys) && nextId == old(nextId)
      ensures NewSurvey(body, None, now).Some? ==>
                outcome == SurveyCreated(old(nextId), NewSurvey(body, None, now).value) &&
                old(nextId) !in old(surveys) &&
                surveys == old(surveys)[old(nextId) := outcome.survey] && nextId == old(nextId) + 1
    {
      var created := NewSurvey(body, None, now);
      match created
      case None =>
        outcome := CreateInvalid;
      case Some(s) =>
        var id := nextId;
        surveys := surveys[id := s];
        nextId := nextId + 1;
        outcome := SurveyCreated(id, s);
    }

    /**
     * PUT /api/surveys/:id with `runValidators`: the supplied paths are validated before
     * the lookup; a missing id is 404; otherwise the supplied fields replace the stored
     * ones. Responses are untouched.
     */
    method UpdateSurvey(id: Id, body: SurveyBody) returns (outcome: UpdateOutcome)
      requires Valid()
      modifies this
      ensures Valid()
      ensures responses == old(responses) && nextId == old(nextId)
      ensures !PatchValid(body) ==> outcome == UpdateInvalid && surveys == old(surveys)
      ensures PatchValid(body) && id !in old(surveys) ==> outcome == UpdateNotFound && surveys == old(surveys)
      ensures PatchValid(body) && id in old(surveys) ==>
                outcome == Updated(PatchSurvey(old(surveys)[id], body).value) &&
                surveys == old(surveys)[id := outcome.survey]
    {
      if !PatchValid(body) {
        outcome := UpdateInvalid;
      } else if id !in surveys {
        outcome := UpdateNotFound;
      } else {
        PatchKeepsValid(surveys[id], body);
        var updated := PatchSurvey(surveys[id], body).value;
        surveys := surveys[id := updated];
        outcome := Updated(updated);
      }
    }

    /**
     * DELETE /api/surveys/:id: a missing id is 404 and changes nothing; otherwise the
     * survey goes, then every response to it.
     */
    method DeleteSurvey(id: Id) returns (outcome: DeleteOutcome)
      requires Valid()
      modifies this
      ensures Valid()
      ensures nextId == old(nextId)
      ensures id !in old(surveys) ==>
                outcome == DeleteNotFound && surveys == old(surveys) && responses == old(responses)
      ensures id in old(surveys) ==>
                outcome == Deleted(|ResponsesFor(old(responses), id)|) &&
                surveys == old(surveys) - {id} &&
                responses == Without(old(responses), id) &&
                |responses| == |old(responses)| - outcome.removed
      ensures forall other :: other != id ==> ResponsesFor(responses, other) == ResponsesFor(old(responses), other)
      ensures ResponsesFor(responses, id) == []
    {
      if id !in surveys {
        outcome := DeleteNotFound;
        NoneForAbsentSurvey(responses, id);
        return;
      }
      var removed := |ResponsesFor(responses, id)|;
      PartitionBySurvey(responses, id);
      WithoutKeepsUnique(responses, id);
      WithoutLeavesNone(responses, id);
      forall other | other != id ensures ResponsesFor(Without(responses, id), other) == ResponsesFor(responses, other) {
        WithoutKeepsOthers(responses, id, other);
      }
      surveys := surveys - {id};
      responses := Without(responses, id);
      outcome := Deleted(removed);
    }

    /**
     * POST /api/responses: an unknown survey is 404; then the record is built (answers
     * default to none, `submittedAt` to `now`) and validated; then the atomic write
     * either stores it (201) or meets the unique index (409).
     */
    method Submit(sub: Submission, now: Time) returns (outcome: IntakeOutcome)
      requires Valid()
      modifies this
      ensures Valid()
      ensures surveys == old(surveys) && nextId == old(nextId)
      ensures sub.surveyId.None? || sub.surveyId.value !in old(surveys) ==> outcome == SurveyMissing
      ensures sub.surveyId.Some? && sub.surveyId.value in old(surveys) ==>
                match NewResponse(sub.surveyId.value, sub.name, sub.phone, sub.answers, None, now)
                case None => outcome == Invalid
                case Some(r) =>
                  outcome == if KeyTaken(old(responses), r.surveyId, r.phone) then Duplicate else Created(r)
      ensures responses == if outcome.Created? then old(responses) + [outcome.response] else old(responses)
    {
      if sub.surveyId.None? || sub.surveyId.value !in surveys {
        return SurveyMissing;
      }
      var built := NewResponse(sub.surveyId.value, sub.name, sub.phone, sub.answers, None, now);
      if built.None? {
        return Invalid;
      }
      var r := built.value;
      var inserted := InsertIfAbsent(r);
      outcome := if inserted then Created(r) else Duplicate;
    }

    /**
     * GET /api/surveys/:id/export: an unknown survey is 404, a survey without responses
     * is 400 before anything is compiled or sent; otherwise its responses, in submission
     * order, are compiled into the sheet and mailed; `delivered` is what the mail
     * transport reports.
     */
    method Export(id: Id, delivered: bool) returns (outcome: ExportOutcome)
      ensures id !in surveys ==> outcome == ExportNotFound
      ensures id in surveys && ResponsesFor(responses, id) == [] ==> outcome == NoResponses
      ensures id in surveys && ResponsesFor(responses, id) != [] ==>
                outcome == if delivered then Delivered(ReportMail(surveys[id], SortByTime(ResponsesFor(responses, id))))
                           else TransportFailed
    {
      if id !in surveys {
        return ExportNotFound;
      }
      var survey := surveys[id];
      var found := SortByTime(ResponsesFor(responses, id));
      if |found| == 0 {
        return NoResponses;
      }
      var data := Compile(survey, found);
      var mail := Mail("[" + survey.title + "] 설문조사 결과 보고서", |found|, data);
      outcome := if delivered then Delivered(mail) else TransportFailed;
    }
  }
}
