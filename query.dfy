/**
 * The queries the handlers run against the Response collection:
 * `Response.find({ surveyId })`, `.sort({ submittedAt: 1 })` and
 * `Response.deleteMany({ surveyId })`. The collection is a sequence in insertion order.
 */
module ResponseQuery {
  import opened SurveyModel
  import opened ResponseModel

  /** `Response.find({ surveyId })`: the responses to one survey, in collection order. */
  function ResponsesFor(rs: seq<Response>, surveyId: Id): (r: seq<Response>)
    ensures |r| <= |rs|
    ensures forall x :: x in r <==> x in rs && x.surveyId == surveyId
  {
    if rs == [] then []
    else if rs[0].surveyId == surveyId then [rs[0]] + ResponsesFor(rs[1..], surveyId)
    else ResponsesFor(rs[1..], surveyId)
  }

  /** `Response.deleteMany({ surveyId })`: what is left, in collection order. */
  function Without(rs: seq<Response>, surveyId: Id): (r: seq<Response>)
    ensures |r| <= |rs|
    ensures forall x :: x in r <==> x in rs && x.surveyId != surveyId
  {
    if rs == [] then []
    else if rs[0].surveyId == surveyId then Without(rs[1..], surveyId)
    else [rs[0]] + Without(rs[1..], surveyId)
  }

  /** `find` returns nothing for a survey no response names. */
  lemma {:induction false} NoneForAbsentSurvey(rs: seq<Response>, surveyId: Id)
    requires forall i :: 0 <= i < |rs| ==> rs[i].surveyId != surveyId
    ensures ResponsesFor(rs, surveyId) == []
  {
    if rs != [] {
      assert forall i :: 0 <= i < |rs| - 1 ==> rs[1..][i] == rs[i + 1];
      NoneForAbsentSurvey(rs[1..], surveyId);
    }
  }

  /** deleteMany removes exactly the responses `find` returns: the two partition the collection. */
  lemma {:induction false} PartitionBySurvey(rs: seq<Response>, surveyId: Id)
    ensures |ResponsesFor(rs, surveyId)| + |Without(rs, surveyId)| == |rs|
    ensures multiset(ResponsesFor(rs, surveyId)) + multiset(Without(rs, surveyId)) == multiset(rs)
  {
    if rs != [] {
      PartitionBySurvey(rs[1..], surveyId);
      assert rs == [rs[0]] + rs[1..];
    }
  }

  /** deleteMany leaves the responses of every other survey exactly as they were. */
  lemma {:induction false} WithoutKeepsOthers(rs: seq<Response>, surveyId: Id, other: Id)
    requires other != surveyId
    ensures ResponsesFor(Without(rs, surveyId), other) == ResponsesFor(rs, other)
  {
    if rs != [] {
      WithoutKeepsOthers(rs[1..], surveyId, other);
    }
  }

  /** After deleteMany no response to that survey remains. */
  lemma {:induction false} WithoutLeavesNone(rs: seq<Response>, surveyId: Id)
    ensures ResponsesFor(Without(rs, surveyId), surveyId) == []
  {
    if rs != [] {
      WithoutLeavesNone(rs[1..], surveyId);
    }
  }

  lemma UniqueTail(rs: seq<Response>)
    requires Unique(rs) && rs != []
    ensures Unique(rs[1..])
    ensures forall x :: x in rs[1..] ==> !SameKey(rs[0], x)
  {
  }

  lemma UniqueCons(x: Response, ys: seq<Response>)
    requires Unique(ys)
    requires forall y :: y in ys ==> !SameKey(x, y)
    ensures Unique([x] + ys)
  {
  }

  /** deleteMany keeps the unique index intact. */
  lemma {:induction false} WithoutKeepsUnique(rs: seq<Response>, surveyId: Id)
    requires Unique(rs)
    ensures Unique(Without(rs, surveyId))
  {
    if rs != [] {
      UniqueTail(rs);
      WithoutKeepsUnique(rs[1..], surveyId);
      if rs[0].surveyId != surveyId {
        UniqueCons(rs[0], Without(rs[1..], surveyId));
      }
    }
  }

  /** Ascending by submission time. */
  predicate SortedByTime(rs: seq<Response>)
  {
    forall i, j :: 0 <= i < j < |rs| ==> rs[i].submittedAt <= rs[j].submittedAt
  }

  /** Places `r` after every response submitted no later than it. */
  function InsertByTime(r: Response, sorted: seq<Response>): (out: seq<Response>)
    ensures multiset(out) == multiset(sorted) + multiset{r}
    ensures |out| == |sorted| + 1
  {
    if sorted == [] then [r]
    else if r.submittedAt < sorted[0].submittedAt then [r] + sorted
    else
      assert sorted == [sorted[0]] + sorted[1..];
      [sorted[0]] + InsertByTime(r, sorted[1..])
  }

  /** `.sort({ submittedAt: 1 })`: a stable insertion sort on submission time. */
  function SortByTime(rs: seq<Response>): (out: seq<Response>)
    ensures multiset(out) == multiset(rs)
    ensures |out| == |rs|
  {
    if rs == [] then []
    else
      assert rs == rs[..|rs| - 1] + [rs[|rs| - 1]];
      InsertByTime(rs[|rs| - 1], SortByTime(rs[..|rs| - 1]))
  }

  lemma {:induction false} InsertByTimeSorted(r: Response, sorted: seq<Response>)
    requires SortedByTime(sorted)
    ensures SortedByTime(InsertByTime(r, sorted))
  {
    if sorted != [] && r.submittedAt >= sorted[0].submittedAt {
      InsertByTimeSorted(r, sorted[1..]);
      var rest := InsertByTime(r, sorted[1..]);
      forall x | x in rest ensures sorted[0].submittedAt <= x.submittedAt {
        assert x in multiset(rest);
        assert x == r || x in multiset(sorted[1..]);
      }
    }
  }

  /** The sorted result is ordered by submission time. */
  lemma {:induction false} SortByTimeSorted(rs: seq<Response>)
    ensures SortedByTime(SortByTime(rs))
  {
    if rs != [] {
      SortByTimeSorted(rs[..|rs| - 1]);
      InsertByTimeSorted(rs[|rs| - 1], SortByTime(rs[..|rs| - 1]));
    }
  }
}
