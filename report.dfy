/**
 * The export handler's report compilation (index.js): a header of three identity
 * columns and one column per question, then one row per response whose question
 * cells are joined to the answers by question text.
 */
module Report {
  import opened Wrappers
  import opened SurveyModel
  import opened ResponseModel

  /** A sheet cell: a string, or the submission timestamp (its locale formatting is not modelled). */
  datatype Cell = Str(s: string) | When(t: Time)

  type Table = seq<seq<Cell>>

  const TimeColumn: string := "제출 시간"
  const NameColumn: string := "이름"
  const PhoneColumn: string := "전화번호"

  /** The value written for a question the response did not answer. */
  const NoAnswer: string := "(무응답)"

  /** `survey.questions.map(q => q.text)`. */
  function QuestionTexts(qs: seq<Question>): seq<Cell>
  {
    if qs == [] then [] else [Str(qs[0].text)] + QuestionTexts(qs[1..])
  }

  /** The header row. */
  function Header(qs: seq<Question>): seq<Cell>
  {
    [Str(TimeColumn), Str(NameColumn), Str(PhoneColumn)] + QuestionTexts(qs)
  }

  /** `answers.find(a => a.questionText === text)`. */
  function FindAnswer(answers: seq<Answer>, text: string): Option<Answer>
  {
    if answers == [] then None
    else if answers[0].questionText == text then Some(answers[0])
    else FindAnswer(answers[1..], text)
  }

  /** `answer ? answer.value : '(무응답)'`. */
  function CellFor(answers: seq<Answer>, text: string): Cell
  {
    match FindAnswer(answers, text)
    case Some(a) => Str(a.value)
    case None => Str(NoAnswer)
  }

  /** The question cells of one row, in question order. */
  function AnswerCells(qs: seq<Question>, answers: seq<Answer>): seq<Cell>
  {
    if qs == [] then []
    else AnswerCells(qs[..|qs| - 1], answers) + [CellFor(answers, qs[|qs| - 1].text)]
  }

  /** The row for one response. */
  function Row(qs: seq<Question>, r: Response): seq<Cell>
  {
    [When(r.submittedAt), Str(r.name), Str(r.phone)] + AnswerCells(qs, r.answers)
  }

  /** The data rows, in response order. */
  function Rows(qs: seq<Question>, rs: seq<Response>): Table
  {
    if rs == [] then [] else Rows(qs, rs[..|rs| - 1]) + [Row(qs, rs[|rs| - 1])]
  }

  /** The whole sheet: header, then the data rows. */
  function Compiled(s: Survey, rs: seq<Response>): Table
  {
    [Header(s.questions)] + Rows(s.questions, rs)
  }

  /** The header is the three identity columns, then every question text in question order. */
  lemma {:induction false} HeaderShape(qs: seq<Question>)
    ensures |Header(qs)| == 3 + |qs|
    ensures Header(qs)[..3] == [Str("제출 시간"), Str("이름"), Str("전화번호")]
    ensures forall j :: 0 <= j < |qs| ==> Header(qs)[3 + j] == Str(qs[j].text)
  {
    TextsShape(qs);
  }

  lemma {:induction false} TextsShape(qs: seq<Question>)
    ensures |QuestionTexts(qs)| == |qs|
    ensures forall j :: 0 <= j < |qs| ==> QuestionTexts(qs)[j] == Str(qs[j].text)
  {
    if qs != [] {
      TextsShape(qs[1..]);
      forall j | 1 <= j < |qs| ensures QuestionTexts(qs)[j] == Str(qs[j].text) {
        assert qs[1..][j - 1] == qs[j];
      }
    }
  }

  /**
   * A cell holds the value of the FIRST answer whose text equals the question's text,
   * and the placeholder exactly when no answer has that text.
   */
  lemma {:induction false} FindAnswerFirst(answers: seq<Answer>, text: string)
    ensures FindAnswer(answers, text).None? <==>
              forall i :: 0 <= i < |answers| ==> answers[i].questionText != text
    ensures FindAnswer(answers, text).Some? ==>
              exists i :: 0 <= i < |answers| && answers[i] == FindAnswer(answers, text).value
                          && answers[i].questionText == text
                          && forall j :: 0 <= j < i ==> answers[j].questionText != text
  {
    if answers != [] && answers[0].questionText != text {
      FindAnswerFirst(answers[1..], text);
      assert forall i :: 1 <= i < |answers| ==> answers[i] == answers[1..][i - 1];
      if FindAnswer(answers, text).Some? {
        var k :| 0 <= k < |answers[1..]| && answers[1..][k] == FindAnswer(answers, text).value
                 && answers[1..][k].questionText == text
                 && forall j :: 0 <= j < k ==> answers[1..][j].questionText != text;
        assert answers[k + 1] == answers[1..][k];
        assert forall j :: 1 <= j < k + 1 ==> answers[j] == answers[1..][j - 1];
      }
    } else if answers != [] {
      assert answers[0].questionText == text;
    }
  }

  /** The cell for `text` given the first index `i` at which an answer carries it. */
  lemma CellAtFirstMatch(answers: seq<Answer>, text: string, i: nat)
    requires i < |answers| && answers[i].questionText == text
    requires forall j :: 0 <= j < i ==> answers[j].questionText != text
    ensures CellFor(answers, text) == Str(answers[i].value)
  {
    FindAnswerFirst(answers, text);
    var k :| 0 <= k < |answers| && answers[k] == FindAnswer(answers, text).value
             && answers[k].questionText == text
             && forall j :: 0 <= j < k ==> answers[j].questionText != text;
    assert k == i;
  }

  /** The cell is the placeholder when no answer carries `text`. */
  lemma CellWithoutMatch(answers: seq<Answer>, text: string)
    requires forall i :: 0 <= i < |answers| ==> answers[i].questionText != text
    ensures CellFor(answers, text) == Str(NoAnswer)
  {
    FindAnswerFirst(answers, text);
  }

  lemma {:induction false} AnswerCellsShape(qs: seq<Question>, answers: seq<Answer>)
    ensures |AnswerCells(qs, answers)| == |qs|
    ensures forall j :: 0 <= j < |qs| ==> AnswerCells(qs, answers)[j] == CellFor(answers, qs[j].text)
  {
    if qs != [] {
      AnswerCellsShape(qs[..|qs| - 1], answers);
    }
  }

  /** A row has 3 + |questions| cells: time, name, phone, then one cell per question. */
  lemma RowShape(qs: seq<Question>, r: Response)
    ensures |Row(qs, r)| == 3 + |qs|
    ensures Row(qs, r)[..3] == [When(r.submittedAt), Str(r.name), Str(r.phone)]
    ensures forall j :: 0 <= j < |qs| ==> Row(qs, r)[3 + j] == CellFor(r.answers, qs[j].text)
  {
    AnswerCellsShape(qs, r.answers);
  }

  lemma {:induction false} RowsShape(qs: seq<Question>, rs: seq<Response>)
    ensures |Rows(qs, rs)| == |rs|
    ensures forall i :: 0 <= i < |rs| ==> Rows(qs, rs)[i] == Row(qs, rs[i])
  {
    if rs != [] {
      RowsShape(qs, rs[..|rs| - 1]);
    }
  }

  /** The sheet has |responses| + 1 rows: the header first, then data row i from response i. */
  lemma CompiledShape(s: Survey, rs: seq<Response>)
    ensures |Compiled(s, rs)| == |rs| + 1
    ensures Compiled(s, rs)[0] == Header(s.questions)
    ensures forall i :: 0 <= i < |rs| ==> Compiled(s, rs)[i + 1] == Row(s.questions, rs[i])
  {
    RowsShape(s.questions, rs);
  }

  /**
   * An answer that adds nothing (its text matches no question, or an earlier answer
   * already carries its text) leaves every cell of the row as it was, wherever it sits.
   */
  lemma {:induction false} CellIgnoresShadowed(before: seq<Answer>, a: Answer, after: seq<Answer>, text: string)
    requires a.questionText != text || exists i :: 0 <= i < |before| && before[i].questionText == text
    ensures CellFor(before + [a] + after, text) == CellFor(before + after, text)
  {
    if before == [] {
      assert before + [a] + after == [a] + after && before + after == after;
      assert ([a] + after)[1..] == after;
    } else {
      if before[0].questionText != text {
        assert forall i :: 1 <= i < |before| ==> before[i] == before[1..][i - 1];
        CellIgnoresShadowed(before[1..], a, after, text);
        assert (before + [a] + after)[1..] == before[1..] + [a] + after;
        assert (before + after)[1..] == before[1..] + after;
      }
    }
  }

  lemma {:induction false} AnswerCellsIgnoreShadowed(qs: seq<Question>, before: seq<Answer>, a: Answer,
                                                     after: seq<Answer>)
    requires forall j :: 0 <= j < |qs| ==>
               a.questionText != qs[j].text || exists i :: 0 <= i < |before| && before[i].questionText == qs[j].text
    ensures AnswerCells(qs, before + [a] + after) == AnswerCells(qs, before + after)
  {
    if qs != [] {
      AnswerCellsIgnoreShadowed(qs[..|qs| - 1], before, a, after);
      CellIgnoresShadowed(before, a, after, qs[|qs| - 1].text);
    }
  }

  /** Extra, unmatched answers and later duplicate answers never show in the row. */
  lemma RowIgnoresShadowed(qs: seq<Question>, r: Response, k: nat, a: Answer)
    requires k <= |r.answers|
    requires forall j :: 0 <= j < |qs| ==>
               a.questionText != qs[j].text || exists i :: 0 <= i < k && r.answers[i].questionText == qs[j].text
    ensures Row(qs, r.(answers := r.answers[..k] + [a] + r.answers[k..])) == Row(qs, r)
  {
    AnswerCellsIgnoreShadowed(qs, r.answers[..k], a, r.answers[k..]);
    assert r.answers[..k] + r.answers[k..] == r.answers;
  }

  /** No two answers of the list carry the same question text. */
  predicate DistinctTexts(answers: seq<Answer>)
  {
    forall i, j :: 0 <= i < j < |answers| ==> answers[i].questionText != answers[j].questionText
  }

  lemma CellForAgreement(as1: seq<Answer>, as2: seq<Answer>, text: string)
    requires multiset(as1) == multiset(as2) && DistinctTexts(as1)
    ensures CellFor(as1, text) == CellFor(as2, text)
  {
    FindAnswerFirst(as1, text);
    FindAnswerFirst(as2, text);
    if FindAnswer(as1, text).Some? {
      var a := FindAnswer(as1, text).value;
      assert a in multiset(as2);
      assert FindAnswer(as2, text).Some?;
      var b := FindAnswer(as2, text).value;
      assert b in multiset(as1);
      var i :| 0 <= i < |as1| && as1[i] == a;
      var j :| 0 <= j < |as1| && as1[j] == b;
      assert i == j;
    }
  }

  /**
   * Columns follow the survey, not the response: when no two answers share a text,
   * reordering a response's answers leaves its row as it was.
   */
  lemma RowIgnoresAnswerOrder(qs: seq<Question>, r: Response, reordered: seq<Answer>)
    requires multiset(reordered) == multiset(r.answers) && DistinctTexts(r.answers)
    ensures Row(qs, r.(answers := reordered)) == Row(qs, r)
  {
    var before, after := Row(qs, r), Row(qs, r.(answers := reordered));
    RowShape(qs, r);
    RowShape(qs, r.(answers := reordered));
    forall k | 0 <= k < |before| ensures after[k] == before[k] {
      if k < 3 {
        assert after[k] == after[..3][k] && before[k] == before[..3][k];
      } else {
        CellForAgreement(r.answers, reordered, qs[k - 3].text);
      }
    }
  }

  /**
   * Questions Q1, Q2; one response answering only Q1 with "a", a later one answering
   * only Q2 with "b": the sheet is the header and two rows with the placeholder
   * where a question went unanswered.
   */
  lemma TwoResponseExample(n1: string, p1: string, n2: string, p2: string, t1: Time, t2: Time, id: Id)
    ensures var s := Survey("Poll", None, [Question("Q1", TextKind, []), Question("Q2", TextKind, [])], 0);
            var r1 := Response(id, n1, p1, [Answer("Q1", "a")], t1);
            var r2 := Response(id, n2, p2, [Answer("Q2", "b")], t2);
            Compiled(s, [r1, r2]) ==
              [[Str("제출 시간"), Str("이름"), Str("전화번호"), Str("Q1"), Str("Q2")],
               [When(t1), Str(n1), Str(p1), Str("a"), Str("(무응답)")],
               [When(t2), Str(n2), Str(p2), Str("(무응답)"), Str("b")]]
  {
    var s := Survey("Poll", None, [Question("Q1", TextKind, []), Question("Q2", TextKind, [])], 0);
    var qs := s.questions;
    var as1, as2 := [Answer("Q1", "a")], [Answer("Q2", "b")];
    var r1 := Response(id, n1, p1, as1, t1);
    var r2 := Response(id, n2, p2, as2, t2);
    HeaderShape(qs);
    assert Header(qs) == [Str("제출 시간"), Str("이름"), Str("전화번호"), Str("Q1"), Str("Q2")];
    CellAtFirstMatch(as1, "Q1", 0);
    CellWithoutMatch(as1, "Q2");
    CellWithoutMatch(as2, "Q1");
    CellAtFirstMatch(as2, "Q2", 0);
    RowShape(qs, r1);
    RowShape(qs, r2);
    assert Row(qs, r1) == [When(t1), Str(n1), Str(p1), Str("a"), Str("(무응답)")];
    assert Row(qs, r2) == [When(t2), Str(n2), Str(p2), Str("(무응답)"), Str("b")];
    CompiledShape(s, [r1, r2]);
    var c := Compiled(s, [r1, r2]);
    assert c == [c[0], c[1], c[2]];
    assert c[1] == Row(qs, [r1, r2][0]) && c[2] == Row(qs, [r1, r2][1]);
  }

  /**
   * The export loop: `data` starts as `[headers]` and each response pushes one row,
   * built from the three identity cells and one pushed cell per question.
   */
  method Compile(s: Survey, responses: seq<Response>) returns (data: Table)
    ensures data == Compiled(s, responses)
    ensures |data| == |responses| + 1 && data[0] == Header(s.questions)
    ensures forall i :: 0 <= i < |responses| ==> data[i + 1] == Row(s.questions, responses[i])
  {
    data := [Header(s.questions)];
    var n := 0;
    while n < |responses|
      invariant n <= |responses|
      invariant data == [Header(s.questions)] + Rows(s.questions, responses[..n])
    {
      var response := responses[n];
      var row := [When(response.submittedAt), Str(response.name), Str(response.phone)];
      var k := 0;
      while k < |s.questions|
        invariant k <= |s.questions|
        invariant row == [When(response.submittedAt), Str(response.name), Str(response.phone)]
                         + AnswerCells(s.questions[..k], response.answers)
      {
        row := row + [CellFor(response.answers, s.questions[k].text)];
        assert s.questions[..k + 1][..k] == s.questions[..k];
        k := k + 1;
      }
      assert s.questions[..k] == s.questions;
      data := data + [row];
      assert responses[..n + 1][..n] == responses[..n];
      n := n + 1;
    }
    assert responses[..n] == responses;
    CompiledShape(s, responses);
  }
}
