/** Grading a submission: the per-question correctness rule, the correct count, and the
    reduction of that count to a score out of 10 rounded to one decimal. */
module Grading {
  import opened Types
  import opened TextNormalizer

  /** The student's answer to a question; a missing answer counts as the empty string. */
  function AnswerFor(answers: map<string, string>, id: string): (a: string)
    ensures id in answers ==> a == answers[id]
    ensures id !in answers ==> a == ""
  {
    if id in answers then answers[id] else ""
  }

  /** Multiple choice is graded by exact equality with the key, free text by equality
      of the normalised strings. */
  predicate IsCorrect(q: Question, answers: map<string, string>) {
    var given := AnswerFor(answers, q.id);
    if q.IsMultipleChoice() then given == q.answer
    else Normalize(given) == Normalize(q.answer)
  }

  /** The number of questions answered correctly. */
  function CorrectCount(questions: seq<Question>, answers: map<string, string>): (c: nat)
    ensures c <= |questions|
  {
    if questions == [] then 0
    else CorrectCount(questions[..|questions| - 1], answers) + (if IsCorrect(questions[|questions| - 1], answers) then 1 else 0)
  }

  /** The counting loop of the submit handler. */
  method CountCorrect(questions: seq<Question>, answers: map<string, string>) returns (count: nat)
    ensures count == CorrectCount(questions, answers)
  {
    count := 0;
    var i := 0;
    while i < |questions|
      invariant 0 <= i <= |questions|
      invariant count == CorrectCount(questions[..i], answers)
    {
      var q := questions[i];
      assert questions[..i + 1][..i] == questions[..i];
      assert CorrectCount(questions[..i + 1], answers) == count + (if IsCorrect(q, answers) then 1 else 0);
      if IsCorrect(q, answers) {
        count := count + 1;
      }
      i := i + 1;
    }
    assert questions[..i] == questions;
  }

  /** `Math.round((correct / total) * 10 * 10) / 10`, in tenths: rounding half up of
      100 * correct / total to an integer. Zero questions give NaN. */
  function ScoreOf(correct: nat, total: nat): (s: Score)
    requires correct <= total
    ensures s.NaN? <==> total == 0
    ensures s.Tenths? ==> 0 <= s.v <= 100
    ensures s.Tenths? ==> 2 * total * s.v <= 200 * correct + total < 2 * total * (s.v + 1)
  {
    if total == 0 then NaN
    else
      var v := (200 * correct + total) / (2 * total);
      RoundBounds(correct, total, v);
      Tenths(v)
  }

  lemma RoundBounds(correct: nat, total: nat, v: int)
    requires 0 < total && correct <= total
    requires v == (200 * correct + total) / (2 * total)
    ensures 2 * total * v <= 200 * correct + total < 2 * total * (v + 1)
    ensures 0 <= v <= 100
  {
    var d := 2 * total;
    var x := 200 * correct + total;
    var m := x % d;
    assert x == d * v + m && 0 <= m < d;
    assert d * (v + 1) == d * v + d;
    if v > 100 {
      MulMono(d, 101, v);
    }
    if v < 0 {
      MulMono(d, v + 1, 0);
    }
  }

  lemma MulMono(d: nat, a: int, b: int)
    requires a <= b
    ensures d * a <= d * b
  {
    assert d * b - d * a == d * (b - a);
  }

  // ---------------------------------------------------------------------------
  // Properties of the correct count and the score

  /** The count reaches the number of questions exactly when every question is correct. */
  lemma {:induction false} AllCorrectIff(questions: seq<Question>, answers: map<string, string>)
    ensures CorrectCount(questions, answers) == |questions| <==>
            forall i :: 0 <= i < |questions| ==> IsCorrect(questions[i], answers)
  {
    if questions != [] {
      var init := questions[..|questions| - 1];
      AllCorrectIff(init, answers);
      assert forall i :: 0 <= i < |init| ==> init[i] == questions[i];
    }
  }

  /** The count is zero exactly when no question is correct. */
  lemma {:induction false} NoneCorrectIff(questions: seq<Question>, answers: map<string, string>)
    ensures CorrectCount(questions, answers) == 0 <==>
            forall i :: 0 <= i < |questions| ==> !IsCorrect(questions[i], answers)
  {
    if questions != [] {
      var init := questions[..|questions| - 1];
      NoneCorrectIff(init, answers);
      assert forall i :: 0 <= i < |init| ==> init[i] == questions[i];
    }
  }

  /** All correct gives 10 points, none correct gives 0. */
  lemma ScoreExtremes(total: nat)
    requires total > 0
    ensures ScoreOf(total, total) == Tenths(100)
    ensures ScoreOf(0, total) == Tenths(0)
  {
    var hi := ScoreOf(total, total);
    if hi.v < 100 {
      MulMono(2 * total, hi.v + 1, 100);
    }
    var lo := ScoreOf(0, total);
    if lo.v > 0 {
      MulMono(2 * total, 1, lo.v);
    }
  }

  /** One of two correct scores 5.0, one of three 3.3 and two of three 6.7. */
  lemma ScoreExamples()
    ensures ScoreOf(1, 2) == Tenths(50)
    ensures ScoreOf(1, 3) == Tenths(33)
    ensures ScoreOf(2, 3) == Tenths(67)
  {
  }

  /** The rounding bracket determines the score: any integer tenths value `w` with
      2n*w <= 200c + n < 2n*(w+1) is the one `ScoreOf` returns. */
  lemma RoundingUnique(correct: nat, total: nat, w: int)
    requires 0 < total && correct <= total
    requires 2 * total * w <= 200 * correct + total < 2 * total * (w + 1)
    ensures ScoreOf(correct, total) == Tenths(w)
  {
    var v := ScoreOf(correct, total).v;
    if w < v {
      MulMono(2 * total, w + 1, v);
    } else if v < w {
      MulMono(2 * total, v + 1, w);
    }
  }

  /** More correct answers never give a lower score. */
  lemma ScoreMonotone(c1: nat, c2: nat, total: nat)
    requires c1 <= c2 <= total && total > 0
    ensures ScoreOf(c1, total).v <= ScoreOf(c2, total).v
  {
    var v1 := ScoreOf(c1, total).v;
    var v2 := ScoreOf(c2, total).v;
    if v2 < v1 {
      MulMono(2 * total, v2 + 1, v1);
    }
  }

  // ---------------------------------------------------------------------------
  // The review screen

  /** The correct/incorrect mark the review screen shows for each question. */
  function ReviewMarks(questions: seq<Question>, answers: map<string, string>): (marks: seq<bool>)
    ensures |marks| == |questions|
    ensures forall i :: 0 <= i < |questions| ==> marks[i] == IsCorrect(questions[i], answers)
  {
    seq(|questions|, i requires 0 <= i < |questions| => IsCorrect(questions[i], answers))
  }

  function CountMarked(marks: seq<bool>): nat {
    if marks == [] then 0
    else CountMarked(marks[..|marks| - 1]) + (if marks[|marks| - 1] then 1 else 0)
  }

  /** The review screen marks as correct exactly as many questions as the score counted. */
  lemma {:induction false} ReviewAgreesWithCount(questions: seq<Question>, answers: map<string, string>)
    ensures CountMarked(ReviewMarks(questions, answers)) == CorrectCount(questions, answers)
  {
    if questions != [] {
      var init := questions[..|questions| - 1];
      var marks := ReviewMarks(questions, answers);
      ReviewAgreesWithCount(init, answers);
      assert marks[..|marks| - 1] == ReviewMarks(init, answers);
    }
  }

  // ---------------------------------------------------------------------------
  // Option labels

  /** The label of option `index`: `String.fromCharCode(65 + index)`, so A, B, C, ... */
  function OptionLabel(index: nat): (tag: string)
    requires 65 + index < 0xD800
    ensures |tag| == 1 && tag[0] as int == 65 + index
  {
    [(65 + index) as char]
  }

  /** Different options have different labels. */
  lemma LabelsDistinct(i: nat, j: nat)
    requires 65 + i < 0xD800 && 65 + j < 0xD800
    ensures OptionLabel(i) == OptionLabel(j) <==> i == j
  {
    if OptionLabel(i) == OptionLabel(j) {
      assert OptionLabel(i)[0] == OptionLabel(j)[0];
    }
  }

  /** Multiple-choice comparison is exact and case-sensitive: with key "B", the answer "B"
      is correct and "b" is not. */
  lemma MultipleChoiceExact(q: Question)
    requires q.options == ["run", "walk", "jump", "sit"] && q.answer == "B"
    ensures IsCorrect(q, map[q.id := "B"])
    ensures !IsCorrect(q, map[q.id := "b"])
    ensures !IsCorrect(q, map[])
  {
  }

  /** A free-text answer is graded through the normaliser, so surrounding white space and
      the case of letters do not matter. */
  lemma FreeTextIgnoresCaseAndSurroundingSpace(q: Question, p: string, a: string, t: string)
    requires !q.IsMultipleChoice()
    requires AllSpace(p) && AllSpace(t)
    requires Normalize(a) == Normalize(q.answer)
    ensures IsCorrect(q, map[q.id := p + Lower(a) + t])
  {
    NormalizeIgnoresSurroundingSpace(p, Lower(a), t);
    LowerIdempotent(a);
  }

  /** Two-question scenario: a four-option question answered with its key, and a free-text
      question. The free-text answer correct scores 10.0; wrong, it scores 5.0. */
  lemma {:induction false} TwoQuestionScenario(mc: Question, ft: Question, answers: map<string, string>)
    requires |mc.options| == 4 && !ft.IsMultipleChoice()
    requires mc.id in answers && answers[mc.id] == mc.answer
    ensures IsCorrect(ft, answers) ==> ScoreOf(CorrectCount([mc, ft], answers), 2) == Tenths(100)
    ensures !IsCorrect(ft, answers) ==> ScoreOf(CorrectCount([mc, ft], answers), 2) == Tenths(50)
  {
    CountOfTwo(mc, ft, answers);
    assert IsCorrect(mc, answers);
    ScoreExtremes(2);
    ScoreExamples();
  }

  lemma {:induction false} CountOfTwo(q1: Question, q2: Question, answers: map<string, string>)
    ensures CorrectCount([q1, q2], answers) ==
            (if IsCorrect(q1, answers) then 1 else 0) + (if IsCorrect(q2, answers) then 1 else 0)
  {
    assert [q1, q2][..1] == [q1];
    assert [q1][..0] == [];
  }

  /** With a key such as "I go to school.", the same sentence without the final stop, or
      ending in "!" instead, is graded correct. */
  lemma FreeTextIgnoresFinalPunct(q: Question, s: string, c: char)
    requires !q.IsMultipleChoice()
    requires s != [] && !IsSpace(s[|s| - 1]) && IsPunct(c)
    requires q.answer == s + "."
    ensures IsCorrect(q, map[q.id := s])
    ensures IsCorrect(q, map[q.id := s + [c]])
  {
    NormalizeIgnoresFinalPunct(s, '.');
    NormalizeIgnoresFinalPunct(s, c);
  }

  /** An inner white-space run in a free-text answer, of any length and kind, grades
      exactly like a single space. */
  lemma FreeTextInnerRun(q: Question, p: string, w: string, r: string)
    requires !q.IsMultipleChoice()
    requires p != [] && !IsSpace(p[|p| - 1]) && r != [] && !IsSpace(r[0])
    requires w != [] && AllSpace(w)
    ensures IsCorrect(q, map[q.id := p + w + r]) <==> IsCorrect(q, map[q.id := p + [' '] + r])
  {
    NormalizeInnerRun(p, w, r);
  }

  /** White space around an answer and inside it: an answer that matches the key with one
      space between `p` and `r` still matches with any run there and any white space
      around it. */
  lemma FreeTextSpacing(q: Question, lead: string, p: string, w: string, r: string, trail: string)
    requires !q.IsMultipleChoice() && q.answer == p + [' '] + r
    requires p != [] && !IsSpace(p[|p| - 1]) && r != [] && !IsSpace(r[0])
    requires w != [] && AllSpace(w) && AllSpace(lead) && AllSpace(trail)
    ensures IsCorrect(q, map[q.id := lead + p + w + r + trail])
  {
    var inner := p + w + r;
    assert lead + p + w + r + trail == lead + inner + trail;
    NormalizeIgnoresSurroundingSpace(lead, inner, trail);
    NormalizeInnerRun(p, w, r);
  }

  /** With the key "I go to school.", the answer "  I   go to school.  " is correct. */
  lemma FreeTextSpacingExample(q: Question, lead: string, p: string, w: string, r: string, trail: string)
    requires !q.IsMultipleChoice() && q.answer == "I go to school."
    requires lead == "  " && p == "I" && w == "   " && r == "go to school." && trail == "  "
    ensures IsCorrect(q, map[q.id := "  I   go to school.  "])
  {
    SpacingPieces(lead, p, w, r, trail);
    FreeTextSpacing(q, lead, p, w, r, trail);
  }

  /** A free-text answer with an extra word, or any extra piece holding a letter, is
      wrong, whatever white space and punctuation it carries. */
  lemma FreeTextExtraWordWrong(q: Question, p: string, x: string, r: string, i: nat)
    requires !q.IsMultipleChoice() && q.answer == p + r
    requires i < |x| && !IsSpace(x[i]) && !IsPunct(x[i])
    ensures !IsCorrect(q, map[q.id := p + x + r])
  {
    NormalizeDetectsExtraWord(p, x, r, i);
  }

  /** With the key "I go to school.", the answer "I go to the school." is wrong. */
  lemma FreeTextExtraWordExample(q: Question, p: string, x: string, r: string)
    requires !q.IsMultipleChoice() && q.answer == "I go to school."
    requires p == "I go to " && x == "the " && r == "school."
    ensures !IsCorrect(q, map[q.id := "I go to the school."])
  {
    assert q.answer == p + r;
    assert "I go to the school." == p + x + r;
    assert x[0] == 't';
    FreeTextExtraWordWrong(q, p, x, r, 0);
  }

  /** Choosing option `index` of a multiple-choice question makes it correct exactly when
      that option's label is the key. */
  lemma ChosenOptionCorrectIff(q: Question, answers: map<string, string>, index: nat)
    requires index < |q.options| && 65 + index < 0xD800
    ensures IsCorrect(q, answers[q.id := OptionLabel(index)]) <==> q.answer == OptionLabel(index)
  {
  }
}
