/** The student portal: the start gate, answer entry, and submission that scores the
    attempt and hands the result to the application. */
module Portal {
  import opened Types
  import opened TextNormalizer
  import opened Grading

  /** The inline message the portal shows; `NoError` is the empty message. */
  datatype PortalError = NoError | NotOpen | MissingIdentity

  /** A student may start only on a test that exists and is published (an absent flag
      counts as unpublished), and only with a name and a class that are not blank. */
  function StartCheck(test: Option<TestData>, name: string, className: string): (e: PortalError)
    ensures e == NotOpen <==> !(test.Some? && Truthy(test.value.isPublished))
    ensures e == MissingIdentity <==>
            test.Some? && Truthy(test.value.isPublished) && (Trim(name) == [] || Trim(className) == [])
    ensures e == NoError <==>
            test.Some? && Truthy(test.value.isPublished) && Trim(name) != [] && Trim(className) != []
  {
    if test.None? || !Truthy(test.value.isPublished) then NotOpen
    else if Trim(name) == [] || Trim(className) == [] then MissingIdentity
    else NoError
  }

  /** The publication condition is checked before the identity fields: an unpublished or
      missing test is refused with the same message whatever the student typed. */
  lemma UnpublishedRefusedWhateverTheIdentity(test: Option<TestData>, n1: string, c1: string, n2: string, c2: string)
    requires test.None? || !Truthy(test.value.isPublished)
    ensures StartCheck(test, n1, c1) == StartCheck(test, n2, c2) == NotOpen
  {
  }

  /** The result record a submission produces. */
  function ResultOf(test: TestData, id: string, name: string, className: string,
                    submittedAt: string, answers: map<string, string>): (r: StudentResult)
    ensures r.maxScore == 10 && r.studentName == name && r.studentClass == className
    ensures r.answers == answers && r.id == id && r.submittedAt == submittedAt
    ensures r.score.NaN? <==> test.questions == []
    ensures r.score.Tenths? ==> 0 <= r.score.v <= 100
    ensures r.score == ScoreOf(CorrectCount(test.questions, answers), |test.questions|)
  {
    var correct := CorrectCount(test.questions, answers);
    StudentResult(id, name, className, ScoreOf(correct, |test.questions|), 10, submittedAt, answers)
  }

  /** The state the portal keeps while a student takes a test. The test itself is a
      property handed down by the application, so it is a parameter of each method. */
  class StudentPortal {
    var name: string
    var className: string
    var started: bool
    var finished: bool
    var currentResult: Option<StudentResult>
    var answers: map<string, string>
    var error: PortalError

    constructor ()
      ensures name == "" && className == "" && !started && !finished
      ensures currentResult == None && answers == map[] && error == NoError
    {
      name, className := "", "";
      started, finished := false, false;
      currentResult := None;
      answers := map[];
      error := NoError;
    }

    /** Typing in the name field; it also clears the message. */
    method EditName(value: string)
      modifies this`name, this`error
      ensures name == value && error == NoError
    {
      name := value;
      error := NoError;
    }

    /** Typing in the class field; it also clears the message. */
    method EditClass(value: string)
      modifies this`className, this`error
      ensures className == value && error == NoError
    {
      className := value;
      error := NoError;
    }

    /** The start handler: sets the message the gate decides, and `started` only when the
        gate lets the student in. */
    method Start(test: Option<TestData>)
      modifies this`started, this`error
      ensures error == StartCheck(test, name, className)
      ensures started == (old(started) || error == NoError)
    {
      error := StartCheck(test, name, className);
      started := started || error == NoError;
    }

    /** Clicking option `index` of a multiple-choice question records its letter. */
    method SelectOption(q: Question, index: nat)
      requires index < |q.options| && 65 + index < 0xD800
      modifies this`answers
      ensures answers == old(answers)[q.id := OptionLabel(index)]
      ensures forall id :: id in old(answers) && id != q.id ==> id in answers && answers[id] == old(answers)[id]
    {
      answers := answers[q.id := OptionLabel(index)];
    }

    /** Typing into the text box of a free-text question records the text. */
    method TypeAnswer(q: Question, text: string)
      modifies this`answers
      ensures answers == old(answers)[q.id := text]
    {
      answers := answers[q.id := text];
    }

    /** The submit handler. With no test nothing changes and nothing is submitted;
        otherwise it counts the correct answers, scores them, records the result, marks
        the attempt finished and returns the result for the application to store. */
    method Submit(test: Option<TestData>, id: string, submittedAt: string) returns (submitted: Option<StudentResult>)
      modifies this`currentResult, this`finished
      ensures test.None? ==> submitted == None && currentResult == old(currentResult) && finished == old(finished)
      ensures test.Some? ==> submitted == Some(ResultOf(test.value, id, name, className, submittedAt, answers))
      ensures test.Some? ==> currentResult == submitted && finished
    {
      if test.None? {
        return None;
      }
      var questions := test.value.questions;
      var correct := CountCorrect(questions, answers);
      var result := StudentResult(id, name, className, ScoreOf(correct, |questions|), 10, submittedAt, answers);
      currentResult := Some(result);
      finished := true;
      submitted := Some(result);
    }

    /** "Back to the main page" after a submission: a new attempt starts from scratch,
        keeping the name and class that were typed. */
    method BackToStart()
      modifies this`started, this`finished, this`currentResult, this`answers
      ensures !started && !finished && currentResult == None && answers == map[]
    {
      started, finished := false, false;
      currentResult := None;
      answers := map[];
    }
  }
}
