/** The entities of the application: questions, tests, student results, views and roles. */
module Types {

  datatype Option<+T> = None | Some(value: T)

  /** The four school grades a test can be generated for. */
  datatype Grade = Grade6 | Grade7 | Grade8 | Grade9

  /** One question. An absent `options` list is modelled as the empty list; a question
      with at least one option is multiple choice, any other is free text. */
  datatype Question = Question(
    id: string,
    kind: string,
    instruction: string,
    content: string,
    options: seq<string>,
    answer: string,
    explanation: string)
  {
    predicate IsMultipleChoice() { |options| > 0 }
  }

  /** A test. `isPublished` is optional in the source, so it is `None` when absent. */
  datatype TestData = TestData(
    title: string,
    grade: Grade,
    unit: string,
    duration: int,
    questions: seq<Question>,
    isPublished: Option<bool>)

  /** JavaScript truthiness of the optional flag: an absent flag counts as false. */
  function Truthy(flag: Option<bool>): (b: bool)
    ensures b <==> flag == Some(true)
  {
    match flag
    case Some(v) => v
    case None => false
  }

  /** A score is a number of tenths of a point, or NaN (what dividing by zero questions gives). */
  datatype Score = Tenths(v: int) | NaN

  /** A submitted attempt. `maxScore` is a plain number of points. */
  datatype StudentResult = StudentResult(
    id: string,
    studentName: string,
    studentClass: string,
    score: Score,
    maxScore: int,
    submittedAt: string,
    answers: map<string, string>)

  datatype View = TeacherDashboardView | CreateTestView | StudentPortalView | AnalyticsView

  datatype UserRole = Teacher | Student | NoRole
}
