/** The application state: the single active test, the results collection, the role and
    the current view, kept in step with the browser's storage under two keys. */
module AppStore {
  import opened Types

  const ActiveTestKey: string := "activeTest"
  const ResultsKey: string := "results"

  /** What a storage key holds: the value whose serialised form was written there. */
  datatype Stored = StoredTest(test: TestData) | StoredResults(results: seq<StudentResult>)

  /** A storage-change notification from another tab: the key it wrote (`None` when the
      whole storage was cleared) and the new value (`None` when the key was removed). */
  datatype StorageEvent = StorageEvent(key: Option<string>, newValue: Option<Stored>)

  /** The value of an event under one of the two keys has that key's shape. */
  predicate WellShaped(e: StorageEvent) {
    && (e.key == Some(ResultsKey) && e.newValue.Some? ==> e.newValue.value.StoredResults?)
    && (e.key == Some(ActiveTestKey) && e.newValue.Some? ==> e.newValue.value.StoredTest?)
  }

  /** The publication state of the active test. */
  datatype Publication = Absent | Draft | Published

  function PublicationOf(active: Option<TestData>): (p: Publication)
    ensures p == Absent <==> active.None?
    ensures p == Published <==> active.Some? && Truthy(active.value.isPublished)
  {
    match active
    case None => Absent
    case Some(t) => if Truthy(t.isPublished) then Published else Draft
  }

  /** A generated test is installed as a draft. */
  function Installed(test: TestData): (t: TestData)
    ensures t.isPublished == Some(false)
    ensures t.(isPublished := test.isPublished) == test
    ensures PublicationOf(Some(t)) == Draft
  {
    test.(isPublished := Some(false))
  }

  /** Toggling publication: `isPublished: !isPublished`, all other fields kept. */
  function Toggled(test: TestData): (t: TestData)
    ensures t.isPublished.Some? && Truthy(t.isPublished) == !Truthy(test.isPublished)
    ensures t.(isPublished := test.isPublished) == test
  {
    test.(isPublished := Some(!Truthy(test.isPublished)))
  }

  /** Toggling flips Draft and Published. */
  lemma ToggleFlips(test: TestData)
    ensures PublicationOf(Some(Toggled(test))) ==
            (if PublicationOf(Some(test)) == Draft then Published else Draft)
  {
  }

  /** Toggling twice restores the publication state and, once the flag is present, the
      whole test. */
  lemma ToggleTwice(test: TestData)
    ensures Truthy(Toggled(Toggled(test)).isPublished) == Truthy(test.isPublished)
    ensures test.isPublished.Some? ==> Toggled(Toggled(test)) == test
    ensures test.isPublished.None? ==> Toggled(Toggled(test)) == test.(isPublished := Some(false))
  {
  }

  /** The view a role lands on when it is chosen. */
  function HomeView(role: UserRole): (v: View)
    ensures v == StudentPortalView <==> role == Student
    ensures v != StudentPortalView ==> v == TeacherDashboardView
  {
    if role == Student then StudentPortalView else TeacherDashboardView
  }

  /** What the URL parameters ask for at load time. */
  datatype UrlAction = InstallFromLink(test: TestData) | EnterAsStudent | KeepState

  /** A non-empty `testData` parameter takes priority: it installs the decoded test, or
      does nothing when it does not decode. Only without it does `role=student` count. */
  function UrlDecision(testData: Option<string>, role: Option<string>,
                       decode: string -> Option<TestData>): (a: UrlAction)
    ensures testData.Some? && testData.value != "" ==>
            (a.InstallFromLink? <==> decode(testData.value).Some?) &&
            (a.InstallFromLink? ==> a.test == decode(testData.value).value) &&
            (decode(testData.value).None? ==> a == KeepState)
    ensures (testData.None? || testData.value == "") ==>
            (a == EnterAsStudent <==> role == Some("student")) &&
            (role != Some("student") ==> a == KeepState)
  {
    if testData.Some? && testData.value != "" then
      match decode(testData.value)
      case Some(t) => InstallFromLink(t)
      case None => KeepState
    else if role == Some("student") then EnterAsStudent
    else KeepState
  }

  /** A link that does not decode is ignored even when it also says `role=student`. */
  lemma BrokenLinkIgnoresRole(token: string, decode: string -> Option<TestData>)
    requires token != "" && decode(token).None?
    ensures UrlDecision(Some(token), Some("student"), decode) == KeepState
  {
  }

  /** The application's state. `storage` is the browser's storage as this tab sees it;
      other tabs write it too, which is what `OnStorageEvent` models. */
  class App {
    var userRole: UserRole
    var currentView: View
    var activeTest: Option<TestData>
    var results: seq<StudentResult>
    var storage: map<string, Stored>

    /** Storage holds the in-memory results, and the in-memory test when there is one. */
    ghost predicate Persisted()
      reads this
    {
      && ResultsKey in storage && storage[ResultsKey] == StoredResults(results)
      && (activeTest.Some? ==> ActiveTestKey in storage && storage[ActiveTestKey] == StoredTest(activeTest.value))
    }

    /** Load: the state starts from what storage holds (no test, no results when a key is
        missing), with no role on the teacher dashboard; the persistence effects then
        write the loaded values back. */
    constructor (saved: map<string, Stored>)
      ensures userRole == NoRole && currentView == TeacherDashboardView
      ensures activeTest == (if ActiveTestKey in saved && saved[ActiveTestKey].StoredTest?
                             then Some(saved[ActiveTestKey].test) else None)
      ensures results == (if ResultsKey in saved && saved[ResultsKey].StoredResults?
                          then saved[ResultsKey].results else [])
      ensures storage == (if activeTest.Some? then saved[ActiveTestKey := StoredTest(activeTest.value)] else saved)
                         [ResultsKey := StoredResults(results)]
      ensures Persisted()
    {
      userRole := NoRole;
      currentView := TeacherDashboardView;
      if ActiveTestKey in saved && saved[ActiveTestKey].StoredTest? {
        activeTest := Some(saved[ActiveTestKey].test);
      } else {
        activeTest := None;
      }
      if ResultsKey in saved && saved[ResultsKey].StoredResults? {
        results := saved[ResultsKey].results;
      } else {
        results := [];
      }
      storage := saved;
      new;
      PersistActiveTest();
      PersistResults();
    }

    /** The effect on `activeTest`: write it when present, leave storage alone otherwise. */
    method PersistActiveTest()
      modifies this`storage
      ensures storage == (if activeTest.Some? then old(storage)[ActiveTestKey := StoredTest(activeTest.value)]
                          else old(storage))
    {
      if activeTest.Some? {
        storage := storage[ActiveTestKey := StoredTest(activeTest.value)];
      }
    }

    /** The effect on `results`: always write them. */
    method PersistResults()
      modifies this`storage
      ensures storage == old(storage)[ResultsKey := StoredResults(results)]
    {
      storage := storage[ResultsKey := StoredResults(results)];
    }

    /** The URL check run once after load. */
    method LoadFromUrl(testData: Option<string>, role: Option<string>, decode: string -> Option<TestData>)
      requires Persisted()
      modifies this`activeTest, this`userRole, this`currentView, this`storage
      ensures Persisted()
      ensures UrlDecision(testData, role, decode).InstallFromLink? ==>
              activeTest == Some(UrlDecision(testData, role, decode).test) &&
              userRole == Student && currentView == StudentPortalView &&
              storage == old(storage)[ActiveTestKey := StoredTest(activeTest.value)]
      ensures UrlDecision(testData, role, decode).EnterAsStudent? ==>
              activeTest == old(activeTest) && userRole == Student && currentView == StudentPortalView &&
              storage == old(storage)
      ensures UrlDecision(testData, role, decode).KeepState? ==>
              activeTest == old(activeTest) && userRole == old(userRole) &&
              currentView == old(currentView) && storage == old(storage)
    {
      match UrlDecision(testData, role, decode)
      case InstallFromLink(t) =>
        activeTest := Some(t);
        userRole := Student;
        currentView := StudentPortalView;
        PersistActiveTest();
      case EnterAsStudent =>
        userRole := Student;
        currentView := StudentPortalView;
      case KeepState =>
    }

    /** Another tab wrote storage and this tab is notified. The shared storage changes
        first; then a non-null value under "results" or "activeTest" replaces the
        in-memory value, and the persistence effects write it back unchanged. */
    method OnStorageEvent(e: StorageEvent)
      modifies this`results, this`activeTest, this`storage
      ensures var written := match e.key
                             case None => map[]
                             case Some(k) => if e.newValue.Some? then old(storage)[k := e.newValue.value]
                                             else old(storage) - {k};
              storage == written
      ensures results == (if e.key == Some(ResultsKey) && e.newValue.Some? && e.newValue.value.StoredResults?
                          then e.newValue.value.results else old(results))
      ensures activeTest == (if e.key == Some(ActiveTestKey) && e.newValue.Some? && e.newValue.value.StoredTest?
                             then Some(e.newValue.value.test) else old(activeTest))
      ensures old(Persisted()) && e.key.Some? && e.newValue.Some? && WellShaped(e) ==> Persisted()
      ensures e.key == Some(ActiveTestKey) && e.newValue.None? && old(activeTest).Some? ==> !Persisted()
    {
      match e.key {
        case None =>
          storage := map[];
        case Some(k) =>
          if e.newValue.Some? {
            storage := storage[k := e.newValue.value];
          } else {
            storage := storage - {k};
          }
      }
      if e.key == Some(ResultsKey) && e.newValue.Some? && e.newValue.value.StoredResults? {
        results := e.newValue.value.results;
        PersistResults();
      }
      if e.key == Some(ActiveTestKey) && e.newValue.Some? && e.newValue.value.StoredTest? {
        activeTest := Some(e.newValue.value.test);
        PersistActiveTest();
      }
    }

    /** Choosing a role: students land on the portal, everyone else on the dashboard. */
    method SelectRole(role: UserRole)
      modifies this`userRole, this`currentView
      ensures userRole == role && currentView == HomeView(role)
    {
      userRole := role;
      currentView := HomeView(role);
    }

    /** Navigating from the menu or a dashboard button. */
    method Navigate(view: View)
      modifies this`currentView
      ensures currentView == view
    {
      currentView := view;
    }

    /** Logging out forgets the role. */
    method Logout()
      modifies this`userRole
      ensures userRole == NoRole
    {
      userRole := NoRole;
    }

    /** A freshly generated test replaces the active one as a draft. Its own write puts the
        new test in storage whatever the state before; the results key keeps agreeing only
        if it agreed before. */
    method TestGenerated(test: TestData)
      modifies this`activeTest, this`currentView, this`storage
      ensures activeTest == Some(Installed(test)) && currentView == TeacherDashboardView
      ensures storage == old(storage)[ActiveTestKey := StoredTest(Installed(test))]
      ensures ActiveTestKey in storage && storage[ActiveTestKey] == StoredTest(activeTest.value)
      ensures old(Persisted()) ==> Persisted()
    {
      activeTest := Some(Installed(test));
      currentView := TeacherDashboardView;
      PersistActiveTest();
    }

    /** Publish or unpublish the active test; without one nothing happens. */
    method TogglePublish()
      modifies this`activeTest, this`storage
      ensures old(activeTest).None? ==> activeTest == None && storage == old(storage)
      ensures old(activeTest).Some? ==>
                activeTest == Some(Toggled(old(activeTest).value)) &&
                storage == old(storage)[ActiveTestKey := StoredTest(activeTest.value)]
      ensures activeTest.Some? ==> ActiveTestKey in storage && storage[ActiveTestKey] == StoredTest(activeTest.value)
      ensures old(Persisted()) ==> Persisted()
    {
      if activeTest.Some? {
        activeTest := Some(Toggled(activeTest.value));
        PersistActiveTest();
      }
    }

    /** A student's result is appended and the whole collection is written back. */
    method StudentSubmit(result: StudentResult)
      modifies this`results, this`storage
      ensures results == old(results) + [result]
      ensures |results| == |old(results)| + 1 && results[..|old(results)|] == old(results)
      ensures storage == old(storage)[ResultsKey := StoredResults(results)]
      ensures ResultsKey in storage && storage[ResultsKey] == StoredResults(results)
      ensures old(Persisted()) ==> Persisted()
    {
      results := results + [result];
      PersistResults();
    }

    /** Deleting the test, once the teacher confirms, clears it from memory and from
        storage; the results stay. */
    method DeleteTest(confirmed: bool)
      modifies this`activeTest, this`storage
      ensures !confirmed ==> activeTest == old(activeTest) && storage == old(storage)
      ensures confirmed ==> activeTest == None && storage == old(storage) - {ActiveTestKey}
      ensures confirmed ==> ActiveTestKey !in storage
      ensures old(Persisted()) ==> Persisted()
    {
      if confirmed {
        activeTest := None;
        storage := storage - {ActiveTestKey};
      }
    }
  }
}
