/** The side menu: the fixed list of entries, each tagged with the role it belongs to,
    and the filter that decides which entries a role sees. */
module Menu {
  import opened Types

  datatype MenuItem = MenuItem(id: View, role: UserRole)

  /** The entries in display order: three for the teacher and the student portal. */
  function AllMenuItems(): (items: seq<MenuItem>)
    ensures |items| == 4
    ensures forall i :: 0 <= i < |items| ==> (items[i].role == Student <==> items[i].id == StudentPortalView)
    ensures forall i :: 0 <= i < |items| ==> items[i].role == Student || items[i].role == Teacher
  {
    [ MenuItem(TeacherDashboardView, Teacher),
      MenuItem(CreateTestView, Teacher),
      MenuItem(StudentPortalView, Student),
      MenuItem(AnalyticsView, Teacher) ]
  }

  /** A teacher sees every entry (so the student portal can be tried out); any other role,
      the unselected one included, sees only the entries tagged for students. */
  predicate Shown(role: UserRole, item: MenuItem) {
    role == Teacher || item.role == Student
  }

  /** The entries of `items` shown to `role`, in their original order. */
  function Filter(items: seq<MenuItem>, role: UserRole): (shown: seq<MenuItem>)
    ensures |shown| <= |items|
    ensures forall x :: x in shown <==> x in items && Shown(role, x)
  {
    if items == [] then []
    else (if Shown(role, items[0]) then [items[0]] else []) + Filter(items[1..], role)
  }

  function MenuItems(role: UserRole): (shown: seq<MenuItem>)
    ensures forall x :: x in shown <==> x in AllMenuItems() && Shown(role, x)
  {
    Filter(AllMenuItems(), role)
  }

  /** `sub` is `items` with some entries removed and the rest kept in order. */
  predicate IsSubsequence(sub: seq<MenuItem>, items: seq<MenuItem>)
    decreases |items|
  {
    if sub == [] then true
    else if items == [] then false
    else if sub[0] == items[0] then IsSubsequence(sub[1..], items[1..])
    else IsSubsequence(sub, items[1..])
  }

  /** Filtering keeps the relative order of the entries. */
  lemma {:induction false} FilterIsSubsequence(items: seq<MenuItem>, role: UserRole)
    ensures IsSubsequence(Filter(items, role), items)
  {
    if items != [] {
      FilterIsSubsequence(items[1..], role);
      var rest := Filter(items[1..], role);
      if Shown(role, items[0]) {
        assert Filter(items, role) == [items[0]] + rest;
        assert ([items[0]] + rest)[1..] == rest;
      } else {
        assert Filter(items, role) == rest;
        SubsequenceOfTail(rest, items);
      }
    }
  }

  lemma {:induction false} SubsequenceOfTail(sub: seq<MenuItem>, items: seq<MenuItem>)
    requires items != [] && IsSubsequence(sub, items[1..])
    ensures IsSubsequence(sub, items)
    decreases |items|, 0
  {
    if sub != [] && sub[0] == items[0] {
      // Dropping the matched head from `sub` keeps it a subsequence of the tail.
      SubsequenceDropHead(sub, items[1..]);
    }
  }

  lemma {:induction false} SubsequenceDropHead(sub: seq<MenuItem>, items: seq<MenuItem>)
    requires sub != [] && IsSubsequence(sub, items)
    ensures IsSubsequence(sub[1..], items)
    decreases |items|, 1
  {
    if items != [] && sub[0] != items[0] {
      SubsequenceDropHead(sub, items[1..]);
      SubsequenceOfTail(sub[1..], items);
    } else if items != [] {
      SubsequenceOfTail(sub[1..], items);
    }
  }

  /** The teacher's menu is the whole list. */
  lemma TeacherSeesEverything()
    ensures MenuItems(Teacher) == AllMenuItems()
  {
    TeacherKeepsAll(AllMenuItems());
  }

  /** The teacher's filter keeps any list whole. */
  lemma {:induction false} TeacherKeepsAll(items: seq<MenuItem>)
    ensures Filter(items, Teacher) == items
  {
    if items != [] {
      TeacherKeepsAll(items[1..]);
      assert items == [items[0]] + items[1..];
    }
  }

  /** A student, or a visitor who has not chosen a role, sees only the student portal. */
  lemma OthersSeeOnlyThePortal(role: UserRole)
    requires role != Teacher
    ensures MenuItems(role) == [MenuItem(StudentPortalView, Student)]
  {
    var items := AllMenuItems();
    assert Filter(items[3..], role) == [];
    assert Filter(items[2..], role) == [items[2]];
    assert Filter(items[1..], role) == [items[2]];
  }

  /** Every role can reach the student portal from the menu. */
  lemma PortalAlwaysReachable(role: UserRole)
    ensures exists x :: x in MenuItems(role) && x.id == StudentPortalView
  {
    assert MenuItem(StudentPortalView, Student) in AllMenuItems();
    assert MenuItem(StudentPortalView, Student) in MenuItems(role);
  }
}
