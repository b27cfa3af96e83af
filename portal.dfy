/** The student portal (pages/StudentPortal.tsx): the sessions of the selected class, the
    months they fall in, the month filter and the page state that class selection resets. */
module Portal {
  import opened Wrappers
  import opened Strings
  import opened Seqs
  import opened Types

  /** `toggleMonth`: a selected month is removed wherever it occurs; an unselected one is
      appended. */
  function ToggleMonth(months: seq<string>, m: string): (r: seq<string>)
    ensures m in r <==> m !in months
    ensures forall x :: x != m ==> (x in r <==> x in months)
    ensures m !in months ==> r == months + [m]
    ensures m in months ==> IsSubseq(r, months) && |r| < |months|
  {
    if m in months then
      WithoutSubseq(months, m);
      WithoutShorter(months, m);
      Without(months, m)
    else months + [m]
  }

  /** Removing an element keeps the others in their order. */
  lemma {:induction false} WithoutSubseq(s: seq<string>, x: string)
    ensures IsSubseq(Without(s, x), s)
    decreases |s|
  {
    if |s| > 0 {
      var p := s[..|s| - 1];
      WithoutSubseq(p, x);
      SubseqSnoc(Without(p, x), p, s[|s| - 1], s[|s| - 1] != x);
      assert p + [s[|s| - 1]] == s;
    }
  }

  /** Extending both sides of a subsequence by the same last element, or only the longer
      one, keeps it a subsequence. */
  lemma {:induction false} SubseqSnoc(r: seq<string>, s: seq<string>, y: string, both: bool)
    requires IsSubseq(r, s)
    ensures IsSubseq(if both then r + [y] else r, s + [y])
    decreases |s|
  {
    if |r| == 0 {
      if both {
        SubseqSingle(s, y);
        assert r + [y] == [y];
      }
    } else if |s| == 0 {
    } else {
      assert (s + [y])[1..] == s[1..] + [y];
      if r[0] == s[0] {
        SubseqSnoc(r[1..], s[1..], y, both);
        if both {
          assert (r + [y])[1..] == r[1..] + [y];
        }
      } else {
        SubseqSnoc(r, s[1..], y, both);
      }
    }
  }

  lemma {:induction false} SubseqSingle(s: seq<string>, y: string)
    ensures IsSubseq([y], s + [y])
    decreases |s|
  {
    if |s| > 0 {
      assert (s + [y])[1..] == s[1..] + [y];
      SubseqSingle(s[1..], y);
    }
  }

  lemma {:induction false} WithoutShorter(s: seq<string>, x: string)
    requires x in s
    ensures |Without(s, x)| < |s|
    decreases |s|
  {
    var p := s[..|s| - 1];
    assert s == p + [s[|s| - 1]];
    if s[|s| - 1] != x {
      WithoutShorter(p, x);
    }
  }

  lemma {:induction false} WithoutAbsent(s: seq<string>, x: string)
    requires x !in s
    ensures Without(s, x) == s
    decreases |s|
  {
    if |s| > 0 {
      var p := s[..|s| - 1];
      assert s == p + [s[|s| - 1]];
      WithoutAbsent(p, x);
    }
  }

  lemma {:induction false} WithoutDistinct(s: seq<string>, x: string)
    requires Distinct(s)
    ensures Distinct(Without(s, x))
    decreases |s|
  {
    if |s| > 0 {
      var p := s[..|s| - 1];
      assert Distinct(p);
      assert s[|s| - 1] !in p;
      WithoutDistinct(p, x);
    }
  }

  /** Selecting a month and unselecting it again restores the selection. */
  lemma ToggleMonthTwice(months: seq<string>, m: string)
    requires m !in months
    ensures ToggleMonth(ToggleMonth(months, m), m) == months
  {
    WithoutSnoc(months, m, m);
    WithoutAbsent(months, m);
  }

  /** A selection built by toggling never holds a month twice. */
  lemma ToggleMonthDistinct(months: seq<string>, m: string)
    requires Distinct(months)
    ensures Distinct(ToggleMonth(months, m))
  {
    if m in months {
      WithoutDistinct(months, m);
    }
  }

  function InClass(classId: string): Session -> bool
  {
    (s: Session) => s.classId == classId
  }

  /** The sessions of one class, each as often as fetched and in fetched order. */
  function SessionsOfClass(sessions: seq<Session>, classId: string): (r: seq<Session>)
    ensures forall s :: s in r <==> s in sessions && s.classId == classId
    ensures forall s :: multiset(r)[s] == if s.classId == classId then multiset(sessions)[s] else 0
    ensures IsSubseq(r, sessions)
    ensures |r| <= |sessions|
  {
    FilterSubseq(sessions, InClass(classId));
    Filter(sessions, InClass(classId))
  }

  /** `currentClassSessions`: nothing until a class is selected, then that class's sessions
      in fetched order. */
  function CurrentClassSessions(sessions: seq<Session>, selected: Option<string>): (r: seq<Session>)
    ensures !Truthy(selected) ==> r == []
    ensures Truthy(selected) ==> forall s :: s in r <==> s in sessions && s.classId == selected.value
    ensures Truthy(selected) ==>
      forall s :: multiset(r)[s] == if s.classId == selected.value then multiset(sessions)[s] else 0
    ensures IsSubseq(r, sessions)
  {
    if Truthy(selected) then SessionsOfClass(sessions, selected.value) else []
  }

  /** `date.substring(0, 7)`: the `YYYY-MM` part of an ISO date. */
  function MonthKey(date: string): (r: string)
    ensures |r| == if |date| < 7 then |date| else 7
    ensures StartsWith(date, r)
  {
    if |date| < 7 then date else date[..7]
  }

  function MonthKeys(sessions: seq<Session>): (r: seq<string>)
    ensures |r| == |sessions| && forall i :: 0 <= i < |sessions| ==> r[i] == MonthKey(sessions[i].date)
  {
    seq(|sessions|, i requires 0 <= i < |sessions| => MonthKey(sessions[i].date))
  }

  /** Strictly increasing in JavaScript's string order. */
  predicate Ascending(s: seq<string>)
  {
    forall i, j :: 0 <= i < j < |s| ==> LexLess(s[i], s[j])
  }

  /** One insertion step of the sort. */
  function Insert(x: string, s: seq<string>): (r: seq<string>)
    requires Ascending(s) && x !in s
    ensures Ascending(r)
    ensures forall y :: y in r <==> y in s || y == x
    ensures |r| == |s| + 1
    decreases |s|
  {
    if |s| == 0 then [x]
    else if LexLess(x, s[0]) then
      BelowHead(x, s);
      [x] + s
    else
      LexLessTotal(x, s[0]);
      var t := Insert(x, s[1..]);
      assert forall i :: 0 <= i < |t| ==> LexLess(s[0], t[i]) by {
        forall i | 0 <= i < |t|
          ensures LexLess(s[0], t[i])
        {
          if t[i] != x {
            assert t[i] in t;
            assert t[i] in s[1..];
            var k :| 0 <= k < |s[1..]| && s[1..][k] == t[i];
            assert s[k + 1] == t[i];
          }
        }
      }
      PrependAscending(s[0], t);
      [s[0]] + t
  }

  /** An element below the head of an ascending sequence is below all of it. */
  lemma BelowHead(x: string, s: seq<string>)
    requires Ascending(s) && |s| > 0 && LexLess(x, s[0])
    ensures Ascending([x] + s)
  {
    forall j | 0 < j < |s|
      ensures LexLess(x, s[j])
    {
      LexLessTransitive(x, s[0], s[j]);
    }
    PrependAscending(x, s);
  }

  lemma PrependAscending(x: string, s: seq<string>)
    requires Ascending(s) && forall i :: 0 <= i < |s| ==> LexLess(x, s[i])
    ensures Ascending([x] + s)
  {
    var r := [x] + s;
    forall i, j | 0 <= i < j < |r|
      ensures LexLess(r[i], r[j])
    {
      if i > 0 {
        assert r[i] == s[i - 1] && r[j] == s[j - 1];
      }
    }
  }

  /** `.sort()` on distinct strings, as insertion sort. */
  function Sort(s: seq<string>): (r: seq<string>)
    requires Distinct(s)
    ensures Ascending(r)
    ensures forall y :: y in r <==> y in s
    ensures |r| == |s|
    decreases |s|
  {
    if |s| == 0 then []
    else
      assert Distinct(s[1..]);
      assert s[0] !in s[1..];
      Insert(s[0], Sort(s[1..]))
  }

  /** Strictly decreasing in JavaScript's string order. */
  predicate Descending(s: seq<string>)
  {
    forall i, j :: 0 <= i < j < |s| ==> LexLess(s[j], s[i])
  }

  /** `availableMonths`: each month of the current sessions once, newest first. */
  function AvailableMonths(current: seq<Session>): (r: seq<string>)
    ensures Descending(r)
    ensures Distinct(r)
    ensures forall m :: m in r <==> m in MonthKeys(current)
  {
    var sorted := Sort(Dedupe(MonthKeys(current)));
    ReversedAscending(sorted);
    Reverse(sorted)
  }

  /** Reversing an ascending list gives a descending list of the same, distinct, elements. */
  lemma ReversedAscending(s: seq<string>)
    requires Ascending(s)
    ensures Descending(Reverse(s)) && Distinct(Reverse(s))
    ensures forall m :: m in Reverse(s) <==> m in s
  {
    var r := Reverse(s);
    forall i, j | 0 <= i < j < |r|
      ensures LexLess(r[j], r[i])
    {
      assert r[i] == s[|r| - 1 - i] && r[j] == s[|r| - 1 - j];
    }
    forall i, j | 0 <= i < j < |r|
      ensures r[i] != r[j]
    {
      LexLessIrreflexive(r[i]);
    }
    forall m | m in s
      ensures m in r
    {
      var k :| 0 <= k < |s| && s[k] == m;
      assert r[|r| - 1 - k] == m;
    }
  }

  /** The list of month chips is exactly the set of months in which the class has a session,
      in decreasing order; it determines the list uniquely. */
  lemma AvailableMonthsUnique(current: seq<Session>, other: seq<string>)
    requires Descending(other)
    requires forall m :: m in other <==> m in MonthKeys(current)
    ensures other == AvailableMonths(current)
  {
    DescendingUnique(other, AvailableMonths(current));
  }

  lemma {:induction false} DescendingUnique(a: seq<string>, b: seq<string>)
    requires Descending(a) && Descending(b)
    requires forall m :: m in a <==> m in b
    ensures a == b
    decreases |a|
  {
    MemberOfNonEmpty(a);
    MemberOfNonEmpty(b);
    if |a| > 0 && |b| > 0 {
      var x, y := a[0], b[0];
      var ja :| 0 <= ja < |a| && a[ja] == y;
      var jb :| 0 <= jb < |b| && b[jb] == x;
      LexLessAsymmetric(x, y);
      assert ja > 0 ==> LexLess(y, x);
      assert jb > 0 ==> LexLess(x, y);
      forall m
        ensures m in a[1..] <==> m in b[1..]
      {
        DescendingTail(a, m);
        DescendingTail(b, m);
      }
      DescendingUnique(a[1..], b[1..]);
    }
  }

  lemma MemberOfNonEmpty(s: seq<string>)
    ensures |s| > 0 ==> s[0] in s
  {
  }

  lemma LexLessAsymmetric(a: string, b: string)
    ensures !(LexLess(a, b) && LexLess(b, a))
  {
    if LexLess(a, b) && LexLess(b, a) {
      LexLessTransitive(a, b, a);
      LexLessIrreflexive(a);
    }
  }

  lemma DescendingTail(a: seq<string>, m: string)
    requires Descending(a) && |a| > 0
    ensures m in a[1..] <==> m in a && m != a[0]
  {
    if m in a[1..] {
      var k :| 0 <= k < |a[1..]| && a[1..][k] == m;
      assert LexLess(a[k + 1], a[0]);
      LexLessIrreflexive(a[0]);
    }
    if m in a && m != a[0] {
      var k :| 0 <= k < |a| && a[k] == m;
      assert a[1..][k - 1] == m;
    }
  }

  function InMonths(months: seq<string>): Session -> bool
  {
    (s: Session) => MonthKey(s.date) in months
  }

  /** The sessions whose month is selected, each as often as listed and in their order. */
  function SessionsInMonths(sessions: seq<Session>, months: seq<string>): (r: seq<Session>)
    ensures forall s :: s in r <==> s in sessions && MonthKey(s.date) in months
    ensures forall s :: multiset(r)[s] == if MonthKey(s.date) in months then multiset(sessions)[s] else 0
    ensures IsSubseq(r, sessions)
    ensures |r| <= |sessions|
  {
    FilterSubseq(sessions, InMonths(months));
    Filter(sessions, InMonths(months))
  }

  /** `filteredSessions`: no selected month shows every current session; otherwise exactly
      those whose month is selected, in their order. */
  function FilteredSessions(current: seq<Session>, months: seq<string>): (r: seq<Session>)
    ensures |months| == 0 ==> r == current
    ensures |months| > 0 ==> forall s :: s in r <==> s in current && MonthKey(s.date) in months
    ensures |months| > 0 ==>
      forall s :: multiset(r)[s] == if MonthKey(s.date) in months then multiset(current)[s] else 0
    ensures |months| > 0 ==> IsSubseq(r, current)
  {
    if |months| == 0 then current else SessionsInMonths(current, months)
  }

  /** Selecting every available month shows the same sessions as selecting none. */
  lemma AllMonthsShowAll(current: seq<Session>)
    ensures FilteredSessions(current, AvailableMonths(current)) == current
  {
    var months := AvailableMonths(current);
    if |current| > 0 {
      assert MonthKey(current[0].date) in MonthKeys(current);
      AllKeysKept(current, months);
    } else {
      assert MonthKeys(current) == [];
    }
  }

  lemma AllKeysKept(sessions: seq<Session>, months: seq<string>)
    requires forall i :: 0 <= i < |sessions| ==> MonthKey(sessions[i].date) in months
    ensures SessionsInMonths(sessions, months) == sessions
  {
    FilterAll(sessions, InMonths(months));
  }

  datatype Tab = SessionsTab | GradesTab

  /** The state of the portal page that class navigation touches. */
  datatype PortalState = PortalState(
    selectedClassId: Option<string>,
    activeTab: Tab,
    students: seq<Student>,
    selectedMonths: seq<string>,
    expanded: set<string>)

  /** `handleClassSelect`: the class is selected, the sessions tab opens and the month
      filter and the expanded cards are reset; the roster is refetched by an effect. */
  function SelectClass(st: PortalState, classId: string): (r: PortalState)
    ensures r.selectedClassId == Some(classId) && r.activeTab == SessionsTab
    ensures r.selectedMonths == [] && r.expanded == {}
    ensures r.students == st.students
  {
    st.(selectedClassId := Some(classId), activeTab := SessionsTab, selectedMonths := [], expanded := {})
  }

  /** `handleBackToClasses`: no class, no roster, no month filter, no expanded card. */
  function BackToClasses(st: PortalState): (r: PortalState)
    ensures r.selectedClassId == None && r.students == []
    ensures r.selectedMonths == [] && r.expanded == {}
    ensures r.activeTab == st.activeTab
  {
    st.(selectedClassId := None, students := [], selectedMonths := [], expanded := {})
  }

  /** Right after a class is selected every session of that class is listed; whatever
      months were selected before no longer filter it. */
  lemma SelectShowsWholeClass(st: PortalState, sessions: seq<Session>, classId: string)
    requires classId != ""
    ensures var r := SelectClass(st, classId);
      FilteredSessions(CurrentClassSessions(sessions, r.selectedClassId), r.selectedMonths)
        == SessionsOfClass(sessions, classId)
  {
  }

  /** After going back no session is listed and no month is offered. */
  lemma BackShowsNothing(st: PortalState, sessions: seq<Session>)
    ensures var r := BackToClasses(st);
      CurrentClassSessions(sessions, r.selectedClassId) == [] &&
      AvailableMonths(CurrentClassSessions(sessions, r.selectedClassId)) == []
  {
    var r := BackToClasses(st);
    assert MonthKeys([]) == [];
  }
}
