/**
 * The two derived lists of the attendance table: the roster narrowed by the
 * search box, and the employees absent on the date picked in the calendar.
 */
module AttendanceTable {
  import opened Wrappers
  import opened Dates
  import opened Seqs
  import opened Text
  import opened Types

  /** The search text as it is compared: lowered first, then trimmed. */
  function NormalizeQuery(query: string): (nq: string)
    ensures forall i :: 0 <= i < |nq| ==> !IsUpper(nq[i])
    ensures nq != [] ==> !IsWhiteSpace(nq[0]) && !IsWhiteSpace(nq[|nq| - 1])
    ensures |nq| <= |query|
  {
    Trim(ToLower(query))
  }

  /** `q` occurs somewhere in `s`. */
  ghost predicate IsSubstring(q: string, s: string)
  {
    exists i :: OccursAt(s, q, i)
  }

  /** A user matches a normalized query found in their lowered username or employee number. */
  predicate MatchesQuery(u: User, nq: string)
    ensures MatchesQuery(u, nq) <==> IsSubstring(nq, ToLower(u.username)) || IsSubstring(nq, ToLower(u.employeeNumber))
  {
    Contains(ToLower(u.username), nq) || Contains(ToLower(u.employeeNumber), nq)
  }

  /**
   * The rows the table shows for the text in the search box. A blank query
   * shows the whole roster; otherwise the users are kept, in roster order and
   * with duplicates, whose lowered username or employee number contains the
   * lowered, trimmed query.
   */
  function SearchRoster(roster: seq<User>, query: string): (r: seq<User>)
    ensures NormalizeQuery(query) == [] ==> r == roster
    ensures var nq := NormalizeQuery(query);
            nq != [] ==> forall u :: u in r <==>
              u in roster && (IsSubstring(nq, ToLower(u.username)) || IsSubstring(nq, ToLower(u.employeeNumber)))
    ensures var nq := NormalizeQuery(query);
            nq != [] ==> forall u :: multiset(r)[u] == if MatchesQuery(u, nq) then multiset(roster)[u] else 0
    ensures IsSubsequence(r, roster)
  {
    var nq := NormalizeQuery(query);
    if nq == [] then
      IsSubsequenceReflexive(roster);
      roster
    else
      Filter(roster, u => MatchesQuery(u, nq))
  }

  /** Queries that differ only in letter case show the same rows. */
  lemma SearchIgnoresQueryCase(roster: seq<User>, q1: string, q2: string)
    requires SameUpToCase(q1, q2)
    ensures SearchRoster(roster, q1) == SearchRoster(roster, q2)
  {
    SameUpToCaseLower(q1, q2);
  }

  /** Whether a user matches does not depend on the letter case of their username. */
  lemma MatchIgnoresNameCase(u: User, v: User, nq: string)
    requires SameUpToCase(u.username, v.username) && u.employeeNumber == v.employeeNumber
    ensures MatchesQuery(u, nq) <==> MatchesQuery(v, nq)
  {
    SameUpToCaseLower(u.username, v.username);
  }

  /** The usernames of the attendance records of the selected date; none when there are no records. */
  function PresentUsernames(dateAttendances: Option<seq<UserAttendance>>): (present: set<string>)
    ensures forall n :: n in present <==>
              dateAttendances.Some? && exists a :: a in dateAttendances.value && a.username == n
  {
    if dateAttendances.None? then {} else set a | a in dateAttendances.value :: a.username
  }

  /** The filter of the absentee list: no attendance that day, and not a weekend. */
  function AbsentFilter(present: set<string>, isWeekend: bool): User -> bool
  {
    (u: User) => u.username !in present && !isWeekend
  }

  /**
   * The employees listed as absent on the selected date: nobody without a
   * selected date or a roster, nobody on a Saturday or Sunday, and otherwise
   * every roster entry whose username has no attendance record that day.
   */
  function AbsentEmployees(
    selectedDate: Option<Date>,
    roster: Option<seq<User>>,
    dateAttendances: Option<seq<UserAttendance>>
  ): (r: seq<User>)
    ensures selectedDate.None? || roster.None? ==> r == []
    ensures selectedDate.Some? && IsWeekend(selectedDate.value) ==> r == []
    ensures roster.Some? ==> IsSubsequence(r, roster.value)
    ensures forall u :: u in r ==> u.username !in PresentUsernames(dateAttendances)
    ensures selectedDate.Some? && roster.Some? && !IsWeekend(selectedDate.value) ==>
              && (forall u :: u in r <==> u in roster.value && u.username !in PresentUsernames(dateAttendances))
              && (forall u :: multiset(r)[u] ==
                    if u.username in PresentUsernames(dateAttendances) then 0 else multiset(roster.value)[u])
  {
    if selectedDate.None? || roster.None? then []
    else
      var present := PresentUsernames(dateAttendances);
      var isWeekend := IsWeekend(selectedDate.value);
      Filter(roster.value, AbsentFilter(present, isWeekend))
  }

  /** Tuesday 5 March 2024: alice checked in, bob did not, so bob alone is absent. */
  lemma AbsentOnWeekdayExample()
    ensures var alice := User("E1", "alice", [Attendance(Date(2024, 3, 5))]);
            var bob := User("E2", "bob", []);
            var present := [UserAttendance(alice.attendances[0], "alice")];
            AbsentEmployees(Some(Date(2024, 3, 5)), Some([alice, bob]), Some(present)) == [bob]
  {

  }

  /** Sunday 3 March 2024: nobody is absent, even with no attendance at all. */
  lemma NobodyAbsentOnSundayExample(roster: seq<User>)
    ensures AbsentEmployees(Some(Date(2024, 3, 3)), Some(roster), None) == []
  {

  }
}
