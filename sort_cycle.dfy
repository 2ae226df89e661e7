/** The sort state of a list view: which column was sorted last, and where in the
    ascending / descending / identifier-order cycle it stands. */
module SortCycle {

  /** Sort order 0 is ascending, 1 descending, 2 back to identifier order. */
  datatype SortState = SortState(sortOrder: int, lastColumnSorted: string)

  /** The state a list view starts in. */
  const Initial := SortState(0, "")

  /** The three orders of the cycle. */
  predicate InCycle(s: SortState) {
    0 <= s.sortOrder < 3
  }

  /** The transition of the base `sortBy(column)`. With sorting switched off the
      state stays as it is; a click on the column sorted last moves one step
      round the cycle; a click on another column starts it at ascending. */
  function Transition(s: SortState, column: string, sortable: bool): (r: SortState)
    ensures !sortable ==> r == s
    ensures sortable ==> r.lastColumnSorted == column
    ensures sortable && column == s.lastColumnSorted ==> r.sortOrder == (s.sortOrder + 1) % 3
    ensures sortable && column != s.lastColumnSorted ==> r.sortOrder == 0
    ensures InCycle(s) ==> InCycle(r)
  {
    if !sortable then s
    else if s.lastColumnSorted == column then SortState((s.sortOrder + 1) % 3, column)
    else SortState(0, column)
  }

  /** Clicking the column sorted last three times comes back to where it was. */
  lemma ThreeClicksRestore(s: SortState, sortable: bool)
    requires InCycle(s)
    ensures var c := s.lastColumnSorted;
      Transition(Transition(Transition(s, c, sortable), c, sortable), c, sortable) == s
  {
  }

  /** Clicking a new column three times walks through ascending, descending and
      identifier order. */
  lemma NewColumnWalksCycle(s: SortState, c: string)
    requires c != s.lastColumnSorted
    ensures Transition(s, c, true) == SortState(0, c)
    ensures Transition(Transition(s, c, true), c, true) == SortState(1, c)
    ensures Transition(Transition(Transition(s, c, true), c, true), c, true) == SortState(2, c)
  {
  }

  /** The state after a run of clicks. */
  function Replay(s: SortState, clicks: seq<string>, sortable: bool): SortState
    decreases |clicks|
  {
    if clicks == [] then s else Replay(Transition(s, clicks[0], sortable), clicks[1..], sortable)
  }

  /** From the initial state, whatever the clicks, the sort order is 0, 1 or 2. */
  lemma {:induction false} ReplayStaysInCycle(s: SortState, clicks: seq<string>, sortable: bool)
    requires InCycle(s)
    ensures InCycle(Replay(s, clicks, sortable))
    decreases |clicks|
  {
    if clicks != [] {
      ReplayStaysInCycle(Transition(s, clicks[0], sortable), clicks[1..], sortable);
    }
  }

  /** With sorting switched off no run of clicks changes the state. */
  lemma {:induction false} ReplayUnsortable(s: SortState, clicks: seq<string>)
    ensures Replay(s, clicks, false) == s
    decreases |clicks|
  {
    if clicks != [] {
      ReplayUnsortable(s, clicks[1..]);
    }
  }
}
