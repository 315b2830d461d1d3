/**
 * The clue panel (client/src/components/ClueList.js): the clues split by direction, each
 * list in ascending clue-number order, and the list the active tab shows.
 */
module ClueList {
  import opened Wrappers
  import opened Crossword
  import opened Sorting

  /** `clues.filter(c => c.direction === d)`. */
  function InDirection(clues: seq<Clue>, d: Direction): seq<Clue>
  {
    if clues == [] then []
    else (if clues[0].direction == d then [clues[0]] else []) + InDirection(clues[1..], d)
  }

  /**
   * The number a clue is compared by: `a.number - b.number` turns a `null` number into 0,
   * so the comparator stays consistent.
   */
  function NumberOf(c: Clue): int
  {
    if c.number.Some? then c.number.value else 0
  }

  /** The key under which `(a, b) => a.number - b.number` is a descending sort. */
  function Lateness(c: Clue): int
  {
    -NumberOf(c)
  }

  /** `clues.filter(...).sort((a, b) => a.number - b.number)`. */
  function Listed(clues: seq<Clue>, d: Direction): seq<Clue>
  {
    SortDesc(InDirection(clues, d), Lateness)
  }

  /** `displayList`: the across list when the tab is `'ACROSS'` (its initial value), else the down list. */
  function Displayed(tab: string, clues: seq<Clue>): seq<Clue>
  {
    if tab == "ACROSS" then Listed(clues, Across) else Listed(clues, Down)
  }

  /** The filter keeps exactly the clues of its direction, as often as they occur. */
  lemma {:induction false} InDirectionKeeps(clues: seq<Clue>, d: Direction)
    ensures forall c :: multiset(InDirection(clues, d))[c] == if c.direction == d then multiset(clues)[c] else 0
  {
    if clues != [] {
      InDirectionKeeps(clues[1..], d);
      assert clues == [clues[0]] + clues[1..];
    }
  }

  /**
   * Each list holds exactly the clues of its direction, as often as they occur, so the two
   * lists together are the clues; each list runs in ascending number order, and clues with
   * equal numbers keep their order in the input.
   */
  lemma ListedClues(clues: seq<Clue>, d: Direction)
    ensures var l := Listed(clues, d);
            && (forall c :: c in l <==> c in clues && c.direction == d)
            && (forall i, j :: 0 <= i < j < |l| ==> NumberOf(l[i]) <= NumberOf(l[j]))
            && (forall k :: WithKey(l, Lateness, k) == WithKey(InDirection(clues, d), Lateness, k))
    ensures multiset(Listed(clues, Across)) + multiset(Listed(clues, Down)) == multiset(clues)
  {
    var l := Listed(clues, d);
    InDirectionKeeps(clues, d);
    SortDescPermutes(InDirection(clues, d), Lateness);
    SortDescSorted(InDirection(clues, d), Lateness);
    forall i, j | 0 <= i < j < |l| ensures NumberOf(l[i]) <= NumberOf(l[j]) {
      assert Lateness(l[i]) >= Lateness(l[j]);
    }
    forall k ensures WithKey(l, Lateness, k) == WithKey(InDirection(clues, d), Lateness, k) {
      SortDescStable(InDirection(clues, d), Lateness, k);
    }
    forall c ensures c in l <==> c in clues && c.direction == d {
      assert c in l <==> multiset(l)[c] > 0;
    }
    Partition(clues);
  }

  /** The across and down filters split the clues between them. */
  lemma Partition(clues: seq<Clue>)
    ensures multiset(Listed(clues, Across)) + multiset(Listed(clues, Down)) == multiset(clues)
  {
    InDirectionKeeps(clues, Across);
    InDirectionKeeps(clues, Down);
    SortDescPermutes(InDirection(clues, Across), Lateness);
    SortDescPermutes(InDirection(clues, Down), Lateness);
    var a, b := multiset(Listed(clues, Across)), multiset(Listed(clues, Down));
    assert forall c :: (a + b)[c] == multiset(clues)[c];
  }

  /** The panel shows the across clues on the across tab and the down clues on any other. */
  lemma DisplayedTab(tab: string, clues: seq<Clue>)
    ensures forall c :: c in Displayed(tab, clues) <==> c in clues && c.direction == (if tab == "ACROSS" then Across else Down)
  {
    ListedClues(clues, if tab == "ACROSS" then Across else Down);
  }
}
