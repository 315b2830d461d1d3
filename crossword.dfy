/**
 * The value-level vocabulary of the layout solver in server/objects/GridGenerator.js:
 * word entries, placements, the letter board (`grid[y][x]`, `None` for an empty cell,
 * `Some(c)` for a cell holding `{ char: c }`), the legality test of `canPlace`, the effect
 * of `addWordToGrid`, and the numbering rule of `compileGrid`. The generator class in
 * module Generator is proved against these definitions.
 */
module Crossword {
  import opened Wrappers

  datatype WordEntry = WordEntry(word: string, clue: string)

  datatype Direction = Across | Down

  /** A word laid on the board; `(x, y)` is the cell of its first letter. */
  datatype Placement = Placement(word: string, clue: string, x: int, y: int, direction: Direction)

  /** A placement as the solver reports it, with the number of its start cell (`null` as `None`). */
  datatype Clue = Clue(word: string, clue: string, x: int, y: int, direction: Direction, number: Option<int>)

  /**
   * A cell of a compiled or working grid. The solver writes `value`, `correct`, `isBlack` and
   * `number`; play adds the other flags, which are absent (falsy) until then.
   */
  datatype Cell = Cell(value: string, correct: string, isBlack: bool, number: Option<int>,
                       isSolved: bool, isHint: bool, solvedBy: Option<string>, solvedByTeam: Option<int>)

  type Board = seq<seq<Option<char>>>

  ghost predicate Rect(b: Board, w: int, h: int)
  {
    |b| == h && forall y :: 0 <= y < h ==> |b[y]| == w
  }

  function EmptyBoard(w: nat, h: nat): (b: Board)
    ensures Rect(b, w, h)
    ensures forall y, x :: 0 <= y < h && 0 <= x < w ==> b[y][x] == None
  {
    seq(h, _ => seq(w, _ => None))
  }

  /** `isValidCell`. */
  predicate InBoard(w: int, h: int, x: int, y: int)
  {
    0 <= x < w && 0 <= y < h
  }

  /** `hasNeighbor`: an on-board cell that already holds a letter. */
  predicate Occupied(b: Board, w: int, h: int, x: int, y: int)
    requires Rect(b, w, h)
  {
    InBoard(w, h, x, y) && b[y][x].Some?
  }

  /** Column and row of letter `i` of a word starting at `(x, y)`. */
  function Col(x: int, d: Direction, i: int): int { if d == Across then x + i else x }
  function Row(y: int, d: Direction, i: int): int { if d == Across then y else y + i }

  /** Whether the word of length `len` starting at `(px, py)` covers `(x, y)`. */
  predicate Covers(len: int, px: int, py: int, d: Direction, x: int, y: int)
  {
    if d == Across then y == py && px <= x < px + len else x == px && py <= y < py + len
  }

  function Offset(px: int, py: int, d: Direction, x: int, y: int): int
  {
    if d == Across then x - px else y - py
  }

  predicate CoversCell(p: Placement, x: int, y: int)
  {
    Covers(|p.word|, p.x, p.y, p.direction, x, y)
  }

  /**
   * The per-letter test of `canPlace`: the cell is on the board, and either it already holds
   * this very letter, or it is empty and neither neighbour across the word's direction is
   * occupied.
   */
  predicate LetterFits(b: Board, w: int, h: int, word: string, x: int, y: int, d: Direction, i: int)
    requires Rect(b, w, h) && 0 <= i < |word|
  {
    var cx, cy := Col(x, d, i), Row(y, d, i);
    InBoard(w, h, cx, cy) &&
    if b[cy][cx].Some? then b[cy][cx].value == word[i]
    else if d == Across then !Occupied(b, w, h, cx, cy - 1) && !Occupied(b, w, h, cx, cy + 1)
    else !Occupied(b, w, h, cx - 1, cy) && !Occupied(b, w, h, cx + 1, cy)
  }

  /** `canPlace`: non-negative start, the far end inside the board, every letter fits, both end caps free. */
  predicate Fits(b: Board, w: int, h: int, word: string, x: int, y: int, d: Direction)
    requires Rect(b, w, h)
  {
    && x >= 0 && y >= 0
    && (if d == Across then x + |word| <= w else y + |word| <= h)
    && (forall i :: 0 <= i < |word| ==> LetterFits(b, w, h, word, x, y, d, i))
    && !Occupied(b, w, h, Col(x, d, -1), Row(y, d, -1))
    && !Occupied(b, w, h, Col(x, d, |word|), Row(y, d, |word|))
  }

  /** Every letter cell of the word is on the board. */
  predicate AllInside(w: int, h: int, len: int, x: int, y: int, d: Direction)
  {
    forall i :: 0 <= i < len ==> InBoard(w, h, Col(x, d, i), Row(y, d, i))
  }

  /** `addWordToGrid` on the board: the word's cells get its letters, every other cell is kept. */
  function Write(b: Board, word: string, px: int, py: int, d: Direction): (r: Board)
    ensures |r| == |b| && forall y :: 0 <= y < |b| ==> |r[y]| == |b[y]|
  {
    seq(|b|, y requires 0 <= y < |b| =>
      seq(|b[y]|, x requires 0 <= x < |b[y]| =>
        if Covers(|word|, px, py, d, x, y) then Some(word[Offset(px, py, d, x, y)]) else b[y][x]))
  }

  /** The placement's cells spell its word on the board. */
  ghost predicate Spelled(b: Board, w: int, h: int, p: Placement)
    requires Rect(b, w, h)
  {
    forall i :: 0 <= i < |p.word| ==>
      InBoard(w, h, Col(p.x, p.direction, i), Row(p.y, p.direction, i)) &&
      b[Row(p.y, p.direction, i)][Col(p.x, p.direction, i)] == Some(p.word[i])
  }

  /** Every occupied cell belongs to some placement. */
  ghost predicate Covered(b: Board, w: int, h: int, ps: seq<Placement>)
    requires Rect(b, w, h)
  {
    forall y, x :: InBoard(w, h, x, y) && b[y][x].Some? ==> exists k :: 0 <= k < |ps| && CoversCell(ps[k], x, y)
  }

  /** What the solver keeps true of its board and placements after every step. */
  ghost predicate Consistent(b: Board, w: int, h: int, ps: seq<Placement>)
    requires Rect(b, w, h)
  {
    && (forall k :: 0 <= k < |ps| ==> Spelled(b, w, h, ps[k]) && InBoard(w, h, ps[k].x, ps[k].y))
    && Covered(b, w, h, ps)
  }

  lemma FitsInside(b: Board, w: int, h: int, word: string, x: int, y: int, d: Direction)
    requires Rect(b, w, h) && Fits(b, w, h, word, x, y, d)
    ensures AllInside(w, h, |word|, x, y, d)
    ensures |word| > 0 ==> InBoard(w, h, x, y)
  {
    forall i | 0 <= i < |word| ensures InBoard(w, h, Col(x, d, i), Row(y, d, i)) {
      assert LetterFits(b, w, h, word, x, y, d, i);
    }
    if |word| > 0 {
      assert LetterFits(b, w, h, word, x, y, d, 0);
    }
  }

  /** A legal placement never contradicts a word already spelled on the board. */
  lemma WriteKeepsSpelled(b: Board, w: int, h: int, word: string, x: int, y: int, d: Direction, p: Placement)
    requires Rect(b, w, h) && Fits(b, w, h, word, x, y, d) && Spelled(b, w, h, p)
    ensures Rect(Write(b, word, x, y, d), w, h)
    ensures Spelled(Write(b, word, x, y, d), w, h, p)
  {
    var r := Write(b, word, x, y, d);
    forall i | 0 <= i < |p.word|
      ensures r[Row(p.y, p.direction, i)][Col(p.x, p.direction, i)] == Some(p.word[i])
    {
      var cx, cy := Col(p.x, p.direction, i), Row(p.y, p.direction, i);
      if Covers(|word|, x, y, d, cx, cy) {
        var k := Offset(x, y, d, cx, cy);
        assert LetterFits(b, w, h, word, x, y, d, k);
        assert Col(x, d, k) == cx && Row(y, d, k) == cy;
      }
    }
  }

  /** After a legal placement its own cells spell the new word. */
  lemma WriteSpellsWord(b: Board, w: int, h: int, word: string, clue: string, x: int, y: int, d: Direction)
    requires Rect(b, w, h) && Fits(b, w, h, word, x, y, d)
    ensures Rect(Write(b, word, x, y, d), w, h)
    ensures Spelled(Write(b, word, x, y, d), w, h, Placement(word, clue, x, y, d))
  {
    FitsInside(b, w, h, word, x, y, d);
    var r := Write(b, word, x, y, d);
    forall i | 0 <= i < |word| ensures r[Row(y, d, i)][Col(x, d, i)] == Some(word[i]) {
      assert Covers(|word|, x, y, d, Col(x, d, i), Row(y, d, i));
      assert Offset(x, y, d, Col(x, d, i), Row(y, d, i)) == i;
    }
  }

  /**
   * The solver's consistency survives a legal placement: every placement, old and new,
   * is still spelled on the board, and every occupied cell is still covered.
   */
  lemma WriteKeepsConsistent(b: Board, w: int, h: int, ps: seq<Placement>, word: string, clue: string, x: int, y: int, d: Direction)
    requires Rect(b, w, h) && Consistent(b, w, h, ps)
    requires Fits(b, w, h, word, x, y, d) && InBoard(w, h, x, y)
    ensures Rect(Write(b, word, x, y, d), w, h)
    ensures Consistent(Write(b, word, x, y, d), w, h, ps + [Placement(word, clue, x, y, d)])
  {
    var r := Write(b, word, x, y, d);
    var np := Placement(word, clue, x, y, d);
    var qs := ps + [np];
    forall k | 0 <= k < |qs| ensures Spelled(r, w, h, qs[k]) {
      if k < |ps| {
        WriteKeepsSpelled(b, w, h, word, x, y, d, ps[k]);
      } else {
        WriteSpellsWord(b, w, h, word, clue, x, y, d);
      }
    }
    forall cy, cx | InBoard(w, h, cx, cy) && r[cy][cx].Some?
      ensures exists k :: 0 <= k < |qs| && CoversCell(qs[k], cx, cy)
    {
      if Covers(|word|, x, y, d, cx, cy) {
        assert CoversCell(qs[|ps|], cx, cy);
      } else {
        var k :| 0 <= k < |ps| && CoversCell(ps[k], cx, cy);
        assert qs[k] == ps[k];
      }
    }
  }

  /** On an empty board the only obstacles to laying a word are a negative start and its length. */
  lemma EmptyBoardFits(w: nat, h: nat, word: string, x: int, y: int, d: Direction)
    requires (d == Across ==> 0 <= y < h) && (d == Down ==> 0 <= x < w)
    ensures Fits(EmptyBoard(w, h), w, h, word, x, y, d) <==>
            x >= 0 && y >= 0 && (if d == Across then x + |word| <= w else y + |word| <= h)
  {
    var b := EmptyBoard(w, h);
    if x >= 0 && y >= 0 && (if d == Across then x + |word| <= w else y + |word| <= h) {
      forall i | 0 <= i < |word| ensures LetterFits(b, w, h, word, x, y, d, i) {
        assert InBoard(w, h, Col(x, d, i), Row(y, d, i));
      }
    }
  }

  /** A word longer than both sides of the board never fits anywhere. */
  lemma TooLongNeverFits(b: Board, w: int, h: int, word: string, x: int, y: int, d: Direction)
    requires Rect(b, w, h) && |word| > w && |word| > h
    ensures !Fits(b, w, h, word, x, y, d)
  {
  }

  /** The calls of `canPlace` that never index outside the board: it returns before reading, or the row (column) exists. */
  predicate ProbeSafe(w: int, h: int, word: string, x: int, y: int, d: Direction)
  {
    x < 0 || y < 0 || word == [] || (if d == Across then x + |word| > w || y < h else y + |word| > h || x < w)
  }

  /** The cell just before the start of every non-empty placement is empty or off the board. */
  ghost predicate CapsFree(b: Board, w: int, h: int, ps: seq<Placement>)
    requires Rect(b, w, h)
  {
    forall k :: 0 <= k < |ps| && |ps[k].word| >= 1 ==>
      !Occupied(b, w, h, Col(ps[k].x, ps[k].direction, -1), Row(ps[k].y, ps[k].direction, -1))
  }

  /** No placement is shorter than `word`. */
  ghost predicate NoneShorter(word: string, ps: seq<Placement>)
  {
    forall k :: 0 <= k < |ps| ==> |word| <= |ps[k].word|
  }

  /** The words still to place come longest first and none is longer than a placed word. */
  ghost predicate LongestFirst(ws: seq<WordEntry>, ps: seq<Placement>)
  {
    && (forall i, j :: 0 <= i < j < |ws| ==> |ws[j].word| <= |ws[i].word|)
    && (forall j :: 0 <= j < |ws| ==> NoneShorter(ws[j].word, ps))
  }

  /** Letter `j` of a spelled placement occupies its cell. */
  lemma SpelledAt(b: Board, w: int, h: int, p: Placement, j: int)
    ensures Rect(b, w, h) && Spelled(b, w, h, p) && 0 <= j < |p.word| ==>
              Occupied(b, w, h, Col(p.x, p.direction, j), Row(p.y, p.direction, j))
  {
  }

  /** Letter `k` of a legal placement passes the per-letter test. */
  lemma FitsAt(b: Board, w: int, h: int, word: string, x: int, y: int, d: Direction, k: int)
    ensures Rect(b, w, h) && Fits(b, w, h, word, x, y, d) && 0 <= k < |word| ==>
              LetterFits(b, w, h, word, x, y, d, k)
  {
  }

  /** A legal cell of the new word never lands on the free front cap of an earlier, longer-or-equal word. */
  lemma CapStaysFree(b: Board, w: int, h: int, word: string, x: int, y: int, d: Direction, p: Placement)
    requires Rect(b, w, h) && Fits(b, w, h, word, x, y, d) && Spelled(b, w, h, p)
    requires 1 <= |p.word| && |word| <= |p.word|
    requires !Occupied(b, w, h, Col(p.x, p.direction, -1), Row(p.y, p.direction, -1))
    ensures !Covers(|word|, x, y, d, Col(p.x, p.direction, -1), Row(p.y, p.direction, -1))
  {
    var cx, cy := Col(p.x, p.direction, -1), Row(p.y, p.direction, -1);
    if Covers(|word|, x, y, d, cx, cy) {
      if d == p.direction {
        // The new word runs along p from before its start; its end cap would fall on p unless it were longer.
        SpelledAt(b, w, h, p, Offset(p.x, p.y, p.direction, Col(x, d, |word|), Row(y, d, |word|)));
      } else {
        // The new word crosses the empty cap cell, whose neighbour along p is p's first letter.
        FitsAt(b, w, h, word, x, y, d, Offset(x, y, d, cx, cy));
        SpelledAt(b, w, h, p, 0);
      }
      assert false;
    }
  }

  /** Laying a word no longer than any placed one keeps every front cap free. */
  lemma WriteKeepsCapsFree(b: Board, w: int, h: int, ps: seq<Placement>, word: string, clue: string, x: int, y: int, d: Direction)
    requires Rect(b, w, h) && Consistent(b, w, h, ps) && CapsFree(b, w, h, ps)
    requires Fits(b, w, h, word, x, y, d) && NoneShorter(word, ps)
    ensures Rect(Write(b, word, x, y, d), w, h)
    ensures CapsFree(Write(b, word, x, y, d), w, h, ps + [Placement(word, clue, x, y, d)])
  {
    var r := Write(b, word, x, y, d);
    var qs := ps + [Placement(word, clue, x, y, d)];
    forall k | 0 <= k < |qs| && |qs[k].word| >= 1
      ensures !Occupied(r, w, h, Col(qs[k].x, qs[k].direction, -1), Row(qs[k].y, qs[k].direction, -1))
    {
      if k < |ps| {
        CapStaysFree(b, w, h, word, x, y, d, ps[k]);
      } else {
        assert !Covers(|word|, x, y, d, Col(x, d, -1), Row(y, d, -1));
      }
    }
  }

  /**
   * Because words are laid longest first, every placed word of two or more letters starts a
   * run in the compiled grid, and so its clue gets a number.
   */
  lemma LongWordsAreNumbered(b: Board, w: int, h: int, ps: seq<Placement>, k: int)
    requires Rect(b, w, h) && Consistent(b, w, h, ps) && CapsFree(b, w, h, ps)
    requires 0 <= k < |ps| && |ps[k].word| >= 2
    ensures InBoard(w, h, ps[k].x, ps[k].y) && IsStart(b, w, h, ps[k].x, ps[k].y)
    ensures Number(b, w, h, ps[k].x, ps[k].y).Some?
  {
    assert Spelled(b, w, h, ps[k]);
    assert !Occupied(b, w, h, Col(ps[k].x, ps[k].direction, -1), Row(ps[k].y, ps[k].direction, -1));
    SpelledStarts(b, w, h, ps[k]);
  }

  /** A spelled word of two or more letters whose front cap is free begins a run. */
  lemma SpelledStarts(b: Board, w: int, h: int, p: Placement)
    requires Rect(b, w, h) && Spelled(b, w, h, p) && |p.word| >= 2
    requires !Occupied(b, w, h, Col(p.x, p.direction, -1), Row(p.y, p.direction, -1))
    ensures InBoard(w, h, p.x, p.y) && IsStart(b, w, h, p.x, p.y)
  {
    SpelledAt(b, w, h, p, 0);
    SpelledAt(b, w, h, p, 1);
    if p.direction == Across {
      assert b[p.y][p.x].Some? && b[p.y][p.x + 1].Some?;
      assert p.x == 0 || b[p.y][p.x - 1].None?;
    } else {
      assert b[p.y][p.x].Some? && b[p.y + 1][p.x].Some?;
      assert p.y == 0 || b[p.y - 1][p.x].None?;
    }
  }

  // ------------------------------------------------------------------ compiled grid and numbering

  /** `compileGrid`'s start test: a letter cell that begins an across or a down run of two or more. */
  predicate IsStart(b: Board, w: int, h: int, x: int, y: int)
    requires Rect(b, w, h) && InBoard(w, h, x, y)
  {
    b[y][x].Some? &&
    (((x == 0 || b[y][x - 1].None?) && x + 1 < w && b[y][x + 1].Some?) ||
     ((y == 0 || b[y - 1][x].None?) && y + 1 < h && b[y + 1][x].Some?))
  }

  /** Start cells among the first `n` cells of row `y`. */
  function StartsInRow(b: Board, w: int, h: int, y: int, n: int): nat
    requires Rect(b, w, h) && 0 <= y < h && 0 <= n <= w
  {
    if n == 0 then 0 else StartsInRow(b, w, h, y, n - 1) + (if IsStart(b, w, h, n - 1, y) then 1 else 0)
  }

  /** Start cells in the rows above row `y`. */
  function StartsAbove(b: Board, w: int, h: int, y: int): nat
    requires Rect(b, w, h) && 0 <= y <= h && w >= 0
  {
    if y == 0 then 0 else StartsAbove(b, w, h, y - 1) + StartsInRow(b, w, h, y - 1, w)
  }

  /** Start cells strictly before `(x, y)` in row-major order. */
  function StartsBefore(b: Board, w: int, h: int, x: int, y: int): nat
    requires Rect(b, w, h) && 0 <= y < h && 0 <= x <= w
  {
    StartsAbove(b, w, h, y) + StartsInRow(b, w, h, y, x)
  }

  /** The number `compileGrid` gives a cell: the next counter value for a start cell, else `null`. */
  function Number(b: Board, w: int, h: int, x: int, y: int): Option<int>
    requires Rect(b, w, h) && InBoard(w, h, x, y)
  {
    if IsStart(b, w, h, x, y) then Some(1 + StartsBefore(b, w, h, x, y)) else None
  }

  /** A compiled cell before numbering: black unless a letter is there, `correct` that letter, `value` empty. */
  function Unnumbered(b: Board, w: int, h: int, x: int, y: int): Cell
    requires Rect(b, w, h) && InBoard(w, h, x, y)
  {
    match b[y][x]
    case None => BlackCell()
    case Some(c) => Cell("", [c], false, None, false, false, None, None)
  }

  function BlackCell(): Cell
  {
    Cell("", "", true, None, false, false, None, None)
  }

  function Compiled(b: Board, w: int, h: int, x: int, y: int): Cell
    requires Rect(b, w, h) && InBoard(w, h, x, y)
  {
    Unnumbered(b, w, h, x, y).(number := Number(b, w, h, x, y))
  }

  lemma {:induction false} RowCountMonotone(b: Board, w: int, h: int, y: int, m: int, n: int)
    requires Rect(b, w, h) && 0 <= y < h && 0 <= m <= n <= w
    ensures StartsInRow(b, w, h, y, m) <= StartsInRow(b, w, h, y, n)
  {
    if m < n {
      RowCountMonotone(b, w, h, y, m, n - 1);
    }
  }

  lemma {:induction false} AboveCountMonotone(b: Board, w: int, h: int, y1: int, y2: int)
    requires Rect(b, w, h) && 0 <= y1 < y2 <= h && w >= 0
    ensures StartsAbove(b, w, h, y1) + StartsInRow(b, w, h, y1, w) <= StartsAbove(b, w, h, y2)
  {
    if y2 > y1 + 1 {
      AboveCountMonotone(b, w, h, y1, y2 - 1);
    }
  }

  /**
   * Numbering is strictly increasing in row-major order: of two start cells, the one the
   * scan meets first has the smaller number.
   */
  lemma NumbersIncrease(b: Board, w: int, h: int, x1: int, y1: int, x2: int, y2: int)
    requires Rect(b, w, h) && InBoard(w, h, x1, y1) && InBoard(w, h, x2, y2)
    requires IsStart(b, w, h, x1, y1) && IsStart(b, w, h, x2, y2)
    requires y1 < y2 || (y1 == y2 && x1 < x2)
    ensures Number(b, w, h, x1, y1).value < Number(b, w, h, x2, y2).value
  {
    assert StartsInRow(b, w, h, y1, x1 + 1) == StartsInRow(b, w, h, y1, x1) + 1;
    if y1 == y2 {
      RowCountMonotone(b, w, h, y1, x1 + 1, x2);
    } else {
      RowCountMonotone(b, w, h, y1, x1 + 1, w);
      AboveCountMonotone(b, w, h, y1, y2);
    }
  }

  /** The first start cell in row-major order gets number 1. */
  lemma FirstNumberIsOne(b: Board, w: int, h: int, x: int, y: int)
    requires Rect(b, w, h) && InBoard(w, h, x, y) && IsStart(b, w, h, x, y)
    requires forall y', x' :: InBoard(w, h, x', y') && (y' < y || (y' == y && x' < x)) ==> !IsStart(b, w, h, x', y')
    ensures Number(b, w, h, x, y) == Some(1)
  {
    RowZero(b, w, h, y, x);
    AboveZero(b, w, h, y, y);
  }

  lemma {:induction false} RowZero(b: Board, w: int, h: int, y: int, n: int)
    requires Rect(b, w, h) && 0 <= y < h && 0 <= n <= w
    requires forall x' :: 0 <= x' < n ==> !IsStart(b, w, h, x', y)
    ensures StartsInRow(b, w, h, y, n) == 0
  {
    if n > 0 {
      RowZero(b, w, h, y, n - 1);
    }
  }

  lemma {:induction false} AboveZero(b: Board, w: int, h: int, y: int, n: int)
    requires Rect(b, w, h) && 0 <= n <= y < h && w >= 0
    requires forall y', x' :: 0 <= y' < y && 0 <= x' < w ==> !IsStart(b, w, h, x', y')
    ensures StartsAbove(b, w, h, n) == 0
  {
    if n > 0 {
      AboveZero(b, w, h, y, n - 1);
      RowZero(b, w, h, n - 1, w);
    }
  }

  /**
   * With a consistent board, a compiled cell is white exactly when some placement covers it,
   * and then its `correct` letter is that placement's letter.
   */
  lemma CompiledCellMeaning(b: Board, w: int, h: int, ps: seq<Placement>, x: int, y: int)
    requires Rect(b, w, h) && Consistent(b, w, h, ps) && InBoard(w, h, x, y)
    ensures !Compiled(b, w, h, x, y).isBlack <==> exists k :: 0 <= k < |ps| && CoversCell(ps[k], x, y)
    ensures forall k :: 0 <= k < |ps| && CoversCell(ps[k], x, y) ==>
              Compiled(b, w, h, x, y).correct == [ps[k].word[Offset(ps[k].x, ps[k].y, ps[k].direction, x, y)]]
    ensures Compiled(b, w, h, x, y).value == ""
  {
    forall k | 0 <= k < |ps| && CoversCell(ps[k], x, y)
      ensures b[y][x] == Some(ps[k].word[Offset(ps[k].x, ps[k].y, ps[k].direction, x, y)])
    {
      var p := ps[k];
      var i := Offset(p.x, p.y, p.direction, x, y);
      assert Spelled(b, w, h, p);
      assert Col(p.x, p.direction, i) == x && Row(p.y, p.direction, i) == y;
    }
  }
}
