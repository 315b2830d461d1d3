/**
 * The placement policy of `placeWordsGreedy` (server/objects/GridGenerator.js) as pure
 * functions: the first-word rule, the row-major crossing scan, one step of the solver and
 * the whole run over a word list. The methods of class `Generator.GridGenerator` are
 * proved to compute exactly these; the lemmas here say what the policy guarantees.
 */
module Greedy {
  import opened Wrappers
  import opened Crossword

  // ------------------------------------------------------------------ trials of the scan

  /** Column and row of the start of a word whose letter `i` lands on `(x, y)`. */
  function SpotX(x: int, i: int, d: Direction): int { if d == Across then x - i else x }
  function SpotY(y: int, i: int, d: Direction): int { if d == Across then y else y - i }

  /**
   * One successful trial of the scan: `(x, y)` holds letter `i` of the word, and the word
   * fits in direction `d` with that letter on `(x, y)`.
   */
  predicate Crossing(b: Board, w: int, h: int, word: string, y: int, x: int, i: int, d: Direction)
    requires Rect(b, w, h)
  {
    && InBoard(w, h, x, y) && 0 <= i < |word|
    && b[y][x] == Some(word[i])
    && Fits(b, w, h, word, SpotX(x, i, d), SpotY(y, i, d), d)
  }

  /** Scan order: rows top to bottom, cells left to right, offsets ascending, ACROSS before DOWN. */
  predicate Earlier(y1: int, x1: int, i1: int, d1: Direction, y2: int, x2: int, i2: int, d2: Direction)
  {
    y1 < y2 || (y1 == y2 && (x1 < x2 || (x1 == x2 && (i1 < i2 || (i1 == i2 && d1 == Across && d2 == Down)))))
  }

  /** The trial the scan stops at: it succeeds and no earlier trial does. */
  ghost predicate FirstCrossing(b: Board, w: int, h: int, word: string, y: int, x: int, i: int, d: Direction)
    requires Rect(b, w, h)
  {
    Crossing(b, w, h, word, y, x, i, d) &&
    forall y', x', i', d' :: Earlier(y', x', i', d', y, x, i, d) ==> !Crossing(b, w, h, word, y', x', i', d')
  }

  /** Any two distinct trials are ordered one way or the other. */
  lemma EarlierTotal(y1: int, x1: int, i1: int, d1: Direction, y2: int, x2: int, i2: int, d2: Direction)
    ensures (y1 == y2 && x1 == x2 && i1 == i2 && d1 == d2)
         || Earlier(y1, x1, i1, d1, y2, x2, i2, d2) || Earlier(y2, x2, i2, d2, y1, x1, i1, d1)
  {
  }

  /** There is at most one first successful trial. */
  lemma FirstCrossingUnique(b: Board, w: int, h: int, word: string,
                            y1: int, x1: int, i1: int, d1: Direction, y2: int, x2: int, i2: int, d2: Direction)
    requires Rect(b, w, h)
    requires FirstCrossing(b, w, h, word, y1, x1, i1, d1) && FirstCrossing(b, w, h, word, y2, x2, i2, d2)
    ensures y1 == y2 && x1 == x2 && i1 == i2 && d1 == d2
  {
    if !(y1 == y2 && x1 == x2 && i1 == i2 && d1 == d2) {
      EarlierTotal(y1, x1, i1, d1, y2, x2, i2, d2);
      assert false;
    }
  }

  // ------------------------------------------------------------------ the scan as functions

  datatype Trial = Trial(y: int, x: int, i: int, d: Direction)

  /** Where a word is laid: its first letter's cell and its direction. */
  datatype Spot = Spot(x: int, y: int, direction: Direction)

  function OrElse<T>(a: Option<T>, b: Option<T>): Option<T>
  {
    if a.Some? then a else b
  }

  /** The inner loop over offsets `i..` at the occupied cell `(x, y)`. */
  function ScanOffsets(b: Board, w: int, h: int, word: string, y: int, x: int, i: int): Option<Trial>
    requires Rect(b, w, h) && InBoard(w, h, x, y) && 0 <= i <= |word|
    decreases |word| - i
  {
    if i == |word| then None
    else if b[y][x] == Some(word[i]) then
      if Fits(b, w, h, word, x - i, y, Across) then Some(Trial(y, x, i, Across))
      else if Fits(b, w, h, word, x, y - i, Down) then Some(Trial(y, x, i, Down))
      else ScanOffsets(b, w, h, word, y, x, i + 1)
    else ScanOffsets(b, w, h, word, y, x, i + 1)
  }

  /** The middle loop over cells `x..` of row `y`; empty cells are passed over. */
  function ScanCells(b: Board, w: int, h: int, word: string, y: int, x: int): Option<Trial>
    requires Rect(b, w, h) && 0 <= y < h && 0 <= x <= w
    decreases w - x
  {
    if x == w then None
    else if b[y][x].Some? then OrElse(ScanOffsets(b, w, h, word, y, x, 0), ScanCells(b, w, h, word, y, x + 1))
    else ScanCells(b, w, h, word, y, x + 1)
  }

  /** The outer loop over rows `y..`. */
  function ScanRows(b: Board, w: int, h: int, word: string, y: int): Option<Trial>
    requires Rect(b, w, h) && 0 <= y <= h && w >= 0
    decreases h - y
  {
    if y == h then None else OrElse(ScanCells(b, w, h, word, y, 0), ScanRows(b, w, h, word, y + 1))
  }

  lemma {:induction false} ScanOffsetsFinds(b: Board, w: int, h: int, word: string, y: int, x: int, i: int)
    requires Rect(b, w, h) && InBoard(w, h, x, y) && 0 <= i <= |word|
    ensures ScanOffsets(b, w, h, word, y, x, i) == None ==>
              forall i', d' :: i <= i' ==> !Crossing(b, w, h, word, y, x, i', d')
    ensures ScanOffsets(b, w, h, word, y, x, i).Some? ==>
              var t := ScanOffsets(b, w, h, word, y, x, i).value;
              && t.y == y && t.x == x && i <= t.i && Crossing(b, w, h, word, y, x, t.i, t.d)
              && forall i', d' :: i <= i' && Earlier(y, x, i', d', y, x, t.i, t.d) ==> !Crossing(b, w, h, word, y, x, i', d')
    decreases |word| - i
  {
    if i < |word| {
      ScanOffsetsFinds(b, w, h, word, y, x, i + 1);
      var across := b[y][x] == Some(word[i]) && Fits(b, w, h, word, x - i, y, Across);
      var down := b[y][x] == Some(word[i]) && Fits(b, w, h, word, x, y - i, Down);
      assert Crossing(b, w, h, word, y, x, i, Across) == across;
      assert Crossing(b, w, h, word, y, x, i, Down) == down;
      if !across && !down {
        assert ScanOffsets(b, w, h, word, y, x, i) == ScanOffsets(b, w, h, word, y, x, i + 1);
      }
    }
  }

  lemma {:induction false} ScanCellsFinds(b: Board, w: int, h: int, word: string, y: int, x: int)
    requires Rect(b, w, h) && 0 <= y < h && 0 <= x <= w
    ensures ScanCells(b, w, h, word, y, x) == None ==>
              forall x', i', d' :: x <= x' ==> !Crossing(b, w, h, word, y, x', i', d')
    ensures ScanCells(b, w, h, word, y, x).Some? ==>
              var t := ScanCells(b, w, h, word, y, x).value;
              && t.y == y && x <= t.x && Crossing(b, w, h, word, y, t.x, t.i, t.d)
              && forall x', i', d' :: x <= x' && Earlier(y, x', i', d', y, t.x, t.i, t.d) ==> !Crossing(b, w, h, word, y, x', i', d')
    decreases w - x
  {
    if x < w {
      ScanCellsFinds(b, w, h, word, y, x + 1);
      if b[y][x].Some? {
        ScanOffsetsFinds(b, w, h, word, y, x, 0);
      }
    }
  }

  lemma {:induction false} ScanRowsFinds(b: Board, w: int, h: int, word: string, y: int)
    requires Rect(b, w, h) && 0 <= y <= h && w >= 0
    ensures ScanRows(b, w, h, word, y) == None ==>
              forall y', x', i', d' :: y <= y' ==> !Crossing(b, w, h, word, y', x', i', d')
    ensures ScanRows(b, w, h, word, y).Some? ==>
              var t := ScanRows(b, w, h, word, y).value;
              && y <= t.y && Crossing(b, w, h, word, t.y, t.x, t.i, t.d)
              && forall y', x', i', d' :: y <= y' && Earlier(y', x', i', d', t.y, t.x, t.i, t.d) ==> !Crossing(b, w, h, word, y', x', i', d')
    decreases h - y
  {
    if y < h {
      ScanRowsFinds(b, w, h, word, y + 1);
      ScanCellsFinds(b, w, h, word, y, 0);
    }
  }

  /**
   * The scan returns the first successful trial in scan order, and finds nothing exactly
   * when no trial succeeds.
   */
  lemma ScanIsFirstCrossing(b: Board, w: int, h: int, word: string)
    requires Rect(b, w, h) && w >= 0 && h >= 0
    ensures ScanRows(b, w, h, word, 0) == None <==>
              forall y, x, i, d :: !Crossing(b, w, h, word, y, x, i, d)
    ensures ScanRows(b, w, h, word, 0).Some? ==>
              var t := ScanRows(b, w, h, word, 0).value;
              FirstCrossing(b, w, h, word, t.y, t.x, t.i, t.d)
  {
    ScanRowsFinds(b, w, h, word, 0);
  }

  // ------------------------------------------------------------------ one step and the whole run

  function SpotOf(t: Trial): Spot
  {
    Spot(SpotX(t.x, t.i, t.d), SpotY(t.y, t.i, t.d), t.d)
  }

  /** The first-word rule: centred ACROSS if it fits, else centred DOWN if it fits, else nowhere. */
  function CenterSpot(b: Board, w: int, h: int, word: string): Option<Spot>
    requires Rect(b, w, h)
  {
    var ax, ay := (w - |word|) / 2, h / 2;
    var dx, dy := w / 2, (h - |word|) / 2;
    if Fits(b, w, h, word, ax, ay, Across) then Some(Spot(ax, ay, Across))
    else if Fits(b, w, h, word, dx, dy, Down) then Some(Spot(dx, dy, Down))
    else None
  }

  /** Where `placeWordsGreedy` lays a word: the centre while nothing is placed, else the scan's find. */
  function Choose(b: Board, w: int, h: int, ps: seq<Placement>, word: string): Option<Spot>
    requires Rect(b, w, h) && w >= 0 && h >= 0
  {
    if ps == [] then CenterSpot(b, w, h, word)
    else
      match ScanRows(b, w, h, word, 0)
      case None => None
      case Some(t) => Some(SpotOf(t))
  }

  /** The solver's state: board, placements and skipped words. */
  datatype Solver = Solver(board: Board, placements: seq<Placement>, skipped: seq<string>)

  /** Tries one word: lays it where `Choose` says, or pushes it to `skipped`. */
  function Step(s: Solver, w: int, h: int, e: WordEntry): (r: Solver)
    requires Rect(s.board, w, h) && w >= 0 && h >= 0
    ensures Rect(r.board, w, h)
  {
    match Choose(s.board, w, h, s.placements, e.word)
    case None => s.(skipped := s.skipped + [e.word])
    case Some(p) =>
      Solver(Write(s.board, e.word, p.x, p.y, p.direction),
             s.placements + [Placement(e.word, e.clue, p.x, p.y, p.direction)], s.skipped)
  }

  /** `placeWordsGreedy`: one step per word, in list order. */
  function Run(s: Solver, w: int, h: int, ws: seq<WordEntry>): (r: Solver)
    requires Rect(s.board, w, h) && w >= 0 && h >= 0
    ensures Rect(r.board, w, h)
    decreases |ws|
  {
    if ws == [] then s else Run(Step(s, w, h, ws[0]), w, h, ws[1..])
  }

  /** Which words of the run were placed. */
  function Outcomes(s: Solver, w: int, h: int, ws: seq<WordEntry>): (o: seq<bool>)
    requires Rect(s.board, w, h) && w >= 0 && h >= 0
    ensures |o| == |ws|
    decreases |ws|
  {
    if ws == [] then []
    else [Choose(s.board, w, h, s.placements, ws[0].word).Some?] + Outcomes(Step(s, w, h, ws[0]), w, h, ws[1..])
  }

  /** When the scan finds trial `t`, a step lays the word at the start that `t` implies. */
  lemma StepAtScan(s: Solver, w: int, h: int, e: WordEntry, t: Trial)
    requires Rect(s.board, w, h) && w >= 0 && h >= 0 && s.placements != []
    requires ScanRows(s.board, w, h, e.word, 0) == Some(t)
    ensures var p := SpotOf(t);
            Step(s, w, h, e) == Solver(Write(s.board, e.word, p.x, p.y, p.direction),
                                       s.placements + [Placement(e.word, e.clue, p.x, p.y, p.direction)], s.skipped)
  {
  }

  /** A chosen spot is legal, and a chosen empty word still starts on the board. */
  lemma ChooseIsLegal(b: Board, w: int, h: int, ps: seq<Placement>, word: string)
    requires Rect(b, w, h) && w > 0 && h > 0
    ensures Choose(b, w, h, ps, word).Some? ==>
              var p := Choose(b, w, h, ps, word).value;
              Fits(b, w, h, word, p.x, p.y, p.direction) && InBoard(w, h, p.x, p.y)
  {
    var c := Choose(b, w, h, ps, word);
    if c.Some? {
      if ps == [] {
        FitsInside(b, w, h, word, c.value.x, c.value.y, c.value.direction);
      } else {
        ScanIsFirstCrossing(b, w, h, word);
        FitsInside(b, w, h, word, c.value.x, c.value.y, c.value.direction);
      }
    }
  }

  /**
   * On the empty board the first word is placed exactly when it is no longer than the
   * board's width or its height.
   */
  lemma FirstWordPlaced(w: nat, h: nat, word: string)
    requires w > 0 && h > 0
    ensures Choose(EmptyBoard(w, h), w, h, [], word).Some? <==> |word| <= w || |word| <= h
    ensures |word| <= w ==> Choose(EmptyBoard(w, h), w, h, [], word) == Some(Spot((w - |word|) / 2, h / 2, Across))
  {
    CenterOnEmpty(w, h, word);
  }

  lemma CenterOnEmpty(w: nat, h: nat, word: string)
    requires w > 0 && h > 0
    ensures CenterSpot(EmptyBoard(w, h), w, h, word) ==
              if |word| <= w then Some(Spot((w - |word|) / 2, h / 2, Across))
              else if |word| <= h then Some(Spot(w / 2, (h - |word|) / 2, Down))
              else None
  {
    var L := |word|;
    var ax, dy := (w - L) / 2, (h - L) / 2;
    assert 0 <= h / 2 < h && 0 <= w / 2 < w;
    assert L <= w <==> 0 <= ax && ax + L <= w;
    assert L <= h <==> 0 <= dy && dy + L <= h;
    EmptyBoardFits(w, h, word, ax, h / 2, Across);
    EmptyBoardFits(w, h, word, w / 2, dy, Down);
  }

  /** A word longer than both sides of the board is always skipped. */
  lemma TooLongIsSkipped(b: Board, w: int, h: int, ps: seq<Placement>, word: string)
    requires Rect(b, w, h) && w >= 0 && h >= 0 && |word| > w && |word| > h
    ensures Choose(b, w, h, ps, word) == None
  {
    var ax, ay := (w - |word|) / 2, h / 2;
    var dx, dy := w / 2, (h - |word|) / 2;
    TooLongNeverFits(b, w, h, word, ax, ay, Across);
    TooLongNeverFits(b, w, h, word, dx, dy, Down);
    forall y, x, i, d ensures !Crossing(b, w, h, word, y, x, i, d) {
      TooLongNeverFits(b, w, h, word, SpotX(x, i, d), SpotY(y, i, d), d);
    }
    ScanIsFirstCrossing(b, w, h, word);
  }

  // ------------------------------------------------------------------ what a run preserves

  /** Words remaining in a longest-first list are no longer than those already placed. */
  lemma LongestFirstTail(ws: seq<WordEntry>, ps0: seq<Placement>, ps1: seq<Placement>)
    requires |ws| > 0 && LongestFirst(ws, ps0) && NoneShorter(ws[0].word, ps1)
    ensures LongestFirst(ws[1..], ps1)
  {
    forall j | 0 <= j < |ws| - 1 ensures NoneShorter(ws[1..][j].word, ps1) {
      assert |ws[j + 1].word| <= |ws[0].word|;
    }
  }

  /** One step keeps the board consistent, and keeps the caps free when words come longest first. */
  lemma StepKeeps(s: Solver, w: int, h: int, e: WordEntry)
    requires Rect(s.board, w, h) && w > 0 && h > 0 && Consistent(s.board, w, h, s.placements)
    ensures Consistent(Step(s, w, h, e).board, w, h, Step(s, w, h, e).placements)
    ensures NoneShorter(e.word, s.placements) ==> NoneShorter(e.word, Step(s, w, h, e).placements)
    ensures CapsFree(s.board, w, h, s.placements) && NoneShorter(e.word, s.placements) ==>
              CapsFree(Step(s, w, h, e).board, w, h, Step(s, w, h, e).placements)
  {
    var c := Choose(s.board, w, h, s.placements, e.word);
    ChooseIsLegal(s.board, w, h, s.placements, e.word);
    if c.Some? {
      var p := c.value;
      WriteKeepsConsistent(s.board, w, h, s.placements, e.word, e.clue, p.x, p.y, p.direction);
      if CapsFree(s.board, w, h, s.placements) && NoneShorter(e.word, s.placements) {
        WriteKeepsCapsFree(s.board, w, h, s.placements, e.word, e.clue, p.x, p.y, p.direction);
      }
    }
  }

  /**
   * After a run every placement is spelled on the board, starts on it, and every letter
   * belongs to a placement; fed longest first, every front cap stays free.
   */
  lemma {:induction false} RunKeeps(s: Solver, w: int, h: int, ws: seq<WordEntry>)
    requires Rect(s.board, w, h) && w > 0 && h > 0 && Consistent(s.board, w, h, s.placements)
    ensures Consistent(Run(s, w, h, ws).board, w, h, Run(s, w, h, ws).placements)
    ensures CapsFree(s.board, w, h, s.placements) && LongestFirst(ws, s.placements) ==>
              CapsFree(Run(s, w, h, ws).board, w, h, Run(s, w, h, ws).placements)
    decreases |ws|
  {
    if ws != [] {
      var s1 := Step(s, w, h, ws[0]);
      StepKeeps(s, w, h, ws[0]);
      if LongestFirst(ws, s.placements) {
        LongestFirstTail(ws, s.placements, s1.placements);
      }
      RunKeeps(s1, w, h, ws[1..]);
    }
  }

  // ------------------------------------------------------------------ placed or skipped

  /** The entries of `ws` whose outcome is `keep`, in order. */
  function Chosen(ws: seq<WordEntry>, outcome: seq<bool>, keep: bool): seq<WordEntry>
    requires |outcome| == |ws|
  {
    if ws == [] then []
    else (if outcome[0] == keep then [ws[0]] else []) + Chosen(ws[1..], outcome[1..], keep)
  }

  /** The entries a placement list was made from. */
  function Entries(ps: seq<Placement>): (es: seq<WordEntry>)
    ensures |es| == |ps|
    ensures forall k :: 0 <= k < |ps| ==> es[k] == WordEntry(ps[k].word, ps[k].clue)
  {
    if ps == [] then [] else [WordEntry(ps[0].word, ps[0].clue)] + Entries(ps[1..])
  }

  function Texts(es: seq<WordEntry>): (ts: seq<string>)
    ensures |ts| == |es| && forall k :: 0 <= k < |es| ==> ts[k] == es[k].word
  {
    if es == [] then [] else [es[0].word] + Texts(es[1..])
  }

  /** Chosen and unchosen entries together are the list, each entry once. */
  lemma {:induction false} ChosenPartition(ws: seq<WordEntry>, outcome: seq<bool>)
    requires |outcome| == |ws|
    ensures multiset(Chosen(ws, outcome, true)) + multiset(Chosen(ws, outcome, false)) == multiset(ws)
    ensures |Chosen(ws, outcome, true)| + |Chosen(ws, outcome, false)| == |ws|
  {
    if ws != [] {
      ChosenPartition(ws[1..], outcome[1..]);
      assert ws == [ws[0]] + ws[1..];
    }
  }

  /** One step adds the entry to the placements if it was placed, else its word to `skipped`. */
  lemma StepAccounts(s: Solver, w: int, h: int, e: WordEntry)
    requires Rect(s.board, w, h) && w >= 0 && h >= 0
    ensures var placed := Choose(s.board, w, h, s.placements, e.word).Some?;
            && Entries(Step(s, w, h, e).placements) == Entries(s.placements) + (if placed then [e] else [])
            && Step(s, w, h, e).skipped == s.skipped + Texts(if placed then [] else [e])
  {
    var c := Choose(s.board, w, h, s.placements, e.word);
    if c.Some? {
      var p := Placement(e.word, e.clue, c.value.x, c.value.y, c.value.direction);
      assert Step(s, w, h, e).placements == s.placements + [p];
      EntriesAppend(s.placements, [p]);
    }
  }

  lemma AppendAssoc<T>(a: seq<T>, b: seq<T>, c: seq<T>)
    ensures (a + b) + c == a + (b + c)
  {
  }

  lemma EntriesAppend(ps: seq<Placement>, qs: seq<Placement>)
    ensures Entries(ps + qs) == Entries(ps) + Entries(qs)
  {
    if ps != [] {
      assert (ps + qs)[1..] == ps[1..] + qs;
      EntriesAppend(ps[1..], qs);
    }
  }

  lemma TextsAppend(es: seq<WordEntry>, fs: seq<WordEntry>)
    ensures Texts(es + fs) == Texts(es) + Texts(fs)
  {
    if es != [] {
      assert (es + fs)[1..] == es[1..] + fs;
      TextsAppend(es[1..], fs);
    }
  }

  /**
   * A run accounts for every word: the placements gain exactly the placed entries and
   * `skipped` gains exactly the words of the others, both in list order.
   */
  lemma {:induction false} RunAccounts(s: Solver, w: int, h: int, ws: seq<WordEntry>)
    requires Rect(s.board, w, h) && w >= 0 && h >= 0
    ensures Entries(Run(s, w, h, ws).placements) == Entries(s.placements) + Chosen(ws, Outcomes(s, w, h, ws), true)
    ensures Run(s, w, h, ws).skipped == s.skipped + Texts(Chosen(ws, Outcomes(s, w, h, ws), false))
    decreases |ws|
  {
    if ws != [] {
      var e := ws[0];
      var s1 := Step(s, w, h, e);
      var o := Outcomes(s, w, h, ws);
      var rest := Outcomes(s1, w, h, ws[1..]);
      RunAccounts(s1, w, h, ws[1..]);
      StepAccounts(s, w, h, e);
      assert o == [o[0]] + rest;
      var here := if o[0] then [e] else [];
      var gone := if o[0] then [] else [e];
      assert Chosen(ws, o, true) == here + Chosen(ws[1..], rest, true);
      assert Chosen(ws, o, false) == gone + Chosen(ws[1..], rest, false);
      TextsAppend(gone, Chosen(ws[1..], rest, false));
      var r := Run(s1, w, h, ws[1..]);
      assert Run(s, w, h, ws) == r;
      var a, c := Entries(s.placements), Chosen(ws[1..], rest, true);
      assert Entries(r.placements) == (a + here) + c;
      AppendAssoc(a, here, c);
      var k, t := s.skipped, Texts(Chosen(ws[1..], rest, false));
      assert r.skipped == (k + Texts(gone)) + t;
      AppendAssoc(k, Texts(gone), t);
    }
  }
}
