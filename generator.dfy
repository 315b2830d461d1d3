/**
 * The greedy crossword constructor of server/objects/GridGenerator.js: a class over a
 * `height` × `width` array of optional letters, pushed-to `placements` and `skipped`
 * lists, a ghost `board` mirroring the array, and the methods `generate`,
 * `placeWordsGreedy`, `canPlace`, `hasNeighbor`, `isValidCell`, `addWordToGrid` and
 * `compileGrid`.
 */
module Generator {
  import opened Wrappers
  import opened Crossword
  import Sorting
  import opened Greedy

  function LengthKey(e: WordEntry): int { |e.word| }

  /** The order `generate` tries the words in: a stable sort on descending word length. */
  function ByLength(words: seq<WordEntry>): seq<WordEntry>
  {
    Sorting.SortDesc(words, LengthKey)
  }

  /**
   * Words are tried longest first; the tried list is a permutation of the input, and words
   * of equal length keep their input order.
   */
  lemma ByLengthOrder(words: seq<WordEntry>)
    ensures forall i, j :: 0 <= i < j < |ByLength(words)| ==> |ByLength(words)[j].word| <= |ByLength(words)[i].word|
    ensures multiset(ByLength(words)) == multiset(words)
    ensures forall n :: Sorting.WithKey(ByLength(words), LengthKey, n) == Sorting.WithKey(words, LengthKey, n)
  {
    var s := ByLength(words);
    Sorting.SortDescSorted(words, LengthKey);
    Sorting.SortDescPermutes(words, LengthKey);
    forall i, j | 0 <= i < j < |s| ensures |s[j].word| <= |s[i].word| {
      assert LengthKey(s[i]) >= LengthKey(s[j]);
    }
    forall n ensures Sorting.WithKey(s, LengthKey, n) == Sorting.WithKey(words, LengthKey, n) {
      Sorting.SortDescStable(words, LengthKey, n);
    }
  }

  /**
   * `generate` accounts for every input word: the placed entries and the skipped ones are
   * together the input, each once, and `skipped` lists the words of the skipped entries in
   * the order they were tried.
   */
  lemma EveryWordAccounted(words: seq<WordEntry>, w: int, h: int)
    requires w > 0 && h > 0
    ensures var ws := ByLength(words);
            var s := Solver(EmptyBoard(w, h), [], []);
            var r, o := Run(s, w, h, ws), Outcomes(s, w, h, ws);
            && multiset(Entries(r.placements)) + multiset(Chosen(ws, o, false)) == multiset(words)
            && r.skipped == Texts(Chosen(ws, o, false))
  {
    var ws := ByLength(words);
    var s := Solver(EmptyBoard(w, h), [], []);
    var o := Outcomes(s, w, h, ws);
    Sorting.SortDescPermutes(words, LengthKey);
    ChosenPartition(ws, o);
    RunAccounts(s, w, h, ws);
    assert Entries([]) == [];
  }

  class GridGenerator {
    const words: seq<WordEntry>
    const width: int
    const height: int
    var grid: array2<Option<char>>
    var placements: seq<Placement>
    var skipped: seq<string>
    /** The letters of `grid`, as a value. */
    ghost var board: Board

    ghost predicate Valid()
      reads this, grid
    {
      && width > 0 && height > 0
      && grid.Length0 == height && grid.Length1 == width
      && Rect(board, width, height)
      && (forall y, x :: 0 <= y < height && 0 <= x < width ==> grid[y, x] == board[y][x])
    }

    constructor (words: seq<WordEntry>, width: int, height: int)
      requires width > 0 && height > 0
      ensures Valid() && fresh(grid)
      ensures this.words == words && this.width == width && this.height == height
      ensures board == EmptyBoard(width, height) && placements == [] && skipped == []
    {
      this.words := words;
      this.width := width;
      this.height := height;
      grid := new Option<char>[height, width]((y, x) => None);
      board := EmptyBoard(width, height);
      placements := [];
      skipped := [];
    }

    /** `isValidCell`. */
    function IsValidCell(x: int, y: int): (ok: bool)
      ensures ok <==> InBoard(width, height, x, y)
    {
      x >= 0 && x < width && y >= 0 && y < height
    }

    /** `hasNeighbor`: false off the board, else whether the cell holds a letter. */
    function HasNeighbor(x: int, y: int): (r: bool)
      reads this, grid
      requires Valid()
      ensures r == Occupied(board, width, height, x, y)
    {
      if !IsValidCell(x, y) then false else grid[y, x].Some?
    }

    /** `canPlace`: decides the legality predicate `Fits` on the current board. */
    method CanPlace(word: string, x: int, y: int, direction: Direction) returns (ok: bool)
      requires Valid() && ProbeSafe(width, height, word, x, y, direction)
      ensures ok == Fits(board, width, height, word, x, y, direction)
    {
      if x < 0 || y < 0 {
        return false;
      }
      if direction == Across {
        if x + |word| > width {
          return false;
        }
      } else {
        if y + |word| > height {
          return false;
        }
      }
      for i := 0 to |word|
        invariant forall k :: 0 <= k < i ==> LetterFits(board, width, height, word, x, y, direction, k)
      {
        var curX, curY := Col(x, direction, i), Row(y, direction, i);
        var cell := grid[curY, curX];
        if cell.Some? {
          if cell.value != word[i] {
            assert !LetterFits(board, width, height, word, x, y, direction, i);
            return false;
          }
        } else {
          if direction == Across {
            if HasNeighbor(curX, curY - 1) {
              assert !LetterFits(board, width, height, word, x, y, direction, i);
              return false;
            }
            if HasNeighbor(curX, curY + 1) {
              assert !LetterFits(board, width, height, word, x, y, direction, i);
              return false;
            }
          } else {
            if HasNeighbor(curX - 1, curY) {
              assert !LetterFits(board, width, height, word, x, y, direction, i);
              return false;
            }
            if HasNeighbor(curX + 1, curY) {
              assert !LetterFits(board, width, height, word, x, y, direction, i);
              return false;
            }
          }
        }
      }
      var startPrevX := if direction == Across then x - 1 else x;
      var startPrevY := if direction == Across then y else y - 1;
      if IsValidCell(startPrevX, startPrevY) && grid[startPrevY, startPrevX].Some? {
        return false;
      }
      var endNextX := if direction == Across then x + |word| else x;
      var endNextY := if direction == Across then y else y + |word|;
      if IsValidCell(endNextX, endNextY) && grid[endNextY, endNextX].Some? {
        return false;
      }
      return true;
    }

    /** `addWordToGrid`: writes the word's letters into the grid and records the placement. */
    method AddWordToGrid(entry: WordEntry, x: int, y: int, direction: Direction)
      requires Valid() && AllInside(width, height, |entry.word|, x, y, direction)
      modifies this, grid
      ensures Valid() && grid == old(grid)
      ensures board == Write(old(board), entry.word, x, y, direction)
      ensures placements == old(placements) + [Placement(entry.word, entry.clue, x, y, direction)]
      ensures skipped == old(skipped)
    {
      ghost var b0 := board;
      for i := 0 to |entry.word|
        invariant grid == old(grid) && board == b0 && placements == old(placements) && skipped == old(skipped)
        invariant forall yy, xx :: 0 <= yy < height && 0 <= xx < width ==>
          grid[yy, xx] == if Covers(i, x, y, direction, xx, yy) then Some(entry.word[Offset(x, y, direction, xx, yy)]) else b0[yy][xx]
      {
        var curX, curY := Col(x, direction, i), Row(y, direction, i);
        grid[curY, curX] := Some(entry.word[i]);
      }
      board := Write(b0, entry.word, x, y, direction);
      placements := placements + [Placement(entry.word, entry.clue, x, y, direction)];
    }

    /** The solver's state as a value. */
    ghost function State(): Solver
      reads this
    {
      Solver(board, placements, skipped)
    }

    /** Branch A of `placeWordsGreedy`: nothing is placed yet, so try the centre. */
    method CenterWord(entry: WordEntry) returns (placed: bool)
      requires Valid() && placements == []
      modifies this, grid
      ensures Valid() && grid == old(grid)
      ensures placed == Choose(old(board), width, height, old(placements), entry.word).Some?
      ensures placed ==> State() == Step(old(State()), width, height, entry)
      ensures !placed ==> State() == old(State())
    {
      var word := entry.word;
      var spot := None;
      var startX := (width - |word|) / 2;
      var startY := height / 2;
      var fitsAcross := CanPlace(word, startX, startY, Across);
      if fitsAcross {
        spot := Some(Spot(startX, startY, Across));
      } else {
        var fitsDown := CanPlace(word, width / 2, (height - |word|) / 2, Down);
        if fitsDown {
          spot := Some(Spot(width / 2, (height - |word|) / 2, Down));
        }
      }
      assert spot == Choose(board, width, height, placements, word);
      placed := spot.Some?;
      if placed {
        Lay(entry, spot.value);
      }
    }

    /** Branch B of `placeWordsGreedy`: the row-major scan for the first legal crossing. */
    method CrossWord(entry: WordEntry) returns (placed: bool)
      requires Valid() && placements != []
      modifies this, grid
      ensures Valid() && grid == old(grid)
      ensures placed == Choose(old(board), width, height, old(placements), entry.word).Some?
      ensures placed ==> State() == Step(old(State()), width, height, entry)
      ensures !placed ==> State() == old(State())
    {
      var word := entry.word;
      var found := Trial(0, 0, 0, Across);
      placed := false;
      label outerLoop: for y := 0 to height
        invariant !placed
        modifies {}
        invariant ScanRows(board, width, height, word, 0) == ScanRows(board, width, height, word, y)
      {
        for x := 0 to width
          invariant !placed
          modifies {}
          invariant ScanRows(board, width, height, word, 0)
                    == OrElse(ScanCells(board, width, height, word, y, x), ScanRows(board, width, height, word, y + 1))
        {
          if grid[y, x].Some? {
            var t := TryOffsets(word, x, y);
            if t.Some? {
              found := t.value;
              placed := true;
              break outerLoop;
            }
          }
        }
      }
      if placed {
        assert ScanRows(board, width, height, word, 0) == Some(found);
        Lay(entry, SpotOf(found));
      } else {
        assert ScanRows(board, width, height, word, 0) == None;
      }
    }

    /** The offset loop of branch B at the occupied cell `(x, y)`: the first offset whose letter matches and whose word fits. */
    method TryOffsets(word: string, x: int, y: int) returns (t: Option<Trial>)
      requires Valid() && 0 <= x < width && 0 <= y < height && grid[y, x].Some?
      ensures t == ScanOffsets(board, width, height, word, y, x, 0)
    {
      var cell := grid[y, x];
      for i := 0 to |word|
        invariant ScanOffsets(board, width, height, word, y, x, 0) == ScanOffsets(board, width, height, word, y, x, i)
      {
        if word[i] == cell.value {
          var fitsAcross := CanPlace(word, x - i, y, Across);
          if fitsAcross {
            return Some(Trial(y, x, i, Across));
          }
          var fitsDown := CanPlace(word, x, y - i, Down);
          if fitsDown {
            return Some(Trial(y, x, i, Down));
          }
        }
      }
      return None;
    }

    /** Lays `entry` at the spot `Choose` picked (the `addWordToGrid` call of both branches). */
    method Lay(entry: WordEntry, spot: Spot)
      requires Valid() && Choose(board, width, height, placements, entry.word) == Some(spot)
      modifies this, grid
      ensures Valid() && grid == old(grid)
      ensures State() == Step(old(State()), width, height, entry)
    {
      ChooseIsLegal(board, width, height, placements, entry.word);
      FitsInside(board, width, height, entry.word, spot.x, spot.y, spot.direction);
      AddWordToGrid(entry, spot.x, spot.y, spot.direction);
    }

    /**
     * One step of `placeWordsGreedy`: lay `entry` at the centre while nothing is placed yet,
     * otherwise at the first legal crossing of the row-major scan; record its word as
     * skipped if neither works.
     */
    method PlaceWord(entry: WordEntry) returns (placed: bool)
      requires Valid()
      modifies this, grid
      ensures Valid() && grid == old(grid)
      ensures placed == Choose(old(board), width, height, old(placements), entry.word).Some?
      ensures State() == Step(old(State()), width, height, entry)
    {
      if |placements| == 0 {
        placed := CenterWord(entry);
      } else {
        placed := CrossWord(entry);
      }
      if !placed {
        skipped := skipped + [entry.word];
      }
    }

    /** `placeWordsGreedy`: tries every word once, in list order, recursing on the rest. */
    method PlaceWordsGreedy(wordList: seq<WordEntry>)
      requires Valid()
      modifies this, grid
      ensures Valid() && grid == old(grid)
      ensures State() == Run(old(State()), width, height, wordList)
      decreases |wordList|
    {
      if |wordList| == 0 {
        return;
      }
      var currentWordObj := wordList[0];
      var remainingWords := wordList[1..];
      var placed := PlaceWord(currentWordObj);
      PlaceWordsGreedy(remainingWords);
    }

    /**
     * `compileGrid`: every cell black unless it holds a letter, which becomes its `correct`
     * value; start cells numbered 1, 2, … in row-major order; each placement reported with
     * the number of its start cell.
     */
    method CompileGrid() returns (output: array2<Cell>, clues: seq<Clue>, skippedWords: seq<string>)
      requires Valid()
      requires forall k :: 0 <= k < |placements| ==> InBoard(width, height, placements[k].x, placements[k].y)
      ensures fresh(output) && output.Length0 == height && output.Length1 == width
      ensures forall y, x :: 0 <= y < height && 0 <= x < width ==> output[y, x] == Compiled(board, width, height, x, y)
      ensures |clues| == |placements|
      ensures forall k :: 0 <= k < |placements| ==>
                var p := placements[k];
                clues[k] == Clue(p.word, p.clue, p.x, p.y, p.direction, Number(board, width, height, p.x, p.y))
      ensures skippedWords == skipped
    {
      output := MarkLetters();
      NumberStarts(output);
      clues := [];
      for k := 0 to |placements|
        invariant |clues| == k
        invariant forall j :: 0 <= j < k ==>
                    var p := placements[j];
                    clues[j] == Clue(p.word, p.clue, p.x, p.y, p.direction, Number(board, width, height, p.x, p.y))
      {
        var p := placements[k];
        var cell := output[p.y, p.x];
        clues := clues + [Clue(p.word, p.clue, p.x, p.y, p.direction, cell.number)];
      }
      skippedWords := skipped;
    }

    /** The first pass of `compileGrid`: all black, then every letter cell white with its letter. */
    method MarkLetters() returns (output: array2<Cell>)
      requires Valid()
      ensures fresh(output) && output.Length0 == height && output.Length1 == width
      ensures forall y, x :: 0 <= y < height && 0 <= x < width ==> output[y, x] == Unnumbered(board, width, height, x, y)
    {
      output := new Cell[height, width]((y, x) => BlackCell());
      for y := 0 to height
        invariant forall yy, xx :: 0 <= yy < height && 0 <= xx < width ==>
                    output[yy, xx] == if yy < y then Unnumbered(board, width, height, xx, yy) else BlackCell()
      {
        for x := 0 to width
          invariant forall yy, xx :: 0 <= yy < height && 0 <= xx < width ==>
                      output[yy, xx] == if yy < y || (yy == y && xx < x) then Unnumbered(board, width, height, xx, yy) else BlackCell()
        {
          var cell := grid[y, x];
          if cell.Some? {
            output[y, x] := output[y, x].(isBlack := false, correct := [cell.value]);
          }
        }
      }
    }

    /** The second pass of `compileGrid`: number the start cells in row-major order from 1. */
    method NumberStarts(output: array2<Cell>)
      requires Valid() && output.Length0 == height && output.Length1 == width
      requires forall y, x :: 0 <= y < height && 0 <= x < width ==> output[y, x] == Unnumbered(board, width, height, x, y)
      modifies output
      ensures forall y, x :: 0 <= y < height && 0 <= x < width ==> output[y, x] == Compiled(board, width, height, x, y)
    {
      var numberCounter := 1;
      for y := 0 to height
        invariant numberCounter == 1 + StartsAbove(board, width, height, y)
        invariant NumberedBefore(output, 0, y)
      {
        for x := 0 to width
          invariant numberCounter == 1 + StartsBefore(board, width, height, x, y)
          invariant NumberedBefore(output, x, y)
        {
          numberCounter := NumberCell(output, x, y, numberCounter);
        }
        assert NumberedBefore(output, 0, y + 1) by {
          RowDone(output, y);
        }
      }
    }

    /** The cells before `(x, y)` in row-major order are numbered, the others not yet. */
    ghost predicate NumberedBefore(output: array2<Cell>, x: int, y: int)
      requires Valid() && output.Length0 == height && output.Length1 == width
      reads this, grid, output
    {
      forall yy, xx :: 0 <= yy < height && 0 <= xx < width ==>
        output[yy, xx] == if yy < y || (yy == y && xx < x) then Compiled(board, width, height, xx, yy)
                          else Unnumbered(board, width, height, xx, yy)
    }

    lemma RowDone(output: array2<Cell>, y: int)
      requires Valid() && output.Length0 == height && output.Length1 == width
      requires NumberedBefore(output, width, y)
      ensures NumberedBefore(output, 0, y + 1)
    {
    }

    /** One cell of the second pass: a white start cell takes the counter, which then moves on. */
    method NumberCell(output: array2<Cell>, x: int, y: int, numberCounter: int) returns (next: int)
      requires Valid() && output.Length0 == height && output.Length1 == width
      requires 0 <= x < width && 0 <= y < height
      requires numberCounter == 1 + StartsBefore(board, width, height, x, y)
      requires NumberedBefore(output, x, y)
      modifies output
      ensures next == 1 + StartsBefore(board, width, height, x + 1, y)
      ensures NumberedBefore(output, x + 1, y)
    {
      next := numberCounter;
      if output[y, x].isBlack {
        return;
      }
      var isStart := StartAt(output, x, y);
      if isStart {
        output[y, x] := output[y, x].(number := Some(numberCounter));
        next := numberCounter + 1;
      }
    }

    /** The start-cell test of `compileGrid` at the white cell `(x, y)`, read off the black flags of `output`. */
    method StartAt(output: array2<Cell>, x: int, y: int) returns (isStart: bool)
      requires Valid() && output.Length0 == height && output.Length1 == width
      requires 0 <= x < width && 0 <= y < height && NumberedBefore(output, x, y) && !output[y, x].isBlack
      ensures isStart == IsStart(board, width, height, x, y)
    {
      assert board[y][x].Some?;
      isStart := false;
      if (x == 0 || output[y, x - 1].isBlack) && (x + 1 < width && !output[y, x + 1].isBlack) {
        isStart := true;
      }
      if (y == 0 || output[y - 1, x].isBlack) && (y + 1 < height && !output[y + 1, x].isBlack) {
        isStart := true;
      }
    }

    /**
     * `generate`: sorts the words longest first, clears the state, places them greedily and
     * compiles the result.
     */
    method Generate() returns (output: array2<Cell>, clues: seq<Clue>, skippedWords: seq<string>)
      requires Valid()
      modifies this
      ensures Valid() && fresh(grid) && fresh(output)
      ensures State() == Run(Solver(EmptyBoard(width, height), [], []), width, height, ByLength(words))
      ensures Consistent(board, width, height, placements)
      ensures output.Length0 == height && output.Length1 == width
      ensures forall y, x :: 0 <= y < height && 0 <= x < width ==> output[y, x] == Compiled(board, width, height, x, y)
      ensures |clues| == |placements|
      ensures forall k :: 0 <= k < |placements| ==>
                var p := placements[k];
                clues[k] == Clue(p.word, p.clue, p.x, p.y, p.direction, Number(board, width, height, p.x, p.y))
      ensures forall k :: 0 <= k < |clues| && |clues[k].word| >= 2 ==> clues[k].number.Some?
      ensures skippedWords == skipped
    {
      var sortedWords := ByLength(words);
      grid := new Option<char>[height, width]((y, x) => None);
      board := EmptyBoard(width, height);
      placements := [];
      skipped := [];
      PlaceWordsGreedy(sortedWords);
      GreedyLayout(words, width, height);
      output, clues, skippedWords := CompileGrid();
      forall k | 0 <= k < |clues| && |clues[k].word| >= 2 ensures clues[k].number.Some? {
        LongWordsAreNumbered(board, width, height, placements, k);
      }
    }
  }

  /**
   * What `generate` guarantees of its layout: every placement is spelled on the board from
   * a start cell on the board, every letter belongs to a placement, and no placed word has
   * a letter just before its first one.
   */
  lemma GreedyLayout(words: seq<WordEntry>, w: int, h: int)
    requires w > 0 && h > 0
    ensures var r := Run(Solver(EmptyBoard(w, h), [], []), w, h, ByLength(words));
            Consistent(r.board, w, h, r.placements) && CapsFree(r.board, w, h, r.placements)
  {
    var ws := ByLength(words);
    ByLengthOrder(words);
    var s := Solver(EmptyBoard(w, h), [], []);
    RunKeeps(s, w, h, ws);
  }
}
