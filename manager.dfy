/**
 * `GameManager` of server/objects/GameManager.js: one running game of a session. Its fields
 * are updated in place by the socket handlers; every method is proved to move the state as
 * the corresponding function of module `Game` says, so the invariant and the bookkeeping
 * proved there hold of the class.
 *
 * The session's player map, which the game shares, is passed to each method as `players`.
 */
module Manager {
  import opened Wrappers
  import opened Text
  import opened Crossword
  import opened Roster
  import opened Game
  import opened Generator
  import Greedy

  /** The grid `generate` builds from the custom words, and its clues, on a `w` by `h` board. */
  ghost predicate Generated(words: seq<WordEntry>, w: int, h: int, g: Grid, clues: seq<Clue>)
    requires w > 0 && h > 0
  {
    var r := Greedy.Run(Greedy.Solver(EmptyBoard(w, h), [], []), w, h, ByLength(words));
    && Rect(r.board, w, h)
    && Shaped(g, w, h)
    && (forall y, x :: 0 <= y < h && 0 <= x < w ==> g[y][x] == Compiled(r.board, w, h, x, y))
    && |clues| == |r.placements|
    && (forall k :: 0 <= k < |clues| ==>
          clues[k].word == r.placements[k].word && clues[k].clue == r.placements[k].clue &&
          clues[k].x == r.placements[k].x && clues[k].y == r.placements[k].y &&
          clues[k].direction == r.placements[k].direction)
  }

  /** The rows of a two-dimensional array, as a grid value. */
  method RowsOf(a: array2<Cell>) returns (g: Grid)
    ensures Shaped(g, a.Length1, a.Length0)
    ensures forall y, x :: 0 <= y < a.Length0 && 0 <= x < a.Length1 ==> g[y][x] == a[y, x]
  {
    g := [];
    for y := 0 to a.Length0
      invariant |g| == y
      invariant forall yy :: 0 <= yy < y ==> |g[yy]| == a.Length1
      invariant forall yy, x :: 0 <= yy < y && 0 <= x < a.Length1 ==> g[yy][x] == a[yy, x]
    {
      var row: seq<Cell> := [];
      for x := 0 to a.Length1
        invariant |row| == x
        invariant forall xx :: 0 <= xx < x ==> row[xx] == a[y, xx]
      {
        row := row + [a[y, x]];
      }
      g := g + [row];
    }
  }

  /** `baseClues.filter(...)`: the indices of the clues whose word runs through `(x, y)`, ascending. */
  method RelevantClues(clues: seq<Clue>, x: int, y: int) returns (js: seq<nat>)
    ensures js == Relevant(clues, x, y, 0)
  {
    js := [];
    for i := 0 to |clues|
      invariant js + Relevant(clues, x, y, i) == Relevant(clues, x, y, 0)
    {
      var c := clues[i];
      var hit := if c.direction == Across then c.y == y && x >= c.x && x < c.x + |c.word|
                 else c.x == x && y >= c.y && y < c.y + |c.word|;
      RelevantStep(clues, x, y, i);
      assert hit == CoversClue(c, x, y);
      if hit {
        assert js + ([i] + Relevant(clues, x, y, i + 1)) == (js + [i]) + Relevant(clues, x, y, i + 1);
        js := js + [i];
      }
    }
  }

  /** One step of `Relevant`, stated without its quantified postconditions. */
  lemma RelevantStep(clues: seq<Clue>, x: int, y: int, i: nat)
    requires i < |clues|
    ensures Relevant(clues, x, y, i) == (if CoversClue(clues[i], x, y) then [i] else []) + Relevant(clues, x, y, i + 1)
  {
  }

  /** The `provideHint` scan: every white, unsolved, wrong cell, row by row. */
  method CollectCandidates(g: Grid) returns (cs: seq<Pos>)
    ensures cs == Candidates(g)
  {
    cs := [];
    for r := 0 to |g|
      invariant cs + CandidatesFrom(g, r, 0) == Candidates(g)
    {
      cs := CollectRow(g, r, cs);
    }
  }

  /** The inner `forEach` of the scan: appends the candidates of row `r` to `cs0`. */
  method CollectRow(g: Grid, r: nat, cs0: seq<Pos>) returns (cs: seq<Pos>)
    requires r < |g|
    ensures cs + CandidatesFrom(g, r + 1, 0) == cs0 + CandidatesFrom(g, r, 0)
  {
    cs := cs0;
    for c := 0 to |g[r]|
      invariant cs + CandidatesFrom(g, r, c) == cs0 + CandidatesFrom(g, r, 0)
    {
      var cell := g[r][c];
      CandidatesStep(g, r, c);
      ghost var here := if Candidate(cell) then [Pos(r, c)] else [];
      Regroup(cs, here, CandidatesFrom(g, r, c + 1));
      ghost var cs1 := cs + here;
      if !cell.isBlack && !cell.isSolved && cell.value != cell.correct {
        cs := cs + [Pos(r, c)];
      }
      assert cs == cs1;
    }
    assert CandidatesFrom(g, r, |g[r]|) == CandidatesFrom(g, r + 1, 0);
  }

  /** Concatenation regrouped. */
  lemma Regroup(a: seq<Pos>, b: seq<Pos>, c: seq<Pos>)
    ensures a + (b + c) == (a + b) + c
  {
  }

  /** One step of `CandidatesFrom` inside a row, stated without its quantified postcondition. */
  lemma CandidatesStep(g: Grid, r: nat, c: nat)
    requires r < |g| && c < |g[r]|
    ensures CandidatesFrom(g, r, c) == (if Candidate(g[r][c]) then [Pos(r, c)] else []) + CandidatesFrom(g, r, c + 1)
  {
  }

  /** The `cellsToUpdate.forEach` marking loop: each letter cell of the word takes the source letter and the solver. */
  method StampWord(g: Grid, src: Grid, c: Clue, pid: string, team: Option<int>) returns (r: Grid)
    requires SameShape(g, src) && Inside(g, c)
    ensures r == Stamp(g, src, c, pid, team)
  {
    r := g;
    for i := 0 to |c.word|
      invariant SameShape(r, g)
      invariant forall y, x :: InGrid(g, x, y) ==>
                  r[y][x] == if Covers(i, c.x, c.y, c.direction, x, y) then SolvedCell(g[y][x], src[y][x], pid, team) else g[y][x]
    {
      var cx := if c.direction == Across then c.x + i else c.x;
      var cy := if c.direction == Across then c.y else c.y + i;
      assert InGrid(g, Col(c.x, c.direction, i), Row(c.y, c.direction, i));
      r := Put(r, cx, cy, SolvedCell(g[cy][cx], src[cy][cx], pid, team));
    }
    var st := Stamp(g, src, c, pid, team);
    assert |r| == |st|;
    forall y | 0 <= y < |r| ensures r[y] == st[y] {
      assert |r[y]| == |st[y]|;
      forall x | 0 <= x < |r[y]| ensures r[y][x] == st[y][x] {
        assert InGrid(g, x, y);
      }
    }
  }

  /** `checkForWin`'s `every`: whether every letter cell of every clue is solved. */
  method AllCluesSolved(g: Grid, clues: seq<Clue>) returns (all: bool)
    requires forall j :: 0 <= j < |clues| ==> Inside(g, clues[j])
    ensures all == AllSolved(g, clues)
  {
    for j := 0 to |clues|
      invariant forall jj, i :: 0 <= jj < j && 0 <= i < |clues[jj].word| ==> At(g, clues[jj], i).isSolved
    {
      var clue := clues[j];
      for i := 0 to |clue.word|
        invariant forall ii :: 0 <= ii < i ==> At(g, clue, ii).isSolved
      {
        var cx := if clue.direction == Across then clue.x + i else clue.x;
        var cy := if clue.direction == Across then clue.y else clue.y + i;
        assert Inside(g, clue) && cx == Col(clue.x, clue.direction, i) && cy == Row(clue.y, clue.direction, i);
        if !g[cy][cx].isSolved {
          assert !At(g, clues[j], i).isSolved;
          return false;
        }
      }
    }
    return true;
  }

  /** `broadcastState`'s team loop: the sockets of the connected players on team `team`, in order. */
  method TeamSocketsOf(vs: seq<Player>, team: Option<int>) returns (ids: seq<string>)
    ensures ids == TeamSockets(vs, team)
  {
    ids := [];
    var i := |vs|;
    while i > 0
      invariant 0 <= i <= |vs|
      invariant ids == TeamSockets(vs[i..], team)
    {
      i := i - 1;
      assert vs[i..][1..] == vs[i + 1..];
      if vs[i].teamId == team && Connected(vs[i]) {
        ids := [vs[i].socketId.value] + ids;
      }
    }
    assert vs[0..] == vs;
  }

  class GameManager {
    const setup: Setup
    var timeRemaining: int
    var status: Status
    var timerOn: bool
    var grids: map<string, Grid>
    var cursors: map<string, Cursor>
    var scores: map<string, int>
    var wordsSolved: map<string, int>
    var hintsUsed: map<string, int>
    /** How many game-over broadcasts have been sent. */
    var gameOvers: nat
    /** Every scored word so far, in order. */
    ghost var awards: seq<Award>

    ghost function State(): Play
      reads this
    {
      Play(timeRemaining, status, timerOn, grids, cursors, scores, wordsSolved, hintsUsed, gameOvers, awards)
    }

    ghost predicate Valid()
      reads this
    {
      PlayOk(setup, State())
    }

    /**
     * The constructor: the base grid comes from the custom words on a 15 by 15 board when
     * there are any, and is the stand-in grid without clues otherwise; the mode's standing
     * grid is a copy of it.
     */
    constructor (settings: Settings)
      ensures Valid() && State() == NewPlay(setup, settings.timeLimit)
      ensures setup.mode == ParseMode(settings.mode)
      ensures settings.customWords.Some? && |settings.customWords.value| > 0 ==>
                setup.width == 15 && setup.height == 15 &&
                Generated(settings.customWords.value, 15, 15, setup.baseGrid, setup.baseClues)
      ensures !(settings.customWords.Some? && |settings.customWords.value| > 0) ==>
                setup.width == 10 && setup.height == 10 && setup.baseGrid == MockGrid() && setup.baseClues == []
    {
      var mode := ParseMode(settings.mode);
      var su: Setup;
      if settings.customWords.Some? && |settings.customWords.value| > 0 {
        var words := settings.customWords.value;
        var generator := new GridGenerator(words, 15, 15);
        var output, clues, _ := generator.Generate();
        var base := RowsOf(output);
        BaseCluesInside(generator.board, 15, 15, generator.placements, clues);
        su := Setup(mode, 15, 15, base, clues);
      } else {
        su := Setup(mode, 10, 10, MockGrid(), []);
      }
      var start := NewPlay(su, settings.timeLimit);
      NewPlayOk(su, settings.timeLimit);
      setup := su;
      timeRemaining := start.timeRemaining;
      status := Active;
      timerOn := false;
      grids := start.grids;
      cursors := map[];
      scores := map[];
      wordsSolved := map[];
      hintsUsed := map[];
      gameOvers := 0;
      awards := [];
    }

    /**
     * `getGridFor`: the grid the player plays on, created on first use in Competitive mode
     * and for a team in Teams mode. The key under which it is stored is returned with it.
     */
    method GetGridFor(players: Players, pid: string) returns (grid: Option<Grid>, key: string)
      modifies this
      ensures State() == old(State()).(grids := Materialize(setup.mode, setup.baseGrid, old(grids), players, pid))
      ensures key == ViewKey(setup.mode, players, pid)
      ensures grid == if key in grids then Some(grids[key]) else None
    {
      key := ViewKey(setup.mode, players, pid);
      if setup.mode == CoOp {
        grid := if SharedKey in grids then Some(grids[SharedKey]) else None;
        return;
      }
      if setup.mode == Teams {
        if !(pid in players.byId && HasTeam(players.byId[pid])) {
          grid := if GlobalKey in grids then Some(grids[GlobalKey]) else None;
          return;
        }
        if key !in grids {
          var globalState := if GlobalKey in grids then grids[GlobalKey] else setup.baseGrid;
          grids := grids[key := globalState];
        }
        grid := Some(grids[key]);
        return;
      }
      if pid !in grids {
        grids := grids[pid := setup.baseGrid];
      }
      grid := Some(grids[pid]);
    }

    /** `start`: the timer begins. */
    method Start()
      modifies this
      ensures State() == Game.Start(old(State()))
    {
      timerOn := true;
    }

    /** `tick`, once a second while the timer runs. */
    method Tick()
      modifies this
      ensures State() == Game.Tick(old(State()))
    {
      if status != Active {
        return;
      }
      timeRemaining := timeRemaining - 1;
      if timeRemaining <= 0 {
        EndGame();
      }
    }

    /** `extendTime`: five more minutes; an ended game resumes. */
    method ExtendTime()
      modifies this
      ensures State() == Game.ExtendTime(old(State()))
    {
      timeRemaining := timeRemaining + 300;
      if status == Ended {
        status := Active;
        timerOn := true;
      }
    }

    /** `handleSelect`: records the player's cursor. */
    method HandleSelect(pid: string, x: int, y: int)
      modifies this
      ensures State() == Select(old(State()), pid, x, y)
    {
      cursors := cursors[pid := Cursor(x, y)];
    }

    /** `endGame`: the timer stops, the game is ENDED and game-over is broadcast. */
    method EndGame()
      modifies this
      ensures State() == Game.EndGame(old(State()))
    {
      timerOn := false;
      status := Ended;
      gameOvers := gameOvers + 1;
    }

    /** `broadcastState`: where the grid update of an action by `pid` is sent. */
    method BroadcastState(players: Players, pid: string) returns (route: Route)
      requires players.Valid()
      ensures route == Broadcast(setup.mode, players, pid)
    {
      if setup.mode == CoOp {
        return Room;
      } else if setup.mode == Teams {
        if pid in players.byId && HasTeam(players.byId[pid]) {
          var ids := TeamSocketsOf(players.Values(), players.byId[pid].teamId);
          return Sockets(ids);
        }
      }
      route := if pid in players.byId && Connected(players.byId[pid]) then Sockets([players.byId[pid].socketId.value]) else Sockets([]);
    }

    /**
     * `handleInput`: a letter typed by `pid` at `(x, y)` of their grid, ignored unless the
     * game is active and the cell is a white, unsolved cell; the words through the cell are
     * judged and the grid is broadcast. `sent` is where the grid update goes.
     */
    method HandleInput(players: Players, pid: string, x: int, y: int, letter: string) returns (sent: Option<Route>)
      requires Valid() && players.Valid()
      modifies this
      ensures Valid()
      ensures State() == Input(setup, old(State()), players, pid, x, y, letter)
      ensures sent == if InputReaches(setup, old(State()), players, pid, x, y) then Some(Broadcast(setup.mode, players, pid)) else None
    {
      InputOk(setup, State(), players, pid, x, y, letter);
      ghost var p0 := State();
      if status != Active {
        return None;
      }
      MaterializeShapes(setup, grids, players, pid);
      var grid, key := GetGridFor(players, pid);
      ghost var served := State();
      assert served == p0.(grids := Materialize(setup.mode, setup.baseGrid, p0.grids, players, pid));
      if grid.None? {
        return None;
      }
      var g: Grid := grid.value;
      if !(0 <= y < |g| && 0 <= x < |g[y]|) {
        return None;
      }
      var cell: Cell := g[y][x];
      if cell.isBlack || cell.isSolved {
        return None;
      }
      assert InputReaches(setup, p0, players, pid, x, y);
      assert Typed(setup, p0, players, pid, x, y, letter) == served.(grids := served.grids[key := Put(g, x, y, cell.(value := ToUpper(letter)))]);
      TypeLetter(players, pid, key, x, y, letter);
      var route := BroadcastState(players, pid);
      sent := Some(route);
    }

    /** The typing half of `handleInput`: the upper-cased letter goes into the served cell and the words through it are judged. */
    method TypeLetter(players: Players, pid: string, key: string, x: int, y: int, letter: string)
      requires SetupOk(setup) && Shapes(setup, grids) && key in grids && players.Valid() && InGrid(grids[key], x, y)
      modifies this
      ensures var g: Grid := old(grids)[key];
              var cell: Cell := g[y][x];
              State() == JudgeAll(setup, old(State()).(grids := old(grids)[key := Put(g, x, y, cell.(value := ToUpper(letter)))]),
                                  players, key, Relevant(setup.baseClues, x, y, 0), pid)
    {
      var g: Grid := grids[key];
      var cell: Cell := g[y][x];
      grids := grids[key := Put(g, x, y, cell.(value := ToUpper(letter)))];
      CheckWordComplete(players, key, x, y, pid);
    }

    /**
     * `provideHint`: while the game is active and `pid` has used fewer than 20 hints, one
     * cell that is not yet right is filled with its answer and flagged as a hint; `draw`
     * stands for the random number that picks it. The words through it are then judged.
     */
    method ProvideHint(players: Players, pid: string, draw: nat) returns (sent: Option<Route>)
      requires Valid() && players.Valid()
      modifies this
      ensures Valid()
      ensures State() == Hint(setup, old(State()), players, pid, draw)
      ensures sent == if HintReaches(setup, old(State()), players, pid) then Some(Broadcast(setup.mode, players, pid)) else None
    {
      HintOk(setup, State(), players, pid, draw);
      if status != Active {
        return None;
      }
      var used := Get(hintsUsed, pid);
      if used >= HintCap {
        return None;
      }
      sent := RevealHint(players, pid, draw);
    }

    /** The part of `provideHint` past its two guards. */
    method RevealHint(players: Players, pid: string, draw: nat) returns (sent: Option<Route>)
      requires Valid() && players.Valid() && status == Active && Get(hintsUsed, pid) < HintCap
      modifies this
      ensures State() == Hint(setup, old(State()), players, pid, draw)
      ensures sent == if HintReaches(setup, old(State()), players, pid) then Some(Broadcast(setup.mode, players, pid)) else None
    {
      var target, key := PlaceHint(players, pid, draw);
      if target.None? {
        return None;
      }
      CheckWordComplete(players, key, target.value.c, target.value.r, pid);
      var route := BroadcastState(players, pid);
      sent := Some(route);
    }

    /**
     * The grid of `provideHint`: the player's grid is served, its hint candidates listed and,
     * if there are any, the drawn one filled in and flagged, and the player's hint count
     * raised. The cell is returned with the grid's key.
     */
    method PlaceHint(players: Players, pid: string, draw: nat) returns (target: Option<Pos>, key: string)
      requires SetupOk(setup) && Shapes(setup, grids) && status == Active && Get(hintsUsed, pid) < HintCap
      requires setup.mode == CoOp ==> SharedKey in grids
      requires setup.mode == Teams ==> GlobalKey in grids
      modifies this
      ensures key == ViewKey(setup.mode, players, pid)
      ensures HintReaches(setup, old(State()), players, pid) ==>
                && State() == Hinted(setup, old(State()), players, pid, draw)
                && target == Some(HintTarget(Materialize(setup.mode, setup.baseGrid, old(grids), players, pid)[key], draw))
      ensures !HintReaches(setup, old(State()), players, pid) ==>
                State() == old(State()).(grids := Materialize(setup.mode, setup.baseGrid, old(grids), players, pid)) && target == None
      ensures Shapes(setup, grids) && key in grids
    {
      ViewServed(setup.mode, setup.baseGrid, grids, players, pid);
      MaterializeShapes(setup, grids, players, pid);
      var grid;
      grid, key := GetGridFor(players, pid);
      var g: Grid := grid.value;
      target := DrawCandidate(g, draw);
      if target.None? {
        return;
      }
      RevealCell(key, target.value, pid);
    }

    /** Fills cell `t` of the grid under `key` with its answer, flags it as a hint and counts the hint. */
    method RevealCell(key: string, t: Pos, pid: string)
      requires key in grids && InGrid(grids[key], t.c, t.r)
      modifies this
      ensures var g: Grid := old(grids)[key];
              var cell: Cell := g[t.r][t.c];
              State() == old(State()).(grids := old(grids)[key := Put(g, t.c, t.r, cell.(value := cell.correct, isHint := true))],
                                       hintsUsed := old(hintsUsed)[pid := Get(old(hintsUsed), pid) + 1])
    {
      var g: Grid := grids[key];
      var cell: Cell := g[t.r][t.c];
      grids := grids[key := Put(g, t.c, t.r, cell.(value := cell.correct, isHint := true))];
      hintsUsed := hintsUsed[pid := Get(hintsUsed, pid) + 1];
    }

    /** `checkWordComplete`: judges, in order, every clue whose word covers `(x, y)` in the grid under `key`. */
    method CheckWordComplete(players: Players, key: string, x: int, y: int, pid: string)
      requires SetupOk(setup) && Shapes(setup, grids) && key in grids && players.Valid()
      modifies this
      ensures State() == JudgeAll(setup, old(State()), players, key, Relevant(setup.baseClues, x, y, 0), pid)
    {
      var js := RelevantClues(setup.baseClues, x, y);
      for m := 0 to |js|
        invariant Shapes(setup, grids) && key in grids
        invariant JudgeAll(setup, State(), players, key, js[m..], pid) == JudgeAll(setup, old(State()), players, key, js, pid)
      {
        assert js[m..][1..] == js[m + 1..];
        JudgeClueStep(players, key, js[m], pid);
      }
    }

    /**
     * One clue of `checkWordComplete`: its letters are read up to the first empty one; a
     * full and correct word scores twice its length less its hint letters (never below
     * zero), is marked solved (and copied to the shared grids in Teams mode), and may end
     * the game.
     */
    method JudgeClueStep(players: Players, key: string, j: nat, pid: string)
      requires SetupOk(setup) && Shapes(setup, grids) && key in grids && j < |setup.baseClues| && players.Valid()
      modifies this
      ensures State() == JudgeClue(setup, old(State()), players, key, j, pid)
    {
      var c := setup.baseClues[j];
      var g := grids[key];
      CluesInside(setup, g);
      var isFull, isCorrect, hintsInWord := ReadWord(g, c);
      if isFull && isCorrect {
        ScoreWord(players, key, j, pid, hintsInWord);
        CheckForWin(key);
      }
    }

    /** The bookkeeping of a solved word in `checkWordComplete`, before `checkForWin`. */
    method ScoreWord(players: Players, key: string, j: nat, pid: string, hintsInWord: nat)
      requires SetupOk(setup) && Shapes(setup, grids) && key in grids && j < |setup.baseClues| && players.Valid()
      requires Inside(grids[key], setup.baseClues[j])
      requires hintsInWord == HintsIn(grids[key], setup.baseClues[j], |setup.baseClues[j].word|)
      modifies this
      ensures State() == Scored(setup, old(State()), players, key, j, pid)
    {
      var c := setup.baseClues[j];
      var team := TeamOf(players, pid);
      var points := Points(|c.word|, hintsInWord);
      ghost var marks := Marks(setup, grids, players, key, c, pid, team);
      ghost var q := Scored(setup, State(), players, key, j, pid);
      Credit(pid, points);
      MarkWord(players, key, c, pid, team);
      assert grids == marks == q.grids;
      awards := awards + [Award(key, j)];
      assert scores == q.scores && wordsSolved == q.wordsSolved && awards == q.awards;
    }

    /** `scores[playerId] += points` and `wordsSolved[playerId] += 1`, counting from zero. */
    method Credit(pid: string, points: int)
      modifies this
      ensures State() == old(State()).(scores := old(scores)[pid := Get(old(scores), pid) + points],
                                       wordsSolved := old(wordsSolved)[pid := Get(old(wordsSolved), pid) + 1])
    {
      scores := scores[pid := Get(scores, pid) + points];
      wordsSolved := wordsSolved[pid := Get(wordsSolved, pid) + 1];
    }

    /** Marks the word of `c` solved in the grid under `key` and, in Teams mode, copies it to the shared grids. */
    method MarkWord(players: Players, key: string, c: Clue, pid: string, team: Option<int>)
      requires SetupOk(setup) && Shapes(setup, grids) && key in grids && players.Valid() && Inside(grids[key], c)
      modifies this
      ensures State() == old(State()).(grids := Marks(setup, old(grids), players, key, c, pid, team))
    {
      var g := grids[key];
      var marked := StampWord(g, g, c, pid, team);
      grids := grids[key := marked];
      if setup.mode == Teams {
        SyncSolutionToAll(players, g, c, pid, team);
      }
    }

    /** `checkForWin`: ends the game when every clue of the grid under `key` is solved. */
    method CheckForWin(key: string)
      requires SetupOk(setup) && key in grids && Shaped(grids[key], setup.width, setup.height)
      modifies this
      ensures forall j :: 0 <= j < |setup.baseClues| ==> Inside(old(grids)[key], setup.baseClues[j])
      ensures State() == if AllSolved(old(grids)[key], setup.baseClues) then Game.EndGame(old(State())) else old(State())
    {
      CluesInside(setup, grids[key]);
      var all := AllCluesSolved(grids[key], setup.baseClues);
      if all {
        EndGame();
      }
    }

    /**
     * `syncSolutionToAll`: copies the solved word from `src` into `GLOBAL`, then into every
     * `TEAM_*` and `SHARED` grid, then serves every connected player their grid.
     */
    method SyncSolutionToAll(players: Players, src: Grid, c: Clue, pid: string, team: Option<int>)
      requires SetupOk(setup) && Shapes(setup, grids) && players.Valid()
      requires Shaped(src, setup.width, setup.height) && Inside(src, c)
      modifies this
      ensures State() == old(State()).(grids := MaterializeAll(setup.mode, setup.baseGrid, Synced(old(grids), src, c, pid, team), players, players.order))
    {
      CopySolution(src, c, pid, team);
      MaterializeAllShapes(setup, grids, players, players.order);
      ServeConnected(players);
    }

    /** The copying half of `syncSolutionToAll`. */
    method CopySolution(src: Grid, c: Clue, pid: string, team: Option<int>)
      requires SetupOk(setup) && Shapes(setup, grids)
      requires Shaped(src, setup.width, setup.height) && Inside(src, c)
      modifies this
      ensures State() == old(State()).(grids := Synced(old(grids), src, c, pid, team))
    {
      grids := CopyInto(grids, src, c, pid, team);
    }

    /** The serving half of `syncSolutionToAll`: `getGridFor` for each connected player, in order. */
    method ServeConnected(players: Players)
      requires players.Valid()
      modifies this
      ensures State() == old(State()).(grids := MaterializeAll(setup.mode, setup.baseGrid, old(grids), players, players.order))
    {
      var order := players.order;
      for i := 0 to |order|
        invariant MaterializeAll(setup.mode, setup.baseGrid, old(grids), players, order) ==
                  MaterializeAll(setup.mode, setup.baseGrid, grids, players, order[i..])
        invariant State() == old(State()).(grids := grids)
      {
        assert order[i..][1..] == order[i + 1..];
        var p := order[i];
        if Connected(players.byId[p]) {
          var _, _ := GetGridFor(players, p);
        }
      }
      assert order[|order|..] == [];
    }
  }

  /**
   * The letter loop of `checkWordComplete`: reads the word of `c` up to its first empty
   * cell, telling whether it is full, whether every letter read is right, and how many of
   * them are hints.
   */
  method ReadWord(g: Grid, c: Clue) returns (isFull: bool, isCorrect: bool, hintsInWord: nat)
    requires Inside(g, c)
    ensures isFull && isCorrect <==> WordSolved(g, c)
    ensures isFull ==> hintsInWord == HintsIn(g, c, |c.word|)
  {
    isFull, isCorrect, hintsInWord := true, true, 0;
    var i := 0;
    while i < |c.word|
      invariant 0 <= i <= |c.word| && isFull
      invariant forall ii :: 0 <= ii < i ==> At(g, c, ii).value != ""
      invariant isCorrect <==> forall ii :: 0 <= ii < i ==> At(g, c, ii).value == At(g, c, ii).correct
      invariant hintsInWord == HintsIn(g, c, i)
    {
      var cell: Cell := g[Row(c.y, c.direction, i)][Col(c.x, c.direction, i)];
      assert cell == At(g, c, i);
      if cell.value == "" {
        assert At(g, c, i).value == "";
        isFull := false;
        break;
      }
      if cell.value != cell.correct {
        isCorrect := false;
      }
      if cell.isHint {
        hintsInWord := hintsInWord + 1;
      }
      i := i + 1;
    }
  }

  /** `provideHint`'s pick: the candidate cells in reading order, one chosen by `draw`; none if there are none. */
  method DrawCandidate(g: Grid, draw: nat) returns (t: Option<Pos>)
    ensures t.None? <==> Candidates(g) == []
    ensures t.Some? ==> t.value == HintTarget(g, draw)
  {
    var candidates := CollectCandidates(g);
    if |candidates| == 0 {
      return None;
    }
    t := Some(candidates[draw % |candidates|]);
  }

  /**
   * `syncSolutionToAll`'s copying: the word goes into `GLOBAL` if there is one, then into
   * each `TEAM_*` and `SHARED` grid in turn.
   */
  method CopyInto(g0: map<string, Grid>, src: Grid, c: Clue, pid: string, team: Option<int>) returns (grids: map<string, Grid>)
    requires forall k :: k in g0 ==> SameShape(g0[k], src)
    requires Inside(src, c)
    ensures grids == Synced(g0, src, c, pid, team)
  {
    StandingKeys();
    var g1 := g0;
    if GlobalKey in g0 {
      SameShapeInside(g0[GlobalKey], src, c);
      var g := StampWord(g0[GlobalKey], src, c, pid, team);
      g1 := g0[GlobalKey := g];
    }
    grids := CopyIntoTeams(g0, g1, src, c, pid, team);
    SyncedPointwise(g0, grids, src, c, pid, team);
  }

  /** A map that agrees with `Synced` key by key is `Synced`. */
  lemma SyncedPointwise(g0: map<string, Grid>, grids: map<string, Grid>, src: Grid, c: Clue, pid: string, team: Option<int>)
    requires forall k :: k in g0 ==> SameShape(g0[k], src)
    requires grids.Keys == g0.Keys
    requires forall k :: k in g0 ==> grids[k] == if SharedView(k) then Stamp(g0[k], src, c, pid, team) else g0[k]
    ensures grids == Synced(g0, src, c, pid, team)
  {
    var synced := Synced(g0, src, c, pid, team);
    assert forall k :: k in g0 ==> grids[k] == synced[k];
  }

  /** The `grids.entries()` loop of `syncSolutionToAll`: each `TEAM_*` and `SHARED` grid of `g1` gets the word. */
  method CopyIntoTeams(g0: map<string, Grid>, g1: map<string, Grid>, src: Grid, c: Clue, pid: string, team: Option<int>)
    returns (grids: map<string, Grid>)
    requires g1.Keys == g0.Keys
    requires forall k :: k in g0 ==> SameShape(g0[k], src)
    requires forall k :: k in g0 && (IsTeamKey(k) || k == SharedKey) ==> g1[k] == g0[k]
    requires Inside(src, c)
    ensures grids.Keys == g0.Keys
    ensures forall k :: k in g0 ==> grids[k] == if IsTeamKey(k) || k == SharedKey then Stamp(g0[k], src, c, pid, team) else g1[k]
  {
    grids := g1;
    var todo := g1.Keys;
    while todo != {}
      invariant todo <= g0.Keys && grids.Keys == g0.Keys
      invariant forall k :: k in g0 ==>
                  grids[k] == if (IsTeamKey(k) || k == SharedKey) && k !in todo then Stamp(g0[k], src, c, pid, team) else g1[k]
      decreases todo
    {
      var k :| k in todo;
      if IsTeamKey(k) || k == SharedKey {
        SameShapeInside(g0[k], src, c);
        var g := StampWord(g1[k], src, c, pid, team);
        grids := grids[k := g];
      }
      todo := todo - {k};
    }
  }

  lemma SameShapeInside(a: Grid, b: Grid, c: Clue)
    requires SameShape(a, b) && Inside(b, c)
    ensures Inside(a, c)
  {
    forall i | 0 <= i < |c.word| ensures InGrid(a, Col(c.x, c.direction, i), Row(c.y, c.direction, i)) {
      assert InGrid(b, Col(c.x, c.direction, i), Row(c.y, c.direction, i));
    }
  }

  /** Every clue `generate` returns lies on its board. */
  lemma BaseCluesInside(b: Board, w: int, h: int, ps: seq<Placement>, clues: seq<Clue>)
    requires Rect(b, w, h) && Consistent(b, w, h, ps) && |clues| == |ps|
    requires forall k :: 0 <= k < |ps| ==>
               clues[k].word == ps[k].word && clues[k].x == ps[k].x && clues[k].y == ps[k].y && clues[k].direction == ps[k].direction
    ensures forall k :: 0 <= k < |clues| ==> AllInside(w, h, |clues[k].word|, clues[k].x, clues[k].y, clues[k].direction)
  {
    forall k, i | 0 <= k < |clues| && 0 <= i < |clues[k].word|
      ensures InBoard(w, h, Col(clues[k].x, clues[k].direction, i), Row(clues[k].y, clues[k].direction, i))
    {
      assert Spelled(b, w, h, ps[k]);
    }
  }
}
