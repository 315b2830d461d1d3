/**
 * The rules of play of server/objects/GameManager.js, stated over values: game modes and
 * view keys, working grids, what a keystroke and a hint do, how a completed word is
 * scored and marked, how Teams mode spreads a solution, the win test and the routing of
 * grid updates. Class `Manager.GameManager` is proved to follow these functions.
 */
module Game {
  import opened Wrappers
  import opened Text
  import opened Crossword
  import opened Roster

  datatype Mode = Competitive | CoOp | Teams

  datatype Status = Active | Ended

  datatype Cursor = Cursor(x: int, y: int)

  /** The options a session passes to its game (`session.settings`). */
  datatype Settings = Settings(timeLimit: int, mode: string, difficulty: string,
                               customWords: Option<seq<WordEntry>>, numTeams: int, hintLimit: int)

  /** `this.mode === 'Co-Op'` / `=== 'Teams'` tests: every other mode string plays as Competitive. */
  function ParseMode(s: string): (m: Mode)
    ensures m == CoOp <==> s == "Co-Op"
    ensures m == Teams <==> s == "Teams"
    ensures m == Competitive <==> s != "Co-Op" && s != "Teams"
  {
    if s == "Co-Op" then CoOp else if s == "Teams" then Teams else Competitive
  }

  /** `x || 0` on a per-player counter. */
  function Get(m: map<string, int>, k: string): int
  {
    if k in m then m[k] else 0
  }

  // ------------------------------------------------------------------ grids

  /** A working grid: rows of cells. */
  type Grid = seq<seq<Cell>>

  ghost predicate Shaped(g: Grid, w: int, h: int)
  {
    |g| == h && forall y :: 0 <= y < h ==> |g[y]| == w
  }

  ghost predicate SameShape(a: Grid, b: Grid)
  {
    |a| == |b| && forall y :: 0 <= y < |a| ==> |a[y]| == |b[y]|
  }

  /** `grid[y] && grid[y][x]`: the cell exists. */
  predicate InGrid(g: Grid, x: int, y: int)
  {
    0 <= y < |g| && 0 <= x < |g[y]|
  }

  /** The grid with cell `(x, y)` replaced by `c`. */
  function Put(g: Grid, x: int, y: int, c: Cell): (r: Grid)
    requires InGrid(g, x, y)
    ensures SameShape(r, g) && r[y][x] == c
    ensures forall yy, xx :: InGrid(g, xx, yy) && (xx != x || yy != y) ==> r[yy][xx] == g[yy][xx]
  {
    g[y := g[y][x := c]]
  }

  /** Every letter cell of clue `c` is a cell of `g`. */
  ghost predicate Inside(g: Grid, c: Clue)
  {
    forall i :: 0 <= i < |c.word| ==> InGrid(g, Col(c.x, c.direction, i), Row(c.y, c.direction, i))
  }

  /** Letter `i` of clue `c` in grid `g`. */
  function At(g: Grid, c: Clue, i: int): Cell
    requires Inside(g, c) && 0 <= i < |c.word|
  {
    g[Row(c.y, c.direction, i)][Col(c.x, c.direction, i)]
  }

  // ------------------------------------------------------------------ views

  const SharedKey: string := "SHARED"
  const GlobalKey: string := "GLOBAL"

  /** `` `TEAM_${teamId}` ``. */
  function TeamKey(t: int): string
  {
    "TEAM_" + ShowInt(t)
  }

  /** `key.startsWith('TEAM_')`. */
  predicate IsTeamKey(k: string)
  {
    |k| >= 5 && k[..5] == "TEAM_"
  }

  /** The grids a Teams-mode solution is copied into: `GLOBAL`, every `TEAM_*` and `SHARED`. */
  predicate SharedView(k: string)
  {
    k == GlobalKey || IsTeamKey(k) || k == SharedKey
  }

  /** The standing keys are not team keys and differ from each other. */
  lemma StandingKeys()
    ensures !IsTeamKey(GlobalKey) && !IsTeamKey(SharedKey) && GlobalKey != SharedKey
  {
    assert GlobalKey[..5][0] == 'G' && SharedKey[..5][0] == 'S';
  }

  /** Distinct teams have distinct keys, and every team key carries the prefix, so it is neither `SHARED` nor `GLOBAL`. */
  lemma TeamKeysDistinct(a: int, b: int)
    ensures TeamKey(a) == TeamKey(b) <==> a == b
    ensures IsTeamKey(TeamKey(a)) && TeamKey(a) != SharedKey && TeamKey(a) != GlobalKey
  {
    if TeamKey(a) == TeamKey(b) {
      assert TeamKey(a)[5..] == ShowInt(a) && TeamKey(b)[5..] == ShowInt(b);
      ShowIntInjective(a, b);
    }
    assert TeamKey(a)[..5] == "TEAM_";
  }

  /** The acting player's team when it is truthy, else `null` (`solvedByTeam`). */
  function TeamOf(players: Players, pid: string): (t: Option<int>)
    ensures t.Some? <==> pid in players.byId && HasTeam(players.byId[pid])
    ensures t.Some? ==> t.value != 0 && t == players.byId[pid].teamId
  {
    if pid in players.byId && HasTeam(players.byId[pid]) then players.byId[pid].teamId else None
  }

  /**
   * The key of the grid `getGridFor` serves: `SHARED` in Co-Op; in Teams `GLOBAL` for a
   * player without a team and `TEAM_<id>` otherwise; the player's own id in Competitive.
   */
  function ViewKey(mode: Mode, players: Players, pid: string): (k: string)
    ensures mode == CoOp ==> k == SharedKey
    ensures mode == Teams ==> k == (if TeamOf(players, pid).None? then GlobalKey else TeamKey(TeamOf(players, pid).value))
    ensures mode == Competitive ==> k == pid
  {
    match mode
    case CoOp => SharedKey
    case Teams => (match TeamOf(players, pid) case None => GlobalKey case Some(t) => TeamKey(t))
    case Competitive => pid
  }

  /** Whether `getGridFor` creates the grid it serves (a team or a player seen for the first time). */
  predicate Creates(mode: Mode, grids: map<string, Grid>, players: Players, pid: string)
  {
    && (mode == Competitive || (mode == Teams && TeamOf(players, pid).Some?))
    && ViewKey(mode, players, pid) !in grids
  }

  /**
   * The grids after `getGridFor`: a team grid is first cloned from `GLOBAL` (or the base grid
   * if there is none), a player grid from the base grid; nothing else is created or changed.
   */
  function Materialize(mode: Mode, base: Grid, grids: map<string, Grid>, players: Players, pid: string): (r: map<string, Grid>)
  {
    if !Creates(mode, grids, players, pid) then grids
    else if mode == Teams then grids[ViewKey(mode, players, pid) := if GlobalKey in grids then grids[GlobalKey] else base]
    else grids[pid := base]
  }

  /**
   * `getGridFor` serves the right view: the key exists afterwards whenever the mode's
   * standing grid exists, earlier grids are kept as they are, and asking again changes
   * nothing, so the same stored grid is served every time.
   */
  lemma MaterializeStable(mode: Mode, base: Grid, grids: map<string, Grid>, players: Players, pid: string)
    ensures var r := Materialize(mode, base, grids, players, pid);
            && r.Keys >= grids.Keys
            && (forall k :: k in grids ==> r[k] == grids[k])
            && (mode == Competitive ==> pid in r && (pid !in grids ==> r[pid] == base))
            && (mode == CoOp ==> r == grids)
            && (mode == Teams && TeamOf(players, pid).Some? ==> ViewKey(mode, players, pid) in r)
            && (mode == Teams && TeamOf(players, pid).Some? && ViewKey(mode, players, pid) !in grids ==>
                  r[ViewKey(mode, players, pid)] == (if GlobalKey in grids then grids[GlobalKey] else base))
            && Materialize(mode, base, r, players, pid) == r
  {
  }

  /** The view key exists after `getGridFor` when the standing grid of the mode exists. */
  lemma ViewServed(mode: Mode, base: Grid, grids: map<string, Grid>, players: Players, pid: string)
    requires mode == CoOp ==> SharedKey in grids
    requires mode == Teams ==> GlobalKey in grids
    ensures ViewKey(mode, players, pid) in Materialize(mode, base, grids, players, pid)
  {
  }

  /** `getGridFor` for every connected player, in the players' order (end of `syncSolutionToAll`). */
  function MaterializeAll(mode: Mode, base: Grid, grids: map<string, Grid>, players: Players, ids: seq<string>): (r: map<string, Grid>)
    requires forall i :: 0 <= i < |ids| ==> ids[i] in players.byId
    ensures r.Keys >= grids.Keys && forall k :: k in grids ==> r[k] == grids[k]
    decreases |ids|
  {
    if ids == [] then grids
    else
      var g1 := if Connected(players.byId[ids[0]]) then Materialize(mode, base, grids, players, ids[0]) else grids;
      MaterializeAll(mode, base, g1, players, ids[1..])
  }

  // ------------------------------------------------------------------ judging a word

  /** Every letter cell is filled and right: `isFull && isCorrect`. */
  predicate WordSolved(g: Grid, c: Clue)
    requires Inside(g, c)
  {
    forall i :: 0 <= i < |c.word| ==> At(g, c, i).value != "" && At(g, c, i).value == At(g, c, i).correct
  }

  /** Hinted cells among the first `n` letters of the word. */
  function HintsIn(g: Grid, c: Clue, n: int): (r: nat)
    requires Inside(g, c) && 0 <= n <= |c.word|
    ensures r <= n
  {
    if n == 0 then 0 else HintsIn(g, c, n - 1) + (if At(g, c, n - 1).isHint then 1 else 0)
  }

  /** The points for a completed word: two per letter, one off per hinted letter, never negative. */
  function Points(len: int, hints: int): (r: nat)
  {
    if len * 2 - hints < 0 then 0 else len * 2 - hints
  }

  /**
   * A word without hints is worth twice its length; each hinted letter costs one point
   * until none is left; a word is never worth more than twice its length.
   */
  lemma PointsRule(len: nat, hints: nat)
    ensures Points(len, 0) == 2 * len
    ensures Points(len, hints) <= 2 * len
    ensures Points(len, hints + 1) == if Points(len, hints) == 0 then 0 else Points(len, hints) - 1
    ensures hints <= len ==> Points(len, hints) >= len
  {
  }

  /** Cell `b` is cell `a` with the same answer and colour, and still solved if `a` was. */
  predicate Settled(a: Cell, b: Cell)
  {
    b.correct == a.correct && b.isBlack == a.isBlack && (a.isSolved ==> b.isSolved)
  }

  /** Cell `(x, y)` after a solution is written into it from `src`. */
  function SolvedCell(old_: Cell, src: Cell, pid: string, team: Option<int>): Cell
  {
    old_.(value := src.value, isSolved := true, solvedBy := Some(pid), solvedByTeam := team)
  }

  /**
   * Writes the solution of clue `c` from grid `src` into `g`: every cell of the word takes
   * the source value and is marked solved by `pid` and `team`; every other cell is kept.
   */
  function Stamp(g: Grid, src: Grid, c: Clue, pid: string, team: Option<int>): (r: Grid)
    requires SameShape(g, src)
    ensures SameShape(r, g)
    ensures forall y, x :: InGrid(g, x, y) && !Covers(|c.word|, c.x, c.y, c.direction, x, y) ==> r[y][x] == g[y][x]
    ensures forall y, x :: InGrid(g, x, y) && Covers(|c.word|, c.x, c.y, c.direction, x, y) ==>
              && r[y][x].value == src[y][x].value && r[y][x].isSolved
              && r[y][x].solvedBy == Some(pid) && r[y][x].solvedByTeam == team
              && Settled(g[y][x], r[y][x]) && r[y][x].isHint == g[y][x].isHint
  {
    seq(|g|, y requires 0 <= y < |g| =>
      seq(|g[y]|, x requires 0 <= x < |g[y]| =>
        if Covers(|c.word|, c.x, c.y, c.direction, x, y) then SolvedCell(g[y][x], src[y][x], pid, team) else g[y][x]))
  }

  /** A word's letter cells are all marked solved. */
  ghost predicate Marked(g: Grid, c: Clue)
    requires Inside(g, c)
  {
    forall i :: 0 <= i < |c.word| ==> At(g, c, i).isSolved
  }

  /** Teams mode: the solution goes into `GLOBAL`, every `TEAM_*` and `SHARED` grid; player grids are left alone. */
  function Synced(grids: map<string, Grid>, src: Grid, c: Clue, pid: string, team: Option<int>): (r: map<string, Grid>)
    requires forall k :: k in grids ==> SameShape(grids[k], src)
    ensures r.Keys == grids.Keys
    ensures forall k :: k in grids && !SharedView(k) ==> r[k] == grids[k]
    ensures forall k :: k in grids && SharedView(k) ==> r[k] == Stamp(grids[k], src, c, pid, team)
  {
    map k | k in grids :: if SharedView(k) then Stamp(grids[k], src, c, pid, team) else grids[k]
  }

  /** `baseClues.every(...)`: every clue's cells are marked solved. */
  predicate AllSolved(g: Grid, clues: seq<Clue>)
    requires forall j :: 0 <= j < |clues| ==> Inside(g, clues[j])
  {
    forall j, i :: 0 <= j < |clues| && 0 <= i < |clues[j].word| ==> At(g, clues[j], i).isSolved
  }

  /** The indices of the clues whose word covers `(x, y)`, ascending (`relevantClues`). */
  function Relevant(clues: seq<Clue>, x: int, y: int, from: nat): (js: seq<nat>)
    requires from <= |clues|
    ensures forall m :: 0 <= m < |js| ==> from <= js[m] < |clues| && CoversClue(clues[js[m]], x, y)
    decreases |clues| - from
  {
    if from == |clues| then []
    else if CoversClue(clues[from], x, y) then [from] + Relevant(clues, x, y, from + 1)
    else Relevant(clues, x, y, from + 1)
  }

  /** `relevantClues` keeps the clue order: the indices ascend. */
  lemma {:induction false} RelevantAscending(clues: seq<Clue>, x: int, y: int, from: nat)
    requires from <= |clues|
    ensures forall m, n :: 0 <= m < n < |Relevant(clues, x, y, from)| ==>
              Relevant(clues, x, y, from)[m] < Relevant(clues, x, y, from)[n]
    decreases |clues| - from
  {
    if from < |clues| {
      var rest := Relevant(clues, x, y, from + 1);
      RelevantAscending(clues, x, y, from + 1);
      if CoversClue(clues[from], x, y) {
        var js := [from] + rest;
        assert Relevant(clues, x, y, from) == js;
        forall m, n | 0 <= m < n < |js| ensures js[m] < js[n] {
          if m == 0 {
            assert js[n] == rest[n - 1];
          } else {
            assert js[m] == rest[m - 1] && js[n] == rest[n - 1];
          }
        }
      }
    }
  }

  /** `relevantClues` misses no clue whose word runs through the cell. */
  lemma {:induction false} RelevantComplete(clues: seq<Clue>, x: int, y: int, from: nat, j: nat)
    requires from <= j < |clues| && CoversClue(clues[j], x, y)
    ensures j in Relevant(clues, x, y, from)
    decreases |clues| - from
  {
    if j > from {
      RelevantComplete(clues, x, y, from + 1, j);
      var rest := Relevant(clues, x, y, from + 1);
      assert j in rest;
      if CoversClue(clues[from], x, y) {
        assert Relevant(clues, x, y, from) == [from] + rest;
      }
    }
  }

  predicate CoversClue(c: Clue, x: int, y: int)
  {
    Covers(|c.word|, c.x, c.y, c.direction, x, y)
  }

  // ------------------------------------------------------------------ the game's state

  /** A scoring event: clue `clue` completed in the grid stored under `key`. */
  datatype Award = Award(key: string, clue: nat)

  /** What a game was built with and never changes. */
  datatype Setup = Setup(mode: Mode, width: nat, height: nat, baseGrid: Grid, baseClues: seq<Clue>)

  /**
   * The state a game updates. `gameOvers` counts the game-over broadcasts of `endGame`;
   * `awards` records every scored word, in order.
   */
  datatype Play = Play(timeRemaining: int, status: Status, timerOn: bool, grids: map<string, Grid>,
                       cursors: map<string, Cursor>, scores: map<string, int>, wordsSolved: map<string, int>,
                       hintsUsed: map<string, int>, gameOvers: nat, awards: seq<Award>)

  ghost predicate SetupOk(s: Setup)
  {
    && Shaped(s.baseGrid, s.width, s.height)
    && forall j :: 0 <= j < |s.baseClues| ==> AllInside(s.width, s.height, |s.baseClues[j].word|, s.baseClues[j].x, s.baseClues[j].y, s.baseClues[j].direction)
  }

  /** Every clue lies inside every grid of the given shape. */
  lemma CluesInside(s: Setup, g: Grid)
    requires SetupOk(s) && Shaped(g, s.width, s.height)
    ensures forall j :: 0 <= j < |s.baseClues| ==> Inside(g, s.baseClues[j])
  {
    forall j, i | 0 <= j < |s.baseClues| && 0 <= i < |s.baseClues[j].word|
      ensures InGrid(g, Col(s.baseClues[j].x, s.baseClues[j].direction, i), Row(s.baseClues[j].y, s.baseClues[j].direction, i))
    {
      assert InBoard(s.width, s.height, Col(s.baseClues[j].x, s.baseClues[j].direction, i), Row(s.baseClues[j].y, s.baseClues[j].direction, i));
    }
  }

  ghost predicate Shapes(s: Setup, grids: map<string, Grid>)
  {
    forall k :: k in grids ==> Shaped(grids[k], s.width, s.height)
  }

  /**
   * What every step of a game keeps true: all grids have the board's shape, the mode's
   * standing grid exists, every award's word is marked solved in its grid, and no word is
   * awarded twice in the same grid.
   */
  ghost predicate PlayOk(s: Setup, p: Play)
  {
    && SetupOk(s) && Shapes(s, p.grids)
    && (s.mode == CoOp ==> SharedKey in p.grids)
    && (s.mode == Teams ==> GlobalKey in p.grids)
    && (forall a :: a in p.awards ==>
          && a.key in p.grids && a.clue < |s.baseClues|
          && Inside(p.grids[a.key], s.baseClues[a.clue]) && Marked(p.grids[a.key], s.baseClues[a.clue]))
    && (forall m, n :: 0 <= m < n < |p.awards| ==> p.awards[m] != p.awards[n])
  }

  /** `endGame`: the timer is cleared, the status is ENDED and game-over is broadcast once more. */
  function EndGame(p: Play): Play
  {
    p.(timerOn := false, status := Ended, gameOvers := p.gameOvers + 1)
  }

  /**
   * The grids after clue `c` is solved in the grid under `key`: the word is marked there and,
   * in Teams mode, copied into the shared grids, after which every connected player is served.
   */
  function Marks(s: Setup, grids: map<string, Grid>, players: Players, key: string, c: Clue, pid: string, team: Option<int>): (r: map<string, Grid>)
    requires SetupOk(s) && Shapes(s, grids) && key in grids && players.Valid()
    ensures Shapes(s, r) && r.Keys >= grids.Keys
  {
    var g := grids[key];
    var marked := grids[key := Stamp(g, g, c, pid, team)];
    if s.mode == Teams then
      var sy := Synced(marked, g, c, pid, team);
      MaterializeAllShapes(s, sy, players, players.order);
      MaterializeAll(s.mode, s.baseGrid, sy, players, players.order)
    else marked
  }

  /**
   * One pass of the `relevantClues.forEach` body for clue `j` in the grid under `key`: when
   * the word is complete and right, score it, mark it, spread it in Teams mode and test for
   * the win; otherwise nothing.
   */
  function JudgeClue(s: Setup, p: Play, players: Players, key: string, j: nat, pid: string): (r: Play)
    requires SetupOk(s) && Shapes(s, p.grids) && key in p.grids && j < |s.baseClues| && players.Valid()
    ensures Shapes(s, r.grids) && r.grids.Keys >= p.grids.Keys
  {
    CluesInside(s, p.grids[key]);
    var c := s.baseClues[j];
    var g := p.grids[key];
    if !WordSolved(g, c) then p
    else
      var q := Scored(s, p, players, key, j, pid);
      CluesInside(s, q.grids[key]);
      if AllSolved(q.grids[key], s.baseClues) then EndGame(q) else q
  }

  /** A solved word's bookkeeping: the points, the word count, the marks and the award. */
  function Scored(s: Setup, p: Play, players: Players, key: string, j: nat, pid: string): (q: Play)
    requires SetupOk(s) && Shapes(s, p.grids) && key in p.grids && j < |s.baseClues| && players.Valid()
    requires Inside(p.grids[key], s.baseClues[j])
    ensures Shapes(s, q.grids) && key in q.grids
  {
    var c := s.baseClues[j];
    var g := p.grids[key];
    p.(scores := p.scores[pid := Get(p.scores, pid) + Points(|c.word|, HintsIn(g, c, |c.word|))],
       wordsSolved := p.wordsSolved[pid := Get(p.wordsSolved, pid) + 1],
       grids := Marks(s, p.grids, players, key, c, pid, TeamOf(players, pid)),
       awards := p.awards + [Award(key, j)])
  }

  lemma {:induction false} MaterializeAllShapes(s: Setup, grids: map<string, Grid>, players: Players, ids: seq<string>)
    requires SetupOk(s) && Shapes(s, grids)
    requires forall i :: 0 <= i < |ids| ==> ids[i] in players.byId
    ensures Shapes(s, MaterializeAll(s.mode, s.baseGrid, grids, players, ids))
    decreases |ids|
  {
    if ids != [] {
      var g1 := if Connected(players.byId[ids[0]]) then Materialize(s.mode, s.baseGrid, grids, players, ids[0]) else grids;
      MaterializeAllShapes(s, g1, players, ids[1..]);
    }
  }

  /** The `relevantClues.forEach` loop. */
  function JudgeAll(s: Setup, p: Play, players: Players, key: string, js: seq<nat>, pid: string): (r: Play)
    requires SetupOk(s) && Shapes(s, p.grids) && key in p.grids && players.Valid()
    requires forall m :: 0 <= m < |js| ==> js[m] < |s.baseClues|
    ensures Shapes(s, r.grids) && r.grids.Keys >= p.grids.Keys
    decreases |js|
  {
    if js == [] then p
    else JudgeAll(s, JudgeClue(s, p, players, key, js[0], pid), players, key, js[1..], pid)
  }

  // ------------------------------------------------------------------ keystrokes and hints

  /**
   * `handleInput`: nothing unless ACTIVE; the view is fetched (possibly created); nothing more
   * if the view or the cell is missing or the cell is black or solved; otherwise the cell's
   * value becomes the upper-cased letter and the words through that cell are judged.
   */
  function Input(s: Setup, p: Play, players: Players, pid: string, x: int, y: int, letter: string): (r: Play)
    requires SetupOk(s) && Shapes(s, p.grids) && players.Valid()
  {
    if p.status != Active then p
    else
      var grids := Materialize(s.mode, s.baseGrid, p.grids, players, pid);
      var key := ViewKey(s.mode, players, pid);
      if key !in grids then p.(grids := grids)
      else
        var g := grids[key];
        if !InGrid(g, x, y) || g[y][x].isBlack || g[y][x].isSolved then p.(grids := grids)
        else
          JudgeAll(s, Typed(s, p, players, pid, x, y, letter), players, key, Relevant(s.baseClues, x, y, 0), pid)
  }

  /** The game once `handleInput` has written the upper-cased letter into the served cell. */
  function Typed(s: Setup, p: Play, players: Players, pid: string, x: int, y: int, letter: string): (r: Play)
    requires SetupOk(s) && Shapes(s, p.grids) && InputReaches(s, p, players, pid, x, y)
    ensures Shapes(s, r.grids) && ViewKey(s.mode, players, pid) in r.grids
  {
    MaterializeShapes(s, p.grids, players, pid);
    var grids := Materialize(s.mode, s.baseGrid, p.grids, players, pid);
    var key := ViewKey(s.mode, players, pid);
    var g: Grid := grids[key];
    p.(grids := grids[key := Put(g, x, y, g[y][x].(value := ToUpper(letter)))])
  }

  /** Whether `handleInput` gets as far as broadcasting. */
  predicate InputReaches(s: Setup, p: Play, players: Players, pid: string, x: int, y: int)
  {
    && p.status == Active
    && var grids := Materialize(s.mode, s.baseGrid, p.grids, players, pid);
       var key := ViewKey(s.mode, players, pid);
       key in grids && InGrid(grids[key], x, y) && !grids[key][y][x].isBlack && !grids[key][y][x].isSolved
  }

  lemma MaterializeShapes(s: Setup, grids: map<string, Grid>, players: Players, pid: string)
    requires SetupOk(s) && Shapes(s, grids)
    ensures Shapes(s, Materialize(s.mode, s.baseGrid, grids, players, pid))
  {
  }

  /** A cell a hint may fill: white, not yet solved, and not already right. */
  predicate Candidate(c: Cell)
  {
    !c.isBlack && !c.isSolved && c.value != c.correct
  }

  datatype Pos = Pos(r: int, c: int)

  /** The candidates of rows `r..` (from column `c` on in row `r`), in row-major order. */
  function CandidatesFrom(g: Grid, r: nat, c: nat): (ps: seq<Pos>)
    requires r <= |g| && (r < |g| ==> c <= |g[r]|)
    ensures r == |g| ==> ps == []
    decreases |g| - r, if r < |g| then |g[r]| - c else 0
  {
    if r == |g| then []
    else if c == |g[r]| then CandidatesFrom(g, r + 1, 0)
    else (if Candidate(g[r][c]) then [Pos(r, c)] else []) + CandidatesFrom(g, r, c + 1)
  }

  /** Only candidate cells are listed. */
  lemma {:induction false} CandidatesSound(g: Grid, r: nat, c: nat)
    requires r <= |g| && (r < |g| ==> c <= |g[r]|)
    ensures forall m :: 0 <= m < |CandidatesFrom(g, r, c)| ==>
              var p := CandidatesFrom(g, r, c)[m]; InGrid(g, p.c, p.r) && Candidate(g[p.r][p.c])
    decreases |g| - r, if r < |g| then |g[r]| - c else 0
  {
    if r < |g| {
      if c == |g[r]| {
        CandidatesSound(g, r + 1, 0);
      } else {
        CandidatesSound(g, r, c + 1);
        var rest := CandidatesFrom(g, r, c + 1);
        if Candidate(g[r][c]) {
          var ps := [Pos(r, c)] + rest;
          assert CandidatesFrom(g, r, c) == ps;
          forall m | 0 <= m < |ps| ensures InGrid(g, ps[m].c, ps[m].r) && Candidate(g[ps[m].r][ps[m].c]) {
            if m > 0 {
              assert ps[m] == rest[m - 1];
            }
          }
        }
      }
    }
  }

  /** The candidate list `provideHint` builds with its nested `forEach`. */
  function Candidates(g: Grid): (ps: seq<Pos>)
  {
    CandidatesFrom(g, 0, 0)
  }

  /** Every candidate cell is listed. */
  lemma {:induction false} CandidatesComplete(g: Grid, r: nat, c: nat)
    requires r <= |g| && (r < |g| ==> c <= |g[r]|)
    ensures forall rr, cc :: InGrid(g, cc, rr) && (rr > r || (rr == r && cc >= c)) && Candidate(g[rr][cc]) ==>
              Pos(rr, cc) in CandidatesFrom(g, r, c)
    decreases |g| - r, if r < |g| then |g[r]| - c else 0
  {
    if r < |g| {
      if c == |g[r]| {
        CandidatesComplete(g, r + 1, 0);
      } else {
        CandidatesComplete(g, r, c + 1);
      }
    }
  }

  /** A cell is a hint candidate exactly when it is white, unsolved and not yet right. */
  lemma CandidatesExact(g: Grid, x: int, y: int)
    ensures Pos(y, x) in Candidates(g) <==> InGrid(g, x, y) && Candidate(g[y][x])
  {
    CandidatesComplete(g, 0, 0);
    CandidatesSound(g, 0, 0);
    if Pos(y, x) in Candidates(g) {
      var m :| 0 <= m < |Candidates(g)| && Candidates(g)[m] == Pos(y, x);
    }
  }

  /** `candidates[Math.floor(Math.random() * candidates.length)]`, the random number given as `draw`. */
  function HintTarget(g: Grid, draw: nat): (t: Pos)
    requires Candidates(g) != []
    ensures InGrid(g, t.c, t.r) && Candidate(g[t.r][t.c])
  {
    CandidatesSound(g, 0, 0);
    Candidates(g)[draw % |Candidates(g)|]
  }

  /** Every candidate cell, and only a candidate cell, can be drawn. */
  lemma HintTargetFair(g: Grid, x: int, y: int)
    ensures InGrid(g, x, y) && Candidate(g[y][x]) <==> Candidates(g) != [] && exists draw: nat :: HintTarget(g, draw) == Pos(y, x)
  {
    if InGrid(g, x, y) && Candidate(g[y][x]) {
      var m := Drawable(g, x, y);
    }
    if Candidates(g) != [] && exists draw: nat :: HintTarget(g, draw) == Pos(y, x) {
      var draw: nat :| HintTarget(g, draw) == Pos(y, x);
      var t := HintTarget(g, draw);
      assert InGrid(g, t.c, t.r) && Candidate(g[t.r][t.c]);
    }
  }

  /** The draw that picks a given candidate cell: its index in the candidate list. */
  lemma Drawable(g: Grid, x: int, y: int) returns (m: nat)
    requires InGrid(g, x, y) && Candidate(g[y][x])
    ensures Candidates(g) != [] && HintTarget(g, m) == Pos(y, x)
  {
    CandidatesExact(g, x, y);
    var cs := Candidates(g);
    m :| 0 <= m < |cs| && cs[m] == Pos(y, x);
    assert m % |cs| == m;
  }

  const HintCap: int := 20

  /**
   * `provideHint`: nothing unless ACTIVE and fewer than 20 hints used; the view is fetched;
   * nothing more without a candidate; otherwise the drawn candidate gets its correct letter
   * and the hint flag, the hint count rises by one and the words through it are judged.
   * `draw` stands for `Math.random()`: any candidate can be drawn.
   */
  function Hint(s: Setup, p: Play, players: Players, pid: string, draw: nat): (r: Play)
    requires PlayOk(s, p) && players.Valid()
  {
    if p.status != Active then p
    else
      var used := Get(p.hintsUsed, pid);
      if used >= HintCap then p
      else
        var grids := Materialize(s.mode, s.baseGrid, p.grids, players, pid);
        var key := ViewKey(s.mode, players, pid);
        ViewServed(s.mode, s.baseGrid, p.grids, players, pid);
        MaterializeShapes(s, p.grids, players, pid);
        var g := grids[key];
        var cs := Candidates(g);
        if cs == [] then p.(grids := grids)
        else
          var t := HintTarget(g, draw);
          JudgeAll(s, Hinted(s, p, players, pid, draw), players, key, Relevant(s.baseClues, t.c, t.r, 0), pid)
  }

  /** The game once `provideHint` has revealed the drawn cell and counted the hint. */
  function Hinted(s: Setup, p: Play, players: Players, pid: string, draw: nat): (r: Play)
    requires SetupOk(s) && Shapes(s, p.grids) && HintReaches(s, p, players, pid)
    ensures Shapes(s, r.grids) && ViewKey(s.mode, players, pid) in r.grids
  {
    MaterializeShapes(s, p.grids, players, pid);
    var grids := Materialize(s.mode, s.baseGrid, p.grids, players, pid);
    var key := ViewKey(s.mode, players, pid);
    var g: Grid := grids[key];
    var t := HintTarget(g, draw);
    var cell: Cell := g[t.r][t.c];
    p.(grids := grids[key := Put(g, t.c, t.r, cell.(value := cell.correct, isHint := true))],
       hintsUsed := p.hintsUsed[pid := Get(p.hintsUsed, pid) + 1])
  }

  /** Whether `provideHint` gets as far as broadcasting. */
  predicate HintReaches(s: Setup, p: Play, players: Players, pid: string)
  {
    && p.status == Active && Get(p.hintsUsed, pid) < HintCap
    && var grids := Materialize(s.mode, s.baseGrid, p.grids, players, pid);
       var key := ViewKey(s.mode, players, pid);
       key in grids && Candidates(grids[key]) != []
  }

  // ------------------------------------------------------------------ routing

  /** Where `broadcastState` sends a grid update: the whole session, or a list of sockets. */
  datatype Route = Room | Sockets(ids: seq<string>)

  /** Player `p` is connected on socket `s` and is on team `team`. */
  predicate OnSocket(p: Player, team: Option<int>, s: string)
  {
    p.teamId == team && Connected(p) && p.socketId.value == s
  }

  /** The sockets of the connected players of `vs` on team `team`, in order. */
  function TeamSockets(vs: seq<Player>, team: Option<int>): (ids: seq<string>)
    ensures forall i :: 0 <= i < |vs| && vs[i].teamId == team && Connected(vs[i]) ==> vs[i].socketId.value in ids
    ensures forall s :: s in ids ==> exists i :: 0 <= i < |vs| && OnSocket(vs[i], team, s)
  {
    if vs == [] then []
    else
      var rest := TeamSockets(vs[1..], team);
      assert forall i :: 1 <= i < |vs| ==> vs[i] == vs[1..][i - 1];
      var head := if vs[0].teamId == team && Connected(vs[0]) then [vs[0].socketId.value] else [];
      assert forall s :: s in rest ==> exists i :: 0 <= i < |vs| && OnSocket(vs[i], team, s) by {
        forall s | s in rest ensures exists i :: 0 <= i < |vs| && OnSocket(vs[i], team, s) {
          var i :| 0 <= i < |vs[1..]| && OnSocket(vs[1..][i], team, s);
          assert OnSocket(vs[i + 1], team, s);
        }
      }
      head + rest
  }

  /** The actor's own socket, if the actor exists and is connected. */
  function OwnSocket(players: Players, pid: string): seq<string>
  {
    if pid in players.byId && Connected(players.byId[pid]) then [players.byId[pid].socketId.value] else []
  }

  /**
   * `broadcastState`'s recipients: Co-Op the whole session; Teams every connected teammate
   * of a player with a team, else the actor alone; Competitive the actor alone.
   */
  function Broadcast(mode: Mode, players: Players, pid: string): (r: Route)
    requires players.Valid()
    ensures mode == CoOp <==> r == Room
    ensures mode == Competitive ==> r == Sockets(OwnSocket(players, pid))
    ensures mode == Teams && TeamOf(players, pid).None? ==> r == Sockets(OwnSocket(players, pid))
  {
    match mode
    case CoOp => Room
    case Competitive => Sockets(OwnSocket(players, pid))
    case Teams =>
      if TeamOf(players, pid).Some? then Sockets(TeamSockets(players.Values(), players.byId[pid].teamId))
      else Sockets(OwnSocket(players, pid))
  }

  /** In Teams mode a player with a team reaches exactly the connected players of that team. */
  lemma TeamRoute(players: Players, pid: string, s: string)
    requires players.Valid() && TeamOf(players, pid).Some?
    ensures s in Broadcast(Teams, players, pid).ids <==>
              exists q :: q in players.byId && OnSocket(players.byId[q], players.byId[pid].teamId, s)
  {
    var vs := players.Values();
    var t := players.byId[pid].teamId;
    if s in Broadcast(Teams, players, pid).ids {
      var i :| 0 <= i < |vs| && OnSocket(vs[i], t, s);
      assert players.order[i] in players.byId;
    }
    if exists q :: q in players.byId && OnSocket(players.byId[q], t, s) {
      var q :| q in players.byId && OnSocket(players.byId[q], t, s);
      var i :| 0 <= i < |players.order| && players.order[i] == q;
      assert vs[i] == players.byId[q];
    }
  }

  // ------------------------------------------------------------------ what play keeps

  /** Grids `b` extend grids `a`: no grid is lost or reshaped, no answer changes, no solved cell reopens. */
  ghost predicate Grows(a: map<string, Grid>, b: map<string, Grid>)
  {
    && b.Keys >= a.Keys
    && forall k :: k in a ==> SameShape(a[k], b[k]) && forall y, x :: InGrid(a[k], x, y) ==> Settled(a[k][y][x], b[k][y][x])
  }

  /** Cell `b` shows what cell `a` shows: same letter and hint flag, at most newly solved. */
  predicate SameLetter(a: Cell, b: Cell)
  {
    Settled(a, b) && b.value == a.value && b.isHint == a.isHint
  }

  /** The grid under `key` keeps its letters from `a` to `b`. */
  ghost predicate KeptAt(a: map<string, Grid>, b: map<string, Grid>, key: string)
  {
    && key in a && key in b && SameShape(a[key], b[key])
    && forall y, x :: InGrid(a[key], x, y) ==> SameLetter(a[key][y][x], b[key][y][x])
  }

  lemma GrowsTrans(a: map<string, Grid>, b: map<string, Grid>, c: map<string, Grid>)
    requires Grows(a, b) && Grows(b, c)
    ensures Grows(a, c)
  {
    forall k | k in a ensures SameShape(a[k], c[k]) && forall y, x :: InGrid(a[k], x, y) ==> Settled(a[k][y][x], c[k][y][x]) {
      forall y, x | InGrid(a[k], x, y) ensures Settled(a[k][y][x], c[k][y][x]) {
        assert InGrid(b[k], x, y);
      }
    }
  }

  lemma KeptTrans(a: map<string, Grid>, b: map<string, Grid>, c: map<string, Grid>, key: string)
    requires KeptAt(a, b, key) && KeptAt(b, c, key)
    ensures KeptAt(a, c, key)
  {
    forall y, x | InGrid(a[key], x, y) ensures SameLetter(a[key][y][x], c[key][y][x]) {
      assert InGrid(b[key], x, y);
    }
  }

  /** A marked word stays marked while grids grow. */
  lemma MarkedKept(a: map<string, Grid>, b: map<string, Grid>, k: string, c: Clue)
    requires Grows(a, b) && k in a && Inside(a[k], c) && Marked(a[k], c)
    ensures Inside(b[k], c) && Marked(b[k], c)
  {
    forall i | 0 <= i < |c.word| ensures InGrid(b[k], Col(c.x, c.direction, i), Row(c.y, c.direction, i)) && At(b[k], c, i).isSolved {
      assert InGrid(a[k], Col(c.x, c.direction, i), Row(c.y, c.direction, i)) && At(a[k], c, i).isSolved;
      assert Settled(a[k][Row(c.y, c.direction, i)][Col(c.x, c.direction, i)], b[k][Row(c.y, c.direction, i)][Col(c.x, c.direction, i)]);
    }
  }

  /** The sum of the word lengths of a run of awards. */
  function Letters(s: Setup, as_: seq<Award>): (n: nat)
    requires forall m :: 0 <= m < |as_| ==> as_[m].clue < |s.baseClues|
    ensures as_ == [] ==> n == 0
  {
    if as_ == [] then 0 else |s.baseClues[as_[0].clue].word| + Letters(s, as_[1..])
  }

  lemma {:induction false} LettersAppend(s: Setup, xs: seq<Award>, ys: seq<Award>)
    requires forall m :: 0 <= m < |xs| ==> xs[m].clue < |s.baseClues|
    requires forall m :: 0 <= m < |ys| ==> ys[m].clue < |s.baseClues|
    ensures Letters(s, xs + ys) == Letters(s, xs) + Letters(s, ys)
  {
    if xs != [] {
      assert (xs + ys)[1..] == xs[1..] + ys;
      LettersAppend(s, xs[1..], ys);
    } else {
      assert xs + ys == ys;
    }
  }

  /**
   * What an action by `pid` does to the books: clock, cursors and hints untouched; awards
   * only appended; other players' score and word count unchanged; the actor's word count up
   * by the number of new awards and the actor's score up by between one and two points per
   * letter of the newly awarded words; the game either unchanged in status or ended.
   */
  ghost predicate Accounts(s: Setup, p: Play, r: Play, pid: string)
  {
    && r.timeRemaining == p.timeRemaining && r.cursors == p.cursors && r.hintsUsed == p.hintsUsed
    && ((r.status == p.status && r.timerOn == p.timerOn && r.gameOvers == p.gameOvers) ||
        (r.status == Ended && !r.timerOn && r.gameOvers > p.gameOvers))
    && |p.awards| <= |r.awards| && r.awards[..|p.awards|] == p.awards
    && (forall m :: 0 <= m < |r.awards| ==> r.awards[m].clue < |s.baseClues|)
    && (forall q :: q != pid ==> Get(r.scores, q) == Get(p.scores, q) && Get(r.wordsSolved, q) == Get(p.wordsSolved, q))
    && Get(r.wordsSolved, pid) == Get(p.wordsSolved, pid) + (|r.awards| - |p.awards|)
    && Get(p.scores, pid) + Letters(s, r.awards[|p.awards|..]) <= Get(r.scores, pid)
    && Get(r.scores, pid) <= Get(p.scores, pid) + 2 * Letters(s, r.awards[|p.awards|..])
  }

  lemma AccountsTrans(s: Setup, p: Play, q: Play, r: Play, pid: string)
    requires Accounts(s, p, q, pid) && Accounts(s, q, r, pid)
    ensures Accounts(s, p, r, pid)
  {
    var a := q.awards[|p.awards|..];
    var b := r.awards[|q.awards|..];
    SlicesTrans(p.awards, q.awards, r.awards);
    TailBounded(s, q.awards, |p.awards|);
    TailBounded(s, r.awards, |q.awards|);
    LettersAppend(s, a, b);
    var lp, lq := Letters(s, a), Letters(s, b);
    assert Letters(s, r.awards[|p.awards|..]) == lp + lq;
    assert Get(r.scores, pid) <= Get(p.scores, pid) + 2 * (lp + lq);
    assert Get(p.scores, pid) + (lp + lq) <= Get(r.scores, pid);
  }

  /** A tail of a list of awards for existing clues is one too. */
  lemma TailBounded(s: Setup, xs: seq<Award>, from: nat)
    requires from <= |xs| && forall m :: 0 <= m < |xs| ==> xs[m].clue < |s.baseClues|
    ensures forall m :: 0 <= m < |xs[from..]| ==> xs[from..][m].clue < |s.baseClues|
  {
    forall m | 0 <= m < |xs[from..]| ensures xs[from..][m].clue < |s.baseClues| {
      assert xs[from..][m] == xs[from + m];
    }
  }

  /** Two appends in a row are one append, made of the two appended parts. */
  lemma SlicesTrans(ps: seq<Award>, qs: seq<Award>, rs: seq<Award>)
    requires |ps| <= |qs| && qs[..|ps|] == ps && |qs| <= |rs| && rs[..|qs|] == qs
    ensures |ps| <= |rs| && rs[..|ps|] == ps
    ensures rs[|ps|..] == qs[|ps|..] + rs[|qs|..]
  {
    assert rs[..|ps|] == rs[..|qs|][..|ps|];
  }

  /** An action that changes nothing on the books. */
  lemma AccountsSame(s: Setup, p: Play, r: Play, pid: string)
    requires r.timeRemaining == p.timeRemaining && r.cursors == p.cursors && r.hintsUsed == p.hintsUsed
    requires r.status == p.status && r.timerOn == p.timerOn && r.gameOvers == p.gameOvers
    requires r.awards == p.awards && r.scores == p.scores && r.wordsSolved == p.wordsSolved
    requires forall m :: 0 <= m < |p.awards| ==> p.awards[m].clue < |s.baseClues|
    ensures Accounts(s, p, r, pid)
  {
    assert r.awards[|p.awards|..] == [];
  }

  /** Stamping a word grows the grid, marks the word, and keeps letters when copied from itself. */
  lemma StampGrows(g: Grid, src: Grid, c: Clue, pid: string, team: Option<int>)
    requires SameShape(g, src)
    ensures forall y, x :: InGrid(g, x, y) ==> Settled(g[y][x], Stamp(g, src, c, pid, team)[y][x])
    ensures Inside(g, c) ==> Inside(Stamp(g, src, c, pid, team), c) && Marked(Stamp(g, src, c, pid, team), c)
    ensures (forall y, x :: InGrid(g, x, y) ==> src[y][x].value == g[y][x].value) ==>
              forall y, x :: InGrid(g, x, y) ==> SameLetter(g[y][x], Stamp(g, src, c, pid, team)[y][x])
  {
    var r := Stamp(g, src, c, pid, team);
    if Inside(g, c) {
      forall i | 0 <= i < |c.word| ensures InGrid(r, Col(c.x, c.direction, i), Row(c.y, c.direction, i)) && At(r, c, i).isSolved {
        assert Covers(|c.word|, c.x, c.y, c.direction, Col(c.x, c.direction, i), Row(c.y, c.direction, i));
      }
    }
  }

  /** Every materialized grid is a copy of `GLOBAL` or of the base grid, and old grids stay. */
  lemma {:induction false} MaterializeAllGrows(s: Setup, grids: map<string, Grid>, players: Players, ids: seq<string>)
    requires SetupOk(s) && Shapes(s, grids)
    requires forall i :: 0 <= i < |ids| ==> ids[i] in players.byId
    ensures Grows(grids, MaterializeAll(s.mode, s.baseGrid, grids, players, ids))
  {
    var r := MaterializeAll(s.mode, s.baseGrid, grids, players, ids);
    forall k | k in grids ensures SameShape(grids[k], r[k]) && forall y, x :: InGrid(grids[k], x, y) ==> Settled(grids[k][y][x], r[k][y][x]) {
      assert r[k] == grids[k];
    }
  }

  /**
   * In Teams mode, after a solution is spread, the word is marked in every `GLOBAL`, `TEAM_*`
   * and `SHARED` grid, including the team grids created when the players are served.
   */
  lemma {:induction false} MaterializeAllMarked(s: Setup, grids: map<string, Grid>, players: Players, ids: seq<string>, c: Clue)
    requires SetupOk(s) && Shapes(s, grids) && s.mode == Teams && GlobalKey in grids
    requires forall i :: 0 <= i < |ids| ==> ids[i] in players.byId
    requires forall k :: k in grids && SharedView(k) ==> Inside(grids[k], c) && Marked(grids[k], c)
    ensures var r := MaterializeAll(s.mode, s.baseGrid, grids, players, ids);
            forall k :: k in r && SharedView(k) ==> Inside(r[k], c) && Marked(r[k], c)
    decreases |ids|
  {
    if ids != [] {
      var g1 := if Connected(players.byId[ids[0]]) then Materialize(s.mode, s.baseGrid, grids, players, ids[0]) else grids;
      assert SharedView(GlobalKey);
      MaterializeShapes(s, grids, players, ids[0]);
      MaterializeAllMarked(s, g1, players, ids[1..], c);
    }
  }

  /** Copying a solution into the shared grids grows them, keeps the actor's letters and marks the word in each. */
  lemma SyncedOk(s: Setup, grids: map<string, Grid>, key: string, c: Clue, pid: string, team: Option<int>)
    requires SetupOk(s) && Shapes(s, grids) && key in grids && Inside(grids[key], c)
    ensures var g := grids[key];
            var sy := Synced(grids[key := Stamp(g, g, c, pid, team)], g, c, pid, team);
            && Shapes(s, sy) && Grows(grids, sy) && KeptAt(grids, sy, key) && Inside(sy[key], c) && Marked(sy[key], c)
            && forall k :: k in sy && SharedView(k) ==> Inside(sy[k], c) && Marked(sy[k], c)
  {
    var g := grids[key];
    var marked := grids[key := Stamp(g, g, c, pid, team)];
    var sy := Synced(marked, g, c, pid, team);
    StampGrows(g, g, c, pid, team);
    assert Shapes(s, sy);
    SyncedGrows(s, grids, key, c, pid, team);
    SyncedKept(s, grids, key, c, pid, team);
    forall k | k in sy && SharedView(k) ensures Inside(sy[k], c) && Marked(sy[k], c) {
      StampGrows(marked[k], g, c, pid, team);
      assert Inside(marked[k], c);
    }
  }

  /** The spread only settles cells: every grid keeps its shape and its settled letters. */
  lemma SyncedGrows(s: Setup, grids: map<string, Grid>, key: string, c: Clue, pid: string, team: Option<int>)
    requires SetupOk(s) && Shapes(s, grids) && key in grids && Inside(grids[key], c)
    ensures var g := grids[key];
            Grows(grids, Synced(grids[key := Stamp(g, g, c, pid, team)], g, c, pid, team))
  {
    var g := grids[key];
    var st := Stamp(g, g, c, pid, team);
    StampGrows(g, g, c, pid, team);
    var sy := Synced(grids[key := st], g, c, pid, team);
    forall k | k in grids ensures SameShape(grids[k], sy[k]) && forall y, x :: InGrid(grids[k], x, y) ==> Settled(grids[k][y][x], sy[k][y][x]) {
      if k == key {
        if SharedView(k) {
          StampGrows(st, g, c, pid, team);
          forall y, x | InGrid(grids[k], x, y) ensures Settled(grids[k][y][x], sy[k][y][x]) {
            assert InGrid(st, x, y);
          }
        }
      } else if SharedView(k) {
        StampGrows(grids[k], g, c, pid, team);
      }
    }
  }

  /** The spread keeps the actor's letters and leaves the word marked in the actor's grid. */
  lemma SyncedKept(s: Setup, grids: map<string, Grid>, key: string, c: Clue, pid: string, team: Option<int>)
    requires SetupOk(s) && Shapes(s, grids) && key in grids && Inside(grids[key], c)
    ensures var g := grids[key];
            var sy := Synced(grids[key := Stamp(g, g, c, pid, team)], g, c, pid, team);
            KeptAt(grids, sy, key) && Inside(sy[key], c) && Marked(sy[key], c)
  {
    var g := grids[key];
    var st := Stamp(g, g, c, pid, team);
    StampGrows(g, g, c, pid, team);
    var sy := Synced(grids[key := st], g, c, pid, team);
    if SharedView(key) {
      StampGrows(st, g, c, pid, team);
      forall y, x | InGrid(g, x, y) ensures SameLetter(g[y][x], sy[key][y][x]) {
        assert InGrid(st, x, y);
      }
    }
  }

  /** The Teams-mode spread of a solution from the grid under `key`. */
  lemma SpreadOk(s: Setup, grids: map<string, Grid>, key: string, c: Clue, pid: string, team: Option<int>, players: Players)
    requires SetupOk(s) && Shapes(s, grids) && key in grids && s.mode == Teams && GlobalKey in grids && players.Valid()
    requires Inside(grids[key], c)
    ensures var r := Marks(s, grids, players, key, c, pid, team);
            && Grows(grids, r) && KeptAt(grids, r, key) && Inside(r[key], c) && Marked(r[key], c)
            && forall k :: k in r && SharedView(k) ==> Inside(r[k], c) && Marked(r[k], c)
  {
    var g := grids[key];
    var sy := Synced(grids[key := Stamp(g, g, c, pid, team)], g, c, pid, team);
    SyncedOk(s, grids, key, c, pid, team);
    MaterializeAllGrows(s, sy, players, players.order);
    MaterializeAllMarked(s, sy, players, players.order, c);
    var r := MaterializeAll(s.mode, s.baseGrid, sy, players, players.order);
    assert r == Marks(s, grids, players, key, c, pid, team);
    GrowsTrans(grids, sy, r);
    assert r[key] == sy[key];
  }

  /**
   * Marking a solved word grows the grids, keeps the actor's letters, marks the word in the
   * actor's grid, in Teams mode marks it in every shared grid, and otherwise changes no
   * other grid.
   */
  lemma MarksOk(s: Setup, grids: map<string, Grid>, players: Players, key: string, c: Clue, pid: string, team: Option<int>)
    requires SetupOk(s) && Shapes(s, grids) && key in grids && players.Valid() && Inside(grids[key], c)
    requires s.mode == Teams ==> GlobalKey in grids
    ensures var r := Marks(s, grids, players, key, c, pid, team);
            && Grows(grids, r) && KeptAt(grids, r, key) && Inside(r[key], c) && Marked(r[key], c)
            && (s.mode == Teams ==> forall k :: k in r && SharedView(k) ==> Inside(r[k], c) && Marked(r[k], c))
            && (s.mode != Teams ==> r.Keys == grids.Keys && forall k :: k in grids && k != key ==> r[k] == grids[k])
  {
    if s.mode == Teams {
      SpreadOk(s, grids, key, c, pid, team, players);
    } else {
      StampGrows(grids[key], grids[key], c, pid, team);
    }
  }

  /** Judging one word grows the grids and keeps the actor's letters, and outside Teams mode touches no other grid. */
  lemma JudgeClueGrids(s: Setup, p: Play, players: Players, key: string, j: nat, pid: string)
    requires SetupOk(s) && Shapes(s, p.grids) && key in p.grids && j < |s.baseClues| && players.Valid()
    requires s.mode == Teams ==> GlobalKey in p.grids
    ensures var r := JudgeClue(s, p, players, key, j, pid);
            && Grows(p.grids, r.grids) && KeptAt(p.grids, r.grids, key)
            && (s.mode != Teams ==> r.grids.Keys == p.grids.Keys && forall k :: k in p.grids && k != key ==> r.grids[k] == p.grids[k])
            && (r.awards == p.awards || r.awards == p.awards + [Award(key, j)])
            && (r.awards != p.awards ==> Inside(r.grids[key], s.baseClues[j]) && Marked(r.grids[key], s.baseClues[j]))
            && (s.mode == Teams && r.awards != p.awards ==>
                  forall k :: k in r.grids && SharedView(k) ==> Inside(r.grids[k], s.baseClues[j]) && Marked(r.grids[k], s.baseClues[j]))
  {
    CluesInside(s, p.grids[key]);
    if WordSolved(p.grids[key], s.baseClues[j]) {
      var r := JudgeClue(s, p, players, key, j, pid);
      var q := Scored(s, p, players, key, j, pid);
      assert r.grids == q.grids && r.awards == q.awards;
      MarksOk(s, p.grids, players, key, s.baseClues[j], pid, TeamOf(players, pid));
    }
  }

  /** Judging one word keeps the books. */
  lemma JudgeClueBooks(s: Setup, p: Play, players: Players, key: string, j: nat, pid: string)
    requires PlayOk(s, p) && key in p.grids && j < |s.baseClues| && players.Valid()
    ensures Accounts(s, p, JudgeClue(s, p, players, key, j, pid), pid)
  {
    CluesInside(s, p.grids[key]);
    var c := s.baseClues[j];
    var g := p.grids[key];
    var r := JudgeClue(s, p, players, key, j, pid);
    assert forall m :: 0 <= m < |p.awards| ==> p.awards[m].clue < |s.baseClues| by {
      forall m | 0 <= m < |p.awards| ensures p.awards[m].clue < |s.baseClues| {
        assert p.awards[m] in p.awards;
      }
    }
    if !WordSolved(g, c) {
      AccountsSame(s, p, r, pid);
    } else {
      var q := Scored(s, p, players, key, j, pid);
      ScoredBooks(s, p, players, key, j, pid);
      CluesInside(s, q.grids[key]);
      if AllSolved(q.grids[key], s.baseClues) {
        assert r == EndGame(q);
        EndGameBooks(s, p, q, pid);
      } else {
        assert r == q;
      }
    }
  }

  /** Scoring a word credits the actor alone, with one word and between one and two points per letter. */
  lemma ScoredBooks(s: Setup, p: Play, players: Players, key: string, j: nat, pid: string)
    requires SetupOk(s) && Shapes(s, p.grids) && key in p.grids && j < |s.baseClues| && players.Valid()
    requires Inside(p.grids[key], s.baseClues[j])
    requires forall m :: 0 <= m < |p.awards| ==> p.awards[m].clue < |s.baseClues|
    ensures Accounts(s, p, Scored(s, p, players, key, j, pid), pid)
  {
    var c := s.baseClues[j];
    var g := p.grids[key];
    var r := Scored(s, p, players, key, j, pid);
    PointsRule(|c.word|, HintsIn(g, c, |c.word|));
    assert r.awards[|p.awards|..] == [Award(key, j)];
    assert r.awards[..|p.awards|] == p.awards;
    assert Letters(s, [Award(key, j)]) == |c.word| by {
      assert [Award(key, j)][1..] == [];
    }
  }

  /** Ending the game after an action keeps that action's books. */
  lemma EndGameBooks(s: Setup, p: Play, q: Play, pid: string)
    requires Accounts(s, p, q, pid)
    ensures Accounts(s, p, EndGame(q), pid)
  {
  }

  /**
   * Judging one word keeps the game's invariant: the award, if any, is the new pair
   * `(key, j)`, the actor's letters stay as they are, outside Teams mode no other grid
   * changes, and in Teams mode an awarded word is marked in every shared grid.
   */
  lemma JudgeClueOk(s: Setup, p: Play, players: Players, key: string, j: nat, pid: string)
    requires PlayOk(s, p) && key in p.grids && j < |s.baseClues| && players.Valid()
    requires Award(key, j) !in p.awards
    ensures var r := JudgeClue(s, p, players, key, j, pid);
            && PlayOk(s, r) && Grows(p.grids, r.grids) && KeptAt(p.grids, r.grids, key) && Accounts(s, p, r, pid)
            && (r.awards == p.awards || r.awards == p.awards + [Award(key, j)])
            && (s.mode != Teams ==> r.grids.Keys == p.grids.Keys && forall k :: k in p.grids && k != key ==> r.grids[k] == p.grids[k])
            && (s.mode == Teams && r.awards != p.awards ==>
                  forall k :: k in r.grids && SharedView(k) ==> Inside(r.grids[k], s.baseClues[j]) && Marked(r.grids[k], s.baseClues[j]))
  {
    var r := JudgeClue(s, p, players, key, j, pid);
    JudgeClueGrids(s, p, players, key, j, pid);
    JudgeClueBooks(s, p, players, key, j, pid);
    AwardsKept(s, p, r.grids, r.awards, key, j);
  }

  /** The awards stay marked, and distinct, when grids grow and a fresh award is added. */
  lemma AwardsKept(s: Setup, p: Play, grids: map<string, Grid>, awards: seq<Award>, key: string, j: nat)
    requires PlayOk(s, p) && Grows(p.grids, grids) && Shapes(s, grids)
    requires awards == p.awards || (awards == p.awards + [Award(key, j)] && Award(key, j) !in p.awards)
    requires awards != p.awards ==> j < |s.baseClues| && key in grids && Inside(grids[key], s.baseClues[j]) && Marked(grids[key], s.baseClues[j])
    ensures forall a :: a in awards ==>
              && a.key in grids && a.clue < |s.baseClues|
              && Inside(grids[a.key], s.baseClues[a.clue]) && Marked(grids[a.key], s.baseClues[a.clue])
    ensures forall m, n :: 0 <= m < n < |awards| ==> awards[m] != awards[n]
  {
    forall a | a in awards
      ensures a.key in grids && a.clue < |s.baseClues| && Inside(grids[a.key], s.baseClues[a.clue]) && Marked(grids[a.key], s.baseClues[a.clue])
    {
      if a in p.awards {
        MarkedKept(p.grids, grids, a.key, s.baseClues[a.clue]);
      }
    }
    forall m, n | 0 <= m < n < |awards| ensures awards[m] != awards[n] {
      if n == |p.awards| {
        assert awards[m] in p.awards;
      }
    }
  }

  /**
   * A word is awarded exactly when every letter of it is filled in right in the actor's grid;
   * it then earns `Points` for its length and hinted letters, and the game ends exactly when
   * this completes every word of the actor's grid.
   */
  lemma JudgeClueAwards(s: Setup, p: Play, players: Players, key: string, j: nat, pid: string)
    requires SetupOk(s) && Shapes(s, p.grids) && key in p.grids && j < |s.baseClues| && players.Valid()
    ensures Inside(p.grids[key], s.baseClues[j])
    ensures var r := JudgeClue(s, p, players, key, j, pid);
            && (r.awards != p.awards <==> WordSolved(p.grids[key], s.baseClues[j]))
            && (r.awards != p.awards ==>
                  && Get(r.scores, pid) == Get(p.scores, pid) + Points(|s.baseClues[j].word|, HintsIn(p.grids[key], s.baseClues[j], |s.baseClues[j].word|))
                  && key in r.grids && (forall jj :: 0 <= jj < |s.baseClues| ==> Inside(r.grids[key], s.baseClues[jj]))
                  && (r.status == Ended <==> p.status == Ended || AllSolved(r.grids[key], s.baseClues)))
  {
    CluesInside(s, p.grids[key]);
    var r := JudgeClue(s, p, players, key, j, pid);
    if WordSolved(p.grids[key], s.baseClues[j]) {
      assert |r.awards| == |p.awards| + 1;
      CluesInside(s, r.grids[key]);
    }
  }

  /**
   * Judging the words through a cell only grows the grids and keeps the actor's letters,
   * and outside Teams mode no other grid changes.
   */
  lemma {:induction false} JudgeAllGrids(s: Setup, p: Play, players: Players, key: string, js: seq<nat>, pid: string)
    requires SetupOk(s) && Shapes(s, p.grids) && key in p.grids && players.Valid()
    requires s.mode == Teams ==> GlobalKey in p.grids
    requires forall m :: 0 <= m < |js| ==> js[m] < |s.baseClues|
    ensures var r := JudgeAll(s, p, players, key, js, pid);
            && Grows(p.grids, r.grids) && KeptAt(p.grids, r.grids, key)
            && (s.mode != Teams ==> r.grids.Keys == p.grids.Keys && forall k :: k in p.grids && k != key ==> r.grids[k] == p.grids[k])
    decreases |js|
  {
    var r := JudgeAll(s, p, players, key, js, pid);
    if js != [] {
      var q := JudgeClue(s, p, players, key, js[0], pid);
      JudgeClueGrids(s, p, players, key, js[0], pid);
      assert forall m :: 0 <= m < |js[1..]| ==> js[1..][m] == js[m + 1];
      JudgeAllGrids(s, q, players, key, js[1..], pid);
      GrowsTrans(p.grids, q.grids, r.grids);
      KeptTrans(p.grids, q.grids, r.grids, key);
    }
  }

  /** Judging the words through a cell only appends awards, each for this grid and one of the words judged. */
  lemma {:induction false} JudgeAllAwards(s: Setup, p: Play, players: Players, key: string, js: seq<nat>, pid: string)
    requires SetupOk(s) && Shapes(s, p.grids) && key in p.grids && players.Valid()
    requires s.mode == Teams ==> GlobalKey in p.grids
    requires forall m :: 0 <= m < |js| ==> js[m] < |s.baseClues|
    ensures var r := JudgeAll(s, p, players, key, js, pid);
            && |p.awards| <= |r.awards| && r.awards[..|p.awards|] == p.awards
            && (forall m :: |p.awards| <= m < |r.awards| ==> r.awards[m].key == key && r.awards[m].clue in js)
    decreases |js|
  {
    var r := JudgeAll(s, p, players, key, js, pid);
    if js != [] {
      var q := JudgeClue(s, p, players, key, js[0], pid);
      JudgeClueGrids(s, p, players, key, js[0], pid);
      assert forall m :: 0 <= m < |js[1..]| ==> js[1..][m] == js[m + 1];
      JudgeAllAwards(s, q, players, key, js[1..], pid);
      SlicesTrans(p.awards, q.awards, r.awards);
      forall m | |p.awards| <= m < |r.awards| ensures r.awards[m].key == key && r.awards[m].clue in js {
        if m < |q.awards| {
          assert r.awards[m] == r.awards[..|q.awards|][m] == q.awards[m];
        } else {
          assert r.awards[m].clue in js[1..];
        }
      }
    }
  }

  /** Judging the words through a cell keeps the game's invariant when none of them was awarded in this grid before. */
  lemma {:induction false} JudgeAllOk(s: Setup, p: Play, players: Players, key: string, js: seq<nat>, pid: string)
    requires PlayOk(s, p) && key in p.grids && players.Valid()
    requires forall m :: 0 <= m < |js| ==> js[m] < |s.baseClues| && Award(key, js[m]) !in p.awards
    requires forall m, n :: 0 <= m < n < |js| ==> js[m] < js[n]
    ensures PlayOk(s, JudgeAll(s, p, players, key, js, pid))
    decreases |js|
  {
    if js != [] {
      var q := JudgeClue(s, p, players, key, js[0], pid);
      JudgeClueOk(s, p, players, key, js[0], pid);
      assert forall m :: 0 <= m < |js[1..]| ==> js[1..][m] == js[m + 1];
      JudgeAllOk(s, q, players, key, js[1..], pid);
    }
  }

  /** Judging the words through a cell keeps the books. */
  lemma {:induction false} JudgeAllBooks(s: Setup, p: Play, players: Players, key: string, js: seq<nat>, pid: string)
    requires PlayOk(s, p) && key in p.grids && players.Valid()
    requires forall m :: 0 <= m < |js| ==> js[m] < |s.baseClues| && Award(key, js[m]) !in p.awards
    requires forall m, n :: 0 <= m < n < |js| ==> js[m] < js[n]
    ensures Accounts(s, p, JudgeAll(s, p, players, key, js, pid), pid)
    decreases |js|
  {
    var r := JudgeAll(s, p, players, key, js, pid);
    if js == [] {
      AccountsSame(s, p, r, pid);
    } else {
      var q := JudgeClue(s, p, players, key, js[0], pid);
      JudgeClueOk(s, p, players, key, js[0], pid);
      assert forall m :: 0 <= m < |js[1..]| ==> js[1..][m] == js[m + 1];
      JudgeAllBooks(s, q, players, key, js[1..], pid);
      AccountsTrans(s, p, q, r, pid);
    }
  }

  // ------------------------------------------------------------------ keystrokes and hints keep the game

  /** The cells of an awarded word are solved in its grid. */
  lemma AwardedSolved(s: Setup, p: Play, key: string, x: int, y: int, j: nat)
    requires PlayOk(s, p) && j < |s.baseClues| && CoversClue(s.baseClues[j], x, y)
    ensures Award(key, j) in p.awards ==> key in p.grids && InGrid(p.grids[key], x, y) && p.grids[key][y][x].isSolved
  {
    if Award(key, j) in p.awards {
      var c := s.baseClues[j];
      var i := Offset(c.x, c.y, c.direction, x, y);
      assert Col(c.x, c.direction, i) == x && Row(c.y, c.direction, i) == y;
      assert At(p.grids[key], c, i).isSolved;
    }
  }

  /** No word through an unsolved cell has been awarded in that grid. */
  lemma UnsolvedFresh(s: Setup, p: Play, key: string, x: int, y: int, j: nat)
    requires PlayOk(s, p) && j < |s.baseClues| && CoversClue(s.baseClues[j], x, y)
    requires key in p.grids ==> InGrid(p.grids[key], x, y) && !p.grids[key][y][x].isSolved
    ensures Award(key, j) !in p.awards
  {
    AwardedSolved(s, p, key, x, y, j);
  }

  /** Serving a view keeps the invariant and only adds grids; outside Teams mode it adds at most the actor's own. */
  lemma ServeOk(s: Setup, p: Play, players: Players, pid: string)
    requires PlayOk(s, p)
    ensures var grids := Materialize(s.mode, s.baseGrid, p.grids, players, pid);
            && PlayOk(s, p.(grids := grids)) && Grows(p.grids, grids)
            && (s.mode != Teams ==> forall k :: k in grids && k != ViewKey(s.mode, players, pid) ==> k in p.grids && grids[k] == p.grids[k])
  {
    var grids := Materialize(s.mode, s.baseGrid, p.grids, players, pid);
    MaterializeShapes(s, p.grids, players, pid);
    MaterializeStable(s.mode, s.baseGrid, p.grids, players, pid);
    AwardsKept(s, p, grids, p.awards, "", 0);
  }

  /** Writing one cell without touching its answer, colour or solved flag keeps the invariant. */
  lemma PutOk(s: Setup, p: Play, key: string, x: int, y: int, cell: Cell)
    requires PlayOk(s, p) && key in p.grids && InGrid(p.grids[key], x, y) && Settled(p.grids[key][y][x], cell)
    requires p.grids[key][y][x].isSolved == cell.isSolved
    ensures var grids := p.grids[key := Put(p.grids[key], x, y, cell)];
            PlayOk(s, p.(grids := grids)) && Grows(p.grids, grids)
  {
    var grids := p.grids[key := Put(p.grids[key], x, y, cell)];
    assert Grows(p.grids, grids);
    AwardsKept(s, p, grids, p.awards, "", 0);
  }

  /**
   * Typing a letter keeps the invariant, grows the grids, keeps the books, shows the letter
   * in the typed cell, touches no other view's grid outside Teams mode, and leaves every word
   * through the cell unawarded in the actor's grid.
   */
  lemma TypedOk(s: Setup, p: Play, players: Players, pid: string, x: int, y: int, letter: string)
    requires PlayOk(s, p) && players.Valid() && InputReaches(s, p, players, pid, x, y)
    ensures var r := Typed(s, p, players, pid, x, y, letter);
            var key := ViewKey(s.mode, players, pid);
            && PlayOk(s, r) && Grows(p.grids, r.grids) && Accounts(s, p, r, pid) && r.awards == p.awards && r.status == p.status
            && InGrid(r.grids[key], x, y) && r.grids[key][y][x].value == ToUpper(letter)
            && (s.mode != Teams ==> forall k :: k in r.grids && k != key ==> k in p.grids && r.grids[k] == p.grids[k])
            && forall j :: 0 <= j < |s.baseClues| && CoversClue(s.baseClues[j], x, y) ==> Award(key, j) !in r.awards
  {
    var grids := Materialize(s.mode, s.baseGrid, p.grids, players, pid);
    var key := ViewKey(s.mode, players, pid);
    ServeOk(s, p, players, pid);
    var p0 := p.(grids := grids);
    var g: Grid := grids[key];
    var cell: Cell := g[y][x].(value := ToUpper(letter));
    PutOk(s, p0, key, x, y, cell);
    var r := Typed(s, p, players, pid, x, y, letter);
    GrowsTrans(p.grids, grids, r.grids);
    AccountsSame(s, p, r, pid);
    forall j | 0 <= j < |s.baseClues| && CoversClue(s.baseClues[j], x, y) ensures Award(key, j) !in r.awards {
      UnsolvedFresh(s, p, key, x, y, j);
    }
  }

  /**
   * `handleInput` keeps the game's invariant and only grows the grids; when the game is not
   * ACTIVE nothing changes at all, and outside Teams mode no other view's grid changes.
   */
  lemma InputOk(s: Setup, p: Play, players: Players, pid: string, x: int, y: int, letter: string)
    requires PlayOk(s, p) && players.Valid()
    ensures var r := Input(s, p, players, pid, x, y, letter);
            && PlayOk(s, r) && Grows(p.grids, r.grids)
            && (p.status != Active ==> r == p)
            && (s.mode != Teams ==> forall k :: k in p.grids && k != ViewKey(s.mode, players, pid) ==> r.grids[k] == p.grids[k])
  {
    if InputReaches(s, p, players, pid, x, y) {
      var key := ViewKey(s.mode, players, pid);
      var p1 := Typed(s, p, players, pid, x, y, letter);
      var js := Relevant(s.baseClues, x, y, 0);
      RelevantAscending(s.baseClues, x, y, 0);
      TypedOk(s, p, players, pid, x, y, letter);
      JudgeAllGrids(s, p1, players, key, js, pid);
      JudgeAllAwards(s, p1, players, key, js, pid);
      JudgeAllOk(s, p1, players, key, js, pid);
      GrowsTrans(p.grids, p1.grids, Input(s, p, players, pid, x, y, letter).grids);
    } else if p.status == Active {
      ServeOk(s, p, players, pid);
    }
  }

  /**
   * `handleInput` keeps the books. When it gets through its guards, the typed cell shows the
   * upper-cased letter afterwards and every word it awards runs through that cell;
   * otherwise no word is awarded and the game's status stays.
   */
  lemma InputBooks(s: Setup, p: Play, players: Players, pid: string, x: int, y: int, letter: string)
    requires PlayOk(s, p) && players.Valid()
    ensures var r := Input(s, p, players, pid, x, y, letter);
            && Accounts(s, p, r, pid)
            && (!InputReaches(s, p, players, pid, x, y) ==> r.awards == p.awards && r.status == p.status)
            && (InputReaches(s, p, players, pid, x, y) ==>
                  var key := ViewKey(s.mode, players, pid);
                  && key in r.grids && InGrid(r.grids[key], x, y) && r.grids[key][y][x].value == ToUpper(letter)
                  && forall m :: |p.awards| <= m < |r.awards| ==>
                       r.awards[m].key == key && r.awards[m].clue < |s.baseClues| && CoversClue(s.baseClues[r.awards[m].clue], x, y))
  {
    var r := Input(s, p, players, pid, x, y, letter);
    if InputReaches(s, p, players, pid, x, y) {
      TypedBooks(s, p, players, pid, x, y, letter);
    } else {
      InputRefused(s, p, players, pid, x, y, letter);
      AccountsSame(s, p, r, pid);
    }
  }

  /** A keystroke refused by a guard changes no more than the grids, by serving the actor's view. */
  lemma InputRefused(s: Setup, p: Play, players: Players, pid: string, x: int, y: int, letter: string)
    requires PlayOk(s, p) && players.Valid() && !InputReaches(s, p, players, pid, x, y)
    ensures Input(s, p, players, pid, x, y, letter) == p.(grids := Input(s, p, players, pid, x, y, letter).grids)
  {
  }

  /** A keystroke that gets through its guards keeps the books, shows the letter and awards only words through the cell. */
  lemma TypedBooks(s: Setup, p: Play, players: Players, pid: string, x: int, y: int, letter: string)
    requires PlayOk(s, p) && players.Valid() && InputReaches(s, p, players, pid, x, y)
    ensures var r := Input(s, p, players, pid, x, y, letter);
            var key := ViewKey(s.mode, players, pid);
            && Accounts(s, p, r, pid)
            && key in r.grids && InGrid(r.grids[key], x, y) && r.grids[key][y][x].value == ToUpper(letter)
            && forall m :: |p.awards| <= m < |r.awards| ==>
                 r.awards[m].key == key && r.awards[m].clue < |s.baseClues| && CoversClue(s.baseClues[r.awards[m].clue], x, y)
  {
    var r := Input(s, p, players, pid, x, y, letter);
    var key := ViewKey(s.mode, players, pid);
    var p1 := Typed(s, p, players, pid, x, y, letter);
    var js := Relevant(s.baseClues, x, y, 0);
    RelevantAscending(s.baseClues, x, y, 0);
    TypedOk(s, p, players, pid, x, y, letter);
    assert r == JudgeAll(s, p1, players, key, js, pid);
    JudgeAllGrids(s, p1, players, key, js, pid);
    JudgeAllAwards(s, p1, players, key, js, pid);
    JudgeAllBooks(s, p1, players, key, js, pid);
    AccountsTrans(s, p, p1, r, pid);
  }

  /** The invariant speaks only of grids and awards. */
  lemma PlayOkFields(s: Setup, p: Play, q: Play)
    requires PlayOk(s, p) && q.grids == p.grids && q.awards == p.awards
    ensures PlayOk(s, q)
  {
  }

  /**
   * Revealing a cell keeps the invariant, grows the grids, touches no other view's grid
   * outside Teams mode, and leaves every word through that cell unawarded in the actor's grid.
   */
  lemma HintedOk(s: Setup, p: Play, players: Players, pid: string, draw: nat)
    requires PlayOk(s, p) && players.Valid() && HintReaches(s, p, players, pid)
    ensures var r := Hinted(s, p, players, pid, draw);
            var key := ViewKey(s.mode, players, pid);
            var t := HintTarget(Materialize(s.mode, s.baseGrid, p.grids, players, pid)[key], draw);
            && PlayOk(s, r) && Grows(p.grids, r.grids)
            && (s.mode != Teams ==> forall k :: k in r.grids && k != key ==> k in p.grids && r.grids[k] == p.grids[k])
            && forall j :: 0 <= j < |s.baseClues| && CoversClue(s.baseClues[j], t.c, t.r) ==> Award(key, j) !in r.awards
  {
    var grids := Materialize(s.mode, s.baseGrid, p.grids, players, pid);
    var key := ViewKey(s.mode, players, pid);
    ServeOk(s, p, players, pid);
    var g: Grid := grids[key];
    var t := HintTarget(g, draw);
    var cell: Cell := g[t.r][t.c].(value := g[t.r][t.c].correct, isHint := true);
    var p0 := p.(grids := grids);
    PutOk(s, p0, key, t.c, t.r, cell);
    var r := Hinted(s, p, players, pid, draw);
    PlayOkFields(s, p0.(grids := grids[key := Put(g, t.c, t.r, cell)]), r);
    GrowsTrans(p.grids, grids, r.grids);
    forall j | 0 <= j < |s.baseClues| && CoversClue(s.baseClues[j], t.c, t.r) ensures Award(key, j) !in r.awards {
      UnsolvedFresh(s, p, key, t.c, t.r, j);
    }
  }

  /**
   * Revealing a cell counts one more hint for the actor and nothing else on the books, and
   * shows the drawn candidate's answer with the hint flag.
   */
  lemma HintedBooks(s: Setup, p: Play, players: Players, pid: string, draw: nat)
    requires PlayOk(s, p) && players.Valid() && HintReaches(s, p, players, pid)
    ensures var r := Hinted(s, p, players, pid, draw);
            var key := ViewKey(s.mode, players, pid);
            var g := Materialize(s.mode, s.baseGrid, p.grids, players, pid)[key];
            var t := HintTarget(g, draw);
            && r.hintsUsed == p.hintsUsed[pid := Get(p.hintsUsed, pid) + 1]
            && Accounts(s, p.(hintsUsed := r.hintsUsed), r, pid) && r.awards == p.awards && r.status == p.status
            && InGrid(r.grids[key], t.c, t.r) && r.grids[key][t.r][t.c].value == g[t.r][t.c].correct && r.grids[key][t.r][t.c].isHint
  {
    var r := Hinted(s, p, players, pid, draw);
    AccountsSame(s, p.(hintsUsed := r.hintsUsed), r, pid);
  }

  /**
   * `provideHint` keeps the game's invariant and only grows the grids; when the game is not
   * ACTIVE or the actor has used 20 hints nothing changes at all, and outside Teams mode no
   * other view's grid changes.
   */
  lemma HintOk(s: Setup, p: Play, players: Players, pid: string, draw: nat)
    requires PlayOk(s, p) && players.Valid()
    ensures var r := Hint(s, p, players, pid, draw);
            && PlayOk(s, r) && Grows(p.grids, r.grids)
            && (p.status != Active || Get(p.hintsUsed, pid) >= HintCap ==> r == p)
            && (s.mode != Teams ==> forall k :: k in p.grids && k != ViewKey(s.mode, players, pid) ==> r.grids[k] == p.grids[k])
  {
    if HintReaches(s, p, players, pid) {
      HintGoesThrough(s, p, players, pid, draw);
    } else if p.status == Active && Get(p.hintsUsed, pid) < HintCap {
      HintServes(s, p, players, pid, draw);
      ServeOk(s, p, players, pid);
    } else {
      assert Hint(s, p, players, pid, draw) == p;
    }
  }

  /** With no candidate left, a hint only serves the actor's view. */
  lemma HintServes(s: Setup, p: Play, players: Players, pid: string, draw: nat)
    requires PlayOk(s, p) && players.Valid() && !HintReaches(s, p, players, pid)
    requires p.status == Active && Get(p.hintsUsed, pid) < HintCap
    ensures Hint(s, p, players, pid, draw) == p.(grids := Materialize(s.mode, s.baseGrid, p.grids, players, pid))
  {
    ViewServed(s.mode, s.baseGrid, p.grids, players, pid);
  }

  /** A hint that gets through its guards keeps the invariant, grows the grids and, outside Teams mode, touches only the actor's view. */
  lemma HintGoesThrough(s: Setup, p: Play, players: Players, pid: string, draw: nat)
    requires PlayOk(s, p) && players.Valid() && HintReaches(s, p, players, pid)
    ensures var r := Hint(s, p, players, pid, draw);
            && PlayOk(s, r) && Grows(p.grids, r.grids)
            && (s.mode != Teams ==> forall k :: k in p.grids && k != ViewKey(s.mode, players, pid) ==> r.grids[k] == p.grids[k])
  {
    var key := ViewKey(s.mode, players, pid);
    var g := Materialize(s.mode, s.baseGrid, p.grids, players, pid)[key];
    var t := HintTarget(g, draw);
    var p1 := Hinted(s, p, players, pid, draw);
    var js := Relevant(s.baseClues, t.c, t.r, 0);
    RelevantAscending(s.baseClues, t.c, t.r, 0);
    HintedOk(s, p, players, pid, draw);
    JudgeAllGrids(s, p1, players, key, js, pid);
    JudgeAllAwards(s, p1, players, key, js, pid);
    JudgeAllOk(s, p1, players, key, js, pid);
    assert Hint(s, p, players, pid, draw) == JudgeAll(s, p1, players, key, js, pid);
    GrowsTrans(p.grids, p1.grids, Hint(s, p, players, pid, draw).grids);
  }

  /**
   * `provideHint` keeps the books apart from the hint count, which rises by one exactly when
   * it gets through its guards and so never passes 20; otherwise no word is awarded.
   */
  lemma HintBooks(s: Setup, p: Play, players: Players, pid: string, draw: nat)
    requires PlayOk(s, p) && players.Valid()
    ensures var r := Hint(s, p, players, pid, draw);
            && Accounts(s, p.(hintsUsed := r.hintsUsed), r, pid)
            && r.hintsUsed == (if HintReaches(s, p, players, pid) then p.hintsUsed[pid := Get(p.hintsUsed, pid) + 1] else p.hintsUsed)
            && (Get(p.hintsUsed, pid) <= HintCap ==> Get(r.hintsUsed, pid) <= HintCap)
            && (!HintReaches(s, p, players, pid) ==> r.awards == p.awards && r.status == p.status)
  {
    var r := Hint(s, p, players, pid, draw);
    if HintReaches(s, p, players, pid) {
      HintCounted(s, p, players, pid, draw);
    } else {
      HintRefused(s, p, players, pid, draw);
      AccountsSame(s, p, r, pid);
    }
  }

  /** A hint refused by a guard changes no more than the grids, by serving the actor's view. */
  lemma HintRefused(s: Setup, p: Play, players: Players, pid: string, draw: nat)
    requires PlayOk(s, p) && players.Valid() && !HintReaches(s, p, players, pid)
    ensures Hint(s, p, players, pid, draw) == p.(grids := Hint(s, p, players, pid, draw).grids)
  {
  }

  lemma HintCounted(s: Setup, p: Play, players: Players, pid: string, draw: nat)
    requires PlayOk(s, p) && players.Valid() && HintReaches(s, p, players, pid)
    ensures var r := Hint(s, p, players, pid, draw);
            Accounts(s, p.(hintsUsed := r.hintsUsed), r, pid) && r.hintsUsed == p.hintsUsed[pid := Get(p.hintsUsed, pid) + 1]
  {
    var key := ViewKey(s.mode, players, pid);
    var t := HintTarget(Materialize(s.mode, s.baseGrid, p.grids, players, pid)[key], draw);
    var p1 := Hinted(s, p, players, pid, draw);
    var js := Relevant(s.baseClues, t.c, t.r, 0);
    RelevantAscending(s.baseClues, t.c, t.r, 0);
    HintedOk(s, p, players, pid, draw);
    HintedBooks(s, p, players, pid, draw);
    JudgeAllBooks(s, p1, players, key, js, pid);
    AccountsTrans(s, p.(hintsUsed := p1.hintsUsed), p1, Hint(s, p, players, pid, draw), pid);
  }

  /**
   * When `provideHint` gets through its guards, the drawn cell, a candidate before, shows
   * its answer with the hint flag afterwards, and every word awarded runs through it.
   */
  lemma HintReveals(s: Setup, p: Play, players: Players, pid: string, draw: nat)
    requires PlayOk(s, p) && players.Valid() && HintReaches(s, p, players, pid)
    ensures var r := Hint(s, p, players, pid, draw);
            var key := ViewKey(s.mode, players, pid);
            var g := Materialize(s.mode, s.baseGrid, p.grids, players, pid)[key];
            var t := HintTarget(g, draw);
            && Candidate(g[t.r][t.c])
            && key in r.grids && InGrid(r.grids[key], t.c, t.r)
            && r.grids[key][t.r][t.c].value == g[t.r][t.c].correct && r.grids[key][t.r][t.c].isHint
            && forall m :: |p.awards| <= m < |r.awards| ==>
                 r.awards[m].key == key && r.awards[m].clue < |s.baseClues| && CoversClue(s.baseClues[r.awards[m].clue], t.c, t.r)
  {
    var key := ViewKey(s.mode, players, pid);
    var t := HintTarget(Materialize(s.mode, s.baseGrid, p.grids, players, pid)[key], draw);
    var p1 := Hinted(s, p, players, pid, draw);
    var js := Relevant(s.baseClues, t.c, t.r, 0);
    RelevantAscending(s.baseClues, t.c, t.r, 0);
    HintedOk(s, p, players, pid, draw);
    HintedBooks(s, p, players, pid, draw);
    JudgeAllGrids(s, p1, players, key, js, pid);
    JudgeAllAwards(s, p1, players, key, js, pid);
  }

  // ------------------------------------------------------------------ starting, the clock, cursors

  /** `settings.timeLimit || 600`: an unset (0) limit means ten minutes. */
  function InitialTime(timeLimit: int): (t: int)
    ensures timeLimit != 0 ==> t == timeLimit
    ensures timeLimit == 0 ==> t == 600
  {
    if timeLimit == 0 then 600 else timeLimit
  }

  /** The cell of the stand-in grid: empty, answer `A`, black on every third diagonal. */
  function MockCell(x: int, y: int): Cell
  {
    Cell("", "A", (x + y) % 3 == 0, None, false, false, None, None)
  }

  /** `generateMockGrid`: the 10 by 10 grid played when no custom words are given. */
  function MockGrid(): (g: Grid)
    ensures Shaped(g, 10, 10)
    ensures forall y, x :: 0 <= y < 10 && 0 <= x < 10 ==>
              g[y][x].value == "" && g[y][x].correct == "A" && !g[y][x].isSolved && !g[y][x].isHint &&
              (g[y][x].isBlack <==> (x + y) % 3 == 0)
  {
    seq(10, y => seq(10, x => MockCell(x, y)))
  }

  /**
   * The state a new game starts in: the clock at the time limit, ACTIVE with no timer yet,
   * the mode's standing grid as a copy of the base grid, and nothing scored.
   */
  function NewPlay(s: Setup, timeLimit: int): (p: Play)
    ensures p.status == Active && !p.timerOn && p.timeRemaining == InitialTime(timeLimit)
    ensures p.awards == [] && p.scores == map[] && p.wordsSolved == map[] && p.hintsUsed == map[] && p.cursors == map[]
    ensures s.mode == CoOp ==> p.grids == map[SharedKey := s.baseGrid]
    ensures s.mode == Teams ==> p.grids == map[GlobalKey := s.baseGrid]
    ensures s.mode == Competitive ==> p.grids == map[]
  {
    var grids := match s.mode
      case CoOp => map[SharedKey := s.baseGrid]
      case Teams => map[GlobalKey := s.baseGrid]
      case Competitive => map[];
    Play(InitialTime(timeLimit), Active, false, grids, map[], map[], map[], map[], 0, [])
  }

  /** A new game satisfies the invariant. */
  lemma NewPlayOk(s: Setup, timeLimit: int)
    requires SetupOk(s)
    ensures PlayOk(s, NewPlay(s, timeLimit))
  {
  }

  /** The stand-in grid with no clues is a well-formed game setup in every mode. */
  lemma MockSetupOk(mode: Mode)
    ensures SetupOk(Setup(mode, 10, 10, MockGrid(), []))
  {
  }

  /** `start`: the one-second timer is set. */
  function Start(p: Play): Play
  {
    p.(timerOn := true)
  }

  /** `tick`: nothing unless ACTIVE; a second comes off the clock and the game ends at zero. */
  function Tick(p: Play): (r: Play)
  {
    if p.status != Active then p
    else
      var q := p.(timeRemaining := p.timeRemaining - 1);
      if q.timeRemaining <= 0 then EndGame(q) else q
  }

  /** `extendTime`: five more minutes, and an ended game is resumed with a new timer. */
  function ExtendTime(p: Play): (r: Play)
  {
    var q := p.(timeRemaining := p.timeRemaining + 300);
    if p.status == Ended then q.(status := Active, timerOn := true) else q
  }

  /** `handleSelect`: the actor's cursor moves to `(x, y)`. */
  function Select(p: Play, pid: string, x: int, y: int): (r: Play)
  {
    p.(cursors := p.cursors[pid := Cursor(x, y)])
  }

  /** `k` ticks of the clock. */
  function Ticks(p: Play, k: nat): Play
    decreases k
  {
    if k == 0 then p else Ticks(Tick(p), k - 1)
  }

  /**
   * A tick of an ACTIVE game takes one second off and ends the game exactly when the clock
   * reaches zero; a tick of an ended game changes nothing; no tick touches grids or awards.
   */
  lemma TickRule(s: Setup, p: Play)
    ensures var r := Tick(p);
            && (p.status != Active ==> r == p)
            && (p.status == Active ==> r.timeRemaining == p.timeRemaining - 1 && (r.status == Ended <==> p.timeRemaining <= 1))
            && r.grids == p.grids && r.awards == p.awards && r.scores == p.scores
            && (PlayOk(s, p) ==> PlayOk(s, r))
  {
  }

  /** An ACTIVE game with `n` seconds left is still ACTIVE after `n - 1` ticks and ended after `n`. */
  lemma {:induction false} TicksToEnd(p: Play, n: nat)
    requires p.status == Active && p.timeRemaining == n && n >= 1
    ensures Ticks(p, n - 1).status == Active && Ticks(p, n - 1).timeRemaining == 1
    ensures Ticks(p, n).status == Ended && Ticks(p, n).timeRemaining == 0
    decreases n
  {
    if n > 1 {
      TicksToEnd(Tick(p), n - 1);
    }
  }

  /**
   * A new game runs out on the clock its limit sets: with a positive limit it is still
   * ACTIVE one tick before that many seconds have passed and ENDED at the last one; with no
   * limit (0) the same holds for ten minutes; a negative limit ends on the first tick.
   */
  lemma NewPlayRunsOut(s: Setup, timeLimit: int)
    ensures timeLimit > 0 ==>
              Ticks(NewPlay(s, timeLimit), timeLimit - 1).status == Active &&
              Ticks(NewPlay(s, timeLimit), timeLimit).status == Ended
    ensures timeLimit == 0 ==>
              Ticks(NewPlay(s, timeLimit), 599).status == Active &&
              Ticks(NewPlay(s, timeLimit), 600).status == Ended
    ensures timeLimit < 0 ==> Tick(NewPlay(s, timeLimit)).status == Ended
  {
    if timeLimit >= 0 {
      TicksToEnd(NewPlay(s, timeLimit), InitialTime(timeLimit));
    }
  }

  /** After `extendTime` the game is ACTIVE with five more minutes, and nothing else changes but the timer. */
  lemma ExtendRule(s: Setup, p: Play)
    ensures var r := ExtendTime(p);
            && r.status == Active && r.timeRemaining == p.timeRemaining + 300
            && (p.status == Ended ==> r.timerOn) && (p.status == Active ==> r.timerOn == p.timerOn)
            && r.grids == p.grids && r.awards == p.awards && r.scores == p.scores
            && (PlayOk(s, p) ==> PlayOk(s, r))
  {
  }
}
