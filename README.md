# hogwash-wordplay in Dafny

A model of the core of hogwash-wordplay, a multiplayer crossword game. The host types
word/clue pairs. The server lays them out on a grid, and every player then fills in the grid
in one of three modes: Competitive, Co-Op or Teams.

The model covers:

- **Layout solver** (`server/objects/GridGenerator.js`). The class `Generator.GridGenerator`
  keeps its letter grid as an `array2` and its placements and skipped words as sequences.
  Its methods are proved against the functional solver in `Greedy`: `Step` places one word
  and `Run` places a list. The board predicates (`Fits`, `Write`, `Consistent`, `CapsFree`,
  the numbering) are in `Crossword`. Sorting the words longest first is the stable sort of
  `Sorting`.
- **Game state** (`server/objects/GameManager.js`). The class `Manager.GameManager` keeps the
  working grids, scores, hint counts, cursors, clock and status in fields. Every method is
  proved to move the state exactly as a function in `Game` says. The lemmas in `Game` prove
  what those functions promise:
  - the view key of each mode;
  - the scoring rule;
  - the Teams-mode spread of a solution;
  - the hint economy;
  - the broadcast routing;
  - the clock;
  - an invariant (`PlayOk`): every scored word is marked solved in its grid, no word is
    scored twice, and outside Teams mode no action touches another player's grid.
- **Session registry** (`server/objects/SessionManager.js`). The class
  `Sessions.SessionManager` keeps sessions, games and socket links as maps. The invariant
  `AllOk` says that each session's host, player list and team lists agree. Each method is
  proved to keep it and to produce the state of a function in `Sessions`.
- **Client logic**, as pure functions and lemmas:
  - word-list validation and the create/join guards of the onboarding screen (`Onboarding`);
  - the clock text and hint counter of the game screen (`GameScreen`);
  - the in-game leaderboard (`Leaderboard`);
  - the clue panel (`ClueList`);
  - the rankings, messages, name colours and team labels of the results screen (`Results`).
- **JavaScript library behaviour** that the code relies on (`Text`, `Roster`, `Sorting`):
  - `split`, `trim`, `toUpperCase`, `toString`, `padStart`, `parseInt`, `String.fromCharCode`;
  - the truncating `%`;
  - `Map` insertion order;
  - `Object.values` order;
  - the stability of `Array.prototype.sort`.

Where the code and its own documentation differ, the model follows the code:

- `generateSessionId` is commented as making a 6-character id. It makes 7 characters: six
  drawn characters plus the dash (`Sessions.SessionIdShape`).
- A new session's default mode is `'COMPETITIVE'`. The game manager tests only for `'Co-Op'`
  and `'Teams'`, so that default plays as Competitive (`Game.ParseMode`).
- The server caps hints at the literal 20. The session's `hintLimit` is only shown by the
  client (`GameScreen.HintsLeftFromSettings`).
- `checkWordComplete` has no "already solved" test. A word is never scored twice only
  because `handleInput` refuses solved cells and `provideHint` never picks one. The model
  proves this as part of the invariant (`Game.UnsolvedFresh`, `Game.JudgeAllOk`).
- `endGame` has no "already ended" guard. Every call sets ENDED and broadcasts game-over
  again, and the model counts these broadcasts (`gameOvers`).
- A clue's number is `null` only for a one-letter word. Because words are laid longest first,
  every word of two or more letters starts a run and gets a number
  (`Crossword.LongWordsAreNumbered`).

## Model

| member | source | states |
|---|---|---|
| Generator.GridGenerator.constructor | server/objects/GridGenerator.js:2-13 | the generator starts with the given words and size, an empty board, no placements and nothing skipped |
| Generator.GridGenerator.IsValidCell | server/objects/GridGenerator.js:141-143 | a cell is valid exactly when it lies on the board |
| Generator.GridGenerator.HasNeighbor | server/objects/GridGenerator.js:136-139 | a neighbour counts exactly when it is on the board and holds a letter |
| Generator.GridGenerator.CanPlace | server/objects/GridGenerator.js:97-134 | the answer is the legality predicate `Fits`: on the board, no clashing letter, no letter beside an empty cell of the word, both end caps free |
| Generator.GridGenerator.AddWordToGrid | server/objects/GridGenerator.js:145-153 | the word's cells get its letters, every other cell keeps its value, and the placement is appended |
| Generator.GridGenerator.CenterWord | server/objects/GridGenerator.js:38-50 | on an empty layout the word is placed exactly when `Choose` finds the centred across or down spot, and then the state is one `Step` on |
| Generator.GridGenerator.CrossWord | server/objects/GridGenerator.js:51-86 | the row-major scan places the word exactly when `Choose` finds the first legal crossing, and then the state is one `Step` on |
| Generator.GridGenerator.TryOffsets | server/objects/GridGenerator.js:62-81 | the offset loop at an occupied cell returns the first offset and direction (across before down) whose letter matches and whose spot fits |
| Generator.GridGenerator.Lay | server/objects/GridGenerator.js:43-47 | laying the word at the chosen spot is one `Step` of the solver |
| Generator.GridGenerator.PlaceWord | server/objects/GridGenerator.js:31-92 | trying one word is one `Step`: placed where `Choose` says, or its word appended to `skipped` |
| Generator.GridGenerator.PlaceWordsGreedy | server/objects/GridGenerator.js:30-95 | the state after the list is `Run` of the list: one step per word, in order |
| Generator.GridGenerator.CompileGrid | server/objects/GridGenerator.js:155-198 | each output cell is black unless it holds a letter, which becomes its answer; start cells numbered in row-major order; one clue per placement with its start cell's number |
| Generator.GridGenerator.MarkLetters | server/objects/GridGenerator.js:156-172 | the first pass leaves every letter cell white with its letter and every other cell black |
| Generator.GridGenerator.NumberStarts | server/objects/GridGenerator.js:174-187 | the second pass gives the start cells the numbers 1, 2, … in row-major order and no other cell a number |
| Generator.GridGenerator.NumberCell | server/objects/GridGenerator.js:176-186 | a white start cell takes the counter, which then moves on; any other cell is left unnumbered |
| Generator.GridGenerator.StartAt | server/objects/GridGenerator.js:179-181 | a white cell starts a run exactly when the cell before it is black or off the board and the cell after it is white, across or down |
| Generator.GridGenerator.Generate | server/objects/GridGenerator.js:15-28 | the layout is `Run` over the words sorted longest first, consistent; the output is its compiled grid; every clue of two or more letters has a number; the skipped words are returned |
| Generator.ByLengthOrder | server/objects/GridGenerator.js:17 | the sorted list is a permutation of the input, longest first, and words of equal length keep their input order |
| Generator.EveryWordAccounted | server/objects/GridGenerator.js:15-95 | placed and skipped entries together are the input, each once, and `skipped` lists the skipped words in the order they were tried |
| Generator.GreedyLayout | server/objects/GridGenerator.js:97-153 | every placement is spelled on the board, every letter belongs to a placement, and no placed word has a letter just before its first one |
| Greedy.Choose | server/objects/GridGenerator.js:38-86 | the spot `placeWordsGreedy` picks for a word; `ChooseIsLegal`, `CenterOnEmpty`, `FirstWordPlaced` and `ScanIsFirstCrossing` state which |
| Greedy.FirstCrossingUnique | server/objects/GridGenerator.js:57-85 | at most one trial is the first success in scan order |
| Greedy.ScanIsFirstCrossing | server/objects/GridGenerator.js:57-85 | the scan returns the first successful trial in scan order, and finds nothing exactly when no trial succeeds |
| Greedy.StepAtScan | server/objects/GridGenerator.js:67-79 | when the scan finds a trial, the word is laid at the start that trial implies |
| Greedy.ChooseIsLegal | server/objects/GridGenerator.js:38-86 | a chosen spot passes `canPlace` |
| Greedy.FirstWordPlaced | server/objects/GridGenerator.js:39-49 | on an empty board the first word is placed exactly when it is no longer than the board's width or height |
| Greedy.CenterOnEmpty | server/objects/GridGenerator.js:39-49 | the first word goes centred across when it fits the width, otherwise centred down |
| Greedy.TooLongIsSkipped | server/objects/GridGenerator.js:98-103 | a word longer than both sides of the board is always skipped |
| Greedy.Step | server/objects/GridGenerator.js:31-92 | one word of the loop, placed or skipped; `StepKeeps` and `StepAccounts` state what it keeps and adds |
| Greedy.StepKeeps | server/objects/GridGenerator.js:145-153 | one step keeps the board consistent, and keeps the end caps free when words come longest first |
| Greedy.Run | server/objects/GridGenerator.js:30-95 | the whole placement loop; `RunKeeps` and `RunAccounts` state the layout invariant and the accounting |
| Greedy.RunKeeps | server/objects/GridGenerator.js:30-95 | after a run every placement is spelled and on the board, every letter belongs to one, and longest-first input keeps every front cap free |
| Greedy.ChosenPartition | server/objects/GridGenerator.js:88-94 | chosen and unchosen entries together are the list, each once |
| Greedy.StepAccounts | server/objects/GridGenerator.js:88-94 | one step adds the entry to the placements if it was placed, and its word to `skipped` otherwise |
| Greedy.RunAccounts | server/objects/GridGenerator.js:30-95 | a run appends exactly the placed entries to the placements and the words of the others to `skipped`, both in list order |
| Crossword.EmptyBoard | server/objects/GridGenerator.js:11-13 | the empty grid has `height` rows of `width` empty cells |
| Crossword.Fits | server/objects/GridGenerator.js:97-134 | `canPlace`: bounds, clashes, side neighbours and end caps; its meaning is stated by `FitsInside`, `EmptyBoardFits`, `TooLongNeverFits` and `CapStaysFree` |
| Crossword.FitsInside | server/objects/GridGenerator.js:98-103 | a legal spot lies wholly on the board |
| Crossword.Write | server/objects/GridGenerator.js:145-151 | the letters `addWordToGrid` writes; `WriteSpellsWord`, `WriteKeepsSpelled` and `WriteKeepsConsistent` state what it leaves on the board |
| Crossword.WriteKeepsSpelled | server/objects/GridGenerator.js:105-112 | a legal placement never overwrites a letter of a word already spelled |
| Crossword.WriteSpellsWord | server/objects/GridGenerator.js:145-151 | after a legal placement its cells spell the new word |
| Crossword.WriteKeepsConsistent | server/objects/GridGenerator.js:105-152 | after a legal placement every placement, old and new, is spelled and every letter is covered by one |
| Crossword.EmptyBoardFits | server/objects/GridGenerator.js:97-134 | on an empty board only a negative start or the word's length can stop a placement |
| Crossword.TooLongNeverFits | server/objects/GridGenerator.js:98-103 | a word longer than both sides fits nowhere |
| Crossword.CapStaysFree | server/objects/GridGenerator.js:113-131 | a legal cell of a new word never lands on the free front cap of an earlier word at least as long |
| Crossword.WriteKeepsCapsFree | server/objects/GridGenerator.js:124-131 | laying a word no longer than any placed one keeps every front cap free |
| Crossword.SpelledStarts | server/objects/GridGenerator.js:179-181 | a spelled word of two or more letters with a free front cap begins a run |
| Crossword.LongWordsAreNumbered | server/objects/GridGenerator.js:174-195 | in a longest-first layout every word of two or more letters gets a clue number |
| Crossword.NumbersIncrease | server/objects/GridGenerator.js:174-187 | of two start cells, the one met first in row-major order has the smaller number |
| Crossword.FirstNumberIsOne | server/objects/GridGenerator.js:174-187 | the first start cell in row-major order is numbered 1 |
| Crossword.Compiled | server/objects/GridGenerator.js:165-172 | the cell `compileGrid` makes; `CompiledCellMeaning` states it is white exactly when covered, with the covering letter |
| Crossword.CompiledCellMeaning | server/objects/GridGenerator.js:165-172 | on a consistent board a compiled cell is white exactly when a placement covers it, and its answer is that placement's letter |
| Sorting.SortDescSorted | server/objects/GridGenerator.js:17 | the comparator sort leaves the keys non-increasing |
| Sorting.SortDescPermutes | server/objects/GridGenerator.js:17 | the sort is a permutation of its input |
| Sorting.SortDescStable | server/objects/GridGenerator.js:17 | elements with equal keys keep their input order |
| Game.ParseMode | server/objects/GameManager.js:14-30 | `'Co-Op'` and `'Teams'` select those modes and every other string plays as Competitive; `Sessions.GameModeOf` states what this makes of the session's default |
| Game.StandingKeys | server/objects/GameManager.js:24-27 | `GLOBAL` and `SHARED` differ and neither is a team key |
| Game.TeamKeysDistinct | server/objects/GameManager.js:82 | distinct teams get distinct `TEAM_` keys, none equal to `GLOBAL` or `SHARED` |
| Game.TeamOf | server/objects/GameManager.js:205-209 | the solver's team is the player's truthy `teamId`, else none |
| Game.Materialize | server/objects/GameManager.js:69-95 | `getGridFor` on the grids map; `MaterializeStable`, `ViewServed` and `ServeOk` state what it creates and keeps |
| Game.ViewKey | server/objects/GameManager.js:69-95 | `SHARED` in Co-Op; in Teams `GLOBAL` without a team, else `TEAM_<id>`; the player's own id in Competitive |
| Game.MaterializeStable | server/objects/GameManager.js:69-95 | serving a view keeps earlier grids, creates the view when its source exists, and serving again changes nothing |
| Game.ViewServed | server/objects/GameManager.js:69-95 | the view key exists after `getGridFor` whenever the mode's standing grid exists |
| Game.MaterializeAll | server/objects/GameManager.js:283-288 | serving every connected player keeps every earlier grid |
| Game.HintsIn | server/objects/GameManager.js:191-199 | the hint count of a word prefix is at most the prefix's length |
| Game.PointsRule | server/objects/GameManager.js:212-213 | a word without hints scores twice its length, each hinted letter costs one point down to 0, and no word scores more than twice its length |
| Game.Stamp | server/objects/GameManager.js:219-223 | the word's cells take the source letters and are marked solved by the player and team; other cells are kept |
| Game.Synced | server/objects/GameManager.js:251-273 | in Teams mode the solution reaches `GLOBAL` and every `TEAM_*` and `SHARED` grid; player grids are untouched |
| Game.Relevant | server/objects/GameManager.js:177-183 | the listed clue indices are those whose word covers the cell |
| Game.RelevantAscending | server/objects/GameManager.js:177-183 | the filter keeps clue order |
| Game.RelevantComplete | server/objects/GameManager.js:177-183 | no clue through the cell is missed |
| Game.CluesInside | server/objects/GameManager.js:17-19 | every clue lies inside every grid of the base grid's shape |
| Game.CandidatesSound | server/objects/GameManager.js:153-160 | only white, unsolved, wrong cells are hint candidates |
| Game.CandidatesComplete | server/objects/GameManager.js:153-160 | every white, unsolved, wrong cell is a candidate |
| Game.CandidatesExact | server/objects/GameManager.js:156 | a cell is a candidate exactly when it is white, unsolved and not yet right |
| Game.HintTarget | server/objects/GameManager.js:164 | the drawn cell is a listed candidate |
| Game.HintTargetFair | server/objects/GameManager.js:164 | every candidate, and only a candidate, can be drawn |
| Game.Drawable | server/objects/GameManager.js:164 | each candidate has a draw that picks it |
| Game.TeamSockets | server/objects/GameManager.js:298-302 | the listed sockets are those of connected teammates, in player order |
| Game.Broadcast | server/objects/GameManager.js:291-317 | Co-Op reaches the whole session; Teams reaches the connected teammates, or the actor alone without a team; Competitive reaches the actor alone |
| Game.TeamRoute | server/objects/GameManager.js:294-302 | in Teams mode a player with a team reaches exactly the connected players of that team |
| Game.StampGrows | server/objects/GameManager.js:219-223 | stamping grows the grid, marks the word, and keeps letters when copied from itself |
| Game.MaterializeAllGrows | server/objects/GameManager.js:76-94 | every served grid is a copy of `GLOBAL` or of the base grid, and old grids stay |
| Game.MaterializeAllMarked | server/objects/GameManager.js:251-288 | after a Teams spread the word is marked in every `GLOBAL`, `TEAM_*` and `SHARED` grid, including team grids created by the serving |
| Game.SyncedOk | server/objects/GameManager.js:251-273 | the spread grows the shared grids, keeps the actor's letters and marks the word in each |
| Game.SyncedGrows | server/objects/GameManager.js:251-273 | the spread only settles cells: shapes and settled letters stay |
| Game.SyncedKept | server/objects/GameManager.js:251-273 | the spread keeps the actor's letters and the word marked in the actor's grid |
| Game.SpreadOk | server/objects/GameManager.js:225-227 | the Teams spread keeps the invariant and marks the word everywhere it must |
| Game.MarksOk | server/objects/GameManager.js:218-227 | marking grows the grids, marks the word in the actor's grid and in Teams mode in every shared grid, and otherwise changes no other grid |
| Game.JudgeClue | server/objects/GameManager.js:186-230 | the judging of one clue in `checkWordComplete`; `JudgeClueAwards`, `JudgeClueBooks`, `JudgeClueOk` and `JudgeClueGrids` state its meaning |
| Game.Scored | server/objects/GameManager.js:205-223 | the scoring of a solved word; `ScoredBooks` states who is credited and by how much |
| Game.Marks | server/objects/GameManager.js:218-227 | the marking of a solved word; `MarksOk` and `SpreadOk` state which grids are marked |
| Game.JudgeClueGrids | server/objects/GameManager.js:185-231 | judging a word grows the grids, keeps the actor's letters, and outside Teams mode touches no other grid |
| Game.JudgeClueBooks | server/objects/GameManager.js:211-216 | judging a word keeps the books: scores and word counts are the sums of the awards |
| Game.ScoredBooks | server/objects/GameManager.js:211-216 | scoring credits the actor alone, with one word and one to two points per letter |
| Game.EndGame | server/objects/GameManager.js:339-347 | `endGame`; `EndGameBooks` and `Manager.GameManager.EndGame` state what it changes |
| Game.EndGameBooks | server/objects/GameManager.js:339-341 | ending the game keeps the books |
| Game.JudgeClueOk | server/objects/GameManager.js:185-231 | judging a word keeps the invariant; the award, if any, is the new pair of grid and clue |
| Game.AwardsKept | server/objects/GameManager.js:202-227 | awards stay marked and distinct when grids grow and a fresh award is added |
| Game.JudgeClueAwards | server/objects/GameManager.js:186-229 | a word is awarded exactly when all its letters are right in the actor's grid; it earns `Points`; the game ends exactly when that completes every word of the grid |
| Game.JudgeAll | server/objects/GameManager.js:176-232 | `checkWordComplete` over every clue through the cell; `JudgeAllAwards`, `JudgeAllOk`, `JudgeAllBooks` and `JudgeAllGrids` state its meaning |
| Game.JudgeAllGrids | server/objects/GameManager.js:185-231 | judging the words through a cell grows the grids, keeps the actor's letters, and outside Teams mode touches no other grid |
| Game.JudgeAllAwards | server/objects/GameManager.js:185-231 | judging only appends awards, each for this grid and one of the judged words |
| Game.JudgeAllOk | server/objects/GameManager.js:185-231 | judging keeps the invariant when no judged word was awarded in this grid before |
| Game.JudgeAllBooks | server/objects/GameManager.js:185-231 | judging keeps the books |
| Game.AwardedSolved | server/objects/GameManager.js:219-223 | the cells of an awarded word are solved in its grid |
| Game.UnsolvedFresh | server/objects/GameManager.js:133-136 | no word through an unsolved cell has been awarded in that grid, so the typed cell cannot re-score a word |
| Game.Typed | server/objects/GameManager.js:138-141 | an accepted keystroke; `TypedOk` and `TypedBooks` state what it shows and awards |
| Game.ServeOk | server/objects/GameManager.js:69-95 | serving a view keeps the invariant, only adds grids, and outside Teams mode adds at most the actor's own |
| Game.PutOk | server/objects/GameManager.js:138 | writing a letter without touching answer, colour or solved flag keeps the invariant |
| Game.TypedOk | server/objects/GameManager.js:138-141 | typing keeps the invariant and the books, shows the letter in the cell, and touches no other view's grid outside Teams mode |
| Game.Input | server/objects/GameManager.js:127-144 | `handleInput`; `InputOk`, `InputBooks`, `InputRefused` and `UnsolvedFresh` state its guards, its effect and that no word scores twice |
| Game.InputOk | server/objects/GameManager.js:127-144 | `handleInput` keeps the invariant and only grows grids; when not ACTIVE nothing changes; outside Teams mode no other view's grid changes |
| Game.InputBooks | server/objects/GameManager.js:127-144 | `handleInput` keeps the books; past its guards the cell shows the upper-cased letter and every award runs through it; refused, nothing is awarded |
| Game.InputRefused | server/objects/GameManager.js:128-136 | a refused keystroke changes at most the grids, by serving the actor's view |
| Game.TypedBooks | server/objects/GameManager.js:138-141 | an accepted keystroke keeps the books, shows the letter and awards only words through the cell |
| Game.Candidates | server/objects/GameManager.js:153-160 | the cells a hint may fill; `CandidatesSound`, `CandidatesComplete` and `CandidatesExact` state which |
| Game.HintedOk | server/objects/GameManager.js:164-171 | revealing a cell keeps the invariant and touches no other view's grid outside Teams mode |
| Game.HintedBooks | server/objects/GameManager.js:164-169 | revealing a cell adds one hint for the actor, changes nothing else on the books, and shows the answer with the hint flag |
| Game.Hint | server/objects/GameManager.js:146-174 | `provideHint`; `HintOk`, `HintServes`, `HintGoesThrough`, `HintBooks`, `HintRefused`, `HintCounted` and `HintReveals` state its guards and effect |
| Game.HintOk | server/objects/GameManager.js:146-174 | `provideHint` keeps the invariant; when not ACTIVE or at 20 hints nothing changes; outside Teams mode no other view's grid changes |
| Game.HintServes | server/objects/GameManager.js:152-162 | with no candidate left a hint only serves the actor's view |
| Game.HintGoesThrough | server/objects/GameManager.js:152-173 | a hint past its guards keeps the invariant and touches only the actor's view outside Teams mode |
| Game.HintBooks | server/objects/GameManager.js:146-171 | the hint count rises by one exactly when the hint gets through, so it never passes 20; otherwise nothing is awarded |
| Game.HintRefused | server/objects/GameManager.js:147-150 | a refused hint changes at most the grids, by serving the actor's view |
| Game.HintCounted | server/objects/GameManager.js:149-169 | a hint that gets through raises the actor's count from its old value or 0 |
| Game.HintReveals | server/objects/GameManager.js:164-171 | the drawn cell, a candidate before, shows its answer with the hint flag, and every award runs through it |
| Game.Start | server/objects/GameManager.js:97-99 | `start`; `Manager.GameManager.Start` states that only the timer changes |
| Game.InitialTime | server/objects/GameManager.js:10 | an unset (0) time limit means 600 seconds; `NewPlayRunsOut` states how long a new game then lasts, and `Sessions.GameClockOf` how it agrees with the session default |
| Game.MockGrid | server/objects/GameManager.js:51-67 | the stand-in grid is 10 by 10, black exactly where `(x + y) % 3 == 0`, every answer `'A'` |
| Game.NewPlay | server/objects/GameManager.js:10-35 | a new game is ACTIVE at its time limit with only the mode's standing grid, a copy of the base grid, and nothing scored |
| Game.NewPlayOk | server/objects/GameManager.js:21-35 | a new game satisfies the invariant |
| Game.MockSetupOk | server/objects/GameManager.js:38-44 | the stand-in grid with no clues is a well-formed setup in every mode |
| Game.Tick | server/objects/GameManager.js:101-115 | `tick`; `TickRule`, `TicksToEnd` and `NewPlayRunsOut` state the one-second step and when the game ends |
| Game.TickRule | server/objects/GameManager.js:101-115 | an ACTIVE tick takes one second and ends the game exactly at zero; an ended game's tick changes nothing; grids and awards never change |
| Game.TicksToEnd | server/objects/GameManager.js:101-115 | with `n` seconds left the game is ACTIVE after `n - 1` ticks and ended after `n` |
| Game.NewPlayRunsOut | server/objects/GameManager.js:10-115 | a new game with a positive limit is ACTIVE one tick before that many seconds and ENDED at the last; with no limit (0) the same holds at 600 seconds; a negative limit ends on the first tick |
| Game.ExtendTime | server/objects/GameManager.js:117-125 | `extendTime`; `ExtendRule` states the 300 extra seconds and the resumed game |
| Game.Select | server/objects/GameManager.js:319-321 | `handleSelect`; `Manager.GameManager.HandleSelect` states that only the cursor changes |
| Game.ExtendRule | server/objects/GameManager.js:117-125 | after an extension the game is ACTIVE with 300 more seconds, and only the timer changes besides |
| Manager.RelevantClues | server/objects/GameManager.js:177-183 | the loop returns the ascending indices of the clues through the cell |
| Manager.CollectCandidates | server/objects/GameManager.js:153-160 | the scan returns the candidate cells in row-major order |
| Manager.StampWord | server/objects/GameManager.js:219-223 | the marking loop produces `Stamp` of the word |
| Manager.AllCluesSolved | server/objects/GameManager.js:235-243 | the answer is whether every letter cell of every clue is solved |
| Manager.TeamSocketsOf | server/objects/GameManager.js:298-302 | the loop returns the connected teammates' sockets in order |
| Manager.ReadWord | server/objects/GameManager.js:191-200 | the letter loop reads up to the first empty cell and reports fullness, correctness and hint count |
| Manager.DrawCandidate | server/objects/GameManager.js:153-165 | the pick is `HintTarget` of the candidate list, none when it is empty |
| Manager.CopyInto | server/objects/GameManager.js:252-273 | the copying produces `Synced` of the grids |
| Manager.CopyIntoTeams | server/objects/GameManager.js:263-273 | each `TEAM_*` and `SHARED` grid gets the word and the others are kept |
| Manager.GameManager.constructor | server/objects/GameManager.js:4-36 | the game starts as `NewPlay` of its settings, in the mode `ParseMode` gives |
| Manager.GameManager.GetGridFor | server/objects/GameManager.js:69-95 | the served grid is the one under `ViewKey`, created on first use as the model says |
| Manager.GameManager.Start | server/objects/GameManager.js:97-99 | the timer runs and nothing else changes |
| Manager.GameManager.Tick | server/objects/GameManager.js:101-115 | the new state is the tick rule's |
| Manager.GameManager.ExtendTime | server/objects/GameManager.js:117-125 | the new state is the extension rule's |
| Manager.GameManager.HandleSelect | server/objects/GameManager.js:319-321 | the player's cursor is recorded, without bounds checks, and nothing else changes |
| Manager.GameManager.EndGame | server/objects/GameManager.js:339-347 | the timer stops, the game is ENDED, and one more game-over is broadcast |
| Manager.GameManager.BroadcastState | server/objects/GameManager.js:291-317 | the update goes to the recipients of `Broadcast` |
| Manager.GameManager.HandleInput | server/objects/GameManager.js:127-144 | the new state is the input rule's, and the update goes where `Broadcast` says |
| Manager.GameManager.TypeLetter | server/objects/GameManager.js:138-141 | the letter is written and the words through the cell are judged, as `Typed` says |
| Manager.GameManager.ProvideHint | server/objects/GameManager.js:146-174 | the new state is the hint rule's for the given draw |
| Manager.GameManager.RevealHint | server/objects/GameManager.js:152-173 | past the guards, the drawn candidate is revealed and judged |
| Manager.GameManager.PlaceHint | server/objects/GameManager.js:152-169 | the view is served, its candidates listed, and the drawn one filled and flagged, with the count raised |
| Manager.GameManager.RevealCell | server/objects/GameManager.js:165-169 | the cell takes its answer and the hint flag, and the actor's count rises by one |
| Manager.GameManager.CheckWordComplete | server/objects/GameManager.js:176-232 | every clue through the cell is judged, in order, as `JudgeAll` says |
| Manager.GameManager.JudgeClueStep | server/objects/GameManager.js:186-230 | one clue is judged as `JudgeClue` says |
| Manager.GameManager.ScoreWord | server/objects/GameManager.js:205-223 | the word's points and count are credited and the word marked, as `Scored` says |
| Manager.GameManager.Credit | server/objects/GameManager.js:215-216 | score and word count rise from their old value or 0 |
| Manager.GameManager.MarkWord | server/objects/GameManager.js:219-227 | the word is marked in the actor's grid and, in Teams mode, spread, as `Marks` says |
| Manager.GameManager.CheckForWin | server/objects/GameManager.js:234-249 | the game ends exactly when every clue of the grid is solved |
| Manager.GameManager.SyncSolutionToAll | server/objects/GameManager.js:251-289 | the word is copied into the shared grids and every connected player is served |
| Manager.GameManager.CopySolution | server/objects/GameManager.js:252-273 | the grids become `Synced` of the old ones |
| Manager.GameManager.ServeConnected | server/objects/GameManager.js:283-288 | every connected player is served, in order, as `MaterializeAll` says |
| Sessions.IdCharsSpelled | server/objects/SessionManager.js:22 | the alphabet is the 26 capital letters followed by the 10 digits |
| Sessions.SessionIdOf | server/objects/SessionManager.js:21-29 | `generateSessionId` over given draws; `SessionIdSpelled`, `SessionIdShape` and `SessionIdReachable` state the id's form |
| Sessions.SessionIdSpelled | server/objects/SessionManager.js:21-29 | the id is three drawn characters, a dash, and three more |
| Sessions.SessionIdShape | server/objects/SessionManager.js:21-29 | every id is 7 characters: three letters or digits, `-`, three letters or digits |
| Sessions.SessionIdReachable | server/objects/SessionManager.js:21-29 | every id of that shape can be drawn |
| Sessions.SettingsOf | server/objects/SessionManager.js:35-50 | the `options.x \|\| default` settings; `SettingsDefaults`, `GameModeOf` and `GameClockOf` state the defaults and what the game makes of them |
| Sessions.SettingsDefaults | server/objects/SessionManager.js:35-50 | without options: 600 seconds, `'COMPETITIVE'`, `'NORMAL'`, 2 teams, 20 hints; a truthy option is kept; no setting ends falsy |
| Sessions.GameModeOf | server/objects/SessionManager.js:35-50 | with no mode chosen the session records `'COMPETITIVE'`, which the game plays as Competitive; "Co-Op" and "Teams" play as chosen; any other label plays as Competitive |
| Sessions.GameClockOf | server/objects/SessionManager.js:35-50 | a session's game starts its clock at the chosen limit, or at 600 seconds when none or 0 was chosen |
| Sessions.TeamTable | server/objects/SessionManager.js:55-65 | the team list `createSession` builds; `TeamTableShape` and `TeamTableOk` state its contents |
| Sessions.TeamTableShape | server/objects/SessionManager.js:55-65 | `n` empty teams with ids 1..n, named "Team A", …, each of capacity ⌊30/n⌋, never more than 30 places in all |
| Sessions.NewSession | server/objects/SessionManager.js:38-82 | the session `createSession` stores; `NewSessionShape` and `NewSessionOk` state its contents and invariant |
| Sessions.NewSessionOk | server/objects/SessionManager.js:38-82 | a new session keeps the invariant |
| Sessions.TeamTableOk | server/objects/SessionManager.js:55-65 | empty teams agree with any player map |
| Sessions.NewSessionShape | server/objects/SessionManager.js:38-82 | a new session is in the lobby with the creator as sole player, host, ready, on no team and on its socket |
| Sessions.FindTeam | server/objects/SessionManager.js:146 | the result is the index of the first team with that id, or none |
| Sessions.Untie | server/objects/SessionManager.js:154-160 | the team table keeps its length (`UntieAll` states what changes) |
| Sessions.UntieAll | server/objects/SessionManager.js:154-160 | under the invariant the player leaves every team list and nothing else changes |
| Sessions.JoinTeamError | server/objects/SessionManager.js:141-153 | the refusals of `joinTeam`, in order; `JoinTeamAccepts` states when none applies |
| Sessions.JoinTeamAccepts | server/objects/SessionManager.js:141-153 | `joinTeam` goes through exactly when the session exists in Teams mode, the player is in it, and the team exists with room |
| Sessions.TeamMove | server/objects/SessionManager.js:154-163 | the team change of `joinTeam`; `TeamMoveShape` and `TeamMoveOk` state its effect and invariant |
| Sessions.TeamMoveOk | server/objects/SessionManager.js:154-163 | a move to a team with room keeps the invariant |
| Sessions.TeamMoveShape | server/objects/SessionManager.js:154-163 | the player is listed last by the new team alone, with its id as `teamId`; all else is as before |
| Sessions.Joined | server/objects/SessionManager.js:97-111 | the player `joinSession` adds; `JoinedShape` and `JoinedOk` state its effect and invariant |
| Sessions.JoinedOk | server/objects/SessionManager.js:97-111 | joining with a fresh id keeps the invariant |
| Sessions.JoinedShape | server/objects/SessionManager.js:97-111 | joining adds one player, last, not host, not ready, on no team |
| Sessions.Reconnected | server/objects/SessionManager.js:133 | the socket change of `rejoinSession` and `handleDisconnect`; `ReconnectedShape` and `ReconnectedOk` state it |
| Sessions.ReconnectedOk | server/objects/SessionManager.js:133 | changing a socket keeps the invariant |
| Sessions.ReconnectedShape | server/objects/SessionManager.js:133 | changing a socket keeps the player in place and changes nothing else |
| Sessions.LastLeaverIsHost | server/objects/SessionManager.js:194-201 | under the invariant the last player to leave is the host, so the session is destroyed |
| Sessions.UntiedTeamsOk | server/objects/SessionManager.js:179-185 | untying a player keeps the teams consistent with a map that keeps the others' teams |
| Sessions.Leave | server/objects/SessionManager.js:176-204 | `leaveSession` when others remain; `LeaveRoster`, `LeaveTeams`, `LeaveHost` and `LeaveOk` state its effect and invariant |
| Sessions.LeaveOk | server/objects/SessionManager.js:176-204 | a leave that others survive keeps the invariant |
| Sessions.LeaveRoster | server/objects/SessionManager.js:187-198 | the player is gone from the map; the others keep order and records, but the new host gains its flag |
| Sessions.LeaveTeams | server/objects/SessionManager.js:179-185 | the player is gone from every team list, which are otherwise unchanged |
| Sessions.LeaveHost | server/objects/SessionManager.js:194-199 | a leaving host is succeeded by the first other player in join order; any other leave keeps the host |
| Sessions.Launch | server/objects/SessionManager.js:241-243 | a fresh game of the session's settings is made and started: the settings' mode, a 15 by 15 board laid out from the custom words when there are any and the stand-in grid otherwise, the clock at the limit, the timer running |
| Sessions.SessionManager.constructor | server/objects/SessionManager.js:5-9 | no sessions, games or links |
| Sessions.SessionManager.GenerateSessionId | server/objects/SessionManager.js:21-29 | the id is the one the six draws spell, of the documented shape |
| Sessions.SessionManager.BuildTeams | server/objects/SessionManager.js:55-65 | the loop builds the team table |
| Sessions.SessionManager.CreateSession | server/objects/SessionManager.js:31-86 | the new session is stored under the generated id, the creator is host, and its socket is linked |
| Sessions.SessionManager.JoinSession | server/objects/SessionManager.js:88-116 | an unknown session and a started game are refused; otherwise the player is added last and linked |
| Sessions.SessionManager.RejoinSession | server/objects/SessionManager.js:118-139 | unknown session or player are refused; otherwise the player's socket changes and the new socket is linked |
| Sessions.SessionManager.JoinTeam | server/objects/SessionManager.js:141-166 | the refusals come in the source's order; otherwise the player leaves its old team and joins the new one |
| Sessions.SessionManager.LeaveSession | server/objects/SessionManager.js:169-207 | the player leaves its team and the session, the link is dropped, a host hands over, and the last player destroys the session; an unknown socket changes nothing |
| Sessions.SessionManager.Destroy | server/objects/SessionManager.js:199-201 | the last player out closes the session and ends its game |
| Sessions.SessionManager.Depart | server/objects/SessionManager.js:179-204 | a player leaves a session others remain in, handing over if host |
| Sessions.SessionManager.HandleDisconnect | server/objects/SessionManager.js:210-225 | the player stays with its socket cleared, the link is dropped, and the linked session is named |
| Sessions.SessionManager.StartGame | server/objects/SessionManager.js:227-246 | any running game is ended and dropped, the session turns to GAME, and a new game starts; unknown sessions are refused |
| Sessions.SessionManager.Relaunch | server/objects/SessionManager.js:232-243 | for a known session the running game, if any, is ended and dropped, the session turns to GAME, and a new started game of its settings takes the old one's place |
| Sessions.SessionManager.Install | server/objects/SessionManager.js:238-243 | the session turns to GAME with a new started game |
| Sessions.SessionManager.StopGame | server/objects/SessionManager.js:232-236 | the running game, if any, is ended and dropped |
| Sessions.SessionManager.ExtendTime | server/objects/SessionManager.js:291-295 | the host's request extends the game; anyone else's changes nothing |
| Sessions.SessionManager.RestartGame | server/objects/SessionManager.js:297-317 | on the host's request the old game is ended and replaced by a started new one and the session turns to GAME; otherwise nothing changes |
| Sessions.SessionManager.CloseSession | server/objects/SessionManager.js:319-329 | on the host's request the game is ended and dropped and the session deleted; links stay |
| Roster.Without | server/objects/SessionManager.js:158 | the value is gone, the list does not grow, and every other value is kept |
| Roster.WithoutAbsent | server/objects/SessionManager.js:183 | filtering out an absent value changes nothing |
| Roster.WithoutDistinct | server/objects/SessionManager.js:158 | filtering a duplicate-free list keeps it duplicate-free and removes only the value |
| Roster.WithoutHead | server/objects/SessionManager.js:196 | the first survivor is the first element different from the value |
| Roster.Set | server/objects/SessionManager.js:78 | a new key goes last, an existing key keeps its place, and the value is stored |
| Roster.Delete | server/objects/SessionManager.js:187 | the key is gone and the other keys keep their order |
| Roster.Values | server/objects/GameManager.js:298 | the values in insertion order |
| Roster.NoPlayers | server/objects/SessionManager.js:41 | the new map is empty |
| Text.Trim | client/src/components/OnboardingScreen.js:22 | `String.prototype.trim`; `BlankIffAllSpace` states when it gives `''` |
| Text.BlankIffAllSpace | client/src/components/OnboardingScreen.js:22 | a line trims to `''` exactly when it is all white space |
| Text.Split | client/src/components/OnboardingScreen.js:34 | splitting never returns an empty list |
| Text.SplitJoin | client/src/components/OnboardingScreen.js:22 | joining the pieces with the separator gives the input back |
| Text.SplitPiecesClean | client/src/components/OnboardingScreen.js:34 | no piece contains the separator |
| Text.SplitHasSecond | client/src/components/OnboardingScreen.js:35 | there is a second piece exactly when the separator occurs |
| Text.SplitFirst | client/src/components/OnboardingScreen.js:47 | the first piece is the text before the first separator |
| Text.SplitAfter | client/src/components/OnboardingScreen.js:34-36 | after a separator-free head, the head is the first piece and the rest splits on |
| Text.JoinSplit | client/src/components/OnboardingScreen.js:22 | separator-free pieces joined and split come back whole |
| Text.ToUpper | client/src/components/OnboardingScreen.js:36 | each ASCII lower-case letter becomes its capital and every other character is kept |
| Text.ToUpperIdempotent | client/src/components/OnboardingScreen.js:36 | upper-casing leaves no lower-case ASCII letter and is idempotent |
| Text.Show | client/src/components/GameScreen.js:97 | the text of a number is a non-empty string of digits |
| Text.ShowValue | client/src/components/GameScreen.js:97 | reading the printed digits back gives the number |
| Text.ShowLength | client/src/components/GameScreen.js:97 | a number prints with two or more digits exactly from ten on |
| Text.PadStart | client/src/components/GameScreen.js:97-98 | the padded text is the fill repeated before the text, up to the requested length |
| Text.LeadingZeros | client/src/components/GameScreen.js:97-98 | leading zeros do not change a decimal value |
| Text.LeadingDigits | client/src/components/OnboardingScreen.js:47 | the longest prefix made of digits |
| Text.ParseInt | client/src/components/OnboardingScreen.js:47 | `parseInt`; `DecimalMagnitude`, `Unsigned` and `ParseShow` state what it reads |
| Text.DecimalMagnitude | client/src/components/OnboardingScreen.js:47 | a plain decimal numeral is read in full |
| Text.ParseShow | client/src/components/OnboardingScreen.js:47 | `parseInt` reads back what `toString` prints |
| Text.Unsigned | client/src/components/OnboardingScreen.js:47 | a numeral starting with a digit has no space or sign to skip |
| Text.ShowInt | client/src/components/GameScreen.js:98 | the text is never empty (`NegativeDigits` and `SignShows` state its form) |
| Text.ShowIntInjective | client/src/components/GameScreen.js:98 | different integers print differently |
| Text.NegativeDigits | client/src/components/GameScreen.js:98 | the text of a negative number is `-` and the digits of its magnitude |
| Text.SignShows | client/src/components/GameScreen.js:98 | the text starts with `-` exactly when the number is negative |
| Text.Rem | client/src/components/GameScreen.js:98 | JavaScript `%`, truncating; `GameScreen.FormatTimeFields` states its use on the clock |
| Text.FromCharCode | client/src/components/GameLeaderboard.js:44 | a code below 0xD800 gives the character with that code, and every result lies below 2^16 |
| Onboarding.NonBlank | client/src/components/OnboardingScreen.js:22 | the blank-line filter; `NonBlankKeeps` and `NonBlankAll` state what it keeps |
| Onboarding.NonBlankKeeps | client/src/components/OnboardingScreen.js:22 | the filter keeps exactly the lines that are not all white space and never adds any |
| Onboarding.NonBlankAll | client/src/components/OnboardingScreen.js:22 | a filter that drops nothing returns its input |
| Onboarding.ParseLine | client/src/components/OnboardingScreen.js:34-36 | the parse of one `WORD\|Clue` line; `ParseLineNeedsBar`, `WordAndClue`, `ExtraFieldsIgnored` and `LineOfParses` state it |
| Onboarding.ParseLineNeedsBar | client/src/components/OnboardingScreen.js:33-36 | a line parses exactly when it holds a `\|` |
| Onboarding.WordAndClue | client/src/components/OnboardingScreen.js:34-36 | `WORD\|Clue` gives the trimmed, upper-cased word and the trimmed clue |
| Onboarding.ExtraFieldsIgnored | client/src/components/OnboardingScreen.js:34-36 | fields after a second `\|` are ignored |
| Onboarding.ParseAll | client/src/components/OnboardingScreen.js:33-42 | the parse of the whole list; `ParseAllItems` and `ParseTyped` state it |
| Onboarding.MapAllItems | client/src/components/OnboardingScreen.js:33-42 | the `includes(null)` check passes exactly when no line failed, and then keeps every result in order |
| Onboarding.ParseAllItems | client/src/components/OnboardingScreen.js:33-42 | a list parses exactly when every line holds a `\|`, and then holds each line's entry in order |
| Onboarding.TimerSeconds | client/src/components/OnboardingScreen.js:47 | `parseInt(timer) * 60`; `MinutesLabel` and `DefaultTimer` state it |
| Onboarding.MinutesLabel | client/src/components/OnboardingScreen.js:47 | a label of digits, a space and anything else gives that many minutes in seconds |
| Onboarding.DefaultTimer | client/src/components/OnboardingScreen.js:7 | the default label "10 Minutes" gives 600 seconds |
| Onboarding.Create | client/src/components/OnboardingScreen.js:20-49 | the create branch; `CreateAccepts`, `CreateSends` and `CreateRefuses` state when it sends and what |
| Onboarding.CreateAccepts | client/src/components/OnboardingScreen.js:20-49 | a list is sent exactly when it has 5 to 30 non-blank lines, each with a `\|` |
| Onboarding.CreateSends | client/src/components/OnboardingScreen.js:33-49 | a sent list holds one entry per non-blank line, in order, with the timer's seconds and the chosen username, mode and team count |
| Onboarding.CreateRefuses | client/src/components/OnboardingScreen.js:23-42 | a count outside 5 to 30 is refused with the count in the message before the format is checked; a missing `\|` is refused as a bad format |
| Onboarding.HandleAction | client/src/components/OnboardingScreen.js:14-56 | `handleAction`; `GuardsHold` and `TypedListRoundTrip` state its guards and the typed-list round trip |
| Onboarding.GuardsHold | client/src/components/OnboardingScreen.js:14-56 | nothing is sent without a username, a join needs a session id, and only the create tab creates |
| Onboarding.LineOfParses | client/src/components/OnboardingScreen.js:33-36 | a clean entry's typed line parses back to the entry |
| Onboarding.TypedLines | client/src/components/OnboardingScreen.js:22 | clean entries typed one per line split back, without blank lines, into their lines |
| Onboarding.ParseTyped | client/src/components/OnboardingScreen.js:33-42 | the lines of clean entries parse back to the entries |
| Onboarding.TypedListRoundTrip | client/src/components/OnboardingScreen.js:14-49 | typing 5 to 30 clean entries, one per line, creates a session with exactly those entries |
| GameScreen.FormatTime | client/src/components/GameScreen.js:96-100 | `formatTime`; `FormatTimeFields` and `FormatTimeInjective` state the clock text |
| GameScreen.FieldOf | client/src/components/GameScreen.js:97-98 | a field holds digits only, reads back as the number, and is two characters unless the number needs more |
| GameScreen.FormatTimeFields | client/src/components/GameScreen.js:96-100 | a non-negative time shows the minutes field, `:`, and the two-character seconds field |
| GameScreen.FormatTimeInjective | client/src/components/GameScreen.js:96-100 | different non-negative times show different clocks |
| GameScreen.HintsUsedAfterTick | client/src/components/GameScreen.js:72-75 | the counter an `EVT_GAME_TICK` leaves; `TickShowsServerCount` states it |
| GameScreen.TickShowsServerCount | client/src/components/GameScreen.js:72-75 | a tick sets the counter to the server's count or 0; without counts or a player id it stays |
| GameScreen.HintsLeft | client/src/components/GameScreen.js:117 | the hints-left figure; `HintsLeftFromSettings` and `DefaultHintsLeftInRange` state it |
| GameScreen.HintsLeftFromSettings | client/src/components/GameScreen.js:117 | the shown hints left are the session's recorded limit minus the count |
| GameScreen.DefaultHintsLeftInRange | client/src/components/GameScreen.js:117 | under the default limit the shown hints left stay between 0 and 20 |
| Leaderboard.Rows | client/src/components/GameLeaderboard.js:6-12 | one row per player, with its reported score or 0 and solved count 0 |
| Leaderboard.Board | client/src/components/GameLeaderboard.js:6-13 | the sorted board; `BoardRanks` states it is the rows sorted by score, stably |
| Leaderboard.BoardRanks | client/src/components/GameLeaderboard.js:6-13 | the board is a permutation of the rows, sorted by score, with ties in player order |
| Leaderboard.TeamStyle | client/src/components/GameLeaderboard.js:23-27 | `getTeamStyle`; `TeamColours` states the colours |
| Leaderboard.NameStyle | client/src/components/GameLeaderboard.js:43 | the name cell's style by mode; `TeamColours` states it |
| Leaderboard.TeamColours | client/src/components/GameLeaderboard.js:23-27 | in Teams mode each of at most four teams gets its own colour and a teamless player none; other modes colour nothing |
| Leaderboard.TeamLabel | client/src/components/GameLeaderboard.js:44 | the `(Team X)` label; `TeamLabelIsName` states it |
| Leaderboard.TeamLabelIsName | client/src/components/GameLeaderboard.js:44 | each team's label is its name in parentheses, and teamless players and other modes show none |
| ClueList.Listed | client/src/components/ClueList.js:7-8 | one direction's filtered, sorted list; `ListedClues` and `Partition` state it |
| ClueList.InDirectionKeeps | client/src/components/ClueList.js:7-8 | the filter keeps exactly the clues of its direction, as often as they occur |
| ClueList.ListedClues | client/src/components/ClueList.js:7-8 | each list holds its direction's clues, in ascending number order with ties in input order |
| ClueList.Partition | client/src/components/ClueList.js:7-8 | the two lists together are the clues |
| ClueList.Displayed | client/src/components/ClueList.js:4-10 | the list the tab shows; `DisplayedTab` states it |
| ClueList.DisplayedTab | client/src/components/ClueList.js:4-10 | the across tab shows the across clues and any other tab the down clues |
| Results.Entries | client/src/components/ResultsScreen.js:66-72 | one row per player with the reported score and words or 0, marked when it is the viewer |
| Results.Numbered | client/src/components/ResultsScreen.js:73 | row `i` gets rank `i + 1` and is otherwise unchanged |
| Results.Ranking | client/src/components/ResultsScreen.js:53-73 | the ranked table; `RankingOrder` and `MeRows` state it |
| Results.RankingOrder | client/src/components/ResultsScreen.js:53-73 | every player has a row; ranks count from 1; no row scores less than one ranked below; ties keep player order |
| Results.MyRank | client/src/components/ResultsScreen.js:75-76 | the viewer's rank; `FindMeFirst` and `MyRankInRanking` state it |
| Results.FindMeFirst | client/src/components/ResultsScreen.js:75 | `find` returns the first row marked as the viewer's, and nothing when there is none |
| Results.MyRankInRanking | client/src/components/ResultsScreen.js:75-76 | the viewer has a place exactly when the viewer plays, and no row ranked above it scores less |
| Results.MeRows | client/src/components/ResultsScreen.js:71-75 | marked rows carry the viewer's id, and one exists exactly when the viewer plays |
| Results.TeamScoreIsMembers | client/src/components/ResultsScreen.js:28-35 | a team's score is the sum of its members' scores, and it has members exactly when listed |
| Results.FirstSeenIds | client/src/components/ResultsScreen.js:28-35 | each truthy team id is listed once, and only those |
| Results.Tally | client/src/components/ResultsScreen.js:28-35 | the tally loop yields each team's summed score and members |
| Results.TallyAdds | client/src/components/ResultsScreen.js:29-33 | one pass of the loop body keeps the tally in step with the players seen |
| Results.TallyStep | client/src/components/ResultsScreen.js:29-33 | what one more player adds to the tally |
| Results.ObjectOrder | client/src/components/ResultsScreen.js:37 | the order `Object.values` visits the team map; `ObjectOrderKeys` states it |
| Results.ObjectOrderKeys | client/src/components/ResultsScreen.js:37 | `Object.values` visits every key once, integer keys first and ascending |
| Results.TeamList | client/src/components/ResultsScreen.js:37 | the sorted team list; `TeamListHolds` and `TeamIdsOnce` state its entries |
| Results.TeamIndex | client/src/components/ResultsScreen.js:48 | the index of the first team with the id, −1 when none |
| Results.TeamListHolds | client/src/components/ResultsScreen.js:37 | every tallied team is in the sorted list with its members' summed score |
| Results.MyTeamRank | client/src/components/ResultsScreen.js:45-50 | the viewer's team rank; `MyTeamRankPlace` and `Results.TeamRank` state it |
| Results.MyTeamRankPlace | client/src/components/ResultsScreen.js:45-50 | a viewer with a team gets its team's place in the sorted list, no team above scoring less and none below more; otherwise `'-'` |
| Results.TeamIdsOnce | client/src/components/ResultsScreen.js:37 | each sorted entry is the tally of its id |
| Results.RankSuffix | client/src/components/ResultsScreen.js:105-112 | the rank suffix; `SuffixByDigits` and `SuffixIsOrdinal` state it is the English ordinal |
| Results.SuffixByDigits | client/src/components/ResultsScreen.js:105-112 | for a positive rank the suffix depends on its units and tens digits |
| Results.OrdinalByDigits | client/src/components/ResultsScreen.js:105-112 | the English ordinal suffix of a number's text depends on the same two digits the same way |
| Results.SuffixIsOrdinal | client/src/components/ResultsScreen.js:105-112 | every positive rank gets its English ordinal suffix; `'-'` and 0 get none; a negative rank gets "th" |
| Results.RankDescription | client/src/components/ResultsScreen.js:121-137 | the tier text; `DescriptionByTier` states it depends on the tier alone |
| Results.DescriptionByTier | client/src/components/ResultsScreen.js:121-137 | two ranks get the same description exactly when they are in the same tier |
| Results.MainMessage | client/src/components/ResultsScreen.js:139-149 | the headline; `MessageNamesRank` states it |
| Results.MessageNamesRank | client/src/components/ResultsScreen.js:139-149 | a positive rank's message shows the rank as an ordinal and the upper-cased tier description; `'-'` shows "-" and the upper-cased text of the last tier |
| Results.DisplayList | client/src/components/ResultsScreen.js:151-156 | the shown rows; `DisplayListShape` states them |
| Results.DisplayListShape | client/src/components/ResultsScreen.js:151-156 | at most eleven rows: the first ten in order, plus the viewer's row only when it ranks below them |
| Results.Summarise | client/src/components/ResultsScreen.js:10-156 | the screen's table, rank, message and shown rows follow the ranking rules above, with the team rank in Teams mode |
| Results.TeamRank | client/src/components/ResultsScreen.js:28-50 | the tally, `Object.values` order, sort and `findIndex` give `MyTeamRank` |
| Results.InOrder | client/src/components/ResultsScreen.js:37 | every key `Object.values` visits has its tallied team, at that place of the list |
| Results.NameStyle | client/src/components/ResultsScreen.js:218 | the name cell's style, `getTeamStyle` in Teams mode, else pink for the viewer; `NameStyles` states it |
| Results.NameStyles | client/src/components/ResultsScreen.js:114-118 | in Teams mode each of up to four session teams has its own colour, the leaderboard's except the third (`'#CD853F'`), and a teamless row, the viewer's included, none; in other modes exactly the viewer's name is pink |
| Results.TeamLabel | client/src/components/ResultsScreen.js:220 | the text after a name; `TeamLabels` states it |
| Results.TeamLabels | client/src/components/ResultsScreen.js:220 | in Teams mode each session team shows `(T` and its letter, a teamless row `(T@)` as there is no `teamId` guard; other modes show nothing |

## Left out

- Sockets, `io.emit`, `alert`, `console.log`, audio and JSX rendering are not modelled. Where the
  destination of a message matters, the method returns it: `sent` of `HandleInput`,
  `BroadcastState`, `Reply` of the session methods, and the alerts of `Onboarding`.
- `setInterval` and `clearInterval` become a `timerOn` flag, and `Tick` is a method the caller
  invokes once a second.
- `Math.random()` is an explicit parameter (`draw`, `draws`). `generateUUID` becomes an id
  parameter (`hostPlayerId`, `newId`). `Date.now()` (`createdAt`, `startTime`) is left out.
- `cloneGrid` (`JSON.parse(JSON.stringify(...))`) becomes a copy of an immutable grid value.
  Working grids are values in a map field, not shared objects.
- The player `Map` that the session and its game share is passed to each game method as its
  current value, so the two never disagree.
- Pass-throughs that only forward to the game manager or read state are not modelled:
  `sendStateTo`, `sendGameState`, `getSession`, `getPlayerId`, `serializeSession`, and
  `SessionManager.handleInput`/`handleSelect`/`requestHint`.
- `numTeams` and team ids are integers. A fractional or string `numTeams` from the client is
  not modelled.
- Strings are sequences of code points. UTF-16 code units and surrogate pairs are not modelled.
- Text.FromCharCode: a code that falls in the UTF-16 surrogate range becomes U+FFFD, because a Dafny `char` cannot hold a lone surrogate.
- Text.ToUpper: only ASCII letters are upper-cased. JavaScript also upper-cases other scripts.
- `getTeamClass` in `GameLeaderboard.js` is defined but never used, so it is not modelled.
- The rest of the results table's JSX (cell classes, the rank cell's pink, layout) is not
  modelled; its name-cell colour (`getTeamStyle`, with `'#CD853F'` as the third colour where
  the leaderboard has `'#888888'`) and its `(T…)` label are, as `Results.NameStyle` and
  `Results.TeamLabel`.
- Without `sessionData`, the results screen uses no players and mode `'Competitive'`.
  `Results.Summarise` takes both as arguments, and a caller gives `[]` and `"Competitive"` for
  a missing session.
- The other client screens (`App.js`, `LobbyScreen.js`, `SplashScreen.js`, `MenuScreen.js`,
  `GameHeader.js`, `CrosswordGrid.js`) and `server.js` are not part of this model.
