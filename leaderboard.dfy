/**
 * The in-game leaderboard (client/src/components/GameLeaderboard.js): one row per player
 * with the score the last tick reported, sorted by score, and the team colour and label
 * shown beside a name in Teams mode.
 */
module Leaderboard {
  import opened Wrappers
  import opened Text
  import opened Roster
  import opened Sorting
  import opened Game
  import Sessions

  /** A leaderboard row; `solved` is the constant 0 the screen fills in. */
  datatype Row = Row(id: string, name: string, teamId: Option<int>, score: int, solved: int)

  /** The row of one player: `scores[p.id] || 0`. */
  function RowOf(scores: map<string, int>, p: Player): Row
  {
    Row(p.id, p.name, p.teamId, Get(scores, p.id), 0)
  }

  /** `players.map(...)`. */
  function Rows(scores: map<string, int>, players: seq<Player>): (rows: seq<Row>)
    ensures |rows| == |players| && forall i :: 0 <= i < |players| ==> rows[i] == RowOf(scores, players[i])
  {
    seq(|players|, i requires 0 <= i < |players| => RowOf(scores, players[i]))
  }

  function Score(r: Row): int
  {
    r.score
  }

  /** `leaderboardData`: the rows sorted by `(a, b) => b.score - a.score`; row `i` shows rank `i + 1`. */
  function Board(scores: map<string, int>, players: seq<Player>): seq<Row>
  {
    SortDesc(Rows(scores, players), Score)
  }

  /**
   * The board holds exactly the players' rows, each once as often as its player appears,
   * each with the player's reported score or 0; a row shown at a smaller rank never scores
   * less than one below it, and rows with equal scores keep the players' order.
   */
  lemma BoardRanks(scores: map<string, int>, players: seq<Player>)
    ensures var b := Board(scores, players);
            && |b| == |players| && multiset(b) == multiset(Rows(scores, players))
            && (forall j :: 0 <= j < |b| ==> b[j].score == Get(scores, b[j].id) && b[j].solved == 0)
            && (forall i :: 0 <= i < |players| ==> RowOf(scores, players[i]) in b)
            && (forall i, j :: 0 <= i < j < |b| ==> b[i].score >= b[j].score)
            && (forall k :: WithKey(b, Score, k) == WithKey(Rows(scores, players), Score, k))
  {
    var rows := Rows(scores, players);
    var b := Board(scores, players);
    SortDescPermutes(rows, Score);
    SortDescSorted(rows, Score);
    forall k ensures WithKey(b, Score, k) == WithKey(rows, Score, k) {
      SortDescStable(rows, Score, k);
    }
    forall j | 0 <= j < |b| ensures b[j].score == Get(scores, b[j].id) && b[j].solved == 0 {
      assert b[j] in multiset(rows);
    }
    forall i | 0 <= i < |players| ensures RowOf(scores, players[i]) in b {
      assert rows[i] in multiset(b);
    }
  }

  // ------------------------------------------------------------------ team colour and label

  /** The style object of a name: `{}`, or `{ color: colors[teamId - 1] }`, undefined past the fourth team. */
  datatype Style = Plain | Coloured(color: Option<string>)

  /** `colors[k - 1]` for the four team colours. */
  function Colour(k: int): Option<string>
  {
    if k == 1 then Some("#ff007f")
    else if k == 2 then Some("#ffffff")
    else if k == 3 then Some("#888888")
    else if k == 4 then Some("#00ff00")
    else None
  }

  /** `getTeamStyle(teamId)`: no team (`null` or `0`) has no style. */
  function TeamStyle(teamId: Option<int>): Style
  {
    if teamId.None? || teamId.value == 0 then Plain else Coloured(Colour(teamId.value))
  }

  /** The name's style: the team style in Teams mode, `{}` otherwise. */
  function NameStyle(mode: string, teamId: Option<int>): Style
  {
    if mode == "Teams" then TeamStyle(teamId) else Plain
  }

  /**
   * In Teams mode the teams of a session with at most four teams each get a colour of
   * their own, and a player without a team none; outside Teams mode no name is coloured.
   */
  lemma TeamColours(n: int)
    requires n <= 4
    ensures var ts := Sessions.TeamTable(n);
            && (forall i :: 0 <= i < |ts| ==> NameStyle("Teams", Some(ts[i].id)).Coloured? && NameStyle("Teams", Some(ts[i].id)).color.Some?)
            && (forall i, j :: 0 <= i < j < |ts| ==> NameStyle("Teams", Some(ts[i].id)) != NameStyle("Teams", Some(ts[j].id)))
    ensures NameStyle("Teams", None) == Plain
    ensures forall mode, t :: mode != "Teams" ==> NameStyle(mode, t) == Plain
  {
    Sessions.TeamTableShape(n);
  }

  /**
   * The text after a name: `mode === 'Teams' && p.teamId && `(Team ${letter})``. React
   * shows nothing for `false` and `null` but prints a number, so a team id of 0 shows "0".
   */
  function TeamLabel(mode: string, teamId: Option<int>): string
  {
    if mode != "Teams" || teamId.None? then ""
    else if teamId.value == 0 then "0"
    else "(Team " + [FromCharCode(64 + teamId.value)] + ")"
  }

  /**
   * The label of every team a session creates is its name in parentheses, so team 1 shows
   * "(Team A)"; players without a team and every mode but Teams show no label.
   */
  lemma TeamLabelIsName(n: int)
    ensures var ts := Sessions.TeamTable(n);
            forall i :: 0 <= i < |ts| ==> TeamLabel("Teams", Some(ts[i].id)) == "(" + ts[i].name + ")"
    ensures TeamLabel("Teams", None) == ""
    ensures forall mode, t :: mode != "Teams" ==> TeamLabel(mode, t) == ""
  {
    var ts := Sessions.TeamTable(n);
    Sessions.TeamTableShape(n);
    forall i | 0 <= i < |ts| ensures TeamLabel("Teams", Some(ts[i].id)) == "(" + ts[i].name + ")" {
      assert ts[i].name == Sessions.TeamName(i);
      assert 64 + ts[i].id == 65 + i;
    }
  }
}
