/**
 * `SessionManager` of server/objects/SessionManager.js: the registry of sessions, of the game
 * running in each, and of the links from socket ids to the players behind them. Every request
 * updates the registry's maps in place; each method is proved to leave them as a function of
 * the old maps says, and the lemmas beside those functions show that every session keeps a
 * single host among its players and team lists that agree with the players' `teamId`.
 *
 * The random characters of a session id are given as `draws`, and the UUID the source draws
 * for a new player is given as a parameter.
 */
module Sessions {
  import opened Wrappers
  import opened Text
  import opened Crossword
  import opened Roster
  import opened Game
  import opened Manager

  /** `session.status`: 'LOBBY' until a game is started, 'GAME' afterwards. */
  datatype Phase = Lobby | InGame

  /** A team of a Teams session; `players` holds its members' ids in the order they joined. */
  datatype Team = Team(id: int, name: string, players: seq<string>, maxPlayers: int)

  /** A session record; its creation and start times are not modelled. */
  datatype Session = Session(id: string, hostId: string, players: Players, status: Phase,
                             settings: Settings, teams: seq<Team>)

  /** An entry of `socketToPlayer`. */
  datatype Link = Link(sessionId: string, playerId: string)

  /** The `options` of `createSession`; a property that is not given is `None`. */
  datatype Options = Options(timeLimit: Option<int>, mode: Option<string>, difficulty: Option<string>,
                             customWords: Option<seq<WordEntry>>, numTeams: Option<int>, hintLimit: Option<int>)

  /** The answer of a request: success, or `{ error }`. */
  datatype Reply = Done | Refused(error: string)

  /** The answer of `leaveSession` for a player who was in the session. */
  datatype Departure = Departed(sessionId: string, playerId: string) | Destroyed(sessionId: string)

  predicate Distinct(s: seq<string>)
  {
    forall i, j :: 0 <= i < j < |s| ==> s[i] != s[j]
  }

  // ------------------------------------------------------------------ session ids

  const IdChars: string := "ABCDEFGHIJKLMNOPQRSTUVWXYZ0123456789"

  /** The characters a session id is drawn from: the capital letters and the digits. */
  predicate IdChar(c: char)
  {
    'A' <= c <= 'Z' || '0' <= c <= '9'
  }

  /** Three letters or digits, a dash, three letters or digits. */
  predicate IsSessionId(s: string)
  {
    |s| == 7 && s[3] == '-' && forall i :: 0 <= i < 7 && i != 3 ==> IdChar(s[i])
  }

  /** Character `k` of the alphabet: letter `k` for `k < 26`, digit `k - 26` after. */
  function IdCharAt(k: nat): char
    requires k < 36
  {
    if k < 26 then ('A' as int + k) as char else ('0' as int + k - 26) as char
  }

  /** The alphabet literal of `generateSessionId` is the letters followed by the digits. */
  lemma IdCharsSpelled()
    ensures |IdChars| == 36 && forall k :: 0 <= k < 36 ==> IdChars[k] == IdCharAt(k)
  {
  }

  /** The character a draw picks: `chars.charAt(Math.floor(Math.random() * 36))` with the draw standing for the index. */
  function Pick(d: nat): char
  {
    IdCharAt(d % 36)
  }

  /** The string `generateSessionId` has built after `i` rounds, `draws[k]` picking the character of round `k`. */
  function IdPrefix(draws: seq<nat>, i: nat): string
    requires i <= |draws|
  {
    if i == 0 then ""
    else IdPrefix(draws, i - 1) + (if i - 1 == 3 then "-" else "") + [Pick(draws[i - 1])]
  }

  /** The id `generateSessionId` returns for the six draws. */
  function SessionIdOf(draws: seq<nat>): string
    requires |draws| == 6
  {
    IdPrefix(draws, 6)
  }

  /** The six rounds of `generateSessionId` written out. */
  lemma SessionIdSpelled(draws: seq<nat>)
    requires |draws| == 6
    ensures SessionIdOf(draws) == [Pick(draws[0]), Pick(draws[1]), Pick(draws[2]), '-',
                                   Pick(draws[3]), Pick(draws[4]), Pick(draws[5])]
  {
    assert IdPrefix(draws, 1) == [Pick(draws[0])];
    assert IdPrefix(draws, 2) == [Pick(draws[0]), Pick(draws[1])];
    assert IdPrefix(draws, 3) == [Pick(draws[0]), Pick(draws[1]), Pick(draws[2])];
    assert IdPrefix(draws, 4) == [Pick(draws[0]), Pick(draws[1]), Pick(draws[2]), '-', Pick(draws[3])];
    assert IdPrefix(draws, 5) == [Pick(draws[0]), Pick(draws[1]), Pick(draws[2]), '-', Pick(draws[3]), Pick(draws[4])];
  }

  /** Every generated id has the documented shape. */
  lemma SessionIdShape(draws: seq<nat>)
    requires |draws| == 6
    ensures IsSessionId(SessionIdOf(draws))
  {
    SessionIdSpelled(draws);
  }

  /** The position of a letter or digit in the alphabet. */
  function IdIndex(c: char): (k: nat)
    requires IdChar(c)
    ensures k < 36 && Pick(k) == c
  {
    if 'A' <= c <= 'Z' then c as int - 'A' as int else 26 + c as int - '0' as int
  }

  /** Every id of that shape can come out: the generator misses none of them. */
  lemma SessionIdReachable(s: string)
    requires IsSessionId(s)
    ensures exists draws: seq<nat> :: |draws| == 6 && SessionIdOf(draws) == s
  {
    var draws: seq<nat> := [IdIndex(s[0]), IdIndex(s[1]), IdIndex(s[2]), IdIndex(s[4]), IdIndex(s[5]), IdIndex(s[6])];
    SessionIdSpelled(draws);
    assert s == [s[0], s[1], s[2], '-', s[4], s[5], s[6]];
    assert SessionIdOf(draws) == s;
  }

  // ------------------------------------------------------------------ creation

  /** `option || fallback` on a number: a missing option and `0` both give the fallback. */
  function NumberOr(o: Option<int>, fallback: int): int
  {
    if o.Some? && o.value != 0 then o.value else fallback
  }

  /** `option || fallback` on a string: a missing option and `''` both give the fallback. */
  function TextOr(o: Option<string>, fallback: string): string
  {
    if o.Some? && o.value != "" then o.value else fallback
  }

  /** The settings `createSession` records; the custom words pass through as given. */
  function SettingsOf(o: Options): Settings
  {
    Settings(NumberOr(o.timeLimit, 600), TextOr(o.mode, "COMPETITIVE"), TextOr(o.difficulty, "NORMAL"),
             o.customWords, NumberOr(o.numTeams, 2), NumberOr(o.hintLimit, 20))
  }

  /**
   * Without options a session lasts 600 seconds in mode COMPETITIVE at difficulty NORMAL with
   * 2 teams and 20 hints; a given option is kept unless falsy; no setting ends up falsy.
   */
  lemma SettingsDefaults(o: Options)
    ensures SettingsOf(Options(None, None, None, None, None, None)) == Settings(600, "COMPETITIVE", "NORMAL", None, 2, 20)
    ensures var s := SettingsOf(o);
            && s.timeLimit != 0 && s.mode != "" && s.difficulty != "" && s.numTeams != 0 && s.hintLimit != 0
            && (o.timeLimit.Some? && o.timeLimit.value != 0 ==> s.timeLimit == o.timeLimit.value)
            && (o.mode.Some? && o.mode.value != "" ==> s.mode == o.mode.value)
            && (o.numTeams.Some? && o.numTeams.value != 0 ==> s.numTeams == o.numTeams.value)
            && (o.hintLimit.Some? && o.hintLimit.value != 0 ==> s.hintLimit == o.hintLimit.value)
  {
  }

  /**
   * The mode a session's game plays: with no mode chosen (or `''`) the session records
   * 'COMPETITIVE', which the game's `'Co-Op'` and `'Teams'` tests play as Competitive;
   * "Co-Op" and "Teams" are played as chosen, and any other label as Competitive.
   */
  lemma GameModeOf(o: Options)
    ensures o.mode.None? || o.mode == Some("") ==> ParseMode(SettingsOf(o).mode) == Competitive
    ensures o.mode == Some("Co-Op") ==> ParseMode(SettingsOf(o).mode) == CoOp
    ensures o.mode == Some("Teams") ==> ParseMode(SettingsOf(o).mode) == Teams
    ensures o.mode.Some? && o.mode.value !in {"", "Co-Op", "Teams"} ==> ParseMode(SettingsOf(o).mode) == Competitive
  {
  }

  /**
   * A session's game starts its clock at the limit the host chose, or at 600 seconds when the
   * host chose none or 0: the session's default and the game's own `|| 600` agree.
   */
  lemma GameClockOf(o: Options, s: Setup)
    ensures NewPlay(s, SettingsOf(o).timeLimit).timeRemaining ==
            if o.timeLimit.Some? && o.timeLimit.value != 0 then o.timeLimit.value else 600
  {
  }

  /** `Team ${String.fromCharCode(65 + i)}`. */
  function TeamName(i: nat): string
  {
    "Team " + [FromCharCode(65 + i)]
  }

  /** The teams a Teams session starts with for `numTeams` = `n`. */
  function TeamTable(n: int): seq<Team>
  {
    if n <= 0 then [] else seq(n, i requires 0 <= i < n => Team(i + 1, TeamName(i), [], 30 / n))
  }

  /**
   * The team table: `n` empty teams (none for `n <= 0`) with ids 1..n, named "Team A",
   * "Team B", ... for the first 26, all of capacity ⌊30/n⌋, so together they never hold
   * more than 30 players.
   */
  lemma TeamTableShape(n: int)
    ensures var ts := TeamTable(n);
            && |ts| == (if n > 0 then n else 0)
            && (forall i :: 0 <= i < |ts| ==> ts[i].id == i + 1 && ts[i].players == [] && ts[i].maxPlayers == 30 / n)
            && (forall i :: 0 <= i < |ts| && i < 26 ==> ts[i].name == "Team " + [('A' as int + i) as char])
            && (n > 0 ==> |ts| * (30 / n) <= 30)
  {
  }

  /** The session `createSession` builds: the creator is its host and only player, in the lobby. */
  function NewSession(sid: string, hostId: string, socketId: string, name: string, o: Options): Session
  {
    var settings := SettingsOf(o);
    var host := Player(hostId, Some(socketId), name, true, 0, 0, true, None);
    Session(sid, hostId, NoPlayers().Set(hostId, host), Lobby, settings,
            if settings.mode == "Teams" then TeamTable(settings.numTeams) else [])
  }

  // ------------------------------------------------------------------ invariant

  /** The host is a player, and the only one flagged `isHost`. */
  ghost predicate HostOk(ps: Players, hostId: string)
  {
    && hostId in ps.byId
    && forall id :: id in ps.byId ==> (ps.byId[id].isHost <==> id == hostId)
  }

  /**
   * Team ids are positive and distinct; no list repeats a player or exceeds its capacity; a
   * player listed by a team is in the session with that team's id as `teamId`.
   */
  ghost predicate TeamsOk(ts: seq<Team>, ps: Players)
  {
    && (forall i, j :: 0 <= i < j < |ts| ==> ts[i].id != ts[j].id)
    && (forall i :: 0 <= i < |ts| ==> ts[i].id >= 1 && |ts[i].players| <= ts[i].maxPlayers && Distinct(ts[i].players))
    && (forall i, pid :: 0 <= i < |ts| && pid in ts[i].players ==> pid in ps.byId && ps.byId[pid].teamId == Some(ts[i].id))
  }

  ghost predicate SessionOk(s: Session)
  {
    s.players.Valid() && HostOk(s.players, s.hostId) && TeamsOk(s.teams, s.players)
  }

  /** The invariant speaks of the host, the players and the teams only. */
  lemma StatusKeepsOk(s: Session, status: Phase)
    requires SessionOk(s)
    ensures SessionOk(s.(status := status))
  {
  }

  /** A new session satisfies the invariant. */
  lemma NewSessionOk(sid: string, hostId: string, socketId: string, name: string, o: Options)
    ensures SessionOk(NewSession(sid, hostId, socketId, name, o))
  {
    var s := NewSession(sid, hostId, socketId, name, o);
    TeamTableOk(s.settings.numTeams, s.players);
    assert HostOk(s.players, hostId);
  }

  /** The empty teams of a new session are consistent with any player map. */
  lemma TeamTableOk(n: int, ps: Players)
    ensures TeamsOk(TeamTable(n), ps)
  {
    var ts := TeamTable(n);
    if n > 0 {
      assert 30 / n >= 0;
      forall i | 0 <= i < |ts|
        ensures ts[i].id == i + 1 && ts[i].players == [] && ts[i].maxPlayers >= 0
      {
      }
    }
  }

  /**
   * A new session is in the lobby with the creator as its only player, host, ready, on no
   * team and on its socket; its teams, if any, are empty.
   */
  lemma NewSessionShape(sid: string, hostId: string, socketId: string, name: string, o: Options)
    ensures var s := NewSession(sid, hostId, socketId, name, o);
            && s.status == Lobby && s.id == sid && s.hostId == hostId
            && s.players.order == [hostId] && s.players.byId.Keys == {hostId}
            && s.players.byId[hostId].isHost && s.players.byId[hostId].ready && s.players.byId[hostId].teamId.None?
            && s.players.byId[hostId].socketId == Some(socketId)
            && (forall i :: 0 <= i < |s.teams| ==> s.teams[i].players == [])
            && (s.settings.mode != "Teams" ==> s.teams == [])
  {
    var s := NewSession(sid, hostId, socketId, name, o);
    if s.settings.mode == "Teams" {
      TeamTableShape(s.settings.numTeams);
    }
  }

  // ------------------------------------------------------------------ teams

  /** `teams.find(t => t.id === id)`, as the index of the first team with that id. */
  function FindTeam(ts: seq<Team>, id: int): (r: Option<nat>)
    ensures r.Some? ==> r.value < |ts| && ts[r.value].id == id && forall k :: 0 <= k < r.value ==> ts[k].id != id
    ensures r.None? ==> forall k :: 0 <= k < |ts| ==> ts[k].id != id
  {
    if ts == [] then None
    else if ts[0].id == id then Some(0)
    else match FindTeam(ts[1..], id)
      case None => None
      case Some(k) => Some(k + 1)
  }

  /** The teams once the player `p` (id `pid`) is taken off the list of the team its `teamId` names, if any. */
  function Untie(ts: seq<Team>, p: Player, pid: string): (r: seq<Team>)
    ensures |r| == |ts|
  {
    if !HasTeam(p) then ts
    else match FindTeam(ts, p.teamId.value)
      case None => ts
      case Some(k) => ts[k := ts[k].(players := Without(ts[k].players, pid))]
  }

  /** Under the invariant, taking a player off its team takes it off every team list and nothing else. */
  lemma UntieAll(ts: seq<Team>, ps: Players, pid: string)
    requires TeamsOk(ts, ps) && pid in ps.byId
    ensures var r := Untie(ts, ps.byId[pid], pid);
            |r| == |ts| && forall k :: 0 <= k < |ts| ==> r[k] == ts[k].(players := Without(ts[k].players, pid))
  {
    var p := ps.byId[pid];
    var r := Untie(ts, p, pid);
    forall k | 0 <= k < |ts|
      ensures r[k] == ts[k].(players := Without(ts[k].players, pid))
    {
      if pid in ts[k].players {
        assert p.teamId == Some(ts[k].id) && HasTeam(p);
        var f := FindTeam(ts, ts[k].id);
        assert f.Some?;
        assert f.value == k;
      } else {
        WithoutAbsent(ts[k].players, pid);
        if HasTeam(p) && FindTeam(ts, p.teamId.value).Some? {
          var j := FindTeam(ts, p.teamId.value).value;
          if j != k {
            assert r[k] == ts[k];
          }
        }
      }
    }
  }

  lemma DistinctAppend(s: seq<string>, x: string)
    requires Distinct(s) && x !in s
    ensures Distinct(s + [x])
  {
    var t := s + [x];
    forall i, j | 0 <= i < j < |t| ensures t[i] != t[j] {
      if j == |s| {
        assert t[i] == s[i];
      } else {
        assert t[i] == s[i] && t[j] == s[j];
      }
    }
  }

  /** The error `joinTeam` answers with, checked in the source's order, or `None` when the move goes through. */
  function JoinTeamError(ss: map<string, Session>, sid: string, pid: string, teamId: int): Option<string>
  {
    if sid !in ss then Some("Session not found")
    else if ss[sid].settings.mode != "Teams" then Some("Not in Teams mode")
    else match FindTeam(ss[sid].teams, teamId)
      case None => Some("Team not found")
      case Some(i) =>
        if |ss[sid].teams[i].players| >= ss[sid].teams[i].maxPlayers then Some("Team is full")
        else if pid !in ss[sid].players.byId then Some("Player not found")
        else None
  }

  /**
   * `joinTeam` goes through exactly when the session exists in Teams mode, the player is in
   * it, and a team with that id has room.
   */
  lemma JoinTeamAccepts(ss: map<string, Session>, sid: string, pid: string, teamId: int)
    requires sid in ss ==> SessionOk(ss[sid])
    ensures JoinTeamError(ss, sid, pid, teamId).None? <==>
              && sid in ss && ss[sid].settings.mode == "Teams" && pid in ss[sid].players.byId
              && exists k :: 0 <= k < |ss[sid].teams| && ss[sid].teams[k].id == teamId
                             && |ss[sid].teams[k].players| < ss[sid].teams[k].maxPlayers
  {
    if sid in ss && ss[sid].settings.mode == "Teams" {
      var ts := ss[sid].teams;
      match FindTeam(ts, teamId)
      case None =>
      case Some(i) =>
        forall k | 0 <= k < |ts| && ts[k].id == teamId ensures k == i {
        }
    }
  }

  /** The session after `joinTeam` moves player `pid` to team number `i` (found by its id). */
  function TeamMove(s: Session, pid: string, i: nat): Session
    requires s.players.Valid() && pid in s.players.byId && i < |s.teams|
  {
    var p := s.players.byId[pid];
    var ts := Untie(s.teams, p, pid);
    s.(teams := ts[i := ts[i].(players := ts[i].players + [pid])],
       players := s.players.Set(pid, p.(teamId := Some(s.teams[i].id))))
  }

  /** A move to a team with room keeps the invariant. */
  lemma TeamMoveOk(s: Session, pid: string, i: nat)
    requires SessionOk(s) && pid in s.players.byId && i < |s.teams| && |s.teams[i].players| < s.teams[i].maxPlayers
    ensures SessionOk(TeamMove(s, pid, i))
  {
    var r := TeamMove(s, pid, i);
    UntieAll(s.teams, s.players, pid);
    var ts := Untie(s.teams, s.players.byId[pid], pid);
    assert r.teams == ts[i := ts[i].(players := ts[i].players + [pid])];
    forall k | 0 <= k < |r.teams|
      ensures |r.teams[k].players| <= r.teams[k].maxPlayers && Distinct(r.teams[k].players)
    {
      WithoutDistinct(s.teams[k].players, pid);
      if k == i {
        DistinctAppend(ts[i].players, pid);
      }
    }
    assert TeamsOk(r.teams, r.players);
    assert HostOk(r.players, r.hostId);
  }

  /**
   * After a move the player is listed by the chosen team alone, last, with that team's id as
   * `teamId`; every other player, every other membership and every team's id and capacity
   * are as before.
   */
  lemma TeamMoveShape(s: Session, pid: string, i: nat)
    requires SessionOk(s) && pid in s.players.byId && i < |s.teams|
    ensures var r := TeamMove(s, pid, i);
            && r.hostId == s.hostId && r.players.order == s.players.order
            && r.players.byId == s.players.byId[pid := s.players.byId[pid].(teamId := Some(s.teams[i].id))]
            && |r.teams| == |s.teams|
            && (forall k :: 0 <= k < |r.teams| ==> r.teams[k].id == s.teams[k].id && r.teams[k].maxPlayers == s.teams[k].maxPlayers)
            && (forall k :: 0 <= k < |r.teams| ==> (pid in r.teams[k].players <==> k == i))
            && r.teams[i].players[|r.teams[i].players| - 1] == pid
            && (forall k, q :: 0 <= k < |r.teams| && q != pid ==> (q in r.teams[k].players <==> q in s.teams[k].players))
  {
    UntieAll(s.teams, s.players, pid);
  }

  // ------------------------------------------------------------------ joining and leaving

  /** The session after `joinSession` adds player `pid` on socket `socketId`. */
  function Joined(s: Session, pid: string, socketId: string, name: string): Session
    requires s.players.Valid()
  {
    s.(players := s.players.Set(pid, Player(pid, Some(socketId), name, false, 0, 0, false, None)))
  }

  /** Joining with a fresh id keeps the invariant. */
  lemma JoinedOk(s: Session, pid: string, socketId: string, name: string)
    requires SessionOk(s) && pid !in s.players.byId
    ensures SessionOk(Joined(s, pid, socketId, name))
  {
    var r := Joined(s, pid, socketId, name);
    assert HostOk(r.players, r.hostId);
    assert TeamsOk(r.teams, r.players);
  }

  /** Joining with a fresh id adds exactly one player, last, who is not host, not ready and on no team. */
  lemma JoinedShape(s: Session, pid: string, socketId: string, name: string)
    requires s.players.Valid() && pid !in s.players.byId
    ensures var r := Joined(s, pid, socketId, name);
            && r.hostId == s.hostId && r.teams == s.teams && r.status == s.status
            && r.players.order == s.players.order + [pid]
            && r.players.byId.Keys == s.players.byId.Keys + {pid}
            && (forall q :: q in s.players.byId ==> r.players.byId[q] == s.players.byId[q])
            && !r.players.byId[pid].isHost && r.players.byId[pid].teamId.None? && !r.players.byId[pid].ready
            && r.players.byId[pid].socketId == Some(socketId)
  {
  }

  /** The session once player `pid`'s socket is set to `socketId` (`None` for `null`). */
  function Reconnected(s: Session, pid: string, socketId: Option<string>): Session
    requires s.players.Valid() && pid in s.players.byId
  {
    s.(players := s.players.Set(pid, s.players.byId[pid].(socketId := socketId)))
  }

  /** Changing a player's socket keeps the invariant. */
  lemma ReconnectedOk(s: Session, pid: string, socketId: Option<string>)
    requires SessionOk(s) && pid in s.players.byId
    ensures SessionOk(Reconnected(s, pid, socketId))
  {
    var r := Reconnected(s, pid, socketId);
    assert HostOk(r.players, r.hostId);
    assert TeamsOk(r.teams, r.players);
  }

  /** Changing a player's socket keeps the player in the session, in place, and changes nothing else. */
  lemma ReconnectedShape(s: Session, pid: string, socketId: Option<string>)
    requires s.players.Valid() && pid in s.players.byId
    ensures var r := Reconnected(s, pid, socketId);
            && r.hostId == s.hostId && r.teams == s.teams && r.status == s.status
            && r.players.order == s.players.order
            && r.players.byId.Keys == s.players.byId.Keys
            && r.players.byId[pid] == s.players.byId[pid].(socketId := socketId)
            && (forall q :: q in s.players.byId && q != pid ==> r.players.byId[q] == s.players.byId[q])
  {
  }

  /**
   * The session after `leaveSession` takes player `pid` out of its team and the player map;
   * a leaving host hands over to the first remaining player in insertion order.
   */
  function Leave(s: Session, pid: string): Session
    requires s.players.Valid() && pid in s.players.byId
  {
    var p := s.players.byId[pid];
    var ts := Untie(s.teams, p, pid);
    var ps := s.players.Delete(pid);
    if p.isHost && ps.order != [] then
      var next := ps.order[0];
      s.(teams := ts, players := ps.Set(next, ps.byId[next].(isHost := true)), hostId := next)
    else s.(teams := ts, players := ps)
  }

  /** A player who leaves a session of one is its host, and nobody remains: the session is destroyed. */
  lemma LastLeaverIsHost(s: Session, pid: string)
    requires SessionOk(s) && pid in s.players.byId && |s.players.order| <= 1
    ensures pid == s.hostId && s.players.byId[pid].isHost && s.players.Delete(pid).order == []
  {
    assert pid in s.players.order && s.hostId in s.players.order;
    assert |s.players.Delete(pid).order| == |s.players.order| - 1;
  }

  /** Taking a player off the team lists keeps them consistent with any player map that keeps the others' `teamId`. */
  lemma UntiedTeamsOk(ts: seq<Team>, ps: Players, pid: string, qs: Players)
    requires TeamsOk(ts, ps) && pid in ps.byId
    requires forall q :: q in ps.byId && q != pid ==> q in qs.byId && qs.byId[q].teamId == ps.byId[q].teamId
    ensures TeamsOk(Untie(ts, ps.byId[pid], pid), qs)
  {
    UntieAll(ts, ps, pid);
    var r := Untie(ts, ps.byId[pid], pid);
    forall k | 0 <= k < |r|
      ensures |r[k].players| <= r[k].maxPlayers && Distinct(r[k].players)
    {
      WithoutDistinct(ts[k].players, pid);
    }
  }

  /** Leaving a session that others remain in keeps the invariant. */
  lemma LeaveOk(s: Session, pid: string)
    requires SessionOk(s) && pid in s.players.byId && |s.players.order| > 1
    ensures SessionOk(Leave(s, pid))
  {
    LeaveRoster(s, pid);
    LeaveHost(s, pid);
    var r := Leave(s, pid);
    assert r.players.Valid();
    assert HostOk(r.players, r.hostId);
    UntiedTeamsOk(s.teams, s.players, pid, r.players);
    assert r.teams == Untie(s.teams, s.players.byId[pid], pid);
  }

  /**
   * After a leave the player is gone from the map, and the others keep their order and their
   * records but for the new host's flag.
   */
  lemma LeaveRoster(s: Session, pid: string)
    requires s.players.Valid() && pid in s.players.byId
    ensures var r := Leave(s, pid);
            && r.status == s.status
            && r.players.order == Without(s.players.order, pid)
            && r.players.byId.Keys == s.players.byId.Keys - {pid}
            && (forall q :: q in r.players.byId && q != r.hostId ==> r.players.byId[q] == s.players.byId[q])
  {
    var r := Leave(s, pid);
    var ps := s.players.Delete(pid);
    if s.players.byId[pid].isHost && ps.order != [] {
      var next := ps.order[0];
      assert next in ps.byId;
      assert r.players == ps.Set(next, ps.byId[next].(isHost := true));
      assert r.hostId == next;
    } else {
      assert r.players == ps;
    }
  }

  /** After a leave the player is gone from every team list, and the teams are otherwise as before. */
  lemma LeaveTeams(s: Session, pid: string)
    requires SessionOk(s) && pid in s.players.byId && |s.players.order| > 1
    ensures var r := Leave(s, pid);
            && |r.teams| == |s.teams|
            && (forall k :: 0 <= k < |r.teams| ==> r.teams[k] == s.teams[k].(players := Without(s.teams[k].players, pid)))
  {
    UntieAll(s.teams, s.players, pid);
  }

  /**
   * A host who leaves is succeeded by the first other player in join order, whose record
   * gains the host flag; anyone else's leave keeps the host.
   */
  lemma LeaveHost(s: Session, pid: string)
    requires s.players.Valid() && HostOk(s.players, s.hostId) && pid in s.players.byId && |s.players.order| > 1
    ensures var r := Leave(s, pid);
            && r.hostId in r.players.byId && r.hostId in s.players.byId
            && r.players.byId[r.hostId] == s.players.byId[r.hostId].(isHost := true)
            && r.hostId == (if pid != s.hostId then s.hostId
                            else if s.players.order[0] == pid then s.players.order[1]
                            else s.players.order[0])
  {
    var r := Leave(s, pid);
    var ps := s.players.Delete(pid);
    if pid == s.hostId {
      assert |ps.order| == |s.players.order| - 1;
      var next := ps.order[0];
      assert next in ps.byId;
      assert r.players == ps.Set(next, ps.byId[next].(isHost := true)) && r.hostId == next;
    } else {
      assert r.players == ps && r.hostId == s.hostId;
    }
    var o := s.players.order;
    if o[0] == pid {
      assert o[1] != pid;
      assert o == [o[0]] + o[1..];
      assert Without(o, pid) == Without(o[1..], pid);
      WithoutHead(o[1..], pid);
    } else {
      WithoutHead(o, pid);
    }
  }

  // ------------------------------------------------------------------ the registry

  /** A request from `requesterId` that the host guard lets through: the session exists and is theirs. */
  predicate HostAsks(ss: map<string, Session>, sid: string, requesterId: string)
  {
    sid in ss && ss[sid].hostId == requesterId
  }

  /** A link whose session exists and still holds its player. */
  predicate Present(ss: map<string, Session>, l: Link)
  {
    l.sessionId in ss && l.playerId in ss[l.sessionId].players.byId
  }

  /**
   * A game of the given settings, just started: its mode is the settings' mode, its board is
   * laid out from the custom words on 15 by 15 cells when there are any and is the stand-in
   * grid otherwise, and it starts from that board's new play with the timer running.
   */
  ghost predicate Started(gm: GameManager, settings: Settings)
    reads gm
  {
    && gm.Valid() && gm.setup.mode == ParseMode(settings.mode)
    && gm.State() == Game.Start(NewPlay(gm.setup, settings.timeLimit))
    && (settings.customWords.Some? && |settings.customWords.value| > 0 ==>
          gm.setup.width == 15 && gm.setup.height == 15 &&
          Generated(settings.customWords.value, 15, 15, gm.setup.baseGrid, gm.setup.baseClues))
    && (!(settings.customWords.Some? && |settings.customWords.value| > 0) ==>
          gm.setup.width == 10 && gm.setup.height == 10 && gm.setup.baseGrid == MockGrid() && gm.setup.baseClues == [])
  }

  /** Dropping a key and putting it back is putting it back. */
  lemma DropThenPut<V>(m: map<string, V>, k: string, v: V)
    ensures (m - {k})[k := v] == m[k := v]
  {
  }

  /** Every session of a registry keeps the invariant. */
  ghost predicate AllOk(ss: map<string, Session>)
  {
    forall sid {:trigger SessionOk(ss[sid])} :: sid in ss ==> SessionOk(ss[sid])
  }

  lemma AllOkStore(ss: map<string, Session>, sid: string, s: Session)
    requires AllOk(ss) && SessionOk(s)
    ensures AllOk(ss[sid := s])
  {
    var t := ss[sid := s];
    forall x | x in t
      ensures SessionOk(t[x])
    {
      if x != sid {
        assert SessionOk(ss[x]);
      }
    }
  }

  lemma AllOkRemove(ss: map<string, Session>, sid: string)
    requires AllOk(ss)
    ensures AllOk(ss - {sid})
  {
    var t := ss - {sid};
    forall x | x in t
      ensures SessionOk(t[x])
    {
      assert SessionOk(ss[x]);
    }
  }

  /** `new GameManager(...)` followed by `start()`. */
  method Launch(settings: Settings) returns (gm: GameManager)
    ensures fresh(gm) && Started(gm, settings)
  {
    gm := new GameManager(settings);
    gm.Start();
  }

  class SessionManager {
    var sessions: map<string, Session>
    var gameManagers: map<string, GameManager>
    var socketToPlayer: map<string, Link>

    /** Every session keeps the invariant, and every game belongs to a session. */
    ghost predicate Valid()
      reads this
    {
      && AllOk(sessions)
      && (forall sid :: sid in sessions ==> sessions[sid].players.Valid())
      && gameManagers.Keys <= sessions.Keys
    }

    /** The game running under `sid`, if any: what a request about that session may change. */
    function GameOf(sid: string): set<GameManager>
      reads this
    {
      if sid in gameManagers then {gameManagers[sid]} else {}
    }

    /** The game of the session a socket is linked to, if any. */
    function LinkedGame(socketId: string): set<GameManager>
      reads this
    {
      if socketId in socketToPlayer then GameOf(socketToPlayer[socketId].sessionId) else {}
    }

    /** Puts a session that keeps the invariant under `sid`. */
    method Store(sid: string, s: Session)
      requires Valid() && SessionOk(s)
      modifies this
      ensures Valid() && sessions == old(sessions)[sid := s]
      ensures gameManagers == old(gameManagers) && socketToPlayer == old(socketToPlayer)
    {
      AllOkStore(sessions, sid, s);
      sessions := sessions[sid := s];
    }

    constructor ()
      ensures Valid() && sessions == map[] && gameManagers == map[] && socketToPlayer == map[]
    {
      sessions := map[];
      gameManagers := map[];
      socketToPlayer := map[];
    }

    /** `generateSessionId`: six drawn characters with a dash after the third. */
    method GenerateSessionId(draws: seq<nat>) returns (id: string)
      requires |draws| == 6
      ensures id == SessionIdOf(draws) && IsSessionId(id)
    {
      id := "";
      IdCharsSpelled();
      for i := 0 to 6
        invariant id == IdPrefix(draws, i)
      {
        if i == 3 {
          id := id + "-";
        }
        id := id + [IdChars[draws[i] % |IdChars|]];
      }
      SessionIdShape(draws);
    }

    /** The team loop of `createSession`. */
    method BuildTeams(numTeams: int) returns (teams: seq<Team>)
      ensures teams == TeamTable(numTeams)
    {
      teams := [];
      if numTeams <= 0 {
        return;
      }
      var maxPerTeam := 30 / numTeams;
      for i := 0 to numTeams
        invariant |teams| == i
        invariant forall k :: 0 <= k < i ==> teams[k] == Team(k + 1, TeamName(k), [], maxPerTeam)
      {
        teams := teams + [Team(i + 1, "Team " + [FromCharCode(65 + i)], [], maxPerTeam)];
      }
    }

    /**
     * `createSession`: a session under a generated id with the creator, whose id is
     * `hostPlayerId`, as host; the creator's socket is linked. An existing session under the
     * same id is replaced, as in the source.
     */
    method CreateSession(hostSocketId: string, playerName: string, options: Options, draws: seq<nat>, hostPlayerId: string)
      returns (sessionId: string, playerId: string)
      requires Valid() && |draws| == 6
      modifies this
      ensures Valid()
      ensures sessionId == SessionIdOf(draws) && playerId == hostPlayerId
      ensures sessions == old(sessions)[sessionId := NewSession(sessionId, hostPlayerId, hostSocketId, playerName, options)]
      ensures socketToPlayer == old(socketToPlayer)[hostSocketId := Link(sessionId, hostPlayerId)]
      ensures gameManagers == old(gameManagers)
    {
      sessionId := GenerateSessionId(draws);
      playerId := hostPlayerId;
      var mode := TextOr(options.mode, "COMPETITIVE");
      var numTeams := NumberOr(options.numTeams, 2);
      var settings := Settings(NumberOr(options.timeLimit, 600), mode, TextOr(options.difficulty, "NORMAL"),
                               options.customWords, numTeams, NumberOr(options.hintLimit, 20));
      var teams: seq<Team> := [];
      if mode == "Teams" {
        teams := BuildTeams(numTeams);
      }
      var host := Player(hostPlayerId, Some(hostSocketId), playerName, true, 0, 0, true, None);
      var session := Session(sessionId, hostPlayerId, NoPlayers().Set(hostPlayerId, host), Lobby, settings, teams);
      assert session == NewSession(sessionId, hostPlayerId, hostSocketId, playerName, options);
      NewSessionOk(sessionId, hostPlayerId, hostSocketId, playerName, options);
      Store(sessionId, session);
      socketToPlayer := socketToPlayer[hostSocketId := Link(sessionId, hostPlayerId)];
    }

    /**
     * `joinSession`: a lobby takes a new player, whose id is `newId`, and links its socket;
     * an unknown session and a game in progress are refused.
     */
    method JoinSession(sessionId: string, socketId: string, playerName: string, newId: string) returns (r: Reply)
      requires Valid()
      requires sessionId in sessions ==> newId !in sessions[sessionId].players.byId
      modifies this
      ensures Valid() && gameManagers == old(gameManagers)
      ensures sessionId !in old(sessions) ==>
                r == Refused("Session not found") && sessions == old(sessions) && socketToPlayer == old(socketToPlayer)
      ensures sessionId in old(sessions) && old(sessions)[sessionId].status != Lobby ==>
                r == Refused("Game already in progress") && sessions == old(sessions) && socketToPlayer == old(socketToPlayer)
      ensures sessionId in old(sessions) && old(sessions)[sessionId].status == Lobby ==>
                && r == Done
                && sessions == old(sessions)[sessionId := Joined(old(sessions)[sessionId], newId, socketId, playerName)]
                && socketToPlayer == old(socketToPlayer)[socketId := Link(sessionId, newId)]
    {
      if sessionId !in sessions {
        return Refused("Session not found");
      }
      var session := sessions[sessionId];
      if session.status != Lobby {
        return Refused("Game already in progress");
      }
      var newPlayer := Player(newId, Some(socketId), playerName, false, 0, 0, false, None);
      JoinedOk(session, newId, socketId, playerName);
      Store(sessionId, session.(players := session.players.Set(newId, newPlayer)));
      socketToPlayer := socketToPlayer[socketId := Link(sessionId, newId)];
      r := Done;
    }

    /** `rejoinSession`: a player of the session comes back on a new socket, which is linked; the old link stays. */
    method RejoinSession(sessionId: string, playerId: string, newSocketId: string) returns (r: Reply)
      requires Valid()
      modifies this
      ensures Valid() && gameManagers == old(gameManagers)
      ensures sessionId !in old(sessions) ==>
                r == Refused("Session not found") && sessions == old(sessions) && socketToPlayer == old(socketToPlayer)
      ensures sessionId in old(sessions) && playerId !in old(sessions)[sessionId].players.byId ==>
                r == Refused("Player not found in session") && sessions == old(sessions) && socketToPlayer == old(socketToPlayer)
      ensures Present(old(sessions), Link(sessionId, playerId)) ==>
                && r == Done
                && sessions == old(sessions)[sessionId := Reconnected(old(sessions)[sessionId], playerId, Some(newSocketId))]
                && socketToPlayer == old(socketToPlayer)[newSocketId := Link(sessionId, playerId)]
    {
      if sessionId !in sessions {
        return Refused("Session not found");
      }
      var session := sessions[sessionId];
      if playerId !in session.players.byId {
        return Refused("Player not found in session");
      }
      var player := session.players.byId[playerId];
      ReconnectedOk(session, playerId, Some(newSocketId));
      Store(sessionId, session.(players := session.players.Set(playerId, player.(socketId := Some(newSocketId)))));
      socketToPlayer := socketToPlayer[newSocketId := Link(sessionId, playerId)];
      r := Done;
    }

    /**
     * `joinTeam`: the player leaves its old team and joins the team with id `teamId`; the
     * refusals are those of `JoinTeamError`, in its order.
     */
    method JoinTeam(sessionId: string, playerId: string, teamId: int) returns (r: Reply)
      requires Valid()
      modifies this
      ensures Valid() && gameManagers == old(gameManagers) && socketToPlayer == old(socketToPlayer)
      ensures JoinTeamError(old(sessions), sessionId, playerId, teamId).Some? ==>
                r == Refused(JoinTeamError(old(sessions), sessionId, playerId, teamId).value) && sessions == old(sessions)
      ensures JoinTeamError(old(sessions), sessionId, playerId, teamId).None? ==>
                && r == Done
                && sessions == old(sessions)[sessionId := TeamMove(old(sessions)[sessionId], playerId,
                                                                   FindTeam(old(sessions)[sessionId].teams, teamId).value)]
    {
      if sessionId !in sessions {
        return Refused("Session not found");
      }
      var session := sessions[sessionId];
      if session.settings.mode != "Teams" {
        return Refused("Not in Teams mode");
      }
      var found := FindTeam(session.teams, teamId);
      if found.None? {
        return Refused("Team not found");
      }
      var i := found.value;
      if |session.teams[i].players| >= session.teams[i].maxPlayers {
        return Refused("Team is full");
      }
      if playerId !in session.players.byId {
        return Refused("Player not found");
      }
      var player := session.players.byId[playerId];
      var teams := session.teams;
      if HasTeam(player) {
        var oldTeam := FindTeam(teams, player.teamId.value);
        if oldTeam.Some? {
          var k := oldTeam.value;
          teams := teams[k := teams[k].(players := Without(teams[k].players, playerId))];
        }
      }
      assert teams == Untie(session.teams, player, playerId);
      teams := teams[i := teams[i].(players := teams[i].players + [playerId])];
      var players := session.players.Set(playerId, player.(teamId := Some(teamId)));
      TeamMoveOk(session, playerId, i);
      Store(sessionId, session.(teams := teams, players := players));
      r := Done;
    }

    /**
     * `leaveSession`: the player behind the socket leaves its team and the session and the
     * link is dropped; a leaving host hands over, and the last player out destroys the
     * session with its game. An unlinked socket, or one whose player is gone, changes nothing.
     */
    method LeaveSession(socketId: string) returns (r: Option<Departure>)
      requires Valid()
      modifies this, LinkedGame(socketId)
      ensures Valid()
      ensures !(socketId in old(socketToPlayer) && Present(old(sessions), old(socketToPlayer)[socketId])) ==>
                && r == None && sessions == old(sessions) && gameManagers == old(gameManagers)
                && socketToPlayer == old(socketToPlayer)
      ensures socketId in old(socketToPlayer) && Present(old(sessions), old(socketToPlayer)[socketId]) ==>
                var l := old(socketToPlayer)[socketId];
                var s := old(sessions)[l.sessionId];
                && socketToPlayer == old(socketToPlayer) - {socketId}
                && (|s.players.order| > 1 ==>
                      && r == Some(Departed(l.sessionId, l.playerId))
                      && sessions == old(sessions)[l.sessionId := Leave(s, l.playerId)]
                      && gameManagers == old(gameManagers))
                && (|s.players.order| <= 1 ==>
                      && r == Some(Destroyed(l.sessionId))
                      && sessions == old(sessions) - {l.sessionId}
                      && gameManagers == old(gameManagers) - {l.sessionId})
      ensures socketId in old(socketToPlayer) && Present(old(sessions), old(socketToPlayer)[socketId]) &&
              |old(sessions)[old(socketToPlayer)[socketId].sessionId].players.order| <= 1 &&
              old(socketToPlayer)[socketId].sessionId in old(gameManagers) ==>
                var gm := old(gameManagers)[old(socketToPlayer)[socketId].sessionId];
                gm.State() == Game.EndGame(old(gm.State()))
    {
      if socketId !in socketToPlayer {
        return None;
      }
      var info := socketToPlayer[socketId];
      var sessionId, playerId := info.sessionId, info.playerId;
      if !(sessionId in sessions && playerId in sessions[sessionId].players.byId) {
        return None;
      }
      var session := sessions[sessionId];
      var player := session.players.byId[playerId];
      var teams := session.teams;
      if HasTeam(player) {
        var team := FindTeam(teams, player.teamId.value);
        if team.Some? {
          var k := team.value;
          teams := teams[k := teams[k].(players := Without(teams[k].players, playerId))];
        }
      }
      assert teams == Untie(session.teams, player, playerId);
      var players := session.players.Delete(playerId);
      socketToPlayer := socketToPlayer - {socketId};
      if player.isHost && players.order == [] {
        Destroy(sessionId, playerId, session.(teams := teams, players := players));
        return Some(Destroyed(sessionId));
      }
      if |session.players.order| <= 1 {
        LastLeaverIsHost(session, playerId);
        assert false;
      }
      Depart(sessionId, playerId, teams, players);
      r := Some(Departed(sessionId, playerId));
    }

    /** The last player, the host, has been taken out as `stripped`: the session is closed and its game ended. */
    method Destroy(sessionId: string, playerId: string, stripped: Session)
      requires Valid() && sessionId in sessions && playerId in sessions[sessionId].players.byId
      requires |sessions[sessionId].players.order| <= 1 && stripped.hostId == sessions[sessionId].hostId
      modifies this, GameOf(sessionId)
      ensures Valid() && socketToPlayer == old(socketToPlayer)
      ensures sessions == old(sessions) - {sessionId} && gameManagers == old(gameManagers) - {sessionId}
      ensures sessionId in old(gameManagers) ==>
                var gm := old(gameManagers)[sessionId];
                gm.State() == Game.EndGame(old(gm.State()))
    {
      LastLeaverIsHost(sessions[sessionId], playerId);
      AllOkRemove(sessions, sessionId);
      ghost var rest := sessions - {sessionId};
      sessions := sessions[sessionId := stripped];
      assert sessions - {sessionId} == rest;
      var _ := CloseSession(sessionId, playerId);
    }

    /** A player leaves a session that others remain in; a leaving host hands over to the first remaining player. */
    method Depart(sessionId: string, playerId: string, teams: seq<Team>, players: Players)
      requires Valid() && sessionId in sessions && playerId in sessions[sessionId].players.byId
      requires |sessions[sessionId].players.order| > 1
      requires teams == Untie(sessions[sessionId].teams, sessions[sessionId].players.byId[playerId], playerId)
      requires players == sessions[sessionId].players.Delete(playerId)
      modifies this
      ensures Valid() && gameManagers == old(gameManagers) && socketToPlayer == old(socketToPlayer)
      ensures sessions == old(sessions)[sessionId := Leave(old(sessions)[sessionId], playerId)]
    {
      var session := sessions[sessionId];
      LeaveOk(session, playerId);
      if session.players.byId[playerId].isHost {
        var next := players.order[0];
        Store(sessionId, session.(teams := teams, players := players.Set(next, players.byId[next].(isHost := true)), hostId := next));
      } else {
        Store(sessionId, session.(teams := teams, players := players));
      }
    }

    /**
     * `handleDisconnect`: the player stays in the session with its socket cleared, and the
     * socket's link is dropped; the answer names the linked session, if there was a link.
     */
    method HandleDisconnect(socketId: string) returns (r: Option<string>)
      requires Valid()
      modifies this
      ensures Valid() && gameManagers == old(gameManagers)
      ensures r == if socketId in old(socketToPlayer) then Some(old(socketToPlayer)[socketId].sessionId) else None
      ensures socketToPlayer == old(socketToPlayer) - {socketId}
      ensures socketId in old(socketToPlayer) && Present(old(sessions), old(socketToPlayer)[socketId]) ==>
                var l := old(socketToPlayer)[socketId];
                sessions == old(sessions)[l.sessionId := Reconnected(old(sessions)[l.sessionId], l.playerId, None)]
      ensures !(socketId in old(socketToPlayer) && Present(old(sessions), old(socketToPlayer)[socketId])) ==>
                sessions == old(sessions)
    {
      if socketId !in socketToPlayer {
        return None;
      }
      var info := socketToPlayer[socketId];
      var sessionId, playerId := info.sessionId, info.playerId;
      if sessionId in sessions && playerId in sessions[sessionId].players.byId {
        var session := sessions[sessionId];
        var player := session.players.byId[playerId];
        ReconnectedOk(session, playerId, None);
        Store(sessionId, session.(players := session.players.Set(playerId, player.(socketId := None))));
      }
      socketToPlayer := socketToPlayer - {socketId};
      r := Some(sessionId);
    }

    /**
     * `startGame`: any game already running in the session is ended and dropped, the session
     * turns to GAME and a new game of its settings is started. There is no host guard.
     */
    method StartGame(sessionId: string) returns (r: Reply)
      requires Valid()
      modifies this, GameOf(sessionId)
      ensures Valid() && socketToPlayer == old(socketToPlayer)
      ensures sessionId !in old(sessions) ==>
                r == Refused("Session not found") && sessions == old(sessions) && gameManagers == old(gameManagers)
      ensures sessionId in old(sessions) ==>
                && r == Done
                && sessions == old(sessions)[sessionId := old(sessions)[sessionId].(status := InGame)]
                && sessionId in gameManagers && fresh(gameManagers[sessionId])
                && gameManagers == old(gameManagers)[sessionId := gameManagers[sessionId]]
                && Started(gameManagers[sessionId], old(sessions)[sessionId].settings)
      ensures sessionId in old(gameManagers) ==>
                var gm := old(gameManagers)[sessionId];
                gm.State() == Game.EndGame(old(gm.State()))
    {
      if sessionId !in sessions {
        return Refused("Session not found");
      }
      Relaunch(sessionId);
      r := Done;
    }

    /** `startGame` for a known session: the running game, if any, is ended and dropped, and a new one installed. */
    method Relaunch(sessionId: string)
      requires Valid() && sessionId in sessions
      modifies this, GameOf(sessionId)
      ensures Valid() && socketToPlayer == old(socketToPlayer)
      ensures sessions == old(sessions)[sessionId := old(sessions)[sessionId].(status := InGame)]
      ensures sessionId in gameManagers && fresh(gameManagers[sessionId])
      ensures gameManagers == old(gameManagers)[sessionId := gameManagers[sessionId]]
      ensures Started(gameManagers[sessionId], old(sessions)[sessionId].settings)
      ensures sessionId in old(gameManagers) ==>
                var gm := old(gameManagers)[sessionId];
                gm.State() == Game.EndGame(old(gm.State()))
    {
      ghost var before := gameManagers;
      StopGame(sessionId);
      Install(sessionId);
      DropThenPut(before, sessionId, gameManagers[sessionId]);
    }

    /** The common end of `startGame` and `restartGame`: the session turns to GAME and a new game of its settings is started. */
    method Install(sessionId: string)
      requires Valid() && sessionId in sessions
      modifies this
      ensures Valid() && socketToPlayer == old(socketToPlayer)
      ensures sessions == old(sessions)[sessionId := old(sessions)[sessionId].(status := InGame)]
      ensures sessionId in gameManagers && fresh(gameManagers[sessionId])
      ensures gameManagers == old(gameManagers)[sessionId := gameManagers[sessionId]]
      ensures Started(gameManagers[sessionId], old(sessions)[sessionId].settings)
    {
      var session := sessions[sessionId];
      StatusKeepsOk(session, InGame);
      Store(sessionId, session.(status := InGame));
      var gameManager := Launch(session.settings);
      gameManagers := gameManagers[sessionId := gameManager];
    }

    /** Ends and drops the game running under `sessionId`, if any. */
    method StopGame(sessionId: string)
      requires Valid()
      modifies this, GameOf(sessionId)
      ensures Valid() && sessions == old(sessions) && socketToPlayer == old(socketToPlayer)
      ensures gameManagers == old(gameManagers) - {sessionId}
      ensures sessionId in old(gameManagers) ==>
                var gm := old(gameManagers)[sessionId];
                gm.State() == Game.EndGame(old(gm.State()))
    {
      if sessionId in gameManagers {
        gameManagers[sessionId].EndGame();
        gameManagers := gameManagers - {sessionId};
      }
    }

    /** `extendTime`: the host's request gives the session's game five more minutes; anyone else's is ignored. */
    method ExtendTime(sessionId: string, requesterId: string)
      modifies GameOf(sessionId)
      ensures HostAsks(sessions, sessionId, requesterId) && sessionId in gameManagers ==>
                var gm := gameManagers[sessionId];
                gm.State() == Game.ExtendTime(old(gm.State()))
      ensures !HostAsks(sessions, sessionId, requesterId) && sessionId in gameManagers ==>
                unchanged(gameManagers[sessionId])
    {
      if !(sessionId in sessions && sessions[sessionId].hostId == requesterId) {
        return;
      }
      if sessionId in gameManagers {
        gameManagers[sessionId].ExtendTime();
      }
    }

    /**
     * `restartGame`: on the host's request the session's game, if any, is ended and replaced
     * by a new game of its settings, started, and the session turns to GAME; anyone else's
     * request is ignored.
     */
    method RestartGame(sessionId: string, requesterId: string)
      requires Valid()
      modifies this, GameOf(sessionId)
      ensures Valid() && socketToPlayer == old(socketToPlayer)
      ensures !HostAsks(old(sessions), sessionId, requesterId) ==>
                && sessions == old(sessions) && gameManagers == old(gameManagers)
                && (sessionId in gameManagers ==> unchanged(gameManagers[sessionId]))
      ensures HostAsks(old(sessions), sessionId, requesterId) ==>
                && sessions == old(sessions)[sessionId := old(sessions)[sessionId].(status := InGame)]
                && sessionId in gameManagers && fresh(gameManagers[sessionId])
                && gameManagers == old(gameManagers)[sessionId := gameManagers[sessionId]]
                && Started(gameManagers[sessionId], old(sessions)[sessionId].settings)
      ensures HostAsks(old(sessions), sessionId, requesterId) && sessionId in old(gameManagers) ==>
                var gm := old(gameManagers)[sessionId];
                gm.State() == Game.EndGame(old(gm.State()))
    {
      if !(sessionId in sessions && sessions[sessionId].hostId == requesterId) {
        return;
      }
      if sessionId in gameManagers {
        gameManagers[sessionId].EndGame();
      }
      Install(sessionId);
    }

    /**
     * `closeSession`: on the host's request the session's game, if any, is ended and dropped
     * and the session is deleted; anyone else's request is ignored. Links to the session stay.
     */
    method CloseSession(sessionId: string, requesterId: string) returns (closed: bool)
      modifies this, GameOf(sessionId)
      ensures old(Valid()) ==> Valid()
      ensures closed == HostAsks(old(sessions), sessionId, requesterId)
      ensures socketToPlayer == old(socketToPlayer)
      ensures closed ==> sessions == old(sessions) - {sessionId} && gameManagers == old(gameManagers) - {sessionId}
      ensures !closed ==>
                && sessions == old(sessions) && gameManagers == old(gameManagers)
                && (sessionId in gameManagers ==> unchanged(gameManagers[sessionId]))
      ensures closed && sessionId in old(gameManagers) ==>
                var gm := old(gameManagers)[sessionId];
                gm.State() == Game.EndGame(old(gm.State()))
    {
      if !(sessionId in sessions && sessions[sessionId].hostId == requesterId) {
        return false;
      }
      if sessionId in gameManagers {
        gameManagers[sessionId].EndGame();
        gameManagers := gameManagers - {sessionId};
      }
      sessions := sessions - {sessionId};
      closed := true;
    }
  }
}
