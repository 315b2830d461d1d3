/**
 * The game-over screen (client/src/components/ResultsScreen.js): the ranked table of
 * players, the viewer's own rank (in Teams mode the rank of the viewer's team, found by
 * tallying team scores in a loop), the ordinal suffix, the congratulation message chosen
 * by rank tier, and the rows the table shows.
 */
module Results {
  import opened Wrappers
  import opened Text
  import opened Roster
  import opened Sorting
  import opened Game
  import Sessions
  import Leaderboard

  /** A row of `rankedResults` before numbering; `teamId` is `null` outside Teams mode. */
  datatype Entry = Entry(id: string, name: string, score: int, words: int, isMe: bool, teamId: Option<int>)

  /** A row with its `rank: idx + 1`. */
  datatype Placed = Placed(entry: Entry, rank: int)

  /** A rank as the screen holds it: the string `'-'` or a number. */
  datatype Rank = Dash | Place(n: int)

  // ------------------------------------------------------------------ ranking

  /** The row of one player: missing scores and word counts are 0. */
  function EntryOf(scores: map<string, int>, wordsSolved: map<string, int>, playerId: Option<string>,
                   teams: bool, p: Player): Entry
  {
    Entry(p.id, p.name, Get(scores, p.id), Get(wordsSolved, p.id), playerId == Some(p.id),
          if teams then p.teamId else None)
  }

  /** `players.map(p => ({ ... }))`; the ensures is the element-wise definition of the map. */
  function Entries(scores: map<string, int>, wordsSolved: map<string, int>, playerId: Option<string>,
                   teams: bool, players: seq<Player>): (es: seq<Entry>)
    ensures |es| == |players|
    ensures forall i :: 0 <= i < |players| ==> es[i] == EntryOf(scores, wordsSolved, playerId, teams, players[i])
  {
    seq(|players|, i requires 0 <= i < |players| => EntryOf(scores, wordsSolved, playerId, teams, players[i]))
  }

  function EntryScore(e: Entry): int
  {
    e.score
  }

  /** `.map((p, idx) => ({ ...p, rank: idx + 1 }))`; the ensures is the element-wise definition of the map. */
  function Numbered(es: seq<Entry>): (rs: seq<Placed>)
    ensures |rs| == |es| && forall i :: 0 <= i < |es| ==> rs[i] == Placed(es[i], i + 1)
  {
    seq(|es|, i requires 0 <= i < |es| => Placed(es[i], i + 1))
  }

  /** `rankedResults`: the rows sorted by `(a, b) => b.score - a.score`, then numbered. */
  function Ranking(scores: map<string, int>, wordsSolved: map<string, int>, playerId: Option<string>,
                   teams: bool, players: seq<Player>): seq<Placed>
  {
    Numbered(SortDesc(Entries(scores, wordsSolved, playerId, teams, players), EntryScore))
  }

  /**
   * Every player has a row, as often as the player appears, with the reported score or 0;
   * row `i` has rank `i + 1`; no row scores less than one ranked below it; rows with equal
   * scores keep the players' order.
   */
  lemma RankingOrder(scores: map<string, int>, wordsSolved: map<string, int>, playerId: Option<string>,
                     teams: bool, players: seq<Player>)
    ensures var es := Entries(scores, wordsSolved, playerId, teams, players);
            var sorted := SortDesc(es, EntryScore);
            var rs := Ranking(scores, wordsSolved, playerId, teams, players);
            && |rs| == |players| && multiset(sorted) == multiset(es)
            && (forall i :: 0 <= i < |rs| ==> rs[i].rank == i + 1 && rs[i].entry == sorted[i])
            && (forall i :: 0 <= i < |rs| ==> rs[i].entry.score == Get(scores, rs[i].entry.id))
            && (forall i, j :: 0 <= i < j < |rs| ==> rs[i].entry.score >= rs[j].entry.score)
            && (forall k :: WithKey(sorted, EntryScore, k) == WithKey(es, EntryScore, k))
  {
    var es := Entries(scores, wordsSolved, playerId, teams, players);
    var sorted := SortDesc(es, EntryScore);
    SortDescPermutes(es, EntryScore);
    SortDescSorted(es, EntryScore);
    forall k ensures WithKey(sorted, EntryScore, k) == WithKey(es, EntryScore, k) {
      SortDescStable(es, EntryScore, k);
    }
    forall i | 0 <= i < |sorted| ensures sorted[i].score == Get(scores, sorted[i].id) {
      assert sorted[i] in multiset(es);
    }
  }

  /** `rankedResults.find(p => p.isMe)`. */
  function FindMe(rs: seq<Placed>): Option<Placed>
  {
    if rs == [] then None else if rs[0].entry.isMe then Some(rs[0]) else FindMe(rs[1..])
  }

  /** `find` returns the first row marked as the viewer's, and nothing when there is none. */
  lemma {:induction false} FindMeFirst(rs: seq<Placed>)
    ensures FindMe(rs).None? <==> forall i :: 0 <= i < |rs| ==> !rs[i].entry.isMe
    ensures FindMe(rs).Some? ==>
              exists i :: 0 <= i < |rs| && rs[i] == FindMe(rs).value && rs[i].entry.isMe
                          && forall j :: 0 <= j < i ==> !rs[j].entry.isMe
  {
    if rs != [] && !rs[0].entry.isMe {
      FindMeFirst(rs[1..]);
      if FindMe(rs).Some? {
        var i :| 0 <= i < |rs[1..]| && rs[1..][i] == FindMe(rs).value && rs[1..][i].entry.isMe
                 && forall j :: 0 <= j < i ==> !rs[1..][j].entry.isMe;
        assert rs[i + 1] == rs[1..][i];
        assert forall j :: 0 <= j < i + 1 ==> !rs[j].entry.isMe by {
          forall j | 0 <= j < i + 1 ensures !rs[j].entry.isMe {
            if j > 0 { assert rs[j] == rs[1..][j - 1]; }
          }
        }
      } else {
        forall i | 0 <= i < |rs| ensures !rs[i].entry.isMe {
          if i > 0 { assert rs[i] == rs[1..][i - 1]; }
        }
      }
    }
  }

  /** `myResult ? myResult.rank : '-'`. */
  function MyRank(rs: seq<Placed>): Rank
  {
    match FindMe(rs)
    case None => Dash
    case Some(r) => Place(r.rank)
  }

  /**
   * In the individual table the viewer's rank is a place exactly when the viewer is among
   * the players; it is then the rank of a row carrying the viewer's id, and every row
   * ranked above it scores at least as much.
   */
  lemma MyRankInRanking(scores: map<string, int>, wordsSolved: map<string, int>, playerId: Option<string>,
                        players: seq<Player>)
    ensures var rs := Ranking(scores, wordsSolved, playerId, false, players);
            && (MyRank(rs).Place? <==> playerId.Some? && exists i :: 0 <= i < |players| && players[i].id == playerId.value)
            && (MyRank(rs).Place? ==>
                  var n := MyRank(rs).n;
                  && 1 <= n <= |rs| && rs[n - 1].entry.id == playerId.value
                  && forall j :: 0 <= j < n - 1 ==> rs[j].entry.score >= rs[n - 1].entry.score)
  {
    var rs := Ranking(scores, wordsSolved, playerId, false, players);
    RankingOrder(scores, wordsSolved, playerId, false, players);
    FindMeFirst(rs);
    MeRows(scores, wordsSolved, playerId, false, players);
    if MyRank(rs).Place? {
      var i :| 0 <= i < |rs| && rs[i] == FindMe(rs).value && rs[i].entry.isMe;
      assert rs[i].rank == i + 1;
    }
  }

  /** The rows marked as the viewer's carry the viewer's id, and there is one exactly when the viewer plays. */
  lemma MeRows(scores: map<string, int>, wordsSolved: map<string, int>, playerId: Option<string>,
               teams: bool, players: seq<Player>)
    ensures var rs := Ranking(scores, wordsSolved, playerId, teams, players);
            && (forall i :: 0 <= i < |rs| && rs[i].entry.isMe ==> playerId == Some(rs[i].entry.id))
            && ((exists i :: 0 <= i < |rs| && rs[i].entry.isMe) <==>
                playerId.Some? && exists i :: 0 <= i < |players| && players[i].id == playerId.value)
  {
    var es := Entries(scores, wordsSolved, playerId, teams, players);
    var sorted := SortDesc(es, EntryScore);
    var rs := Ranking(scores, wordsSolved, playerId, teams, players);
    SortDescPermutes(es, EntryScore);
    forall i | 0 <= i < |rs| && rs[i].entry.isMe ensures playerId == Some(rs[i].entry.id) {
      assert sorted[i] in multiset(es);
    }
    if playerId.Some? && exists i :: 0 <= i < |players| && players[i].id == playerId.value {
      var i :| 0 <= i < |players| && players[i].id == playerId.value;
      assert es[i] in multiset(sorted);
      var k :| 0 <= k < |sorted| && sorted[k] == es[i];
      assert rs[k].entry.isMe;
    }
    if exists i :: 0 <= i < |rs| && rs[i].entry.isMe {
      var i :| 0 <= i < |rs| && rs[i].entry.isMe;
      assert sorted[i] in multiset(es);
      var k :| 0 <= k < |es| && es[k] == sorted[i];
      assert players[k].id == playerId.value;
    }
  }

  // ------------------------------------------------------------------ team tally

  /** An entry of the local `teams` object. */
  datatype TeamTotal = TeamTotal(id: int, score: int, players: seq<Player>)

  /** The players with team `k`, in order; a falsy `teamId` belongs to no team. */
  function Members(players: seq<Player>, k: int): seq<Player>
  {
    if players == [] then []
    else
      var p := players[|players| - 1];
      Members(players[..|players| - 1], k) + (if HasTeam(p) && p.teamId.value == k then [p] else [])
  }

  /** The summed scores of the players with team `k`, `scores[p.id] || 0` each. */
  function TeamScore(players: seq<Player>, scores: map<string, int>, k: int): int
  {
    if players == [] then 0
    else
      var p := players[|players| - 1];
      TeamScore(players[..|players| - 1], scores, k) + (if HasTeam(p) && p.teamId.value == k then Get(scores, p.id) else 0)
  }

  /** The team ids in the order players first show them, which is the order the keys are added. */
  function FirstSeen(players: seq<Player>): seq<int>
  {
    if players == [] then []
    else
      var p := players[|players| - 1];
      var before := FirstSeen(players[..|players| - 1]);
      if HasTeam(p) && p.teamId.value !in before then before + [p.teamId.value] else before
  }

  /** The summed scores of a list of players. */
  function SumScores(ps: seq<Player>, scores: map<string, int>): int
  {
    if ps == [] then 0 else SumScores(ps[..|ps| - 1], scores) + Get(scores, ps[|ps| - 1].id)
  }

  lemma SumScoresAppend(ps: seq<Player>, p: Player, scores: map<string, int>)
    ensures SumScores(ps + [p], scores) == SumScores(ps, scores) + Get(scores, p.id)
  {
    assert (ps + [p])[..|ps|] == ps;
  }

  /** A team's score is the sum of its members' scores, and a team has members exactly when it is listed. */
  lemma {:induction false} TeamScoreIsMembers(players: seq<Player>, scores: map<string, int>, k: int)
    ensures TeamScore(players, scores, k) == SumScores(Members(players, k), scores)
    ensures Members(players, k) != [] <==> k in FirstSeen(players)
  {
    if players != [] {
      var p := players[|players| - 1];
      TeamScoreIsMembers(players[..|players| - 1], scores, k);
      if HasTeam(p) && p.teamId.value == k {
        SumScoresAppend(Members(players[..|players| - 1], k), p, scores);
      } else {
        assert Members(players, k) == Members(players[..|players| - 1], k);
      }
    }
  }

  /** No team id is listed twice, and the listed ids are exactly the truthy team ids of the players. */
  lemma {:induction false} FirstSeenIds(players: seq<Player>)
    ensures forall i, j :: 0 <= i < j < |FirstSeen(players)| ==> FirstSeen(players)[i] != FirstSeen(players)[j]
    ensures forall k :: k in FirstSeen(players) <==> exists i :: 0 <= i < |players| && HasTeam(players[i]) && players[i].teamId.value == k
  {
    if players != [] {
      var init := players[..|players| - 1];
      FirstSeenIds(init);
      forall k ensures k in FirstSeen(players) <==> exists i :: 0 <= i < |players| && HasTeam(players[i]) && players[i].teamId.value == k {
        if exists i :: 0 <= i < |players| && HasTeam(players[i]) && players[i].teamId.value == k {
          var i :| 0 <= i < |players| && HasTeam(players[i]) && players[i].teamId.value == k;
          if i < |init| { assert init[i] == players[i]; }
        }
        if k in FirstSeen(init) {
          var i :| 0 <= i < |init| && HasTeam(init[i]) && init[i].teamId.value == k;
          assert players[i] == init[i];
        }
      }
    }
  }

  /** The tally object and its key order after the players `ps`. */
  ghost predicate Tallied(ps: seq<Player>, scores: map<string, int>, teams: map<int, TeamTotal>, keys: seq<int>)
  {
    && keys == FirstSeen(ps)
    && (forall k :: k in teams <==> k in keys)
    && (forall k :: k in teams ==> teams[k] == TeamTotal(k, TeamScore(ps, scores, k), Members(ps, k)))
  }

  /**
   * The team tally loop: players without a truthy `teamId` are skipped; a team's entry is
   * created when its first player is met, and every member adds its score and itself.
   */
  method Tally(players: seq<Player>, scores: map<string, int>) returns (teams: map<int, TeamTotal>, keys: seq<int>)
    ensures keys == FirstSeen(players)
    ensures forall k :: k in teams <==> k in keys
    ensures forall k :: k in teams ==> teams[k] == TeamTotal(k, TeamScore(players, scores, k), Members(players, k))
  {
    teams, keys := map[], [];
    for i := 0 to |players|
      invariant Tallied(players[..i], scores, teams, keys)
    {
      var p := players[i];
      ghost var teams0, keys0 := teams, keys;
      if HasTeam(p) {
        var k := p.teamId.value;
        if k !in teams {
          teams := teams[k := TeamTotal(k, 0, [])];
          keys := keys + [k];
        }
        teams := teams[k := teams[k].(score := teams[k].score + Get(scores, p.id), players := teams[k].players + [p])];
      }
      assert players[..i + 1] == players[..i] + [p];
      TallyAdds(players[..i], p, players[..i + 1], scores, teams0, keys0, teams, keys);
    }
    assert players[..|players|] == players;
  }

  /** One pass of the loop body keeps the tally in step with the players seen. */
  lemma TallyAdds(ps: seq<Player>, p: Player, qs: seq<Player>, scores: map<string, int>,
                  teams: map<int, TeamTotal>, keys: seq<int>, teams1: map<int, TeamTotal>, keys1: seq<int>)
    requires qs == ps + [p] && Tallied(ps, scores, teams, keys)
    requires !HasTeam(p) ==> teams1 == teams && keys1 == keys
    requires HasTeam(p) ==>
               var k := p.teamId.value;
               var t := if k in teams then teams[k] else TeamTotal(k, 0, []);
               && keys1 == (if k in teams then keys else keys + [k])
               && teams1 == teams[k := t.(score := t.score + Get(scores, p.id), players := t.players + [p])]
    ensures Tallied(qs, scores, teams1, keys1)
  {
    TallyStep(ps, p, qs, scores);
    forall k | k in teams1 ensures teams1[k] == TeamTotal(k, TeamScore(qs, scores, k), Members(qs, k)) {
      if !HasTeam(p) || k != p.teamId.value {
        assert teams1[k] == teams[k];
      }
    }
  }

  /** What one more player adds to the spec of the tally. */
  lemma TallyStep(ps: seq<Player>, p: Player, qs: seq<Player>, scores: map<string, int>)
    requires qs == ps + [p]
    ensures FirstSeen(qs) == (if HasTeam(p) && p.teamId.value !in FirstSeen(ps) then FirstSeen(ps) + [p.teamId.value] else FirstSeen(ps))
    ensures forall k :: TeamScore(qs, scores, k) == TeamScore(ps, scores, k) + (if HasTeam(p) && p.teamId.value == k then Get(scores, p.id) else 0)
    ensures forall k :: Members(qs, k) == Members(ps, k) + (if HasTeam(p) && p.teamId.value == k then [p] else [])
    ensures forall k :: !(k in FirstSeen(ps)) ==> Members(ps, k) == [] && TeamScore(ps, scores, k) == 0
  {
    assert qs[..|qs| - 1] == ps;
    forall k | !(k in FirstSeen(ps)) ensures Members(ps, k) == [] && TeamScore(ps, scores, k) == 0 {
      TeamScoreIsMembers(ps, scores, k);
    }
  }

  // ------------------------------------------------------------------ team order and rank

  /** An integer key that is an array index: `Object.values` lists these first, ascending. */
  predicate IsIndexKey(k: int)
  {
    0 <= k < 0xFFFF_FFFF
  }

  function IndexKeys(keys: seq<int>): seq<int>
  {
    if keys == [] then [] else (if IsIndexKey(keys[0]) then [keys[0]] else []) + IndexKeys(keys[1..])
  }

  function OtherKeys(keys: seq<int>): seq<int>
  {
    if keys == [] then [] else (if IsIndexKey(keys[0]) then [] else [keys[0]]) + OtherKeys(keys[1..])
  }

  function Negated(k: int): int
  {
    -k
  }

  /** The order of `Object.values(teams)`: array-index keys ascending, then the other keys as added. */
  function ObjectOrder(keys: seq<int>): seq<int>
  {
    SortDesc(IndexKeys(keys), Negated) + OtherKeys(keys)
  }

  lemma {:induction false} KeysSplit(keys: seq<int>)
    ensures multiset(IndexKeys(keys)) + multiset(OtherKeys(keys)) == multiset(keys)
    ensures forall k :: k in IndexKeys(keys) ==> IsIndexKey(k)
  {
    if keys != [] {
      KeysSplit(keys[1..]);
      assert keys == [keys[0]] + keys[1..];
    }
  }

  /** `Object.values` lists every key once, the array-index keys first and in ascending order. */
  lemma ObjectOrderKeys(keys: seq<int>)
    ensures multiset(ObjectOrder(keys)) == multiset(keys)
    ensures var ix := SortDesc(IndexKeys(keys), Negated);
            && ObjectOrder(keys)[..|ix|] == ix
            && (forall k :: k in ix ==> IsIndexKey(k))
            && (forall i, j :: 0 <= i < j < |ix| ==> ix[i] <= ix[j])
  {
    KeysSplit(keys);
    var ix := SortDesc(IndexKeys(keys), Negated);
    SortDescPermutes(IndexKeys(keys), Negated);
    SortDescSorted(IndexKeys(keys), Negated);
    assert forall i, j :: 0 <= i < j < |ix| ==> Negated(ix[i]) >= Negated(ix[j]);
    assert ObjectOrder(keys)[..|ix|] == ix;
    forall k | k in ix ensures IsIndexKey(k) {
      assert k in multiset(IndexKeys(keys));
    }
  }

  function TotalScore(t: TeamTotal): int
  {
    t.score
  }

  /** `Object.values(teams)` over the tallied teams. */
  function Totals(players: seq<Player>, scores: map<string, int>): (ts: seq<TeamTotal>)
  {
    var order := ObjectOrder(FirstSeen(players));
    seq(|order|, i requires 0 <= i < |order| => TeamTotal(order[i], TeamScore(players, scores, order[i]), Members(players, order[i])))
  }

  /** `teamList`: the teams sorted by `(a, b) => b.score - a.score`. */
  function TeamList(players: seq<Player>, scores: map<string, int>): seq<TeamTotal>
  {
    SortDesc(Totals(players, scores), TotalScore)
  }

  /** `players.find(p => p.id === playerId)`. */
  function FindPlayer(players: seq<Player>, playerId: Option<string>): Option<Player>
  {
    if players == [] then None
    else if playerId == Some(players[0].id) then Some(players[0])
    else FindPlayer(players[1..], playerId)
  }

  lemma {:induction false} FindPlayerIn(players: seq<Player>, playerId: Option<string>)
    ensures FindPlayer(players, playerId).Some? ==> FindPlayer(players, playerId).value in players
    ensures FindPlayer(players, playerId).Some? ==> Some(FindPlayer(players, playerId).value.id) == playerId
    ensures FindPlayer(players, playerId).None? <==> forall i :: 0 <= i < |players| ==> playerId != Some(players[i].id)
  {
    if players != [] && playerId != Some(players[0].id) {
      FindPlayerIn(players[1..], playerId);
      assert forall i :: 1 <= i < |players| ==> players[i] == players[1..][i - 1];
    }
  }

  /** `teamList.findIndex(t => t.id === k)`, -1 when absent. */
  function TeamIndex(ts: seq<TeamTotal>, k: int): (i: int)
    ensures -1 <= i < |ts|
    ensures i >= 0 ==> ts[i].id == k && forall j :: 0 <= j < i ==> ts[j].id != k
    ensures i == -1 <==> forall j :: 0 <= j < |ts| ==> ts[j].id != k
  {
    if ts == [] then -1
    else if ts[0].id == k then 0
    else var i := TeamIndex(ts[1..], k); if i == -1 then -1 else i + 1
  }

  /** `myTeamRank`: '-' unless the viewer is found and has a truthy team; then `myTeamIndex + 1`. */
  function MyTeamRank(players: seq<Player>, scores: map<string, int>, playerId: Option<string>): Rank
  {
    match FindPlayer(players, playerId)
    case None => Dash
    case Some(me) => if HasTeam(me) then Place(TeamIndex(TeamList(players, scores), me.teamId.value) + 1) else Dash
  }

  /** Every tallied team is in the sorted list, once, with its members' summed score. */
  lemma TeamListHolds(players: seq<Player>, scores: map<string, int>, k: int)
    requires k in FirstSeen(players)
    ensures TeamTotal(k, TeamScore(players, scores, k), Members(players, k)) in TeamList(players, scores)
  {
    var order := ObjectOrder(FirstSeen(players));
    ObjectOrderKeys(FirstSeen(players));
    assert k in multiset(order);
    var i :| 0 <= i < |order| && order[i] == k;
    var ts := Totals(players, scores);
    assert ts[i] == TeamTotal(k, TeamScore(players, scores, k), Members(players, k));
    SortDescPermutes(ts, TotalScore);
    assert ts[i] in multiset(TeamList(players, scores));
  }

  /**
   * A viewer with a truthy team gets a place: the position of that team in the list sorted
   * by team score, counted from 1, every team above it scoring at least as much and every
   * team below at most as much; a viewer absent from the players or without a team gets '-'.
   */
  lemma MyTeamRankPlace(players: seq<Player>, scores: map<string, int>, playerId: Option<string>)
    ensures var r := MyTeamRank(players, scores, playerId);
            var tl := TeamList(players, scores);
            && (r.Place? <==> FindPlayer(players, playerId).Some? && HasTeam(FindPlayer(players, playerId).value))
            && (r.Place? ==>
                  var me := FindPlayer(players, playerId).value;
                  && 1 <= r.n <= |tl| && tl[r.n - 1].id == me.teamId.value
                  && tl[r.n - 1].score == TeamScore(players, scores, me.teamId.value)
                  && (forall j :: 0 <= j < r.n - 1 ==> tl[j].score >= tl[r.n - 1].score)
                  && (forall j :: r.n - 1 < j < |tl| ==> tl[j].score <= tl[r.n - 1].score))
  {
    var found := FindPlayer(players, playerId);
    if found.Some? && HasTeam(found.value) {
      var k := found.value.teamId.value;
      var tl := TeamList(players, scores);
      assert k in FirstSeen(players) by {
        FindPlayerIn(players, playerId);
        var i :| 0 <= i < |players| && players[i] == found.value;
        FirstSeenIds(players);
      }
      var idx := TeamIndex(tl, k);
      assert idx >= 0 && tl[idx] == TeamTotal(k, TeamScore(players, scores, k), Members(players, k)) by {
        TeamListHolds(players, scores, k);
        TeamIdsOnce(players, scores);
      }
      assert MyTeamRank(players, scores, playerId) == Place(idx + 1);
      PlaceInOrder(tl, idx) by {
        SortDescSorted(Totals(players, scores), TotalScore);
      }
    } else {
      assert MyTeamRank(players, scores, playerId) == Dash;
    }
  }

  /** In a list sorted by team score, the teams above an entry score at least as much and those below at most as much. */
  lemma PlaceInOrder(tl: seq<TeamTotal>, idx: int)
    requires 0 <= idx < |tl| && NonIncreasing(tl, TotalScore)
    ensures forall j :: 0 <= j < idx ==> tl[j].score >= tl[idx].score
    ensures forall j :: idx < j < |tl| ==> tl[j].score <= tl[idx].score
  {
    assert forall i, j :: 0 <= i < j < |tl| ==> TotalScore(tl[i]) >= TotalScore(tl[j]);
  }

  /** Each sorted team entry is the tally of its id, so an id decides its entry. */
  lemma TeamIdsOnce(players: seq<Player>, scores: map<string, int>)
    ensures var tl := TeamList(players, scores);
            forall j :: 0 <= j < |tl| ==> tl[j] == TeamTotal(tl[j].id, TeamScore(players, scores, tl[j].id), Members(players, tl[j].id))
  {
    var ts := Totals(players, scores);
    var tl := TeamList(players, scores);
    SortDescPermutes(ts, TotalScore);
    forall j | 0 <= j < |tl|
      ensures tl[j] == TeamTotal(tl[j].id, TeamScore(players, scores, tl[j].id), Members(players, tl[j].id))
    {
      assert tl[j] in multiset(ts);
    }
  }

  // ------------------------------------------------------------------ suffix and message

  /**
   * `getRankSuffix(n)`: '' for '-' (NaN) and 0 (falsy); otherwise by `n % 10` and `n % 100`
   * (JavaScript remainders): "st", "nd", "rd" for a last digit 1, 2, 3 outside 11, 12, 13,
   * else "th".
   */
  function RankSuffix(rank: Rank): string
  {
    if rank.Dash? || rank.n == 0 then ""
    else
      var j, k := Rem(rank.n, 10), Rem(rank.n, 100);
      if j == 1 && k != 11 then "st"
      else if j == 2 && k != 12 then "nd"
      else if j == 3 && k != 13 then "rd"
      else "th"
  }

  /**
   * The English ordinal suffix read off the decimal digits of a number: "th" when the tens
   * digit is 1, else "st", "nd", "rd" for a last digit 1, 2, 3, else "th".
   */
  function OrdinalSuffix(digits: string): string
    requires |digits| >= 1
  {
    var last := digits[|digits| - 1];
    var tens := if |digits| >= 2 then digits[|digits| - 2] else '0';
    if tens == '1' then "th"
    else if last == '1' then "st"
    else if last == '2' then "nd"
    else if last == '3' then "rd"
    else "th"
  }

  /** The last two digits of a number's text are its units and tens digits. */
  lemma LastDigits(n: nat)
    ensures var s := Show(n);
            && s[|s| - 1] == DigitChar(n % 10)
            && (n >= 10 ==> |s| >= 2 && s[|s| - 2] == DigitChar((n / 10) % 10))
  {
    if n >= 10 {
      var t := Show(n / 10);
      assert Show(n) == t + [DigitChar(n % 10)];
      if n / 10 >= 10 {
        assert t == Show(n / 100) + [DigitChar((n / 10) % 10)];
      }
    }
  }

  /** The ordinal suffix for a units digit `u` and a tens digit `t`. */
  function DigitSuffix(u: nat, t: nat): string
  {
    if t == 1 then "th" else if u == 1 then "st" else if u == 2 then "nd" else if u == 3 then "rd" else "th"
  }

  /** For a positive rank the remainders by 10 and 100 are its units digit and its last two digits. */
  lemma SuffixByDigits(n: int)
    requires n >= 1
    ensures RankSuffix(Place(n)) == DigitSuffix(n % 10, (n / 10) % 10)
  {
    var u, t := n % 10, (n / 10) % 10;
    assert Rem(n, 10) == u;
    assert Rem(n, 100) == 10 * t + u by {
      LastTwoDigits(n, n / 100, t, u);
    }
  }

  /** A number of the form `100 * b + 10 * t + u` with digits `t` and `u` has those as its last two digits. */
  lemma LastTwoDigits(n: nat, b: nat, t: nat, u: nat)
    requires u == n % 10 && t == (n / 10) % 10 && b == n / 100
    ensures n % 100 == 10 * t + u
  {
    var a := n / 10;
    assert n == 10 * a + u;
    assert a == 10 * (a / 10) + t;
    assert a / 10 == b;
    assert n == 100 * b + (10 * t + u);
  }

  /** The ordinal suffix of a positive number's text depends on its last two digits the same way. */
  lemma OrdinalByDigits(n: int)
    requires n >= 1
    ensures OrdinalSuffix(Show(n)) == DigitSuffix(n % 10, (n / 10) % 10)
  {
    LastDigits(n);
    var u, t := n % 10, (n / 10) % 10;
    DigitCharInjective(u, 1);
    DigitCharInjective(u, 2);
    DigitCharInjective(u, 3);
    DigitCharInjective(t, 1);
    if n < 10 {
      assert t == 0 && |Show(n)| == 1;
    }
  }

  /**
   * The suffix of every positive rank is the English ordinal suffix of its digits; a
   * negative rank gets "th", and '-' and 0 get none.
   */
  lemma SuffixIsOrdinal(n: int)
    ensures n >= 1 ==> RankSuffix(Place(n)) == OrdinalSuffix(Show(n))
    ensures n < 0 ==> RankSuffix(Place(n)) == "th"
    ensures RankSuffix(Place(0)) == "" && RankSuffix(Dash) == ""
  {
    if n >= 1 {
      SuffixByDigits(n);
      OrdinalByDigits(n);
    }
  }

  lemma DigitCharInjective(a: nat, b: nat)
    requires a < 10 && b < 10
    ensures DigitChar(a) == DigitChar(b) <==> a == b
  {
  }

  // The congratulation texts, tier by tier; U+2019 is the typographic apostrophe.
  const TeamFirst := "Your collective brainpower has conquered the piggyverse"
  const TeamSecond := "Your team builds bridges where others see walls"
  const TeamThird := "Seamless coordination led you to the podium"
  const TeamTopTen := "Your team\U{2019}s synergy is as efficient as a Superform route"
  const TeamTopTwentyFive := "Good teamwork, but there\U{2019}s still more alpha to harvest"
  const TeamRest := "Your team survived the wild; now it's time to scale the leaderboard"
  const PlayerFirst := "You\U{2019}ve achieved cross-piggy enlightenment"
  const PlayerSecond := "Did you write the Piggy bye-laws? Your DeFi IQ is officially off the charts"
  const PlayerThird := "Oink. You navigate the Piggy ecosystem like a pro."
  const PlayerTopTen := "You\U{2019}re well on your way to scholar status"
  const PlayerTopTwenty := "Your knowledge is sloppy, read piggy docs thrice a day"
  const PlayerRest := "The porktocracy is disappointed piglet!, do better next time"

  /** `getRankDescription(rank, isTeam)`: '-' never equals a number and fails every comparison. */
  function RankDescription(rank: Rank, isTeam: bool): string
  {
    var n := if rank.Place? then rank.n else 0;
    if isTeam then
      if rank == Place(1) then TeamFirst
      else if rank == Place(2) then TeamSecond
      else if rank == Place(3) then TeamThird
      else if rank.Place? && 4 <= n <= 10 then TeamTopTen
      else if rank.Place? && 11 <= n <= 25 then TeamTopTwentyFive
      else TeamRest
    else
      if rank == Place(1) then PlayerFirst
      else if rank == Place(2) then PlayerSecond
      else if rank == Place(3) then PlayerThird
      else if rank.Place? && 4 <= n <= 10 then PlayerTopTen
      else if rank.Place? && 11 <= n <= 20 then PlayerTopTwenty
      else PlayerRest
  }

  /**
   * The tier a rank falls in: 1, 2, 3, 4 to 10, 11 to 20 (a player) or 11 to 25 (a team),
   * and everything else, '-' included.
   */
  function Tier(rank: Rank, isTeam: bool): nat
  {
    if rank.Dash? then 5
    else if rank.n == 1 then 0
    else if rank.n == 2 then 1
    else if rank.n == 3 then 2
    else if 4 <= rank.n <= 10 then 3
    else if 11 <= rank.n <= (if isTeam then 25 else 20) then 4
    else 5
  }

  /** Two ranks get the same message exactly when they are in the same tier. */
  lemma DescriptionByTier(a: Rank, b: Rank, isTeam: bool)
    ensures RankDescription(a, isTeam) == RankDescription(b, isTeam) <==> Tier(a, isTeam) == Tier(b, isTeam)
  {
    if isTeam { TeamTextsDistinct(); } else { PlayerTextsDistinct(); }
  }

  lemma TeamTextsDistinct()
    ensures TeamFirst != TeamSecond && TeamFirst != TeamThird && TeamFirst != TeamTopTen
    ensures TeamFirst != TeamTopTwentyFive && TeamFirst != TeamRest && TeamSecond != TeamThird
    ensures TeamSecond != TeamTopTen && TeamSecond != TeamTopTwentyFive && TeamSecond != TeamRest
    ensures TeamThird != TeamTopTen && TeamThird != TeamTopTwentyFive && TeamThird != TeamRest
    ensures TeamTopTen != TeamTopTwentyFive && TeamTopTen != TeamRest && TeamTopTwentyFive != TeamRest
  {
  }

  lemma PlayerTextsDistinct()
    ensures PlayerFirst != PlayerSecond && PlayerFirst != PlayerThird && PlayerFirst != PlayerTopTen
    ensures PlayerFirst != PlayerTopTwenty && PlayerFirst != PlayerRest && PlayerSecond != PlayerThird
    ensures PlayerSecond != PlayerTopTen && PlayerSecond != PlayerTopTwenty && PlayerSecond != PlayerRest
    ensures PlayerThird != PlayerTopTen && PlayerThird != PlayerTopTwenty && PlayerThird != PlayerRest
    ensures PlayerTopTen != PlayerTopTwenty && PlayerTopTen != PlayerRest && PlayerTopTwenty != PlayerRest
  {
  }

  /** `${myRank}` in the message: '-' or the number. */
  function RankText(rank: Rank): string
  {
    if rank.Dash? then "-" else ShowInt(rank.n)
  }

  /** The start of the message, up to the rank. */
  function Opening(mode: string): string
  {
    if mode == "Teams" then "CONGRATS! YOUR TEAM FINISHED " else "CONGRATS! YOU FINISHED "
  }

  /** `mainMessage`: the opening, the rank and its suffix, then the upper-cased description. */
  function MainMessage(mode: string, myRank: Rank): string
  {
    Opening(mode) + RankText(myRank) + RankSuffix(myRank) + ", " + ToUpper(RankDescription(myRank, mode == "Teams"))
  }

  /**
   * For a positive rank the message prints the rank as an English ordinal ("21st", "112th")
   * followed by the upper-cased description of its tier; for '-' it prints "-" and the
   * description of the last tier.
   */
  lemma MessageNamesRank(mode: string, myRank: Rank)
    ensures myRank.Place? && myRank.n >= 1 ==>
              MainMessage(mode, myRank)
                == Opening(mode) + Show(myRank.n) + OrdinalSuffix(Show(myRank.n)) + ", "
                   + ToUpper(RankDescription(myRank, mode == "Teams"))
    ensures MainMessage(mode, Dash) == Opening(mode) + "-, " + ToUpper(RankDescription(Dash, mode == "Teams"))
    ensures RankDescription(Dash, mode == "Teams") == if mode == "Teams" then TeamRest else PlayerRest
  {
    if myRank.Place? && myRank.n >= 1 {
      SuffixIsOrdinal(myRank.n);
    }
    DashMessage(mode);
  }

  /** A viewer without a rank is shown "-" with no suffix, and the text of the last tier. */
  lemma DashMessage(mode: string)
    ensures MainMessage(mode, Dash) == Opening(mode) + "-, " + ToUpper(RankDescription(Dash, mode == "Teams"))
    ensures RankDescription(Dash, mode == "Teams") == if mode == "Teams" then TeamRest else PlayerRest
  {
    assert RankText(Dash) == "-" && RankSuffix(Dash) == "";
  }

  // ------------------------------------------------------------------ shown rows

  /** `displayList`: the first ten rows, and the viewer's row pushed after them when it is not among them. */
  function DisplayList(rs: seq<Placed>): seq<Placed>
  {
    var top := rs[..if |rs| < 10 then |rs| else 10];
    if FindMe(top).Some? then top
    else match FindMe(rs)
      case None => top
      case Some(me) => top + [me]
  }

  /** Looking through two parts looks through the first, then the second. */
  lemma {:induction false} FindMeAppend(a: seq<Placed>, b: seq<Placed>)
    ensures FindMe(a + b) == if FindMe(a).Some? then FindMe(a) else FindMe(b)
  {
    if a != [] {
      assert (a + b)[1..] == a[1..] + b;
      FindMeAppend(a[1..], b);
    } else {
      assert a + b == b;
    }
  }

  /**
   * The table shows at most eleven rows and never more than there are: the first ten ranked
   * rows in order, plus the viewer's row as an eleventh only when it ranks below them; the
   * viewer's row shown is the one `find` picks from the whole ranking, and it is shown
   * exactly when the viewer has a row.
   */
  lemma DisplayListShape(rs: seq<Placed>)
    ensures var d := DisplayList(rs);
            var m := if |rs| < 10 then |rs| else 10;
            && |d| <= 11 && |d| <= |rs| && d[..m] == rs[..m]
            && FindMe(d) == FindMe(rs)
            && (|d| == 11 ==> d[10] == FindMe(rs).value && FindMe(rs[..10]).None?)
  {
    var m := if |rs| < 10 then |rs| else 10;
    var top := rs[..m];
    assert rs == top + rs[m..];
    FindMeAppend(top, rs[m..]);
    if FindMe(top).None? && FindMe(rs).Some? {
      FindMeFirst(rs);
      var me := FindMe(rs).value;
      FindMeAppend(top, [me]);
      assert FindMe([me]) == Some(me);
      assert |rs[m..]| > 0;
    }
  }

  // ------------------------------------------------------------------ the screen

  /**
   * What the game-over screen computes from the session's players and mode (`'Competitive'`
   * and no players without a session) and the final scores: the ranked table, the rank the
   * message reports (the team's rank in Teams mode), the message, and the rows shown.
   */
  method Summarise(players: seq<Player>, mode: string, scores: map<string, int>, wordsSolved: map<string, int>,
                   playerId: Option<string>)
    returns (ranked: seq<Placed>, myRank: Rank, message: string, display: seq<Placed>)
    ensures ranked == Ranking(scores, wordsSolved, playerId, mode == "Teams", players)
    ensures myRank == if mode == "Teams" then MyTeamRank(players, scores, playerId) else MyRank(ranked)
    ensures message == MainMessage(mode, myRank)
    ensures display == DisplayList(ranked)
  {
    if mode == "Teams" {
      myRank := TeamRank(players, scores, playerId);
      ranked := Ranking(scores, wordsSolved, playerId, true, players);
    } else {
      ranked := Ranking(scores, wordsSolved, playerId, false, players);
      myRank := MyRank(ranked);
    }
    message := MainMessage(mode, myRank);
    display := DisplayList(ranked);
  }

  /** The Teams-mode rank: tally the teams, list them in `Object.values` order, sort them, find the viewer's team. */
  method TeamRank(players: seq<Player>, scores: map<string, int>, playerId: Option<string>) returns (myTeamRank: Rank)
    ensures myTeamRank == MyTeamRank(players, scores, playerId)
  {
    var teams, keys := Tally(players, scores);
    var order := ObjectOrder(keys);
    InOrder(players, scores, teams, keys);
    var values := seq(|order|, i requires 0 <= i < |order| && order[i] in teams => teams[order[i]]);
    assert values == Totals(players, scores);
    var teamList := SortDesc(values, TotalScore);
    var me := FindPlayer(players, playerId);
    myTeamRank := Dash;
    if me.Some? && HasTeam(me.value) {
      myTeamRank := Place(TeamIndex(teamList, me.value.teamId.value) + 1);
    }
  }

  /** Every key `Object.values` visits has its tallied team, the one `Totals` lists at that place. */
  lemma InOrder(players: seq<Player>, scores: map<string, int>, teams: map<int, TeamTotal>, keys: seq<int>)
    requires keys == FirstSeen(players)
    requires forall k :: k in teams <==> k in keys
    requires forall k :: k in teams ==> teams[k] == TeamTotal(k, TeamScore(players, scores, k), Members(players, k))
    ensures var order := ObjectOrder(keys);
            && |Totals(players, scores)| == |order|
            && forall i :: 0 <= i < |order| ==> order[i] in teams && teams[order[i]] == Totals(players, scores)[i]
  {
    var order := ObjectOrder(keys);
    ObjectOrderKeys(keys);
    forall i | 0 <= i < |order| ensures order[i] in teams {
      assert order[i] in multiset(keys);
    }
  }

  // ------------------------------------------------------------------ name cell and team label

  /** `colors[k - 1]` of the results table, whose third colour is not the leaderboard's. */
  function Colour(k: int): Option<string>
  {
    if k == 1 then Some("#ff007f")
    else if k == 2 then Some("#ffffff")
    else if k == 3 then Some("#CD853F")
    else if k == 4 then Some("#00ff00")
    else None
  }

  /** The highlight colour of the viewer's own row. */
  const Pink := "#D81B60"

  /** The style of a row's name cell: the team colour in Teams mode, else pink for the viewer. */
  function NameStyle(mode: string, e: Entry): Leaderboard.Style
  {
    if mode == "Teams" then
      (if e.teamId.None? || e.teamId.value == 0 then Leaderboard.Plain else Leaderboard.Coloured(Colour(e.teamId.value)))
    else if e.isMe then Leaderboard.Coloured(Some(Pink))
    else Leaderboard.Plain
  }

  /**
   * The text after a name: `mode === 'Teams' && `(T${String.fromCharCode(64 + teamId)})``.
   * There is no `teamId` guard, and `64 + null` is 64, so a teamless row shows "(T@)".
   */
  function TeamLabel(mode: string, teamId: Option<int>): string
  {
    if mode != "Teams" then ""
    else "(T" + [FromCharCode(64 + (if teamId.Some? then teamId.value else 0))] + ")"
  }

  /**
   * Name cells: in Teams mode the teams of a session with at most four teams each get a
   * colour of their own, the leaderboard's except the third, and a teamless row, the
   * viewer's included, none; in every other mode exactly the viewer's name is pink.
   */
  lemma NameStyles(n: int, e: Entry)
    requires n <= 4
    ensures var ts := Sessions.TeamTable(n);
            && (forall i :: 0 <= i < |ts| ==>
                  NameStyle("Teams", e.(teamId := Some(ts[i].id))).Coloured? &&
                  NameStyle("Teams", e.(teamId := Some(ts[i].id))).color.Some?)
            && (forall i, j :: 0 <= i < j < |ts| ==>
                  NameStyle("Teams", e.(teamId := Some(ts[i].id))) != NameStyle("Teams", e.(teamId := Some(ts[j].id))))
    ensures forall k :: k != 3 ==> Colour(k) == Leaderboard.Colour(k)
    ensures Colour(3) != Leaderboard.Colour(3)
    ensures NameStyle("Teams", e.(teamId := None)) == Leaderboard.Plain
    ensures forall mode :: mode != "Teams" ==> (NameStyle(mode, e) == Leaderboard.Coloured(Some(Pink)) <==> e.isMe)
    ensures forall mode :: mode != "Teams" ==> (NameStyle(mode, e) == Leaderboard.Plain <==> !e.isMe)
  {
    Sessions.TeamTableShape(n);
  }

  /**
   * Labels: every team a session creates shows "(T" and its letter, team 1 "(TA)"; a
   * teamless row in Teams mode shows "(T@)"; every other mode shows no label.
   */
  lemma TeamLabels(n: int)
    ensures var ts := Sessions.TeamTable(n);
            forall i :: 0 <= i < |ts| && i < 26 ==>
              TeamLabel("Teams", Some(ts[i].id)) == "(T" + ts[i].name[5..] + ")"
    ensures TeamLabel("Teams", None) == "(T@)"
    ensures forall mode, t :: mode != "Teams" ==> TeamLabel(mode, t) == ""
  {
    var ts := Sessions.TeamTable(n);
    Sessions.TeamTableShape(n);
    forall i | 0 <= i < |ts| && i < 26 ensures TeamLabel("Teams", Some(ts[i].id)) == "(T" + ts[i].name[5..] + ")" {
      assert ts[i].name[5..] == [('A' as int + i) as char];
      assert 64 + ts[i].id == 65 + i;
    }
    assert FromCharCode(64) == '@';
  }
}
