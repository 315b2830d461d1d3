/**
 * The player records the server keeps per session (server/objects/SessionManager.js), and
 * the insertion-ordered `Map` from player id to player that a session and its game share.
 */
module Roster {
  import opened Wrappers

  /** A player record; `socketId` and `teamId` are `null` as `None`. */
  datatype Player = Player(id: string, socketId: Option<string>, name: string, isHost: bool,
                           score: int, wordsSolved: int, ready: bool, teamId: Option<int>)

  /** `player.teamId` as a condition: `null` and `0` are falsy. */
  predicate HasTeam(p: Player)
  {
    p.teamId.Some? && p.teamId.value != 0
  }

  /** `player.socketId` as a condition: `null` and `''` are falsy. */
  predicate Connected(p: Player)
  {
    p.socketId.Some? && p.socketId.value != ""
  }

  /** `list.filter(v => v !== x)`. */
  function Without(s: seq<string>, x: string): (r: seq<string>)
    ensures x !in r && |r| <= |s|
    ensures forall v :: v != x ==> (v in r <==> v in s)
  {
    if s == [] then [] else (if s[0] == x then [] else [s[0]]) + Without(s[1..], x)
  }

  /** Filtering out an absent value changes nothing. */
  lemma {:induction false} WithoutAbsent(s: seq<string>, x: string)
    requires x !in s
    ensures Without(s, x) == s
  {
    if s != [] {
      WithoutAbsent(s[1..], x);
      assert s == [s[0]] + s[1..];
    }
  }

  /** Filtering keeps the remaining values in their order and removes one copy of each occurrence only. */
  lemma {:induction false} WithoutDistinct(s: seq<string>, x: string)
    requires forall i, j :: 0 <= i < j < |s| ==> s[i] != s[j]
    ensures forall i, j :: 0 <= i < j < |Without(s, x)| ==> Without(s, x)[i] != Without(s, x)[j]
    ensures x in s ==> |Without(s, x)| == |s| - 1
  {
    if s != [] {
      WithoutDistinct(s[1..], x);
      var r := Without(s[1..], x);
      if s[0] != x {
        assert s[0] !in s[1..];
        assert s[0] !in r;
        var t := [s[0]] + r;
        forall i, j | 0 <= i < j < |t| ensures t[i] != t[j] {
          if i == 0 { assert t[j] == r[j - 1]; } else { assert t[i] == r[i - 1] && t[j] == r[j - 1]; }
        }
      } else {
        assert x !in s[1..];
        WithoutAbsent(s[1..], x);
      }
    }
  }

  /** The first element that survives filtering is the first element different from `x`. */
  lemma WithoutHead(s: seq<string>, x: string)
    requires |s| > 0 && s[0] != x
    ensures Without(s, x)[0] == s[0]
  {
  }

  /** A `Map<playerId, player>`: its keys in insertion order, and its entries. */
  datatype Players = Players(order: seq<string>, byId: map<string, Player>)
  {
    /** The keys are distinct and are exactly the map's keys. */
    ghost predicate Valid()
    {
      && (forall i, j :: 0 <= i < j < |order| ==> order[i] != order[j])
      && (forall k :: k in byId <==> k in order)
    }

    /** `map.set(id, p)`: a new key goes last, an existing key keeps its place. */
    function Set(id: string, p: Player): (r: Players)
      requires Valid()
      ensures r.Valid() && r.byId == byId[id := p]
      ensures r.order == if id in byId then order else order + [id]
    {
      if id in byId then Players(order, byId[id := p])
      else
        var r := Players(order + [id], byId[id := p]);
        assert forall i, j :: 0 <= i < j < |r.order| ==> r.order[i] != r.order[j] by {
          forall i, j | 0 <= i < j < |r.order| ensures r.order[i] != r.order[j] {
            if j == |order| {
              assert order[i] in byId;
            }
          }
        }
        r
    }

    /** `map.delete(id)`: the other keys keep their order. */
    function Delete(id: string): (r: Players)
      requires Valid()
      ensures r.Valid() && r.byId == byId - {id} && r.order == Without(order, id)
      ensures id in byId ==> |r.order| == |order| - 1
    {
      WithoutDistinct(order, id);
      Players(Without(order, id), byId - {id})
    }

    /** `map.values()`, in insertion order; the ensures is its element-wise definition, for callers that cannot see the body. */
    function Values(): (vs: seq<Player>)
      requires Valid()
      ensures |vs| == |order| && forall i :: 0 <= i < |order| ==> vs[i] == byId[order[i]]
    {
      seq(|order|, i requires 0 <= i < |order| && Valid() => byId[order[i]])
    }
  }

  function NoPlayers(): (r: Players)
    ensures r.Valid() && r.order == [] && r.byId == map[]
  {
    Players([], map[])
  }
}
