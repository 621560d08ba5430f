/** The victory checks of `checkWinConditions` and `gameOver` in
    server/src/rooms/MyRoom.ts. */
module WinConditions {
  import opened Seqs
  import opened RoomSchema

  datatype Team = LiberalTeam | FascistTeam

  /** The four ways a match ends, in the order the checks run. */
  datatype WinReason = HitlerAssassinated | HitlerChancellor | LiberalPolicies | FascistPolicies

  function Rank(w: WinReason): nat {
    match w
    case HitlerAssassinated => 0
    case HitlerChancellor => 1
    case LiberalPolicies => 2
    case FascistPolicies => 3
  }

  function Winner(w: WinReason): Team {
    match w
    case HitlerAssassinated => LiberalTeam
    case HitlerChancellor => FascistTeam
    case LiberalPolicies => LiberalTeam
    case FascistPolicies => FascistTeam
  }

  /** The `winner` string of the `game-over` broadcast. */
  function TeamName(t: Team): string {
    match t
    case LiberalTeam => "liberal"
    case FascistTeam => "fascist"
  }

  function Message(w: WinReason): string {
    match w
    case HitlerAssassinated => "Liberals win! Hitler was assassinated!"
    case HitlerChancellor => "Fascists win! Hitler as Chancellor enacted the 4th Fascist Policy!"
    case LiberalPolicies => "Liberals win! 5 Liberal Policies enacted!"
    case FascistPolicies => "Fascists win! 6 Fascist Policies enacted!"
  }

  /** `Array.from(players.values()).find(p => p.role === "hitler")`: the first
      player in insertion order whose role is Hitler. */
  function FindHitler(keys: seq<Id>, players: map<Id, Player>): (r: Option<Player>)
    ensures r.Some? ==> r.value.role == Hitler
    ensures r.Some? <==> exists k :: k in keys && k in players && players[k].role == Hitler
    ensures r.Some? ==> exists k :: k in keys && k in players && players[k] == r.value
  {
    if |keys| == 0 then None
    else if keys[0] in players && players[keys[0]].role == Hitler then Some(players[keys[0]])
    else
      var r := FindHitler(keys[1..], players);
      assert forall k :: k in keys[1..] ==> k in keys;
      assert forall k :: k in keys ==> k == keys[0] || k in keys[1..];
      r
  }

  /** Whether the condition behind `w` holds. `chancellor` is the elected
      chancellor's key; an unset one names no player. */
  predicate Holds(w: WinReason, keys: seq<Id>, players: map<Id, Player>, chancellor: Option<Id>,
                  liberalEnacted: nat, fascistEnacted: nat)
  {
    match w
    case HitlerAssassinated =>
      var h := FindHitler(keys, players);
      h.Some? && h.value.isEliminated
    case HitlerChancellor =>
      chancellor.Some? && chancellor.value in players && players[chancellor.value].role == Hitler
      && fascistEnacted == 4
    case LiberalPolicies => liberalEnacted >= 5
    case FascistPolicies => fascistEnacted >= 6
  }

  /** The chain of checks: the first condition that holds ends the match, and
      none holding means the round goes on. */
  function CheckWin(keys: seq<Id>, players: map<Id, Player>, chancellor: Option<Id>,
                    liberalEnacted: nat, fascistEnacted: nat): (r: Option<WinReason>)
    ensures r.Some? ==> Holds(r.value, keys, players, chancellor, liberalEnacted, fascistEnacted)
    ensures r.Some? ==> forall w :: Rank(w) < Rank(r.value)
                          ==> !Holds(w, keys, players, chancellor, liberalEnacted, fascistEnacted)
    ensures r.None? ==> forall w :: !Holds(w, keys, players, chancellor, liberalEnacted, fascistEnacted)
  {
    var hitler := FindHitler(keys, players);
    if hitler.Some? && hitler.value.isEliminated then Some(HitlerAssassinated)
    else if chancellor.Some? && chancellor.value in players
            && players[chancellor.value].role == Hitler && fascistEnacted == 4 then
      Some(HitlerChancellor)
    else if liberalEnacted >= 5 then
      Some(LiberalPolicies)
    else if fascistEnacted >= 6 then
      assert !Holds(LiberalPolicies, keys, players, chancellor, liberalEnacted, fascistEnacted);
      Some(FascistPolicies)
    else
      None
  }

  /** A Hitler that is eliminated wins for the liberals even when six fascist
      policies are enacted at the same time. */
  lemma {:induction false} AssassinationFirst(keys: seq<Id>, players: map<Id, Player>, chancellor: Option<Id>,
                                              liberalEnacted: nat, hitlerKey: Id)
    requires hitlerKey in keys && hitlerKey in players
    requires players[hitlerKey].role == Hitler && players[hitlerKey].isEliminated
    requires forall k :: k in keys && k in players && players[k].role == Hitler ==> k == hitlerKey
    ensures CheckWin(keys, players, chancellor, liberalEnacted, 6) == Some(HitlerAssassinated)
    ensures Winner(HitlerAssassinated) == LiberalTeam
  {
    var h := FindHitler(keys, players);
    assert h.Some?;
    var k :| k in keys && k in players && players[k] == h.value;
    assert k == hitlerKey;
  }

  /** Without an eliminated Hitler and without Hitler as chancellor, the
      policy counters alone decide: five liberal policies win for the
      liberals before six fascist policies win for the fascists. */
  lemma CountersDecide(keys: seq<Id>, players: map<Id, Player>, chancellor: Option<Id>,
                       liberalEnacted: nat, fascistEnacted: nat)
    requires !Holds(HitlerAssassinated, keys, players, chancellor, liberalEnacted, fascistEnacted)
    requires !Holds(HitlerChancellor, keys, players, chancellor, liberalEnacted, fascistEnacted)
    ensures var r := CheckWin(keys, players, chancellor, liberalEnacted, fascistEnacted);
            r == if liberalEnacted >= 5 then Some(LiberalPolicies)
                 else if fascistEnacted >= 6 then Some(FascistPolicies)
                 else None
  {
  }
}
