/** The prototype room (secret-hitler-server/src/rooms/SecretHitlerRoom.ts):
    naming, readiness with the automatic start, joining, leaving with the
    reconnection window, and the prototype's role assignment.

    The wait of `allowReconnection` splits `onLeave` in two: `OnLeave` is
    the part before the wait, and `OnReconnection` is the part after it,
    with the outcome of the wait as a parameter. `clients.length` at join
    time is a parameter as well. */
module ProtoRoom {
  import opened Seqs
  import opened ProtoState
  import RoomSchema
  import Roles

  /** The maximum length `slice(0, 32)` keeps. */
  const MaxNameLength: nat := 32

  /** `s.slice(0, n)`: the longest prefix of `s` of length at most `n`. */
  function Truncate(s: string, n: nat): (r: string)
    ensures |r| <= n && r <= s
    ensures |s| <= n ==> r == s
    ensures |s| > n ==> |r| == n
  {
    s[..if |s| < n then |s| else n]
  }

  /** `(name || '')`: a missing payload is the empty name. */
  function NameOrEmpty(name: Option<string>): string {
    match name
    case Some(s) => s
    case None => ""
  }

  function DigitChar(d: nat): (c: char)
    requires d < 10
    ensures '0' <= c <= '9' && (c as int) - ('0' as int) == d
  {
    "0123456789"[d]
  }

  /** The decimal numeral of `n`, as a template literal prints it. */
  function DecimalString(n: nat): (s: string)
    ensures |s| > 0
    ensures forall i :: 0 <= i < |s| ==> '0' <= s[i] <= '9'
    ensures |s| > 1 ==> s[0] != '0'
    decreases n
  {
    if n < 10 then [DigitChar(n)] else DecimalString(n / 10) + [DigitChar(n % 10)]
  }

  /** The value of a numeral of decimal digits. */
  function DecimalValue(s: string): nat
    requires forall i :: 0 <= i < |s| ==> '0' <= s[i] <= '9'
    decreases |s|
  {
    if |s| == 0 then 0 else DecimalValue(s[..|s| - 1]) * 10 + ((s[|s| - 1] as int) - ('0' as int))
  }

  /** Printing a count and reading it back gives the count, so the default
      names of two different counts differ. */
  lemma {:induction false} DecimalRoundTrip(n: nat)
    ensures DecimalValue(DecimalString(n)) == n
    decreases n
  {
    var s := DecimalString(n);
    if n >= 10 {
      DecimalRoundTrip(n / 10);
      assert s[..|s| - 1] == DecimalString(n / 10);
    }
  }

  /** The name `onJoin` gives: "Player " and the number of clients. */
  function DefaultName(clientCount: nat): string {
    "Player " + DecimalString(clientCount)
  }

  lemma DefaultNamesDiffer(a: nat, b: nat)
    requires a != b
    ensures DefaultName(a) != DefaultName(b)
  {
    if DefaultName(a) == DefaultName(b) {
      assert DecimalString(a) == DefaultName(a)[7..];
      assert DecimalString(b) == DefaultName(b)[7..];
      DecimalRoundTrip(a);
      DecimalRoundTrip(b);
    }
  }

  /** The state after `set-name` from `sender`. */
  function Rename(f: Fields, sender: Id, name: Option<string>): Fields {
    if sender in f.players then
      f.(players := f.players[sender := f.players[sender].(name := Truncate(NameOrEmpty(name), MaxNameLength))])
    else f
  }

  /** The state after `ready` from `sender`, before the start check. */
  function Mark(f: Fields, sender: Id, ready: bool): Fields {
    if sender in f.players then f.(players := f.players[sender := f.players[sender].(ready := ready)])
    else f
  }

  /** The automatic start: the lobby phase, five to ten players, and every
      player ready and connected. */
  predicate AutoStarts(f: Fields) {
    && f.phase == Lobby
    && 5 <= |f.playerKeys| <= 10
    && forall id :: id in f.players ==> f.players[id].ready && f.players[id].connected
  }

  /** `fascistsNeeded`. */
  function FascistsNeeded(playerCount: nat): nat {
    if playerCount == 5 then 1
    else if playerCount <= 6 then 1
    else if playerCount <= 8 then 2
    else 3
  }

  /** For five to ten players the prototype's fascist count is the main
      room's, and so is the number of liberals left over. */
  lemma TablesAgree(playerCount: nat)
    requires 5 <= playerCount <= 10
    ensures FascistsNeeded(playerCount) == Roles.RoleTable(playerCount).value.1
    ensures playerCount - FascistsNeeded(playerCount) - 1 == Roles.RoleTable(playerCount).value.0
  {
  }

  /** The role of the player at position `idx` of the shuffled ids: the
      first `fascistsNeeded` are fascists, the next one is Hitler, and the
      rest are liberals. */
  function PositionRole(idx: int, fascistsNeeded: nat): RoomSchema.Role {
    if idx < fascistsNeeded then RoomSchema.Fascist
    else if idx == fascistsNeeded then RoomSchema.Hitler
    else RoomSchema.Liberal
  }

  function RoleOf(players: map<Id, Player>, id: Id): RoomSchema.Role {
    if id in players then players[id].role else RoomSchema.Unassigned
  }

  function RolesOf(keys: seq<Id>, players: map<Id, Player>): (r: seq<RoomSchema.Role>)
    ensures |r| == |keys|
    ensures forall k :: 0 <= k < |keys| ==> r[k] == RoleOf(players, keys[k])
  {
    if |keys| == 0 then [] else [RoleOf(players, keys[0])] + RolesOf(keys[1..], players)
  }

  /** The prototype's deal over the key order `keys`: only roles change, and
      there are `fascistsNeeded` fascists, one Hitler and liberals for the
      rest. */
  ghost predicate PrototypeDealt(keys: seq<Id>, before: map<Id, Player>, after: map<Id, Player>) {
    && after.Keys == before.Keys
    && (forall id :: id in after ==> after[id] == before[id].(role := after[id].role))
    && FascistsNeeded(|keys|) < |keys|
    && multiset(RolesOf(keys, after))
       == Roles.RoleCount(|keys| - FascistsNeeded(|keys|) - 1, FascistsNeeded(|keys|))
  }

  /** The states `startGame` can leave: phase `setup` and nothing else with
      fewer than five players; otherwise a deal and phase `election`. */
  ghost predicate Started(f: Fields, g: Fields) {
    if |f.playerKeys| < 5 then g == f.(phase := Setup)
    else g == f.(players := g.players, phase := Election) && PrototypeDealt(f.playerKeys, f.players, g.players)
  }

  /** The state after `onJoin`: a player with the default name, connected,
      under the session key. */
  function Join(f: Fields, id: Id, clientCount: nat): Fields {
    f.(players := f.players[id := Fresh.(name := DefaultName(clientCount), connected := true)],
       playerKeys := if id in f.players then f.playerKeys else f.playerKeys + [id])
  }

  /** `player.connected = false` for a known session. */
  function Disconnect(f: Fields, id: Id): Fields {
    if id in f.players then f.(players := f.players[id := f.players[id].(connected := false)]) else f
  }

  /** `player.connected = true` for a known session. */
  function Reconnect(f: Fields, id: Id): Fields {
    if id in f.players then f.(players := f.players[id := f.players[id].(connected := true)]) else f
  }

  /** `players.delete(id)`. */
  function Remove(f: Fields, id: Id): Fields {
    f.(players := f.players - {id}, playerKeys := RemoveFirst(f.playerKeys, id))
  }

  lemma JoinKeepsConsistent(f: Fields, id: Id, clientCount: nat)
    requires Consistent(f)
    ensures Consistent(Join(f, id, clientCount))
    ensures id in Join(f, id, clientCount).players && Join(f, id, clientCount).players[id].connected
  {
    var g := Join(f, id, clientCount);
    if id !in f.players {
      assert forall k :: k in g.playerKeys <==> k in f.playerKeys || k == id;
    }
  }

  lemma RemoveKeepsConsistent(f: Fields, id: Id)
    requires Consistent(f)
    ensures Consistent(Remove(f, id))
    ensures id !in Remove(f, id).players && id !in Remove(f, id).playerKeys
  {
    DistinctRemoveFirst(f.playerKeys, id);
  }

  /** A disconnection followed by a reconnection leaves the player as it was,
      connected. */
  lemma ReconnectRestores(f: Fields, id: Id)
    requires id in f.players
    ensures Reconnect(Disconnect(f, id), id) == f.(players := f.players[id := f.players[id].(connected := true)])
  {
    assert Disconnect(f, id).players[id := f.players[id].(connected := true)]
           == f.players[id := f.players[id].(connected := true)];
  }

  /** Every player of an automatic start gets a role, in the main room's
      proportions. */
  lemma AutoStartDealsTable(f: Fields, g: Fields)
    requires AutoStarts(f) && Started(f, g)
    ensures var t := Roles.RoleTable(|f.playerKeys|).value;
            multiset(RolesOf(f.playerKeys, g.players)) == Roles.RoleCount(t.0, t.1)
  {
    TablesAgree(|f.playerKeys|);
  }

  /** A deal leaves no player of the key order without a role. */
  lemma DealtAssignsEveryone(keys: seq<Id>, before: map<Id, Player>, after: map<Id, Player>)
    requires PrototypeDealt(keys, before, after)
    requires forall id :: id in before <==> id in keys
    ensures forall id :: id in after ==> after[id].role != RoomSchema.Unassigned
  {
    var roles := RolesOf(keys, after);
    forall id | id in after ensures after[id].role != RoomSchema.Unassigned {
      var k :| 0 <= k < |keys| && keys[k] == id;
      assert roles[k] in multiset(roles);
    }
  }

  lemma MarkKeepsConsistent(f: Fields, sender: Id, ready: bool)
    requires Consistent(f)
    ensures Consistent(Mark(f, sender, ready))
  {
    assert forall id :: id in Mark(f, sender, ready).players <==> id in f.players;
  }

  /** `RolesOf` is a map over the keys. */
  lemma RolesOfIsMap(keys: seq<Id>, players: map<Id, Player>)
    ensures RolesOf(keys, players) == MapSeq((id: Id) => RoleOf(players, id), keys)
  {
    var m := MapSeq((id: Id) => RoleOf(players, id), keys);
    assert forall k :: 0 <= k < |keys| ==> RolesOf(keys, players)[k] == m[k];
  }

  /** The roles of positions 0 to `n - 1`. */
  function Positions(n: nat, fascistsNeeded: nat): (r: seq<RoomSchema.Role>)
    ensures |r| == n
    ensures forall k :: 0 <= k < n ==> r[k] == PositionRole(k, fascistsNeeded)
  {
    seq(n, (k: int) => PositionRole(k, fascistsNeeded))
  }

  /** The roles by position: `fascistsNeeded` fascists, Hitler, then
      liberals. */
  lemma PositionsCount(n: nat, fascistsNeeded: nat)
    requires fascistsNeeded < n
    ensures multiset(Positions(n, fascistsNeeded)) == Roles.RoleCount(n - fascistsNeeded - 1, fascistsNeeded)
  {
    var s := Positions(n, fascistsNeeded);
    var parts := Repeat(RoomSchema.Fascist, fascistsNeeded) + [RoomSchema.Hitler]
                 + Repeat(RoomSchema.Liberal, n - fascistsNeeded - 1);
    assert s == parts;
    assert multiset(parts) == multiset{}[RoomSchema.Fascist := fascistsNeeded] + multiset{RoomSchema.Hitler}
                              + multiset{}[RoomSchema.Liberal := n - fascistsNeeded - 1];
  }

  /** The `forEach` of `startGame` over the shuffled ids: the ids in the set
      of the first `fascistsNeeded` become fascists, the id right after them
      Hitler, the others liberals; a player whose id is not among them is
      left as it was. */
  method AssignPrototypeRoles(shuffled: seq<Id>, players: map<Id, Player>, fascistsNeeded: nat)
    returns (dealt: map<Id, Player>)
    requires Distinct(shuffled)
    ensures dealt.Keys == players.Keys
    ensures forall id :: id in dealt ==> dealt[id] == players[id].(role := dealt[id].role)
    ensures forall k :: 0 <= k < |shuffled| && shuffled[k] in players
              ==> dealt[shuffled[k]].role == PositionRole(k, fascistsNeeded)
    ensures forall id :: id in players && id !in shuffled ==> dealt[id] == players[id]
  {
    var cut := if fascistsNeeded < |shuffled| then fascistsNeeded else |shuffled|;
    var fascists := Leading(shuffled, cut);
    dealt := players;
    for idx := 0 to |shuffled|
      invariant dealt.Keys == players.Keys
      invariant forall id :: id in dealt ==> dealt[id] == players[id].(role := dealt[id].role)
      invariant forall k :: 0 <= k < idx && shuffled[k] in players
                  ==> dealt[shuffled[k]].role == PositionRole(k, fascistsNeeded)
      invariant forall id :: id in players && id !in shuffled[..idx] ==> dealt[id] == players[id]
    {
      var id := shuffled[idx];
      if id in dealt {
        PrefixMember(shuffled, cut, idx);
        var role := if id in fascists then RoomSchema.Fascist
                    else if idx == fascistsNeeded then RoomSchema.Hitler
                    else RoomSchema.Liberal;
        dealt := dealt[id := dealt[id].(role := role)];
      }
    }
  }

  /** `new Set(s.slice(0, cut))`. */
  function Leading(s: seq<Id>, cut: nat): set<Id>
    requires cut <= |s|
  {
    set id | id in s[..cut]
  }

  /** In a sequence without repeats, the element at `idx` is among the first
      `cut` exactly when `idx < cut`. */
  lemma PrefixMember(s: seq<Id>, cut: nat, idx: nat)
    requires Distinct(s) && cut <= |s| && idx < |s|
    ensures s[idx] in Leading(s, cut) <==> idx < cut
  {
    if s[idx] in s[..cut] {
      var j :| 0 <= j < cut && s[j] == s[idx];
    }
    if idx < cut {
      assert s[..cut][idx] == s[idx];
    }
  }

  /** Dealing by position over a permutation of the key order gives the
      prototype's distribution on the key order. */
  lemma DealtByPosition(keys: seq<Id>, shuffled: seq<Id>, before: map<Id, Player>, after: map<Id, Player>)
    requires forall id :: id in before <==> id in keys
    requires multiset(shuffled) == multiset(keys) && |keys| >= 5
    requires after.Keys == before.Keys
    requires forall id :: id in after ==> after[id] == before[id].(role := after[id].role)
    requires forall k :: 0 <= k < |shuffled| && shuffled[k] in before
               ==> after[shuffled[k]].role == PositionRole(k, FascistsNeeded(|keys|))
    ensures PrototypeDealt(keys, before, after)
  {
    PermutationMembers(keys, shuffled, before);
    ShuffledPositions(keys, shuffled, before, after, FascistsNeeded(|keys|));
    PositionalCount(keys, shuffled, after, |keys|, FascistsNeeded(|keys|));
  }

  /** The roles by position, read in another order of the same keys. */
  lemma PositionalCount(keys: seq<Id>, shuffled: seq<Id>, after: map<Id, Player>, n: nat, fascistsNeeded: nat)
    requires multiset(shuffled) == multiset(keys)
    requires fascistsNeeded < n
    requires RolesOf(shuffled, after) == Positions(n, fascistsNeeded)
    ensures multiset(RolesOf(keys, after)) == Roles.RoleCount(n - fascistsNeeded - 1, fascistsNeeded)
  {
    PositionsCount(n, fascistsNeeded);
    PermutedRoles(keys, shuffled, after);
  }

  /** Read in the shuffled order, the roles are the roles by position. */
  lemma ShuffledPositions(keys: seq<Id>, shuffled: seq<Id>, before: map<Id, Player>, after: map<Id, Player>,
                          fascistsNeeded: nat)
    requires |shuffled| == |keys|
    requires forall k :: 0 <= k < |shuffled| ==> shuffled[k] in before
    requires after.Keys == before.Keys
    requires forall k :: 0 <= k < |shuffled| && shuffled[k] in before
               ==> after[shuffled[k]].role == PositionRole(k, fascistsNeeded)
    ensures RolesOf(shuffled, after) == Positions(|keys|, fascistsNeeded)
  {
  }

  lemma PermutationMembers(keys: seq<Id>, shuffled: seq<Id>, before: map<Id, Player>)
    requires forall id :: id in before <==> id in keys
    requires multiset(shuffled) == multiset(keys)
    ensures |shuffled| == |keys|
    ensures forall k :: 0 <= k < |shuffled| ==> shuffled[k] in before
  {
    assert |shuffled| == |multiset(shuffled)| == |keys|;
    forall k | 0 <= k < |shuffled| ensures shuffled[k] in before {
      assert shuffled[k] in multiset(keys);
    }
  }

  /** Two orders of the same keys read the same roles, up to order. */
  lemma PermutedRoles(keys: seq<Id>, shuffled: seq<Id>, players: map<Id, Player>)
    requires multiset(shuffled) == multiset(keys)
    ensures multiset(RolesOf(keys, players)) == multiset(RolesOf(shuffled, players))
  {
    RolesOfIsMap(keys, players);
    RolesOfIsMap(shuffled, players);
    MapPermutation((id: Id) => RoleOf(players, id), keys, shuffled);
  }

  lemma StartedKeepsConsistent(f: Fields, g: Fields)
    requires Consistent(f) && Started(f, g)
    ensures Consistent(g)
  {
    assert forall id :: id in g.players <==> id in f.players;
  }

  class SecretHitlerRoom {
    const state: SecretHitlerState

    ghost predicate Valid()
      reads state
    {
      state.Valid()
    }

    constructor ()
      ensures Valid() && fresh(state)
      ensures state.Snapshot() == Fields(map[], [], Lobby, 0, 0, 0, "", "")
    {
      state := new SecretHitlerState();
    }

    /** `set-name`: a known sender's name becomes the payload cut to 32
        characters. */
    method SetName(sender: Id, name: Option<string>)
      requires Valid()
      modifies state
      ensures Valid()
      ensures state.Snapshot() == Rename(old(state.Snapshot()), sender, name)
    {
      if sender in state.players {
        var player := state.players[sender];
        state.players := state.players[sender := player.(name := Truncate(NameOrEmpty(name), MaxNameLength))];
      }
    }

    /** `ready`: a known sender's flag becomes the truthiness of the payload,
        then the game starts exactly when the start condition holds. */
    method Ready(sender: Id, ready: bool)
      requires Valid()
      modifies state
      ensures Valid()
      ensures AutoStarts(Mark(old(state.Snapshot()), sender, ready)) ==>
                Started(Mark(old(state.Snapshot()), sender, ready), state.Snapshot())
      ensures !AutoStarts(Mark(old(state.Snapshot()), sender, ready)) ==>
                state.Snapshot() == Mark(old(state.Snapshot()), sender, ready)
    {
      ghost var marked := Mark(state.Snapshot(), sender, ready);
      MarkKeepsConsistent(state.Snapshot(), sender, ready);
      if sender in state.players {
        var player := state.players[sender];
        state.players := state.players[sender := player.(ready := ready)];
      }
      assert state.Snapshot() == marked;
      var numPlayers := |state.playerKeys|;
      var allReady := forall id :: id in state.players ==> state.players[id].ready && state.players[id].connected;
      if state.phase == Lobby && numPlayers >= 5 && numPlayers <= 10 && allReady {
        StartGame();
      }
    }

    /** `startGame`. */
    method StartGame()
      requires Valid()
      modifies state
      ensures Valid()
      ensures Started(old(state.Snapshot()), state.Snapshot())
    {
      ghost var f := state.Snapshot();
      state.phase := Setup;
      var ids := state.playerKeys;
      if |ids| < 5 {
        assert state.Snapshot() == f.(phase := Setup);
        return;
      }
      var fascistsNeeded := FascistsNeeded(|ids|);
      var shuffled := Shuffle(ids);
      DistinctPermutation(ids, shuffled);
      var dealt := AssignPrototypeRoles(shuffled, state.players, fascistsNeeded);
      DealtByPosition(ids, shuffled, f.players, dealt);
      ghost var g := f.(players := dealt, phase := Election);
      StartedKeepsConsistent(f, g);
      state.players := dealt;
      state.phase := Election;
      assert state.Snapshot() == g;
    }

    /** `onJoin`. */
    method OnJoin(id: Id, clientCount: nat)
      requires Valid()
      modifies state
      ensures Valid()
      ensures state.Snapshot() == Join(old(state.Snapshot()), id, clientCount)
    {
      JoinKeepsConsistent(state.Snapshot(), id, clientCount);
      var player := Fresh;
      player := player.(name := DefaultName(clientCount));
      player := player.(connected := true);
      if id !in state.players {
        state.playerKeys := state.playerKeys + [id];
      }
      state.players := state.players[id := player];
    }

    /** The part of `onLeave` before the wait: the player is marked
        disconnected, and a consented leave deletes it at once. The result
        says whether the room waits for a reconnection. */
    method OnLeave(id: Id, consented: bool) returns (awaiting: bool)
      requires Valid()
      modifies state
      ensures Valid()
      ensures awaiting == !consented
      ensures consented ==> state.Snapshot() == Remove(Disconnect(old(state.Snapshot()), id), id)
      ensures !consented ==> state.Snapshot() == Disconnect(old(state.Snapshot()), id)
    {
      if id in state.players {
        var player := state.players[id];
        state.players := state.players[id := player.(connected := false)];
      }
      assert forall k :: k in state.players <==> k in state.playerKeys;
      if consented {
        RemovePlayer(id);
        awaiting := false;
      } else {
        awaiting := true;
      }
    }

    /** The part of `onLeave` after the wait: a reconnection marks the player
        connected again, a failed one deletes it. */
    method OnReconnection(id: Id, reconnected: bool)
      requires Valid()
      modifies state
      ensures Valid()
      ensures reconnected ==> state.Snapshot() == Reconnect(old(state.Snapshot()), id)
      ensures !reconnected ==> state.Snapshot() == Remove(old(state.Snapshot()), id)
    {
      if reconnected {
        if id in state.players {
          var player := state.players[id];
          state.players := state.players[id := player.(connected := true)];
        }
        assert forall k :: k in state.players <==> k in state.playerKeys;
      } else {
        RemovePlayer(id);
      }
    }

    /** `players.delete(id)`, with the key order kept in step. */
    method RemovePlayer(id: Id)
      requires Valid()
      modifies state
      ensures Valid()
      ensures state.Snapshot() == Remove(old(state.Snapshot()), id)
    {
      RemoveKeepsConsistent(state.Snapshot(), id);
      state.players := state.players - {id};
      state.playerKeys := RemoveFirst(state.playerKeys, id);
    }
  }
}
