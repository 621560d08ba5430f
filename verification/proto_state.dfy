/** The state record of the prototype room
    (secret-hitler-server/src/state/SecretHitlerState.ts): the eight phases,
    the `Player` schema with its defaults and the `SecretHitlerState` schema
    that the prototype's handlers update in place. */
module ProtoState {
  import opened Seqs
  import RoomSchema

  type Id = RoomSchema.Id

  /** The `Phase` union of eight strings, in its order: 'lobby', 'setup',
      'roles' (here `RoleReveal`), 'election', 'legislative', 'veto',
      'executive' and 'end'. */
  datatype Phase = Lobby | Setup | RoleReveal | Election | Legislative | Veto | Executive | End

  /** A player record; `role` is the empty string until `startGame` writes
      "liberal", "fascist" or "hitler", which the model reads as the roles
      of the main room. */
  datatype Player = Player(name: string, connected: bool, role: RoomSchema.Role, alive: bool, ready: bool)

  /** `new Player()`: the field initialisers. */
  const Fresh: Player := Player("", true, RoomSchema.Unassigned, true, false)

  /** All fields of `SecretHitlerState` as one value. */
  datatype Fields = Fields(
    players: map<Id, Player>,
    playerKeys: seq<Id>,
    phase: Phase,
    electionTracker: int,
    enactedFascist: int,
    enactedLiberal: int,
    presidentId: string,
    chancellorId: string)

  /** The key order lists every player once. */
  ghost predicate Consistent(f: Fields) {
    Distinct(f.playerKeys) && forall id :: id in f.players <==> id in f.playerKeys
  }

  class SecretHitlerState {
    var players: map<Id, Player>
    /** The insertion order of `players` (`Array.from(players.keys())`). */
    var playerKeys: seq<Id>
    var phase: Phase
    var electionTracker: int
    var enactedFascist: int
    var enactedLiberal: int
    var presidentId: string
    var chancellorId: string

    function Snapshot(): Fields
      reads this
    {
      Fields(players, playerKeys, phase, electionTracker, enactedFascist, enactedLiberal,
             presidentId, chancellorId)
    }

    ghost predicate Valid()
      reads this
    {
      Consistent(Snapshot())
    }

    /** A fresh state: no players, phase `lobby`, the counters at 0 and both
        office holders the empty string. */
    constructor ()
      ensures Valid()
      ensures Snapshot() == Fields(map[], [], Lobby, 0, 0, 0, "", "")
    {
      players := map[];
      playerKeys := [];
      phase := Lobby;
      electionTracker := 0;
      enactedFascist := 0;
      enactedLiberal := 0;
      presidentId := "";
      chancellorId := "";
    }
  }
}
