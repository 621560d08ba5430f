/** The state record of the main room (server/src/rooms/schema/MyRoomState.ts):
    the `Player` schema and the `MyRoomState` schema whose fields every
    handler of the room updates in place. */
module RoomSchema {
  import opened Seqs

  /** Session keys of connected clients. */
  type Id = string

  /** The `role` string of a player; `Unassigned` is the value before
      `assignRoles` writes one (the field has no initial value). */
  datatype Role = Unassigned | Liberal | Fascist | Hitler

  /** The strings "liberal" and "fascist" that the deck, the discard pile and
      the hands hold. */
  datatype Policy = LiberalPolicy | FascistPolicy

  /** The values the room writes into `currentPhase`. */
  datatype Phase =
    | Waiting | SelectingChancellor | Voting | VotingResults | GamePlay
    | PresidentPolicy | ChancellorPolicy | Assassination | GameOver

  /** A player record. The floating-point position `x`, `y` and the movement
      `inputQueue` are not part of this model. `isEliminated` is never
      declared by the schema: MyRoom writes it, and before that it reads as
      undefined, which the model takes as `false`. */
  datatype Player = Player(nickname: string, ready: bool, role: Role, isEliminated: bool)

  const MaxClients: nat := 10

  /** A player as `onJoin` creates it. */
  function NewPlayer(nickname: string): (p: Player)
    ensures !p.ready && !p.isEliminated && p.role == Unassigned && p.nickname == nickname
  {
    Player(nickname, false, Unassigned, false)
  }

  /** All fields of `MyRoomState` as one value, so that a handler can state
      its whole new state as an update of the old one. */
  datatype Fields = Fields(
    players: map<Id, Player>,
    playerKeys: seq<Id>,
    creatorId: Option<Id>,
    gameStarted: bool,
    presidentId: Option<Id>,
    chancellorId: Option<Id>,
    currentPresidentCandidateId: Option<Id>,
    currentChancellorCandidateId: Option<Id>,
    votesFor: nat,
    votesAgainst: nat,
    votedPlayers: map<Id, bool>,
    currentPhase: Phase,
    playerOrder: seq<Id>,
    liberalPoliciesEnacted: nat,
    fascistPoliciesEnacted: nat,
    policyDeck: seq<Policy>,
    discardPile: seq<Policy>,
    presidentPolicyHand: seq<Policy>,
    chancellorPolicyHand: seq<Policy>)

  /** `liberal` liberal cards and `fascist` fascist cards. */
  function Cards(liberal: nat, fascist: nat): (m: multiset<Policy>)
    ensures m[LiberalPolicy] == liberal && m[FascistPolicy] == fascist && |m| == liberal + fascist
  {
    var m := multiset{}[LiberalPolicy := liberal][FascistPolicy := fascist];
    assert m == multiset{}[LiberalPolicy := liberal] + multiset{}[FascistPolicy := fascist];
    m
  }

  /** One more card of either kind. */
  lemma AddCard(liberal: nat, fascist: nat)
    ensures Cards(liberal, fascist) + multiset{LiberalPolicy} == Cards(liberal + 1, fascist)
    ensures Cards(liberal, fascist) + multiset{FascistPolicy} == Cards(liberal, fascist + 1)
  {
    forall p: Policy ensures (Cards(liberal, fascist) + multiset{LiberalPolicy})[p] == Cards(liberal + 1, fascist)[p] {
    }
    forall p: Policy ensures (Cards(liberal, fascist) + multiset{FascistPolicy})[p] == Cards(liberal, fascist + 1)[p] {
    }
  }

  /** The 17 cards of a game: 6 liberal and 11 fascist. */
  const FullDeck: multiset<Policy> := Cards(6, 11)

  /** Every card of a snapshot: deck, discard pile, both hands and the
      enacted policies. */
  function AllCards(f: Fields): multiset<Policy> {
    multiset(f.policyDeck) + multiset(f.discardPile)
      + multiset(f.presidentPolicyHand) + multiset(f.chancellorPolicyHand)
      + Cards(f.liberalPoliciesEnacted, f.fascistPoliciesEnacted)
  }

  /** Once the cards of a snapshot are the full deck, the counts add up to 17. */
  lemma CardCount(f: Fields)
    requires AllCards(f) == FullDeck
    ensures |f.policyDeck| + |f.discardPile| + |f.presidentPolicyHand| + |f.chancellorPolicyHand|
            + f.liberalPoliciesEnacted + f.fascistPoliciesEnacted == 17
  {
    assert |AllCards(f)| == |FullDeck| == 17;
  }

  /** The field initialisers of `MyRoomState`; the string fields without one
      start undefined. */
  const Initial: Fields :=
    Fields(map[], [], None, false, None, None, None, None, 0, 0, map[],
           Waiting, [], 0, 0, [], [], [], [])

  /** The key order lists exactly the keys of the map. */
  ghost predicate KeysMatch(keys: seq<Id>, players: map<Id, Player>) {
    forall id :: id in players <==> id in keys
  }

  predicate NoEmptyKey(s: seq<Id>) {
    forall i :: 0 <= i < |s| ==> s[i] != ""
  }

  /** What every handler keeps: the key order lists each player once, the
      room holds at most `maxClients` players, a non-empty room has a creator
      among its players, session keys are not empty, the succession order
      has no repeats, and the hands hold at most 3 and 2 cards. */
  ghost predicate Consistent(f: Fields) {
    && Distinct(f.playerKeys)
    && KeysMatch(f.playerKeys, f.players)
    && |f.playerKeys| <= MaxClients
    && (|f.playerKeys| > 0 ==> f.creatorId.Some? && f.creatorId.value in f.players)
    && "" !in f.players
    && Distinct(f.playerOrder)
    && NoEmptyKey(f.playerOrder)
    && |f.presidentPolicyHand| <= 3
    && |f.chancellorPolicyHand| <= 2
  }

  /** The invariant depends only on the keys, the creator, the succession
      order and the sizes of the hands. */
  lemma ConsistentFrame(f: Fields, g: Fields)
    requires Consistent(f)
    requires g.playerKeys == f.playerKeys && g.players.Keys == f.players.Keys
    requires g.creatorId == f.creatorId && g.playerOrder == f.playerOrder
    requires |g.presidentPolicyHand| <= 3 && |g.chancellorPolicyHand| <= 2
    ensures Consistent(g)
  {
    assert forall id :: id in g.players <==> id in f.players;
  }

  class MyRoomState {
    var players: map<Id, Player>
    /** The insertion order of `players` (a `MapSchema` iterates in it). */
    var playerKeys: seq<Id>
    var creatorId: Option<Id>
    var gameStarted: bool
    var presidentId: Option<Id>
    var chancellorId: Option<Id>
    var currentPresidentCandidateId: Option<Id>
    var currentChancellorCandidateId: Option<Id>
    var votesFor: nat
    var votesAgainst: nat
    var votedPlayers: map<Id, bool>
    var currentPhase: Phase
    var playerOrder: seq<Id>
    var liberalPoliciesEnacted: nat
    var fascistPoliciesEnacted: nat
    var policyDeck: seq<Policy>
    var discardPile: seq<Policy>
    var presidentPolicyHand: seq<Policy>
    var chancellorPolicyHand: seq<Policy>

    function Snapshot(): Fields
      reads this
    {
      Fields(players, playerKeys, creatorId, gameStarted, presidentId, chancellorId,
             currentPresidentCandidateId, currentChancellorCandidateId, votesFor,
             votesAgainst, votedPlayers, currentPhase, playerOrder, liberalPoliciesEnacted,
             fascistPoliciesEnacted, policyDeck, discardPile, presidentPolicyHand,
             chancellorPolicyHand)
    }

    ghost predicate Valid()
      reads this
    {
      Consistent(Snapshot())
    }

    constructor ()
      ensures Valid()
      ensures Snapshot() == Initial
    {
      players := map[];
      playerKeys := [];
      creatorId := None;
      gameStarted := false;
      presidentId := None;
      chancellorId := None;
      currentPresidentCandidateId := None;
      currentChancellorCandidateId := None;
      votesFor := 0;
      votesAgainst := 0;
      votedPlayers := map[];
      currentPhase := Waiting;
      playerOrder := [];
      liberalPoliciesEnacted := 0;
      fascistPoliciesEnacted := 0;
      policyDeck := [];
      discardPile := [];
      presidentPolicyHand := [];
      chancellorPolicyHand := [];
    }
  }
}
