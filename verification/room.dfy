/** The rules engine of the main room (server/src/rooms/MyRoom.ts): the
    message handlers, lifecycle hooks and helper steps that drive a match
    from the lobby to the end of the game, over the state of
    server/src/rooms/schema/MyRoomState.ts.

    The connected clients are the parameter `clients`: a step that sends a
    private message and then changes the phase only when the recipient is
    connected takes it. A `clock.setTimeout` is the `Timer` a handler
    returns, and the scheduled callback is the method of the same name,
    called by whoever drives the room. The broadcasts are kept in a ghost
    log. */
module Room {
  import opened Seqs
  import opened RoomSchema
  import opened Succession
  import opened Roles
  import opened Policies
  import opened Election
  import opened WinConditions

  /** A callback a handler schedules: `OnRolesTimer` one second after the
      start, `SelectPresident` five seconds after roles or a failed vote,
      `StartPolicyPhase` three seconds after a passed vote, `NextRound` five
      seconds after an enactment or an assassination that does not end the
      game. */
  datatype Timer = RolesTimer | SelectPresidentTimer | PolicyPhaseTimer | NextRoundTimer

  /** The broadcasts of the room, with the payload fields that are not
      nicknames or free text. */
  datatype Broadcast =
    | GameStarted
    | PresidentCandidateInfo(candidateId: Id)
    | StartVote(presidentCandidateId: Option<Id>, chancellorCandidateId: Option<Id>)
    | VotingResultsMessage(presidentCandidateId: Option<Id>, chancellorCandidateId: Option<Id>,
                           votePassed: bool, votesFor: nat, votesAgainst: nat)
    | PolicyPlayed(policyType: string, liberalPolicies: nat, fascistPolicies: nat)
    | PlayerEliminated(eliminatedPlayerId: Id)
    | GameOverMessage(winner: string, message: string)

  /** `options.nickname || "Player_" + sessionId.substring(0, 4)`. */
  function JoinNickname(id: Id, nickname: string): string {
    if nickname != "" then nickname else "Player_" + id[..if |id| < 4 then |id| else 4]
  }

  /** Every player is ready, and there is at least one. */
  predicate AllReady(f: Fields) {
    |f.playerKeys| > 0 && forall id :: id in f.players ==> f.players[id].ready
  }

  /** The role a key holds, `Unassigned` for a key without a player. */
  function RoleOf(players: map<Id, Player>, id: Id): Role {
    if id in players then players[id].role else Unassigned
  }

  /** The roles of the players in the order the keys list them. */
  function RolesOf(keys: seq<Id>, players: map<Id, Player>): (r: seq<Role>)
    ensures |r| == |keys|
    ensures forall k :: 0 <= k < |keys| ==> r[k] == RoleOf(players, keys[k])
  {
    if |keys| == 0 then [] else [RoleOf(players, keys[0])] + RolesOf(keys[1..], players)
  }

  /** A ballot `cast-vote` accepts. */
  predicate Accepted(f: Fields, sender: Id, vote: string) {
    f.currentPhase == Voting && sender !in f.votedPlayers && BallotOf(vote).Some?
  }

  /** The state after an accepted ballot is counted. */
  function Cast(f: Fields, sender: Id, vote: string): Fields {
    f.(votesFor := f.votesFor + (if BallotOf(vote) == Some(For) then 1 else 0),
       votesAgainst := f.votesAgainst + (if BallotOf(vote) == Some(Against) then 1 else 0),
       votedPlayers := f.votedPlayers[sender := true])
  }

  /** The state `endVotingPhase` leaves: on a majority the candidates take
      office and the room moves on to `gamePlay`; otherwise the candidacy
      passes on and the phase stays `voting-results`. The tallies are
      cleared either way. */
  function Tally(f: Fields): Fields {
    var cleared := f.(votesFor := 0, votesAgainst := 0, votedPlayers := map[]);
    if VotePassed(f.votesFor, |f.playerKeys|) then
      cleared.(currentPhase := GamePlay, presidentId := f.currentPresidentCandidateId,
               chancellorId := f.currentChancellorCandidateId)
    else
      cleared.(currentPhase := VotingResults,
               currentPresidentCandidateId :=
                 Successive(f.playerOrder, f.players, f.currentPresidentCandidateId))
  }

  /** The `voting-results` broadcast: the candidates as they stand after the
      tally, and the counts before they are cleared. */
  function TallyMessage(f: Fields): Broadcast {
    VotingResultsMessage(Tally(f).currentPresidentCandidateId, f.currentChancellorCandidateId,
                         VotePassed(f.votesFor, |f.playerKeys|), f.votesFor, f.votesAgainst)
  }

  /** The state after the president discards the card at `idx`: it goes on
      the discard pile and the other cards move to the chancellor's hand. */
  function PassToChancellor(f: Fields, idx: nat, chancellorConnected: bool): Fields
    requires idx < |f.presidentPolicyHand|
  {
    f.(discardPile := f.discardPile + [f.presidentPolicyHand[idx]],
       chancellorPolicyHand := RemoveAt(f.presidentPolicyHand, idx),
       presidentPolicyHand := [],
       currentPhase := if chancellorConnected then ChancellorPolicy else f.currentPhase)
  }

  /** The state after the chancellor plays the card at `idx` named `policy`:
      its counter goes up, the first card left goes on the discard pile, the
      hand is cleared and the phase is `gamePlay`. */
  function Enact(f: Fields, idx: nat, policy: string): Fields
    requires idx < |f.chancellorPolicyHand|
  {
    var rest := RemoveAt(f.chancellorPolicyHand, idx);
    Track(f, policy).(
       discardPile := f.discardPile + (if |rest| > 0 then [rest[0]] else []),
       chancellorPolicyHand := [],
       currentPhase := GamePlay)
  }

  /** The policy tracks after a card named `policy` is enacted; a payload
      that names no card moves neither. */
  function Track(f: Fields, policy: string): Fields {
    f.(liberalPoliciesEnacted := f.liberalPoliciesEnacted + (if PolicyOf(policy) == Some(LiberalPolicy) then 1 else 0),
       fascistPoliciesEnacted := f.fascistPoliciesEnacted + (if PolicyOf(policy) == Some(FascistPolicy) then 1 else 0))
  }

  /** The assassination power: a fascist card that brings the fascist count
      to 4 or 5. */
  predicate GrantsAssassination(policy: string, fascistEnacted: nat) {
    PolicyOf(policy) == Some(FascistPolicy) && (fascistEnacted == 4 || fascistEnacted == 5)
  }

  /** The victory the checks find in a snapshot. */
  function WinOf(f: Fields): Option<WinReason> {
    CheckWin(f.playerKeys, f.players, f.chancellorId, f.liberalPoliciesEnacted, f.fascistPoliciesEnacted)
  }

  /** The state and broadcast `checkWinConditions` leaves on a snapshot. */
  function Concluded(f: Fields): Fields {
    if WinOf(f).Some? then f.(currentPhase := GameOver) else f
  }

  function ConclusionLog(f: Fields): seq<Broadcast> {
    match WinOf(f)
    case Some(w) => [GameOverMessage(TeamName(Winner(w)), Message(w))]
    case None => []
  }

  /** The assassination of `target`: marked eliminated and taken out of the
      succession order. */
  function Eliminate(f: Fields, target: Id): Fields
    requires target in f.players
  {
    f.(players := f.players[target := f.players[target].(isEliminated := true)],
       playerOrder := RemoveFirst(f.playerOrder, target))
  }

  /** The state after a new session `id` joins. */
  function Join(f: Fields, id: Id, nickname: string): Fields {
    f.(players := f.players[id := NewPlayer(JoinNickname(id, nickname))],
       playerKeys := f.playerKeys + [id],
       creatorId := if |f.playerKeys| == 0 then Some(id) else f.creatorId)
  }

  /** A join keeps every player listed once, and the first player of an
      empty room is its creator; a joining player is neither ready nor
      eliminated. */
  lemma JoinKeepsConsistent(f: Fields, id: Id, nickname: string)
    requires Consistent(f)
    requires id != "" && id !in f.players && |f.playerKeys| < MaxClients
    ensures Consistent(Join(f, id, nickname))
    ensures |Join(f, id, nickname).playerKeys| == |f.playerKeys| + 1
    ensures !Join(f, id, nickname).players[id].ready && !Join(f, id, nickname).players[id].isEliminated
    ensures |f.playerKeys| == 0 ==> Join(f, id, nickname).creatorId == Some(id)
  {
    var g := Join(f, id, nickname);
    assert id !in f.playerKeys;
    assert KeysMatch(g.playerKeys, g.players) by {
      forall x ensures x in g.players <==> x in g.playerKeys {
        assert x in g.playerKeys <==> x in f.playerKeys || x == id;
      }
    }
    assert Distinct(g.playerKeys);
  }

  /** The state `selectNextPresident` leaves: the candidacy moves on one
      step. */
  function Rotate(f: Fields): (r: Fields)
    ensures r == f.(currentPresidentCandidateId := r.currentPresidentCandidateId)
    ensures r.currentPresidentCandidateId == Successive(f.playerOrder, f.players, f.currentPresidentCandidateId)
  {
    f.(currentPresidentCandidateId := Successive(f.playerOrder, f.players, f.currentPresidentCandidateId))
  }

  /** The state `selectPresident` leaves: the same step, and the phase
      `selectingChancellor` once the new candidate is connected. Nothing
      changes when every player of the order is eliminated. */
  function Nominate(f: Fields, clients: set<Id>): (r: Fields)
    ensures r.currentPresidentCandidateId == Successive(f.playerOrder, f.players, f.currentPresidentCandidateId)
    ensures r == f.(currentPresidentCandidateId := r.currentPresidentCandidateId, currentPhase := r.currentPhase)
    ensures r.currentPhase != f.currentPhase ==>
              r.currentPhase == SelectingChancellor && r.currentPresidentCandidateId.Some?
              && r.currentPresidentCandidateId.value in clients
    ensures |ActiveOrder(f.playerOrder, f.players)| == 0 ==> r == f
  {
    var active := ActiveOrder(f.playerOrder, f.players);
    if |active| == 0 then f
    else
      var next := Successor(active, f.currentPresidentCandidateId);
      f.(currentPresidentCandidateId := Some(next),
         currentPhase := if next in clients then SelectingChancellor else f.currentPhase)
  }

  /** The other direction: with an eligible player, a connected new
      candidate always opens the chancellor selection, and a candidate
      without a client leaves the phase as it was. */
  lemma NominateOpensElection(f: Fields, clients: set<Id>)
    requires |ActiveOrder(f.playerOrder, f.players)| > 0
    ensures var r := Nominate(f, clients);
            && r.currentPresidentCandidateId.Some?
            && (r.currentPresidentCandidateId.value in clients ==> r.currentPhase == SelectingChancellor)
            && (r.currentPresidentCandidateId.value !in clients ==> r.currentPhase == f.currentPhase)
  {
  }

  /** The `president-candidate-info` broadcast of `selectPresident`. */
  function NominationLog(f: Fields): seq<Broadcast> {
    var active := ActiveOrder(f.playerOrder, f.players);
    if |active| == 0 then [] else [PresidentCandidateInfo(Successor(active, f.currentPresidentCandidateId))]
  }

  /** The state `startVotingPhase` leaves. */
  function OpenVote(f: Fields): Fields {
    f.(currentPhase := Voting, votesFor := 0, votesAgainst := 0, votedPlayers := map[])
  }

  /** The callback a tally schedules: the policy phase after a majority, the
      next president selection otherwise. */
  function TallyTimer(f: Fields): Timer {
    if VotePassed(f.votesFor, |f.playerKeys|) then PolicyPhaseTimer else SelectPresidentTimer
  }

  /** The state after `id` leaves. */
  function Leave(f: Fields, id: Id): Fields {
    var keys := RemoveFirst(f.playerKeys, id);
    f.(players := f.players - {id}, playerKeys := keys,
       creatorId := if f.creatorId == Some(id) && |keys| > 0 then Some(keys[0])
                    else f.creatorId)
  }

  /** Leaving keeps the key order in step with the players, and a room with
      players left keeps a creator among them: the first key when the creator
      left. */
  lemma LeaveKeepsConsistent(f: Fields, id: Id)
    requires Consistent(f)
    ensures Consistent(Leave(f, id))
  {
    var g := Leave(f, id);
    DistinctRemoveFirst(f.playerKeys, id);
    assert KeysMatch(g.playerKeys, g.players);
    if |g.playerKeys| > 0 {
      assert g.playerKeys[0] in g.players;
    }
  }

  /** What dealing the roles leaves: the same players with only their roles
      rewritten, and, when the player count is in the table, the roles of
      the table: one per player, exactly one of them Hitler. For any other
      count, nothing changes. */
  ghost predicate Dealt(keys: seq<Id>, before: map<Id, Player>, after: map<Id, Player>) {
    && after.Keys == before.Keys
    && (forall id :: id in after ==> after[id] == before[id].(role := after[id].role))
    && (RoleTable(|keys|).None? ==> after == before)
    && (RoleTable(|keys|).Some? ==>
          multiset(RolesOf(keys, after)) == RoleCount(RoleTable(|keys|).value.0, RoleTable(|keys|).value.1))
  }

  /** The roles of `assignRoles` for a player count in the table, built and
      then shuffled. */
  method ShuffledRoles(playerCount: nat) returns (roles: seq<Role>)
    requires RoleTable(playerCount).Some?
    ensures |roles| == playerCount
    ensures multiset(roles) == RoleCount(RoleTable(playerCount).value.0, RoleTable(playerCount).value.1)
  {
    var liberalCount, fascistCount := RoleTable(playerCount).value.0, RoleTable(playerCount).value.1;
    roles := BuildRoles(liberalCount, fascistCount);
    roles := Shuffle(roles);
  }

  /** The `forEach` of `assignRoles`: the `k`-th key in insertion order gets
      the `k`-th role, and nothing else of a player changes. */
  method Deal(keys: seq<Id>, players: map<Id, Player>, roles: seq<Role>) returns (dealt: map<Id, Player>)
    requires Distinct(keys) && KeysMatch(keys, players) && |roles| == |keys|
    ensures dealt.Keys == players.Keys
    ensures forall id :: id in dealt ==> dealt[id] == players[id].(role := dealt[id].role)
    ensures RolesOf(keys, dealt) == roles
  {
    dealt := players;
    var roleIndex := 0;
    while roleIndex < |keys|
      invariant 0 <= roleIndex <= |keys|
      invariant dealt.Keys == players.Keys
      invariant forall id :: id in dealt ==> dealt[id] == players[id].(role := dealt[id].role)
      invariant forall k :: 0 <= k < roleIndex ==> dealt[keys[k]].role == roles[k]
      invariant forall k :: roleIndex <= k < |keys| ==> dealt[keys[k]] == players[keys[k]]
    {
      var id := keys[roleIndex];
      dealt := dealt[id := dealt[id].(role := roles[roleIndex])];
      roleIndex := roleIndex + 1;
    }
    assert forall k :: 0 <= k < |keys| ==> RolesOf(keys, dealt)[k] == roles[k];
  }

  /** Dealing a shuffle of the table's roles gives the distribution of the
      table. */
  lemma DealtByTable(keys: seq<Id>, before: map<Id, Player>, after: map<Id, Player>, roles: seq<Role>)
    requires RoleTable(|keys|).Some?
    requires multiset(roles) == RoleCount(RoleTable(|keys|).value.0, RoleTable(|keys|).value.1)
    requires after.Keys == before.Keys
    requires forall id :: id in after ==> after[id] == before[id].(role := after[id].role)
    requires RolesOf(keys, after) == roles
    ensures Dealt(keys, before, after)
  {
  }

  /** No key of the order is empty, since no player has the empty key. */
  lemma KeysNotEmpty(f: Fields)
    requires Consistent(f)
    ensures NoEmptyKey(f.playerKeys)
  {
    forall i | 0 <= i < |f.playerKeys| ensures f.playerKeys[i] != "" {
      assert f.playerKeys[i] in f.players;
    }
  }

  /** The chancellor named by the state has a connected client. */
  predicate ChancellorConnected(f: Fields, clients: set<Id>) {
    f.chancellorId.Some? && f.chancellorId.value in clients
  }

  /** A discard keeps every card: the one discarded is on the pile, the
      other two are in the chancellor's hand, which held nothing that
      counted before. */
  lemma PassKeepsCards(f: Fields, idx: nat, chancellorConnected: bool)
    requires idx < |f.presidentPolicyHand|
    ensures AllCards(PassToChancellor(f, idx, chancellorConnected)) + multiset(f.chancellorPolicyHand)
            == AllCards(f)
  {
    var hand := f.presidentPolicyHand;
    RemoveAtCount(hand, idx);
  }

  lemma PassKeepsConsistent(f: Fields, idx: nat, chancellorConnected: bool)
    requires Consistent(f) && idx < |f.presidentPolicyHand|
    ensures Consistent(PassToChancellor(f, idx, chancellorConnected))
  {
    ConsistentFrame(f, PassToChancellor(f, idx, chancellorConnected));
  }

  /** The track that an enactment moves up is the played card's own, by one. */
  lemma EnactTrack(f: Fields, idx: nat, policy: string)
    requires idx < |f.chancellorPolicyHand|
    requires PolicyName(f.chancellorPolicyHand[idx]) == policy
    ensures var e := Enact(f, idx, policy);
            Cards(e.liberalPoliciesEnacted, e.fascistPoliciesEnacted)
            == Cards(f.liberalPoliciesEnacted, f.fascistPoliciesEnacted) + multiset{f.chancellorPolicyHand[idx]}
    ensures var e := Enact(f, idx, policy);
            if f.chancellorPolicyHand[idx] == LiberalPolicy then
              e.liberalPoliciesEnacted == f.liberalPoliciesEnacted + 1
              && e.fascistPoliciesEnacted == f.fascistPoliciesEnacted
            else
              e.liberalPoliciesEnacted == f.liberalPoliciesEnacted
              && e.fascistPoliciesEnacted == f.fascistPoliciesEnacted + 1
  {
    PolicyOfName(f.chancellorPolicyHand[idx]);
    AddCard(f.liberalPoliciesEnacted, f.fascistPoliciesEnacted);
  }

  /** An enactment with a hand of at most two keeps every card: the card
      played is counted on its track and the other goes on the discard
      pile. */
  lemma EnactKeepsCards(f: Fields, idx: nat, policy: string)
    requires idx < |f.chancellorPolicyHand| <= 2
    requires PolicyName(f.chancellorPolicyHand[idx]) == policy
    ensures AllCards(Enact(f, idx, policy)) == AllCards(f)
  {
    var e := Enact(f, idx, policy);
    var card := f.chancellorPolicyHand[idx];
    var rest := RemoveAt(f.chancellorPolicyHand, idx);
    var discarded := if |rest| > 0 then [rest[0]] else [];
    assert multiset(f.chancellorPolicyHand) == multiset(discarded) + multiset{card} by {
      RemoveAtCount(f.chancellorPolicyHand, idx);
      if |rest| > 0 { assert rest == [rest[0]]; }
    }
    EnactTrack(f, idx, policy);
    assert multiset(e.discardPile) == multiset(f.discardPile) + multiset(discarded);
    MoveCards(multiset(f.policyDeck), multiset(f.discardPile), multiset(f.presidentPolicyHand),
              multiset(discarded), multiset{card}, Cards(f.liberalPoliciesEnacted, f.fascistPoliciesEnacted));
  }

  /** Multiset bookkeeping of an enactment, kept apart from the states. */
  lemma MoveCards<T>(deck: multiset<T>, pile: multiset<T>, hand: multiset<T>, discarded: multiset<T>,
                     card: multiset<T>, enacted: multiset<T>)
    ensures deck + (pile + discarded) + hand + multiset{} + (enacted + card)
            == deck + pile + hand + (discarded + card) + enacted
  {
  }

  /** The rest of `checkWinConditions`'s outcome: the phase `assassination`
      when the enacted card grants it, the checks otherwise. */
  function AfterEnactment(e: Fields, policy: string): Fields {
    if GrantsAssassination(policy, e.fascistPoliciesEnacted) then e.(currentPhase := Assassination)
    else Concluded(e)
  }

  function AfterEnactmentLog(e: Fields, policy: string): seq<Broadcast> {
    if GrantsAssassination(policy, e.fascistPoliciesEnacted) then [] else ConclusionLog(e)
  }

  /** The next round is scheduled unless the assassination starts or the
      game ends. */
  function AfterEnactmentTimer(e: Fields, policy: string): Option<Timer> {
    if GrantsAssassination(policy, e.fascistPoliciesEnacted) || WinOf(e).Some? then None
    else Some(NextRoundTimer)
  }

  /** A play `chancellor-play-policy` accepts. */
  predicate Plays(f: Fields, sender: Id, policy: string) {
    f.chancellorId == Some(sender) && f.currentPhase == ChancellorPolicy
    && HandIndex(f.chancellorPolicyHand, policy) >= 0
  }

  /** The Hitler-chancellor victory is not decided at the enactment that
      brings the fascist track to 4: that enactment opens the assassination
      instead, although the condition holds. */
  lemma HitlerChancellorDeferred(f: Fields, idx: nat)
    requires idx < |f.chancellorPolicyHand|
    requires f.chancellorPolicyHand[idx] == FascistPolicy && f.fascistPoliciesEnacted == 3
    requires f.chancellorId.Some? && f.chancellorId.value in f.players
    requires f.players[f.chancellorId.value].role == Hitler
    ensures var e := Enact(f, idx, PolicyName(f.chancellorPolicyHand[idx]));
            && Holds(HitlerChancellor, e.playerKeys, e.players, e.chancellorId,
                     e.liberalPoliciesEnacted, e.fascistPoliciesEnacted)
            && AfterEnactment(e, "fascist").currentPhase == Assassination
            && AfterEnactmentLog(e, "fascist") == []
  {
  }

  /** The deferred check fires after the assassination instead: when the
      president eliminates a player other than Hitler, still chancellor at
      fascist count 4, the checks that follow declare the fascists winners. */
  lemma HitlerChancellorAfterAssassination(e: Fields, target: Id)
    requires target in e.players && e.players[target].role != Hitler
    requires e.chancellorId.Some? && e.chancellorId.value in e.players
    requires e.players[e.chancellorId.value].role == Hitler && e.fascistPoliciesEnacted == 4
    requires forall k :: k in e.players && e.players[k].role == Hitler ==> !e.players[k].isEliminated
    ensures WinOf(Eliminate(e, target)) == Some(HitlerChancellor)
    ensures ConclusionLog(Eliminate(e, target))
            == [GameOverMessage("fascist", "Fascists win! Hitler as Chancellor enacted the 4th Fascist Policy!")]
  {
    var g := Eliminate(e, target);
    var h := FindHitler(g.playerKeys, g.players);
    if h.Some? {
      var k :| k in g.playerKeys && k in g.players && g.players[k] == h.value;
      assert k != target;
    }
  }

  /** Assassinating the current candidate, which the president may do to
      themself, restarts the succession: the next step goes to the first
      eligible player of the order. */
  lemma EliminatedCandidateRestarts(f: Fields, target: Id)
    requires target in f.players && f.currentPresidentCandidateId == Some(target)
    requires |ActiveOrder(Eliminate(f, target).playerOrder, Eliminate(f, target).players)| > 0
    ensures var g := Eliminate(f, target);
            Rotate(g).currentPresidentCandidateId == Some(ActiveOrder(g.playerOrder, g.players)[0])
  {
    var g := Eliminate(f, target);
    SuccessiveIsStep(g.playerOrder, g.players, g.currentPresidentCandidateId);
    assert Eliminated(g.players, target);
  }

  /** An assassination keeps the invariant, and the target leaves the
      succession order. */
  lemma EliminateKeepsConsistent(f: Fields, target: Id)
    requires Consistent(f) && target in f.players
    ensures Consistent(Eliminate(f, target))
    ensures target !in Eliminate(f, target).playerOrder
    ensures forall x :: x in Eliminate(f, target).playerOrder <==> x in f.playerOrder && x != target
  {
    var g := Eliminate(f, target);
    DistinctRemoveFirst(f.playerOrder, target);
    assert forall id :: id in g.players <==> id in f.players;
    assert forall i :: 0 <= i < |g.playerOrder| ==> g.playerOrder[i] in f.playerOrder;
  }

  /** Assassinating the only Hitler ends the game for the liberals. */
  lemma AssassinatingHitlerEnds(f: Fields, target: Id)
    requires Consistent(f) && target in f.players && f.players[target].role == Hitler
    requires forall k :: k in f.players && f.players[k].role == Hitler ==> k == target
    ensures WinOf(Eliminate(f, target)) == Some(HitlerAssassinated)
    ensures Concluded(Eliminate(f, target)).currentPhase == GameOver
    ensures ConclusionLog(Eliminate(f, target))
            == [GameOverMessage("liberal", "Liberals win! Hitler was assassinated!")]
  {
    var g := Eliminate(f, target);
    assert target in g.playerKeys && target in g.players && g.players[target].role == Hitler;
    var h := FindHitler(g.playerKeys, g.players);
    var k :| k in g.playerKeys && k in g.players && g.players[k] == h.value;
    assert k == target;
  }

  /** A predicate `assassinate` accepts: the president, in the assassination
      phase, names a player who is not yet eliminated. */
  predicate Assassinates(f: Fields, sender: Id, targetId: Id) {
    f.presidentId == Some(sender) && f.currentPhase == Assassination
    && targetId in f.players && !f.players[targetId].isEliminated
  }

  /** `drawPoliciesForPresident`: the president's hand is the top three cards
      of the deck when it holds three; otherwise the discard pile is
      shuffled into the deck first, and the hand is the top of the result,
      three cards or as many as there are. Nothing else changes. */
  predicate Drawn(f: Fields, g: Fields) {
    && g == f.(presidentPolicyHand := g.presidentPolicyHand, policyDeck := g.policyDeck,
               discardPile := g.discardPile)
    && if |f.policyDeck| >= 3 then
         g.presidentPolicyHand == f.policyDeck[..3] && g.policyDeck == f.policyDeck[3..]
         && g.discardPile == f.discardPile
       else
         && g.discardPile == []
         && multiset(g.presidentPolicyHand + g.policyDeck) == multiset(f.policyDeck + f.discardPile)
         && |g.presidentPolicyHand| == Min3(|f.policyDeck| + |f.discardPile|)
  }

  function Min3(n: nat): nat {
    if n < 3 then n else 3
  }

  /** A draw moves cards and loses none: the hand it replaces is the only
      thing missing afterwards. */
  lemma DrawnKeepsCards(f: Fields, g: Fields)
    requires Drawn(f, g)
    ensures AllCards(g) + multiset(f.presidentPolicyHand) == AllCards(f)
  {
    if |f.policyDeck| >= 3 {
      assert f.policyDeck == g.presidentPolicyHand + g.policyDeck;
    }
  }

  /** With every card in the game and at most ten of them enacted, the
      president draws a full hand of three. */
  lemma FullDraw(f: Fields, g: Fields)
    requires AllCards(f) == FullDeck && Drawn(f, g)
    requires f.presidentPolicyHand == [] && f.chancellorPolicyHand == []
    requires f.liberalPoliciesEnacted + f.fascistPoliciesEnacted <= 10
    ensures |g.presidentPolicyHand| == 3
  {
    CardCount(f);
  }

  /** A draw fills at most three cards and leaves the chancellor's hand
      alone. */
  lemma DrawnHand(f: Fields, g: Fields)
    requires Drawn(f, g)
    ensures |g.presidentPolicyHand| <= 3 && g.chancellorPolicyHand == f.chancellorPolicyHand
  {
  }

  /** A legislative session loses no card: from a snapshot holding the
      whole deck with both hands empty, the draw, the discard and the
      enactment end with the whole deck again, 17 cards in all. */
  lemma SessionKeepsCards(f: Fields, g: Fields, discard: nat, connected: bool, play: nat, policy: string)
    requires AllCards(f) == FullDeck && f.presidentPolicyHand == [] && f.chancellorPolicyHand == []
    requires Drawn(f, g) && discard < |g.presidentPolicyHand|
    requires play < |PassToChancellor(g, discard, connected).chancellorPolicyHand|
    requires PolicyName(PassToChancellor(g, discard, connected).chancellorPolicyHand[play]) == policy
    ensures var e := Enact(PassToChancellor(g, discard, connected), play, policy);
            && AllCards(e) == FullDeck
            && |e.policyDeck| + |e.discardPile| + e.liberalPoliciesEnacted + e.fascistPoliciesEnacted == 17
  {
    var h := PassToChancellor(g, discard, connected);
    DrawnHand(f, g);
    DrawnKeepsCards(f, g);
    PassKeepsCards(g, discard, connected);
    EnactKeepsCards(h, play, policy);
    CardCount(Enact(h, play, policy));
  }

  /** `presidentPolicyHand.push(policyDeck.shift())` up to three times,
      stopping when the deck runs out. */
  method TakeCards(deck: seq<Policy>) returns (hand: seq<Policy>, rest: seq<Policy>)
    ensures hand == deck[..Min3(|deck|)] && rest == deck[Min3(|deck|)..]
  {
    hand := [];
    rest := deck;
    for i := 0 to 3
      invariant |hand| <= i && hand + rest == deck
      invariant |hand| < i ==> rest == []
    {
      if |rest| > 0 {
        hand := hand + [rest[0]];
        rest := rest[1..];
      } else {
        break;
      }
    }
  }

  /** After a failed vote the callback `selectPresident` steps once more: the
      candidacy moves on twice from where it stood. */
  lemma FailedVoteAdvancesTwice(f: Fields, clients: set<Id>)
    requires !VotePassed(f.votesFor, |f.playerKeys|)
    ensures Nominate(Tally(f), clients).currentPresidentCandidateId
            == Advance(ActiveOrder(f.playerOrder, f.players), f.currentPresidentCandidateId, 2)
  {
    SuccessiveIsStep(f.playerOrder, f.players, f.currentPresidentCandidateId);
    SuccessiveIsStep(f.playerOrder, f.players, Tally(f).currentPresidentCandidateId);
  }

  /** So does the callback `NextRound`. */
  lemma NextRoundAdvancesTwice(f: Fields, clients: set<Id>)
    ensures Nominate(Rotate(f), clients).currentPresidentCandidateId
            == Advance(ActiveOrder(f.playerOrder, f.players), f.currentPresidentCandidateId, 2)
  {
    SuccessiveIsStep(f.playerOrder, f.players, f.currentPresidentCandidateId);
    SuccessiveIsStep(f.playerOrder, f.players, Rotate(f).currentPresidentCandidateId);
  }

  /** With three or more eligible players, a failed vote passes over the next
      player in the order: the candidate after the failure is two seats on. */
  lemma FailedVoteSkipsNext(f: Fields, clients: set<Id>, i: nat)
    requires Consistent(f) && !VotePassed(f.votesFor, |f.playerKeys|)
    requires i + 2 < |ActiveOrder(f.playerOrder, f.players)|
    requires f.currentPresidentCandidateId == Some(ActiveOrder(f.playerOrder, f.players)[i])
    ensures var active := ActiveOrder(f.playerOrder, f.players);
            && Nominate(Tally(f), clients).currentPresidentCandidateId == Some(active[i + 2])
            && Nominate(Tally(f), clients).currentPresidentCandidateId != Some(active[i + 1])
  {
    var active := ActiveOrder(f.playerOrder, f.players);
    assert forall j :: 0 <= j < |active| ==> active[j] in f.playerOrder;
    FailedVoteAdvancesTwice(f, clients);
    DoubleAdvanceSkips(active, i);
  }

  class MyRoom {
    const state: MyRoomState
    ghost var broadcasts: seq<Broadcast>

    ghost predicate Valid()
      reads state
    {
      state.Valid()
    }

    constructor ()
      ensures Valid() && fresh(state)
      ensures state.Snapshot() == Initial && broadcasts == []
    {
      state := new MyRoomState();
      broadcasts := [];
    }

    /** `onJoin`: a new session gets a player record; the first one in an
        empty room becomes its creator. */
    method OnJoin(id: Id, nickname: string)
      requires Valid()
      requires id != "" && id !in state.players && |state.playerKeys| < MaxClients
      modifies state
      ensures Valid()
      ensures state.Snapshot() == Join(old(state.Snapshot()), id, nickname)
    {
      ghost var joined := Join(state.Snapshot(), id, nickname);
      JoinKeepsConsistent(state.Snapshot(), id, nickname);
      var player := NewPlayer(JoinNickname(id, nickname));
      if |state.playerKeys| == 0 {
        state.creatorId := Some(id);
      }
      state.players := state.players[id := player];
      state.playerKeys := state.playerKeys + [id];
      assert state.Snapshot() == joined;
    }

    /** `onLeave`: the player record goes at once, whether or not the leave
        was consented; a departing creator hands over to the first player
        left. The succession order keeps the key. */
    method OnLeave(id: Id, consented: bool)
      requires Valid()
      modifies state
      ensures Valid()
      ensures state.Snapshot() == Leave(old(state.Snapshot()), id)
    {
      ghost var left := Leave(state.Snapshot(), id);
      LeaveKeepsConsistent(state.Snapshot(), id);
      var keys := RemoveFirst(state.playerKeys, id);
      state.players := state.players - {id};
      state.playerKeys := keys;
      if state.creatorId == Some(id) && |state.playerKeys| > 0 {
        state.creatorId := Some(keys[0]);
      }
      assert state.Snapshot() == left;
    }

    /** `toggle-ready`: flips the sender's flag. */
    method ToggleReady(sender: Id)
      requires Valid()
      modifies state
      ensures Valid()
      ensures sender !in old(state.players) ==> state.Snapshot() == old(state.Snapshot())
      ensures sender in old(state.players) ==>
                state.Snapshot() == old(state.Snapshot()).(
                  players := old(state.players)[sender := old(state.players)[sender].(ready := !old(state.players)[sender].ready)])
    {
      if sender in state.players {
        var player := state.players[sender];
        state.players := state.players[sender := player.(ready := !player.ready)];
      }
    }

    /** `start-game`: only the creator, and only once every player is ready;
        the state does not have to be in the lobby. */
    method StartGame(sender: Id) returns (timer: Option<Timer>)
      requires Valid()
      modifies this, state
      ensures Valid()
      ensures old(state.creatorId) == Some(sender) && AllReady(old(state.Snapshot())) ==>
                && state.Snapshot() == old(state.Snapshot()).(gameStarted := true)
                && broadcasts == old(broadcasts) + [GameStarted]
                && timer == Some(RolesTimer)
      ensures !(old(state.creatorId) == Some(sender) && AllReady(old(state.Snapshot()))) ==>
                && state.Snapshot() == old(state.Snapshot())
                && broadcasts == old(broadcasts)
                && timer == None
    {
      timer := None;
      if state.creatorId == Some(sender) {
        if AllReady(state.Snapshot()) {
          state.gameStarted := true;
          broadcasts := broadcasts + [GameStarted];
          timer := Some(RolesTimer);
        }
      }
    }
  
    /** The callback one second after `start-game`: roles are dealt, the
        succession order becomes the key order, the president selection is
        scheduled and the policy deck is rebuilt. */
    method OnRolesTimer() returns (timer: Option<Timer>)
      requires Valid()
      modifies state
      ensures Valid()
      ensures timer == Some(SelectPresidentTimer)
      ensures state.Snapshot() == old(state.Snapshot()).(
                players := state.players, playerOrder := old(state.playerKeys),
                policyDeck := state.policyDeck, discardPile := [])
      ensures Dealt(old(state.playerKeys), old(state.players), state.players)
      ensures multiset(state.policyDeck) == FullDeck
    {
      AssignRoles();
      KeysNotEmpty(state.Snapshot());
      state.playerOrder := state.playerKeys;
      timer := Some(SelectPresidentTimer);
      InitializePolicyDeck();
    }

    /** `assignRoles`: for a player count in the table, the roles are built,
        shuffled and dealt along the key order; for any other count nothing
        changes. */
    method AssignRoles()
      requires Valid()
      modifies state
      ensures Valid()
      ensures state.Snapshot() == old(state.Snapshot()).(players := state.players)
      ensures Dealt(old(state.playerKeys), old(state.players), state.players)
    {
      var playerCount := |state.playerKeys|;
      if RoleTable(playerCount).None? {
        return;
      }
      var roles := ShuffledRoles(playerCount);
      var dealt := Deal(state.playerKeys, state.players, roles);
      ghost var target := state.Snapshot().(players := dealt);
      ConsistentFrame(state.Snapshot(), target);
      DealtByTable(state.playerKeys, state.players, dealt, roles);
      state.players := dealt;
      assert state.Snapshot() == target;
    }

    /** `initializePolicyDeck`: the deck becomes a shuffle of six liberal and
        eleven fascist cards and the discard pile is emptied. */
    method InitializePolicyDeck()
      requires Valid()
      modifies state
      ensures Valid()
      ensures state.Snapshot() == old(state.Snapshot()).(policyDeck := state.policyDeck, discardPile := [])
      ensures multiset(state.policyDeck) == FullDeck
    {
      var deck := [];
      for i := 0 to 6
        invariant multiset(deck) == Cards(i, 0)
        modifies {}
      {
        AddCard(i, 0);
        deck := deck + [LiberalPolicy];
      }
      for i := 0 to 11
        invariant multiset(deck) == Cards(6, i)
        modifies {}
      {
        AddCard(6, i);
        deck := deck + [FascistPolicy];
      }
      var shuffled := Shuffle(deck);
      ConsistentFrame(state.Snapshot(), state.Snapshot().(policyDeck := shuffled, discardPile := []));
      state.discardPile := [];
      state.policyDeck := shuffled;
    }
  
    /** `selectPresident`: the candidacy moves to the next eligible player
        and is announced; the candidate's phase `selectingChancellor` starts
        only when that player is connected. */
    method SelectPresident(clients: set<Id>)
      requires Valid()
      modifies this, state
      ensures Valid()
      ensures state.Snapshot() == Nominate(old(state.Snapshot()), clients)
      ensures broadcasts == old(broadcasts) + NominationLog(old(state.Snapshot()))
    {
      ghost var target := Nominate(state.Snapshot(), clients);
      ConsistentFrame(state.Snapshot(), target);
      if |state.playerOrder| == 0 {
        return;
      }
      var active := ActiveOrder(state.playerOrder, state.players);
      if |active| == 0 {
        return;
      }
      var currentIndex := CurrentIndex(active, state.currentPresidentCandidateId);
      var nextIndex := (currentIndex + 1) % |active|;
      var found := ScanEligible(active, state.players, nextIndex);
      ScanOnActive(state.playerOrder, state.players, nextIndex);
      SuccessorIsModulo(active, state.currentPresidentCandidateId);
      var presidentId := found.value;
      state.currentPresidentCandidateId := Some(presidentId);
      broadcasts := broadcasts + [PresidentCandidateInfo(presidentId)];
      if presidentId in clients {
        state.currentPhase := SelectingChancellor;
      }
      assert state.Snapshot() == target;
    }

    /** `selectNextPresident`: the same step of the candidacy, without the
        announcement and the phase change. */
    method SelectNextPresident()
      modifies state
      ensures state.Snapshot() == Rotate(old(state.Snapshot()))
    {
      ghost var target := Rotate(state.Snapshot());
      var active := ActiveOrder(state.playerOrder, state.players);
      if |active| == 0 {
        return;
      }
      if !Truthy(state.currentPresidentCandidateId) {
        state.currentPresidentCandidateId := Some(active[0]);
      } else {
        var currentIndex := IndexOf(active, state.currentPresidentCandidateId.value);
        var nextIndex := (currentIndex + 1) % |active|;
        var found := ScanEligible(active, state.players, nextIndex);
        ScanOnActive(state.playerOrder, state.players, nextIndex);
        SuccessorIsModulo(active, state.currentPresidentCandidateId);
        state.currentPresidentCandidateId := Some(found.value);
      }
      assert state.Snapshot() == target;
    }

    /** `startVotingPhase`. */
    method StartVotingPhase()
      modifies this, state
      ensures state.Snapshot() == OpenVote(old(state.Snapshot()))
      ensures broadcasts == old(broadcasts)
                + [StartVote(old(state.currentPresidentCandidateId), old(state.currentChancellorCandidateId))]
    {
      state.currentPhase := Voting;
      state.votesFor := 0;
      state.votesAgainst := 0;
      state.votedPlayers := map[];
      broadcasts := broadcasts + [StartVote(state.currentPresidentCandidateId, state.currentChancellorCandidateId)];
    }

    /** `chancellor-selected`: the president candidate names any player of
        the room, themself included, in any phase, and the vote opens. */
    method ChancellorSelected(sender: Id, chancellorId: Id)
      requires Valid()
      modifies this, state
      ensures Valid()
      ensures old(state.currentPresidentCandidateId) == Some(sender) && chancellorId in old(state.players) ==>
                && state.Snapshot() == OpenVote(old(state.Snapshot()).(currentChancellorCandidateId := Some(chancellorId)))
                && broadcasts == old(broadcasts) + [StartVote(Some(sender), Some(chancellorId))]
      ensures !(old(state.currentPresidentCandidateId) == Some(sender) && chancellorId in old(state.players)) ==>
                state.Snapshot() == old(state.Snapshot()) && broadcasts == old(broadcasts)
    {
      if state.currentPresidentCandidateId == Some(sender) {
        if chancellorId in state.players {
          ghost var target := OpenVote(state.Snapshot().(currentChancellorCandidateId := Some(chancellorId)));
          ConsistentFrame(state.Snapshot(), target);
          state.currentChancellorCandidateId := Some(chancellorId);
          StartVotingPhase();
          assert state.Snapshot() == target;
        }
      }
    }

    /** `cast-vote`: a ballot counts only in the voting phase, once per
        sender, and only as "for" or "against"; the ballot that makes the
        number of voters equal to the number of players closes the vote. */
    method CastVote(sender: Id, vote: string) returns (timer: Option<Timer>)
      requires Valid()
      modifies this, state
      ensures Valid()
      ensures !Accepted(old(state.Snapshot()), sender, vote) ==>
                state.Snapshot() == old(state.Snapshot()) && broadcasts == old(broadcasts) && timer == None
      ensures Accepted(old(state.Snapshot()), sender, vote) ==>
                var cast := Cast(old(state.Snapshot()), sender, vote);
                if |cast.votedPlayers| == |cast.playerKeys| then
                  && state.Snapshot() == Tally(cast)
                  && broadcasts == old(broadcasts) + [TallyMessage(cast)]
                  && timer == Some(TallyTimer(cast))
                else
                  state.Snapshot() == cast && broadcasts == old(broadcasts) && timer == None
    {
      timer := None;
      if state.currentPhase != Voting {
        return;
      }
      if sender in state.votedPlayers {
        return;
      }
      var ballot := BallotOf(vote);
      if ballot.None? {
        return;
      }
      ConsistentFrame(state.Snapshot(), Cast(state.Snapshot(), sender, vote));
      CountBallot(sender, vote);
      if |state.votedPlayers| == |state.playerKeys| {
        timer := EndVotingPhase();
      }
    }

    /** The counter of the ballot goes up and the sender is recorded. */
    method CountBallot(sender: Id, vote: string)
      requires BallotOf(vote).Some?
      modifies state
      ensures state.Snapshot() == Cast(old(state.Snapshot()), sender, vote)
    {
      ghost var cast := Cast(state.Snapshot(), sender, vote);
      if BallotOf(vote) == Some(For) {
        state.votesFor := state.votesFor + 1;
      } else {
        state.votesAgainst := state.votesAgainst + 1;
      }
      state.votedPlayers := state.votedPlayers[sender := true];
      assert state.Snapshot() == cast;
    }

    /** `endVotingPhase`: the tally, its announcement and the callback it
        schedules. */
    method EndVotingPhase() returns (timer: Option<Timer>)
      requires Valid()
      modifies this, state
      ensures Valid()
      ensures state.Snapshot() == Tally(old(state.Snapshot()))
      ensures broadcasts == old(broadcasts) + [TallyMessage(old(state.Snapshot()))]
      ensures timer == Some(TallyTimer(old(state.Snapshot())))
    {
      ghost var target := Tally(state.Snapshot());
      ghost var message := TallyMessage(state.Snapshot());
      ConsistentFrame(state.Snapshot(), target);
      state.currentPhase := VotingResults;
      var votePassed := VotePassed(state.votesFor, |state.playerKeys|);
      if votePassed {
        SeatGovernment();
      } else {
        SelectNextPresident();
      }
      broadcasts := broadcasts + [VotingResultsMessage(state.currentPresidentCandidateId,
                                  state.currentChancellorCandidateId, votePassed,
                                  state.votesFor, state.votesAgainst)];
      ClearVotes();
      if !votePassed {
        timer := Some(SelectPresidentTimer);
      } else {
        state.currentPhase := GamePlay;
        timer := Some(PolicyPhaseTimer);
      }
      assert state.Snapshot() == target;
    }
  
    /** The candidates take office. */
    method SeatGovernment()
      modifies state
      ensures state.Snapshot() == old(state.Snapshot()).(presidentId := old(state.currentPresidentCandidateId),
                                                        chancellorId := old(state.currentChancellorCandidateId))
    {
      state.presidentId := state.currentPresidentCandidateId;
      state.chancellorId := state.currentChancellorCandidateId;
    }

    /** Both counts back to 0 and `votedPlayers.clear()`. */
    method ClearVotes()
      modifies state
      ensures state.Snapshot() == old(state.Snapshot()).(votesFor := 0, votesAgainst := 0, votedPlayers := map[])
    {
      state.votesFor := 0;
      state.votesAgainst := 0;
      state.votedPlayers := map[];
    }

    /** `startPolicyPhase`: the phase `presidentPolicy`, then the draw. */
    method StartPolicyPhase()
      requires Valid()
      modifies state
      ensures Valid()
      ensures Drawn(old(state.Snapshot()).(currentPhase := PresidentPolicy), state.Snapshot())
      ensures AllCards(state.Snapshot()) + multiset(old(state.presidentPolicyHand))
              == AllCards(old(state.Snapshot()))
    {
      ghost var f := state.Snapshot();
      state.currentPhase := PresidentPolicy;
      DrawPoliciesForPresident();
      DrawnKeepsCards(f.(currentPhase := PresidentPolicy), state.Snapshot());
      ConsistentFrame(f, state.Snapshot());
    }

    method DrawPoliciesForPresident()
      modifies state
      ensures Drawn(old(state.Snapshot()), state.Snapshot())
    {
      ghost var f := state.Snapshot();
      state.presidentPolicyHand := [];
      if |state.policyDeck| < 3 {
        ReshuffleDiscardPile();
        assert |state.policyDeck| == |f.policyDeck| + |f.discardPile| by {
          assert |multiset(state.policyDeck)| == |multiset(f.policyDeck + f.discardPile)|;
        }
      }
      ghost var pile := state.policyDeck;
      var hand, rest := TakeCards(state.policyDeck);
      state.presidentPolicyHand := hand;
      state.policyDeck := rest;
      assert hand + rest == pile by {
        assert pile == pile[..Min3(|pile|)] + pile[Min3(|pile|)..];
      }
    }

    /** `reshuffleDiscardPile`: the discard pile goes under the deck and the
        whole deck is shuffled. */
    method ReshuffleDiscardPile()
      modifies state
      ensures state.Snapshot() == old(state.Snapshot()).(policyDeck := state.policyDeck, discardPile := [])
      ensures multiset(state.policyDeck) == multiset(old(state.policyDeck) + old(state.discardPile))
    {
      var pile := state.policyDeck + state.discardPile;
      state.discardPile := [];
      var shuffled := Shuffle(pile);
      state.policyDeck := shuffled;
    }

    /** `president-discard-policy`: the president, in the phase
        `presidentPolicy`, discards a card of the hand by name; a name no
        card has is ignored. */
    method PresidentDiscardPolicy(sender: Id, policy: string, clients: set<Id>)
      requires Valid()
      modifies state
      ensures Valid()
      ensures var f := old(state.Snapshot());
              var idx := HandIndex(f.presidentPolicyHand, policy);
              if f.presidentId == Some(sender) && f.currentPhase == PresidentPolicy && idx >= 0
              then state.Snapshot() == PassToChancellor(f, idx, ChancellorConnected(f, clients))
              else state.Snapshot() == f
    {
      if state.presidentId != Some(sender) || state.currentPhase != PresidentPolicy {
        return;
      }
      var policyIndex := HandIndex(state.presidentPolicyHand, policy);
      if policyIndex > -1 {
        PassKeepsConsistent(state.Snapshot(), policyIndex, ChancellorConnected(state.Snapshot(), clients));
        PassCard(policyIndex, clients);
      }
    }

    /** The card at `idx` to the discard pile, the others to the chancellor,
        and the phase `chancellorPolicy` when the chancellor is connected. */
    method PassCard(idx: nat, clients: set<Id>)
      requires idx < |state.presidentPolicyHand|
      modifies state
      ensures state.Snapshot() == PassToChancellor(old(state.Snapshot()), idx, ChancellorConnected(old(state.Snapshot()), clients))
    {
      ghost var target := PassToChancellor(state.Snapshot(), idx, ChancellorConnected(state.Snapshot(), clients));
      var hand := state.presidentPolicyHand;
      state.discardPile := state.discardPile + [hand[idx]];
      var rest := RemoveAt(hand, idx);
      state.chancellorPolicyHand := rest;
      state.presidentPolicyHand := [];
      if state.chancellorId.Some? && state.chancellorId.value in clients {
        state.currentPhase := ChancellorPolicy;
      }
      assert state.Snapshot() == target;
    }

    /** `chancellor-play-policy`: the chancellor, in the phase
        `chancellorPolicy`, enacts a card of the hand by name; then the
        assassination or the victory checks follow. */
    method ChancellorPlayPolicy(sender: Id, policy: string) returns (timer: Option<Timer>)
      requires Valid()
      modifies this, state
      ensures Valid()
      ensures !Plays(old(state.Snapshot()), sender, policy) ==>
                state.Snapshot() == old(state.Snapshot()) && broadcasts == old(broadcasts) && timer == None
      ensures Plays(old(state.Snapshot()), sender, policy) ==>
                var e := Enact(old(state.Snapshot()), HandIndex(old(state.chancellorPolicyHand), policy), policy);
                && state.Snapshot() == AfterEnactment(e, policy)
                && broadcasts == old(broadcasts)
                     + [PolicyPlayed(policy, e.liberalPoliciesEnacted, e.fascistPoliciesEnacted)]
                     + AfterEnactmentLog(e, policy)
                && timer == AfterEnactmentTimer(e, policy)
    {
      timer := None;
      if state.chancellorId != Some(sender) || state.currentPhase != ChancellorPolicy {
        return;
      }
      var policyIndex := HandIndex(state.chancellorPolicyHand, policy);
      if policyIndex > -1 {
        EnactPolicy(policyIndex, policy);
        if PolicyOf(policy) == Some(FascistPolicy)
           && (state.fascistPoliciesEnacted == 4 || state.fascistPoliciesEnacted == 5) {
          StartAssassinationPhase();
        } else {
          var gameOver := CheckWinConditions();
          if !gameOver {
            timer := Some(NextRoundTimer);
          }
        }
      }
    }

    /** The enactment proper: the track, the discard, the cleared hand, the
        `policy-played` broadcast and the phase `gamePlay`. */
    method EnactPolicy(idx: nat, policy: string)
      requires Valid() && idx < |state.chancellorPolicyHand|
      modifies this, state
      ensures Valid()
      ensures state.Snapshot() == Enact(old(state.Snapshot()), idx, policy)
      ensures broadcasts == old(broadcasts)
                + [PolicyPlayed(policy, state.liberalPoliciesEnacted, state.fascistPoliciesEnacted)]
    {
      ghost var target := Enact(state.Snapshot(), idx, policy);
      ConsistentFrame(state.Snapshot(), target);
      var hand := RemoveAt(state.chancellorPolicyHand, idx);
      MoveTrack(policy);
      DiscardRest(hand);
      broadcasts := broadcasts + [PolicyPlayed(policy, state.liberalPoliciesEnacted, state.fascistPoliciesEnacted)];
      assert state.Snapshot() == target;
    }

    /** The first card left over goes on the discard pile, the hand is
        cleared and the phase is `gamePlay`. */
    method DiscardRest(rest: seq<Policy>)
      modifies state
      ensures state.Snapshot() == old(state.Snapshot()).(
                discardPile := old(state.discardPile) + (if |rest| > 0 then [rest[0]] else []),
                chancellorPolicyHand := [], currentPhase := GamePlay)
    {
      if |rest| > 0 {
        state.discardPile := state.discardPile + [rest[0]];
      }
      state.chancellorPolicyHand := [];
      state.currentPhase := GamePlay;
    }

    /** `liberalPoliciesEnacted++` or `fascistPoliciesEnacted++`, by the
        payload. */
    method MoveTrack(policy: string)
      modifies state
      ensures state.Snapshot() == Track(old(state.Snapshot()), policy)
    {
      var played := PolicyOf(policy);
      if played == Some(LiberalPolicy) {
        state.liberalPoliciesEnacted := state.liberalPoliciesEnacted + 1;
      } else if played == Some(FascistPolicy) {
        state.fascistPoliciesEnacted := state.fascistPoliciesEnacted + 1;
      }
    }

    method StartAssassinationPhase()
      modifies state
      ensures state.Snapshot() == old(state.Snapshot()).(currentPhase := Assassination)
    {
      state.currentPhase := Assassination;
    }

    /** `checkWinConditions`: the checks in their order; the first that holds
        ends the game. */
    method CheckWinConditions() returns (over: bool)
      modifies this, state
      ensures over == WinOf(old(state.Snapshot())).Some?
      ensures state.Snapshot() == Concluded(old(state.Snapshot()))
      ensures broadcasts == old(broadcasts) + ConclusionLog(old(state.Snapshot()))
    {
      var hitler := FindHitler(state.playerKeys, state.players);
      var chancellor := state.chancellorId;
      var win: Option<WinReason> := None;
      if hitler.Some? && hitler.value.isEliminated {
        win := Some(HitlerAssassinated);
      } else if chancellor.Some? && chancellor.value in state.players
         && state.players[chancellor.value].role == Hitler && state.fascistPoliciesEnacted == 4 {
        win := Some(HitlerChancellor);
      } else if state.liberalPoliciesEnacted >= 5 {
        win := Some(LiberalPolicies);
      } else if state.fascistPoliciesEnacted >= 6 {
        win := Some(FascistPolicies);
      }
      assert win == WinOf(state.Snapshot());
      if win.Some? {
        GameOver(TeamName(Winner(win.value)), Message(win.value));
      }
      return win.Some?;
    }

    /** `gameOver`. */
    method GameOver(winner: string, message: string)
      modifies this, state
      ensures state.Snapshot() == old(state.Snapshot()).(currentPhase := Phase.GameOver)
      ensures broadcasts == old(broadcasts) + [GameOverMessage(winner, message)]
    {
      state.currentPhase := Phase.GameOver;
      broadcasts := broadcasts + [GameOverMessage(winner, message)];
    }

    /** `president-assassinate-player`: the president eliminates a player
        who is not yet eliminated, then the victory checks run. */
    method PresidentAssassinatePlayer(sender: Id, targetId: Id) returns (timer: Option<Timer>)
      requires Valid()
      modifies this, state
      ensures Valid()
      ensures !Assassinates(old(state.Snapshot()), sender, targetId) ==>
                state.Snapshot() == old(state.Snapshot()) && broadcasts == old(broadcasts) && timer == None
      ensures Assassinates(old(state.Snapshot()), sender, targetId) ==>
                var e := Eliminate(old(state.Snapshot()), targetId);
                && state.Snapshot() == Concluded(e)
                && broadcasts == old(broadcasts) + [PlayerEliminated(targetId)] + ConclusionLog(e)
                && timer == (if WinOf(e).Some? then None else Some(NextRoundTimer))
    {
      timer := None;
      if state.presidentId != Some(sender) || state.currentPhase != Assassination {
        return;
      }
      if targetId in state.players && !state.players[targetId].isEliminated {
        ghost var e := Eliminate(state.Snapshot(), targetId);
        EliminateKeepsConsistent(state.Snapshot(), targetId);
        EliminatePlayer(targetId);
        assert state.Snapshot() == e;
        broadcasts := broadcasts + [PlayerEliminated(targetId)];
        ConsistentFrame(e, Concluded(e));
        var gameOver := CheckWinConditions();
        if !gameOver {
          timer := Some(NextRoundTimer);
        }
      }
    }

    /** The target marked eliminated and spliced out of the succession order. */
    method EliminatePlayer(targetId: Id)
      requires targetId in state.players
      modifies state
      ensures state.players == old(state.players)[targetId := old(state.players)[targetId].(isEliminated := true)]
      ensures state.playerOrder == RemoveFirst(old(state.playerOrder), targetId)
      ensures state.Snapshot() == old(state.Snapshot()).(players := state.players, playerOrder := state.playerOrder)
    {
      MarkEliminated(targetId);
      SpliceOrder(targetId);
    }

    /** `player.isEliminated = true`. */
    method MarkEliminated(targetId: Id)
      requires targetId in state.players
      modifies state
      ensures state.Snapshot() == old(state.Snapshot()).(
                players := old(state.players)[targetId := old(state.players)[targetId].(isEliminated := true)])
    {
      var targetPlayer := state.players[targetId];
      state.players := state.players[targetId := targetPlayer.(isEliminated := true)];
    }

    /** `indexOf` and, when found, `splice(playerIndex, 1)` on the
        succession order. */
    method SpliceOrder(targetId: Id)
      modifies state
      ensures state.playerOrder == RemoveFirst(old(state.playerOrder), targetId)
      ensures state.Snapshot() == old(state.Snapshot()).(playerOrder := state.playerOrder)
    {
      var order := state.playerOrder;
      var playerIndex := IndexOf(order, targetId);
      var spliced := if playerIndex > -1 then RemoveAt(order, playerIndex) else order;
      state.playerOrder := spliced;
    }

    /** The callback scheduled after an enactment or an assassination:
        `selectNextPresident` and then `selectPresident`. */
    method NextRound(clients: set<Id>)
      requires Valid()
      modifies this, state
      ensures Valid()
      ensures state.Snapshot() == Nominate(Rotate(old(state.Snapshot())), clients)
      ensures broadcasts == old(broadcasts) + NominationLog(Rotate(old(state.Snapshot())))
    {
      ConsistentFrame(state.Snapshot(), Rotate(state.Snapshot()));
      SelectNextPresident();
      SelectPresident(clients);
    }
  }
}
