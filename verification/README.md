# Secret Hitler rooms, modelled in Dafny

This project models the server-side rules engine of a Secret Hitler game
server, and proves properties of the model. It covers two rooms. Each
client message handler, lifecycle hook and helper step of a room becomes a
method that updates the room's state in place. Each method is proved
against a pure function of the old state.

- **The main room** (`server/src/rooms/MyRoom.ts` over
  `server/src/rooms/schema/MyRoomState.ts`) covers a whole match:
  - joining and leaving, with creator hand-over;
  - readiness and the creator's start;
  - role dealing from the table for 5 to 10 players;
  - the cyclic presidential succession over the non-eliminated players;
  - the chancellor nomination and the vote;
  - the legislative session: draw three cards, discard one, enact one;
  - the assassination power on the fourth and fifth fascist policies;
  - the four victory checks, in their priority order.
- **The prototype room** (`secret-hitler-server/src/rooms/SecretHitlerRoom.ts`
  over `secret-hitler-server/src/state/SecretHitlerState.ts`) covers:
  - naming;
  - readiness with the automatic start;
  - joining;
  - leaving, with a reconnection window;
  - its positional role assignment.

Files, one module each:

- `seqs.dfy`: `indexOf`, `splice`, distinctness, mapping, and a
  Fisher–Yates shuffle with the random index left open.
- `room_schema.dfy`: the main room's state, with a `Fields` snapshot value
  and the invariant `Consistent`.
- `succession.dfy`: presidential succession.
- `roles.dfy`: the role table.
- `policies.dfy`: policy cards and hand look-up.
- `election.dfy`: ballots and the majority rule.
- `win_conditions.dfy`: the victory checks.
- `room.dfy`: the main room's handlers (class `MyRoom`) and the
  specification functions and lemmas they are proved against.
- `proto_state.dfy`, `proto_room.dfy`: the prototype's state and room.

How the environment is modelled:

- **Connected clients.** The set `clients` is a parameter. Some steps send
  a private message and change the phase only when the recipient is
  connected; those steps take it.
- **Timers.** Each `clock.setTimeout` becomes a `Timer` value that the
  handler returns. The scheduled callback is a public method: `OnRolesTimer`,
  `SelectPresident`, `StartPolicyPhase` or `NextRound`.
- **Randomness.** Every random shuffle is an arbitrary permutation: the
  Fisher–Yates swaps choose their index with `:|`.
- **Broadcasts.** These go to a ghost log `broadcasts`, with the payload
  fields that are not nicknames or free text.
- **Player count.** `players.size` is the length of the key order
  `playerKeys`, which lists the map's keys in insertion order.

Where the intended rules of the game and the code disagree, the model
follows the code:

- By the intended rules, the Hitler-chancellor victory is decided once, at
  the enactment of the fourth fascist policy. The code does not decide
  it there: that enactment opens the assassination and skips the checks
  (`HitlerChancellorDeferred`). The checks then run after the assassination
  and declare the fascists winners at that point
  (`HitlerChancellorAfterAssassination`).
- The president may assassinate themself: the handler does not check the
  target against the sender (server/src/rooms/MyRoom.ts:163-172). The
  eliminated candidate is then missing from the filtered order, `indexOf`
  gives -1, and the succession restarts at the first seat
  (`EliminatedCandidateRestarts`).
- An assassinated player is spliced out of `playerOrder`. A failed vote, an
  enactment and an assassination each advance the candidacy twice, which
  skips a player (`FailedVoteSkipsNext`).
- The vote passes on `votesFor > players.size / 2`, counted against every
  player in the room, eliminated or not.
- `chancellor-selected` has no phase check. `start-game` does not check
  that the room is in the lobby.
- The 17 policy cards are meant to be kept at all times. The code does not
  keep them:
  - `drawPoliciesForPresident` clears the president's hand before drawing
    (server/src/rooms/MyRoom.ts:587);
  - `president-discard-policy` clears the chancellor's hand before filling
    it (server/src/rooms/MyRoom.ts:94);
  - a `start-game` sent again mid-game rebuilds the deck without resetting
    the hands or the enacted counters (server/src/rooms/MyRoom.ts:213-245,
    619-634).
  
  Both hands can hold cards at those points, because `chancellor-selected`
  can restart the vote in any phase. So conservation is not part of the
  invariant `Consistent`. Instead it is proved step by step, with the
  overwritten hand accounted for:
  - `PassKeepsCards` subtracts the old chancellor hand;
  - `DrawnKeepsCards` subtracts the old president hand;
  - `EnactKeepsCards` proves that an enactment keeps every card;
  - `SessionKeepsCards` proves that a draw, a discard and an enactment,
    started from the full deck with both hands empty, end with the full
    deck again.

## Model

| member | source | states |
|---|---|---|
| `RoomSchema.NewPlayer` | server/src/rooms/MyRoom.ts:292-294 | a new player carries the given nickname, is not ready, has no role and is not eliminated |
| `RoomSchema.MyRoomState.constructor` | server/src/rooms/schema/MyRoomState.ts:12-31 | a fresh state has no players, phase `waiting`, zero counters, empty collections and no creator, office holders or candidates |
| `RoomSchema.Cards` | server/src/rooms/MyRoom.ts:623-631 | the multiset of `l` liberal and `f` fascist cards has exactly those counts and size `l + f` |
| `RoomSchema.CardCount` | server/src/rooms/MyRoom.ts:619-634 | when a snapshot holds exactly the 17 cards of the game, deck, pile, both hands and both tracks add up to 17 |
| `Seqs.IndexOf` | server/src/rooms/MyRoom.ts:177 | `indexOf` returns -1 exactly when the element is absent; otherwise the index holds it and no earlier index does |
| `Seqs.RemoveAt` | server/src/rooms/MyRoom.ts:179 | `splice(i, 1)` keeps the elements before `i` in place and shifts the later ones down by one |
| `Seqs.RemoveAtCount` | server/src/rooms/MyRoom.ts:90 | the spliced element is the only one missing from the multiset |
| `Seqs.RemoveFirst` | server/src/rooms/MyRoom.ts:177-180 | removing the first occurrence shortens the sequence by one when the element is present and changes nothing otherwise |
| `Seqs.DistinctRemoveFirst` | server/src/rooms/MyRoom.ts:177-180 | on a sequence without repeats, the removal keeps it without repeats and drops exactly that element |
| `Seqs.Shuffle` | server/src/rooms/MyRoom.ts:637-642 | whatever index each swap picks, the result is a permutation of the input |
| `Seqs.DistinctPermutation` | secret-hitler-server/src/rooms/SecretHitlerRoom.ts:60 | a permutation of a sequence without repeats has none |
| `Seqs.MapPermutation` | secret-hitler-server/src/rooms/SecretHitlerRoom.ts:60-68 | mapping a function over two permutations of one another gives two permutations of one another |
| `Seqs.MapSize` | server/src/rooms/MyRoom.ts:344 | a map whose keys are listed once each by a sequence has as many entries as the sequence, so `players.size` is the length of the key order |
| `Succession.ActiveOrder` | server/src/rooms/MyRoom.ts:411 | the filtered order holds exactly the order's players that are not eliminated, is no longer than the order, and has no repeats when the order has none |
| `Succession.SeatsKeepOrder` | server/src/rooms/MyRoom.ts:411 | `filter` keeps the seating order: the `k`-th player kept sits at seat `Seats[k]` of `playerOrder`, and those seats strictly increase |
| `Succession.CurrentIndex` | server/src/rooms/MyRoom.ts:420-423 | the starting index is -1 or a valid index of the filtered order |
| `Succession.Successor` | server/src/rooms/MyRoom.ts:425-426 | the next candidate is a player of the filtered order; with no candidate, or one the filtered order does not hold (`indexOf` gives -1), it is the first player of the filtered order |
| `Succession.SuccessorIsModulo` | server/src/rooms/MyRoom.ts:425 | the next candidate is the one at `(currentIndex + 1) % length` |
| `Succession.Successive` | server/src/rooms/MyRoom.ts:467-507 | after one step the candidate is a non-eliminated player of the order whenever one exists; if every player is eliminated, the candidate is unchanged |
| `Succession.SuccessiveIsStep` | server/src/rooms/MyRoom.ts:469-487 | one step of either function is one step over the filtered order |
| `Succession.Scan` | server/src/rooms/MyRoom.ts:428-441 | the `attempts` loop finds only non-eliminated players of the filtered order |
| `Succession.ScanEligible` | server/src/rooms/MyRoom.ts:429-441 | the loop computes `Scan` from its start index with as many attempts as there are players |
| `Succession.ScanOnActive` | server/src/rooms/MyRoom.ts:430-437 | on the filtered order the loop stops at once, on the player it starts at |
| `Succession.SuccessorOf` | server/src/rooms/MyRoom.ts:485-487 | without repeats, the successor of the `i`-th player is the `(i+1)`-th, or the first after the last |
| `Succession.AdvanceAt` | server/src/rooms/MyRoom.ts:485-504 | `k` steps from the `i`-th player land `k` seats later, going round |
| `Succession.LaterRound` | server/src/rooms/MyRoom.ts:486 | going round a table of `n` seats `n` times comes back to the same seat |
| `Succession.SuccessionForward` | server/src/rooms/MyRoom.ts:485-504 | `k` steps from the `i`-th player reach the `(i+k)`-th while it exists |
| `Succession.SuccessionCycle` | server/src/rooms/MyRoom.ts:485-504 | `n` steps, `n` the number of eligible players, return to the starting player |
| `Succession.FirstRounds` | server/src/rooms/MyRoom.ts:420-426 | from no candidate, the first `n` steps visit every eligible player once, in the order of the filtered list, which `Succession.SeatsKeepOrder` ties to the seating order |
| `Succession.DoubleAdvanceSkips` | server/src/rooms/MyRoom.ts:151-154 | with three or more eligible players, two steps land two seats on and pass over the next player |
| `Roles.RoleTable` | server/src/rooms/MyRoom.ts:349-377 | a distribution exists exactly for 5 to 10 players; it has `(n-3)/2` fascists, `liberal + fascist + 1 == n`, and more liberals than fascists and Hitler together |
| `Roles.RoleCount` | server/src/rooms/MyRoom.ts:379-382 | the role multiset has the given liberals and fascists, exactly one Hitler and no unassigned role |
| `Roles.BuildRoles` | server/src/rooms/MyRoom.ts:379-382 | the three loops build the liberals, then the fascists, then Hitler, so the list holds the table's roles |
| `Policies.PolicyName` | server/src/rooms/MyRoom.ts:625-630 | the literal strings the deck holds; the one ensures, that both are seven characters long, only helps the solver compare payloads, and `Policies.PolicyOfName` states the round trip |
| `Policies.HandIndex` | server/src/rooms/MyRoom.ts:86 | `indexOf(payload)` on a hand is -1 exactly when no card has that name; otherwise it is the first card with that name |
| `Policies.PolicyOf` | server/src/rooms/MyRoom.ts:123-127 | a payload names a card exactly when it is that card's string; any other payload names none |
| `Policies.PolicyOfName` | server/src/rooms/MyRoom.ts:123-127 | reading back a card's name gives the card |
| `Election.BallotOf` | server/src/rooms/MyRoom.ts:59-66 | "for" and "against" are the only ballots counted; every other payload is rejected |
| `Election.VotePassed` | server/src/rooms/MyRoom.ts:533 | the vote passes exactly when `votesFor` exceeds half the player count in real division, that is, reaches `size/2 + 1` in whole votes |
| `Election.TieFails` | server/src/rooms/MyRoom.ts:533 | with an even player count, half the votes fail and one more passes |
| `WinConditions.FindHitler` | server/src/rooms/MyRoom.ts:647 | the player found is Hitler, and one is found exactly when some player of the key order is Hitler |
| `WinConditions.CheckWin` | server/src/rooms/MyRoom.ts:645-670 | the reason returned holds and no earlier-ranked one does; no reason means no condition holds |
| `WinConditions.AssassinationFirst` | server/src/rooms/MyRoom.ts:647-651 | an eliminated Hitler wins for the liberals even when six fascist policies are enacted |
| `WinConditions.CountersDecide` | server/src/rooms/MyRoom.ts:660-669 | without either Hitler condition, five liberal policies win before six fascist ones, and neither count means no winner |
| `Room.RolesOf` | server/src/rooms/MyRoom.ts:392-400 | the roles read along the key order, one per key |
| `Room.JoinKeepsConsistent` | server/src/rooms/MyRoom.ts:289-317 | a join keeps the invariant, adds one player who is neither ready nor eliminated, and makes the first player of an empty room its creator |
| `Room.LeaveKeepsConsistent` | server/src/rooms/MyRoom.ts:319-336 | a leave keeps the invariant; in particular a room with players left still has a creator among them |
| `Room.Rotate` | server/src/rooms/MyRoom.ts:467-507 | `selectNextPresident` changes only the candidate, to the next step of the succession |
| `Room.Nominate` | server/src/rooms/MyRoom.ts:404-464 | `selectPresident` moves the candidate one step; only the phase may change besides, and only to `selectingChancellor` for a connected candidate; when every player of the order is eliminated nothing changes |
| `Room.NominateOpensElection` | server/src/rooms/MyRoom.ts:455-463 | with an eligible player, a connected new candidate always opens `selectingChancellor`, and one without a client leaves the phase as it was |
| `Room.ShuffledRoles` | server/src/rooms/MyRoom.ts:379-388 | the shuffled list has one role per player and the table's role counts |
| `Room.Deal` | server/src/rooms/MyRoom.ts:391-400 | the `forEach` gives the `k`-th key the `k`-th role and changes nothing else of any player |
| `Room.DealtByTable` | server/src/rooms/MyRoom.ts:343-401 | dealing a shuffle of the table's roles along the key order gives every player the table's distribution, with one Hitler |
| `Room.PassKeepsCards` | server/src/rooms/MyRoom.ts:88-96 | a discard loses no card: it goes on the pile and the other cards go to the chancellor |
| `Room.EnactTrack` | server/src/rooms/MyRoom.ts:121-127 | the played card moves its own track up by one and leaves the other |
| `Room.EnactKeepsCards` | server/src/rooms/MyRoom.ts:119-134 | with a hand of at most two, an enactment loses no card: one is counted on its track, the other goes on the pile |
| `Room.HitlerChancellorDeferred` | server/src/rooms/MyRoom.ts:146-147 | the fourth fascist policy under a Hitler chancellor opens the assassination with no game-over, although the Hitler-chancellor condition holds |
| `Room.HitlerChancellorAfterAssassination` | server/src/rooms/MyRoom.ts:653-658 | assassinating anyone but Hitler in that state makes the checks declare the fascist Hitler-chancellor victory |
| `Room.EliminateKeepsConsistent` | server/src/rooms/MyRoom.ts:172-180 | an assassination keeps the invariant and removes exactly the target from the succession order |
| `Room.EliminatedCandidateRestarts` | server/src/rooms/MyRoom.ts:163-180 | assassinating the current candidate, the president included, makes the next step of the succession go to the first eligible player of the order |
| `Room.AssassinatingHitlerEnds` | server/src/rooms/MyRoom.ts:647-650 | assassinating the only Hitler ends the game for the liberals, with their message |
| `Room.DrawnKeepsCards` | server/src/rooms/MyRoom.ts:586-601 | a draw, with or without the reshuffle, loses no card except the hand it clears |
| `Room.FullDraw` | server/src/rooms/MyRoom.ts:594-601 | with all 17 cards in play, empty hands and at most ten enacted, the president draws three |
| `Room.DrawnHand` | server/src/rooms/MyRoom.ts:594-601 | a draw fills at most three cards and leaves the chancellor's hand alone |
| `Room.SessionKeepsCards` | server/src/rooms/MyRoom.ts:79-134 | a draw, a discard and an enactment from the full deck end with the full deck again, 17 cards in all |
| `Room.TakeCards` | server/src/rooms/MyRoom.ts:594-601 | the loop takes the top three cards, or the whole deck when it holds fewer |
| `Room.FailedVoteAdvancesTwice` | server/src/rooms/MyRoom.ts:540-567 | after a failed vote and the scheduled `selectPresident`, the candidacy has moved two steps |
| `Room.NextRoundAdvancesTwice` | server/src/rooms/MyRoom.ts:151-154 | the callback after an enactment or an assassination moves the candidacy two steps |
| `Room.FailedVoteSkipsNext` | server/src/rooms/MyRoom.ts:540-567 | with three or more eligible players, a failed vote passes over the next player in the order |
| `Room.MyRoom.constructor` | server/src/rooms/MyRoom.ts:5-7 | the room starts with the initial state and an empty broadcast log |
| `Room.MyRoom.OnJoin` | server/src/rooms/MyRoom.ts:289-317 | the new state is `Join` of the old one: the player under the session key, its nickname or `Player_` and four characters of the key, and the creator if the room was empty |
| `Room.MyRoom.OnLeave` | server/src/rooms/MyRoom.ts:319-336 | the record goes whether or not the leave was consented, and a departing creator hands over to the first key left |
| `Room.MyRoom.ToggleReady` | server/src/rooms/MyRoom.ts:201-210 | a known sender's flag flips; nothing changes for an unknown sender |
| `Room.MyRoom.StartGame` | server/src/rooms/MyRoom.ts:213-245 | only the creator, with every player ready and at least one player, sets `gameStarted`, broadcasts and schedules the roles; otherwise nothing changes |
| `Room.MyRoom.OnRolesTimer` | server/src/rooms/MyRoom.ts:223-240 | roles are dealt, the succession order becomes the key order, the deck is a permutation of the 17 cards, the pile is empty, and `selectPresident` is scheduled |
| `Room.MyRoom.AssignRoles` | server/src/rooms/MyRoom.ts:343-401 | only roles change, in the table's distribution for 5 to 10 players; for any other count nothing changes |
| `Room.MyRoom.InitializePolicyDeck` | server/src/rooms/MyRoom.ts:619-634 | the deck is a permutation of six liberal and eleven fascist cards, and the pile is empty |
| `Room.MyRoom.SelectPresident` | server/src/rooms/MyRoom.ts:404-464 | the new state is `Nominate` of the old, and the candidate is announced when one exists |
| `Room.MyRoom.SelectNextPresident` | server/src/rooms/MyRoom.ts:467-507 | the new state is `Rotate` of the old |
| `Room.MyRoom.StartVotingPhase` | server/src/rooms/MyRoom.ts:510-524 | the phase is `voting`, the tallies are cleared, and the candidates are announced |
| `Room.MyRoom.ChancellorSelected` | server/src/rooms/MyRoom.ts:26-44 | the president candidate naming any player of the room, in any phase, records the candidate and opens the vote; anything else changes nothing |
| `Room.MyRoom.CastVote` | server/src/rooms/MyRoom.ts:47-76 | only a first "for" or "against" during `voting` is counted; the ballot that makes the voter count equal the player count runs the tally |
| `Room.MyRoom.CountBallot` | server/src/rooms/MyRoom.ts:59-68 | the ballot's counter goes up by one and the sender is recorded as having voted |
| `Room.MyRoom.EndVotingPhase` | server/src/rooms/MyRoom.ts:527-577 | on a majority the candidates take office and the phase is `gamePlay` with the policy phase scheduled; otherwise the candidacy moves on and `selectPresident` is scheduled; tallies are cleared either way |
| `Room.MyRoom.SeatGovernment` | server/src/rooms/MyRoom.ts:536-538 | the candidates become president and chancellor and nothing else changes |
| `Room.MyRoom.ClearVotes` | server/src/rooms/MyRoom.ts:558-561 | both counts are zero, no one has voted, and nothing else changes |
| `Room.MyRoom.StartPolicyPhase` | server/src/rooms/MyRoom.ts:580-583 | the phase is `presidentPolicy` and the president draws; no card is lost except the hand it replaces |
| `Room.MyRoom.DrawPoliciesForPresident` | server/src/rooms/MyRoom.ts:586-608 | the hand is the top three cards; with fewer than three in the deck the pile is shuffled in first and the hand takes what there is, up to three |
| `Room.MyRoom.ReshuffleDiscardPile` | server/src/rooms/MyRoom.ts:611-616 | the deck becomes a permutation of deck plus pile, and the pile is empty |
| `Room.MyRoom.PresidentDiscardPolicy` | server/src/rooms/MyRoom.ts:79-107 | the president, in `presidentPolicy`, discards the first card of the named kind; any other message changes nothing |
| `Room.MyRoom.PassCard` | server/src/rooms/MyRoom.ts:88-103 | the card goes on the pile, the others go to the chancellor, and the phase becomes `chancellorPolicy` only for a connected chancellor |
| `Room.MyRoom.ChancellorPlayPolicy` | server/src/rooms/MyRoom.ts:110-160 | the chancellor, in `chancellorPolicy`, enacts a named card from the hand; then comes the assassination on fascist 4 or 5, or else the checks and the next round; any other message changes nothing |
| `Room.MyRoom.EnactPolicy` | server/src/rooms/MyRoom.ts:119-144 | the new state is `Enact` of the old, and `policy-played` carries the new counters |
| `Room.MyRoom.DiscardRest` | server/src/rooms/MyRoom.ts:131-144 | the first leftover card goes on the pile, the hand is cleared and the phase is `gamePlay` |
| `Room.MyRoom.MoveTrack` | server/src/rooms/MyRoom.ts:123-127 | the counter of the named card goes up; a payload naming no card moves neither |
| `Room.MyRoom.StartAssassinationPhase` | server/src/rooms/MyRoom.ts:673-684 | only the phase changes, to `assassination` |
| `Room.MyRoom.CheckWinConditions` | server/src/rooms/MyRoom.ts:645-670 | returns whether a victory holds; if one does, the phase is `gameOver` and its winner and message are broadcast |
| `Room.MyRoom.GameOver` | server/src/rooms/MyRoom.ts:687-691 | the phase is `gameOver` and the winner and message are broadcast |
| `Room.MyRoom.PresidentAssassinatePlayer` | server/src/rooms/MyRoom.ts:163-198 | the president, in `assassination`, eliminates a non-eliminated player, the checks run, and the next round is scheduled if no one won; any other message changes nothing |
| `Room.MyRoom.EliminatePlayer` | server/src/rooms/MyRoom.ts:172-180 | the target is marked eliminated and spliced out of the succession order, and nothing else changes |
| `Room.MyRoom.MarkEliminated` | server/src/rooms/MyRoom.ts:173 | only the target's `isEliminated` is set, and nothing else changes |
| `Room.MyRoom.SpliceOrder` | server/src/rooms/MyRoom.ts:177-180 | the succession order loses the first occurrence of the target when it holds one, and nothing else changes |
| `Room.MyRoom.NextRound` | server/src/rooms/MyRoom.ts:151-154 | the callback is `selectNextPresident` followed by `selectPresident` |
| `ProtoState.SecretHitlerState.constructor` | secret-hitler-server/src/state/SecretHitlerState.ts:13-21 | a fresh state has no players, phase `lobby`, zero counters and empty office holders |
| `ProtoRoom.Truncate` | secret-hitler-server/src/rooms/SecretHitlerRoom.ts:13 | `slice(0, 32)` gives a prefix of at most 32 characters: the whole name when short enough, exactly 32 otherwise |
| `ProtoRoom.DigitChar` | secret-hitler-server/src/rooms/SecretHitlerRoom.ts:35 | a digit's character has that digit's value |
| `ProtoRoom.DecimalString` | secret-hitler-server/src/rooms/SecretHitlerRoom.ts:35 | a count prints as a non-empty string of decimal digits without a leading zero |
| `ProtoRoom.DecimalRoundTrip` | secret-hitler-server/src/rooms/SecretHitlerRoom.ts:35 | reading back the printed count gives the count |
| `ProtoRoom.DefaultNamesDiffer` | secret-hitler-server/src/rooms/SecretHitlerRoom.ts:35 | two different client counts give two different default names; the code does not promise unique names, since `clients.length` returns to an earlier value after a leave and a join, and then the name repeats |
| `ProtoRoom.TablesAgree` | secret-hitler-server/src/rooms/SecretHitlerRoom.ts:59 | for 5 to 10 players, `fascistsNeeded` and the liberals left over are the main room's table |
| `ProtoRoom.RolesOf` | secret-hitler-server/src/rooms/SecretHitlerRoom.ts:62-68 | the roles read along a key order, one per key |
| `ProtoRoom.JoinKeepsConsistent` | secret-hitler-server/src/rooms/SecretHitlerRoom.ts:33-38 | a join keeps the key order in step with the players, and the joining player is connected |
| `ProtoRoom.RemoveKeepsConsistent` | secret-hitler-server/src/rooms/SecretHitlerRoom.ts:49 | a delete keeps the key order in step and removes the player from both |
| `ProtoRoom.ReconnectRestores` | secret-hitler-server/src/rooms/SecretHitlerRoom.ts:40-47 | a disconnection followed by a reconnection leaves the player as it was, connected |
| `ProtoRoom.MarkKeepsConsistent` | secret-hitler-server/src/rooms/SecretHitlerRoom.ts:17-18 | setting the ready flag keeps the key order in step |
| `ProtoRoom.AutoStartDealsTable` | secret-hitler-server/src/rooms/SecretHitlerRoom.ts:19-23 | an automatic start deals exactly the main room's role counts for that player count |
| `ProtoRoom.DealtAssignsEveryone` | secret-hitler-server/src/rooms/SecretHitlerRoom.ts:62-68 | after a deal, no player is left without a role |
| `ProtoRoom.Positions` | secret-hitler-server/src/rooms/SecretHitlerRoom.ts:62-68 | the roles by position, one per position |
| `ProtoRoom.PositionsCount` | secret-hitler-server/src/rooms/SecretHitlerRoom.ts:62-68 | the roles by position are `fascistsNeeded` fascists, one Hitler and liberals for the rest |
| `ProtoRoom.AssignPrototypeRoles` | secret-hitler-server/src/rooms/SecretHitlerRoom.ts:61-68 | the `forEach` gives the ids in the set of the first `fascistsNeeded` the fascist role, the next id Hitler and the rest liberal; it changes nothing but roles, and a player whose id is not in the shuffled list keeps its record unchanged |
| `ProtoRoom.PrefixMember` | secret-hitler-server/src/rooms/SecretHitlerRoom.ts:61 | in a sequence without repeats, an id is in `new Set(slice(0, cut))` exactly when its position is below `cut` |
| `ProtoRoom.DealtByPosition` | secret-hitler-server/src/rooms/SecretHitlerRoom.ts:53-71 | dealing by position over a shuffle of the key order gives that distribution on the key order, with only roles changed |
| `ProtoRoom.PermutedRoles` | secret-hitler-server/src/rooms/SecretHitlerRoom.ts:60 | two orders of the same keys read the same roles, up to order |
| `ProtoRoom.SecretHitlerRoom.constructor` | secret-hitler-server/src/rooms/SecretHitlerRoom.ts:4-6 | the room starts with the fresh state |
| `ProtoRoom.SecretHitlerRoom.SetName` | secret-hitler-server/src/rooms/SecretHitlerRoom.ts:11-14 | a known sender's name becomes the payload, or the empty string, cut to 32 characters |
| `ProtoRoom.SecretHitlerRoom.Ready` | secret-hitler-server/src/rooms/SecretHitlerRoom.ts:16-25 | a known sender's flag becomes the payload; then the game starts exactly when the room is in `lobby` with 5 to 10 players, all ready and connected |
| `ProtoRoom.SecretHitlerRoom.StartGame` | secret-hitler-server/src/rooms/SecretHitlerRoom.ts:53-71 | with fewer than five players only the phase changes, to `setup`; otherwise roles are dealt by position in a shuffled order and the phase is `election` |
| `ProtoRoom.SecretHitlerRoom.OnJoin` | secret-hitler-server/src/rooms/SecretHitlerRoom.ts:33-38 | the session key gets a fresh, connected player named `Player <clients.length>` |
| `ProtoRoom.SecretHitlerRoom.OnLeave` | secret-hitler-server/src/rooms/SecretHitlerRoom.ts:40-46 | the player is marked disconnected; a consented leave deletes it at once, and otherwise the room waits for a reconnection |
| `ProtoRoom.SecretHitlerRoom.OnReconnection` | secret-hitler-server/src/rooms/SecretHitlerRoom.ts:46-50 | a reconnection marks the player connected again; a failed one deletes it |
| `ProtoRoom.SecretHitlerRoom.RemovePlayer` | secret-hitler-server/src/rooms/SecretHitlerRoom.ts:49 | `players.delete`, with the key order kept in step |

## Left out

- The `move` handler, `update`, the simulation interval and the floating-point positions `x`, `y` and `inputQueue` (server/src/rooms/MyRoom.ts:16-23, 248-276, 303-307): these are movement, not game rules, and depend on floating point and `Math.random`.
- Private `client.send` messages (`room-joined`, `your-role`, `select-chancellor`, `president-draw-policies`, `chancellor-select-policy`, `start-assassination`, `all-players-ready`, `you-are-creator`) and all console output. Where a send decides a phase change, the model keeps the decision through the `clients` parameter. `checkAllPlayersReady` (server/src/rooms/MyRoom.ts:278-287) does nothing but send, so `ToggleReady` has no part for it.
- Nicknames in broadcasts and the free-text `message` of `voting-results` and `player-eliminated`: the broadcast log keeps only ids, counts, flags, the policy type, and the winner and message of `game-over`.
- `onCreate`, `onDispose`, `setPatchRate` and room metadata.
- The prototype's `vote` handler (secret-hitler-server/src/rooms/SecretHitlerRoom.ts:27-30): it only logs.
- Timing: `clock.setTimeout` delays and the 20-second `allowReconnection` window are not modelled; only which callback runs next and, for the prototype, whether the reconnection succeeded.
- `ProtoRoom.SecretHitlerRoom.OnLeave`: `onLeave` holds the `player` object it read before the `await` and marks that object connected after it. `OnReconnection` instead reads the record under the session key again, so the model does not capture a record that was deleted or replaced during the wait.
- `ProtoRoom.SecretHitlerRoom.SetName`: the payload is an optional string. A truthy payload that is not a string, for which `(name || '').slice` throws a `TypeError`, is not modelled.
- `ProtoRoom.SecretHitlerRoom.StartGame`: the shuffle `sort(() => Math.random() - 0.5)` is modelled as an arbitrary permutation; the distribution of that sort is not captured.
- `ProtoRoom.Truncate`: counts characters, not UTF-16 code units, so it differs from `slice` on strings outside the Basic Multilingual Plane.
- `ProtoRoom.SecretHitlerRoom.OnJoin`: `this.clients.length` is a parameter, because the client list is the framework's.
- `ProtoRoom.SecretHitlerRoom.Ready`: the payload is its truthiness, the `!!ready` the handler stores, given as a `bool`; which payloads are truthy in JavaScript is not modelled.
- `Room.RolesOf` and `ProtoRoom.RolesOf` are one definition written twice, once for each room's player record, because the two rooms' `Player` types differ.
- `Room.MyRoom.OnJoin`: requires a non-empty session key not already in the room and fewer than ten players. The framework guarantees the first two and `maxClients = 10` the third.
- The main room's `players.size` is the length of the key order; `Seqs.MapSize` proves the two are equal under the invariant.
- The model has no `undefined`: a missing nickname is the empty string, which is falsy like `undefined`, and `isEliminated`, never written before an assassination, reads as `false`.
- The prototype's `alive`, `electionTracker`, `enactedFascist`, `enactedLiberal`, `presidentId` and `chancellorId` are state only: the prototype never writes them after creation.
