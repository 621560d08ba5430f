/** The ballots of `cast-vote` and the majority rule of `endVotingPhase` in
    server/src/rooms/MyRoom.ts. */
module Election {
  import opened Seqs

  datatype Ballot = For | Against

  /** The ballot a `cast-vote` payload names: "for" and "against" are the
      only two strings the handler counts. */
  function BallotOf(vote: string): (r: Option<Ballot>)
    ensures r == Some(For) <==> vote == "for"
    ensures r == Some(Against) <==> vote == "against"
    ensures r.None? <==> vote != "for" && vote != "against"
  {
    if vote == "for" then Some(For)
    else if vote == "against" then Some(Against)
    else None
  }

  /** `votesFor > players.size / 2`, where `/` is floating-point division:
      strictly more than half of the players in the room, counted in whole
      votes. */
  function VotePassed(votesFor: nat, playerCount: nat): (r: bool)
    ensures r <==> votesFor as real > playerCount as real / 2.0
    ensures r <==> votesFor >= playerCount / 2 + 1
  {
    2 * votesFor > playerCount
  }

  /** A tie never passes: with an even number of players, half the votes is
      not enough and one more is. */
  lemma TieFails(half: nat)
    ensures !VotePassed(half, 2 * half)
    ensures VotePassed(half + 1, 2 * half)
  {
  }
}
