/** Role distribution of the main room (`assignRoles` in
    server/src/rooms/MyRoom.ts): the table of liberal and fascist counts per
    player count, and the list of roles that is shuffled and dealt. */
module Roles {
  import opened Seqs
  import opened RoomSchema

  /** The `switch (playerCount)`: the liberal and fascist counts for 5 to 10
      players, and no distribution for any other count. */
  function RoleTable(playerCount: int): (r: Option<(nat, nat)>)
    ensures r.Some? <==> 5 <= playerCount <= 10
    ensures r.Some? ==> r.value.1 == (playerCount - 3) / 2
    ensures r.Some? ==> r.value.0 + r.value.1 + 1 == playerCount
    ensures r.Some? ==> r.value.0 > r.value.1 + 1
  {
    match playerCount
    case 5 => Some((3, 1))
    case 6 => Some((4, 1))
    case 7 => Some((4, 2))
    case 8 => Some((5, 2))
    case 9 => Some((5, 3))
    case 10 => Some((6, 3))
    case _ => None
  }

  /** `liberal` liberals, `fascist` fascists and exactly one Hitler. */
  function RoleCount(liberal: nat, fascist: nat): (m: multiset<Role>)
    ensures m[Liberal] == liberal && m[Fascist] == fascist && m[Hitler] == 1 && m[Unassigned] == 0
    ensures |m| == liberal + fascist + 1
  {
    var m := multiset{}[Liberal := liberal][Fascist := fascist][Hitler := 1];
    assert m == multiset{}[Liberal := liberal] + multiset{}[Fascist := fascist] + multiset{Hitler};
    m
  }

  /** The three `push` loops: the liberals, then the fascists, then Hitler. */
  method BuildRoles(liberal: nat, fascist: nat) returns (roles: seq<Role>)
    ensures roles == Repeat(Liberal, liberal) + Repeat(Fascist, fascist) + [Hitler]
    ensures multiset(roles) == RoleCount(liberal, fascist)
  {
    roles := [];
    for i := 0 to liberal
      invariant roles == Repeat(Liberal, i)
    {
      roles := roles + [Liberal];
    }
    var liberals := roles;
    for i := 0 to fascist
      invariant roles == liberals + Repeat(Fascist, i)
    {
      roles := roles + [Fascist];
    }
    roles := roles + [Hitler];
    assert multiset(roles) == multiset{}[Liberal := liberal] + multiset{}[Fascist := fascist] + multiset{Hitler};
  }
}
