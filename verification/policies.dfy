/** The policy cards of the main room as the strings the deck, the discard
    pile and the hands of server/src/rooms/schema/MyRoomState.ts hold, and
    the `indexOf(payload)` by which both legislative handlers of
    server/src/rooms/MyRoom.ts look a card up. */
module Policies {
  import opened Seqs
  import opened RoomSchema

  function PolicyName(p: Policy): (s: string)
    ensures |s| == 7
  {
    match p
    case LiberalPolicy => "liberal"
    case FascistPolicy => "fascist"
  }

  /** `hand.indexOf(payload)` on the strings of a hand: the first position of
      a card whose name is the payload, or -1 when no card has it. */
  function HandIndex(hand: seq<Policy>, payload: string): (r: int)
    ensures -1 <= r < |hand|
    ensures r == -1 <==> forall k :: 0 <= k < |hand| ==> PolicyName(hand[k]) != payload
    ensures 0 <= r ==> PolicyName(hand[r]) == payload
    ensures 0 <= r ==> forall k :: 0 <= k < r ==> PolicyName(hand[k]) != payload
  {
    var names := MapSeq(PolicyName, hand);
    var r := IndexOf(names, payload);
    assert forall k :: 0 <= k < |hand| ==> names[k] == PolicyName(hand[k]);
    assert 0 <= r ==> forall k :: 0 <= k < r ==> names[k] in names[..r];
    r
  }

  /** The card a payload names in the tests `payload === "liberal"` and
      `payload === "fascist"`; any other string names none. */
  function PolicyOf(payload: string): (r: Option<Policy>)
    ensures r.Some? ==> PolicyName(r.value) == payload
    ensures r.None? ==> forall p :: PolicyName(p) != payload
  {
    if payload == "liberal" then Some(LiberalPolicy)
    else if payload == "fascist" then Some(FascistPolicy)
    else None
  }

  /** Naming a card and reading the name back gives the card. */
  lemma PolicyOfName(p: Policy)
    ensures PolicyOf(PolicyName(p)) == Some(p)
  {
  }
}
