/** Presidential succession of the main room (`selectPresident` and
    `selectNextPresident` in server/src/rooms/MyRoom.ts): a cyclic walk over
    `playerOrder` restricted to the players that are not eliminated. */
module Succession {
  import opened Seqs
  import opened RoomSchema

  /** `players.get(id)?.isEliminated`: an id without a player record (one
      that left the room) reads as not eliminated. */
  predicate Eliminated(players: map<Id, Player>, id: Id) {
    id in players && players[id].isEliminated
  }

  /** `playerOrder.filter(id => !players.get(id)?.isEliminated)`. */
  function ActiveOrder(order: seq<Id>, players: map<Id, Player>): (r: seq<Id>)
    ensures forall x :: x in r <==> x in order && !Eliminated(players, x)
    ensures |r| <= |order|
    ensures Distinct(order) ==> Distinct(r)
  {
    if |order| == 0 then []
    else if Eliminated(players, order[0]) then ActiveOrder(order[1..], players)
    else
      var rest := ActiveOrder(order[1..], players);
      assert Distinct(order) ==> order[0] !in order[1..];
      [order[0]] + rest
  }

  /** JavaScript truthiness of an optional session key. */
  predicate Truthy(id: Option<Id>) {
    id.Some? && id.value != ""
  }

  /** The index both functions start from: the current candidate's position
      in the filtered order, or -1 when there is no current candidate. */
  function CurrentIndex(active: seq<Id>, current: Option<Id>): (r: int)
    ensures -1 <= r < |active|
  {
    if Truthy(current) then IndexOf(active, current.value) else -1
  }

  /** The element after the current candidate in the filtered order,
      cyclically, or its first element when the current candidate is unset
      or not in it. */
  function Successor(active: seq<Id>, current: Option<Id>): (r: Id)
    requires |active| > 0
    ensures r in active
    ensures !Truthy(current) || current.value !in active ==> r == active[0]
  {
    var next := CurrentIndex(active, current) + 1;
    active[if next < |active| then next else 0]
  }

  /** The seats of `order` that the filter keeps, in order. */
  function Seats(order: seq<Id>, players: map<Id, Player>): seq<int>
    decreases |order|
  {
    if |order| == 0 then []
    else
      var tail := Seats(order[1..], players);
      var shifted := seq(|tail|, k requires 0 <= k < |tail| => tail[k] + 1);
      if Eliminated(players, order[0]) then shifted else [0] + shifted
  }

  /** The filter keeps the seating order: the `k`-th player it keeps sits
      at seat `Seats(order, players)[k]` of `order`, and those seats
      strictly increase. */
  lemma {:induction false} SeatsKeepOrder(order: seq<Id>, players: map<Id, Player>)
    ensures var p := Seats(order, players);
            && |p| == |ActiveOrder(order, players)|
            && (forall k :: 0 <= k < |p| ==> 0 <= p[k] < |order| && order[p[k]] == ActiveOrder(order, players)[k])
            && (forall k, l :: 0 <= k < l < |p| ==> p[k] < p[l])
    decreases |order|
  {
    if |order| > 0 {
      var tail := order[1..];
      var t := Seats(tail, players);
      var at := ActiveOrder(tail, players);
      SeatsKeepOrder(tail, players);
      var shifted := seq(|t|, k requires 0 <= k < |t| => t[k] + 1);
      var p := Seats(order, players);
      var a := ActiveOrder(order, players);
      assert forall k :: 0 <= k < |shifted| ==> 0 < shifted[k] < |order| && order[shifted[k]] == at[k];
      if Eliminated(players, order[0]) {
        assert p == shifted && a == at;
      } else {
        assert p == [0] + shifted && a == [order[0]] + at;
      }
    }
  }

  /** `Successor` is the source's `(currentPresidentIndex + 1) % length`. */
  lemma SuccessorIsModulo(active: seq<Id>, current: Option<Id>)
    requires |active| > 0
    ensures Successor(active, current) == active[(CurrentIndex(active, current) + 1) % |active|]
  {
    ModWrap(CurrentIndex(active, current) + 1, |active|);
  }

  /** The candidate after one call of either function on the filtered order
      `active`: unchanged when no eligible player exists. */
  function Step(active: seq<Id>, current: Option<Id>): Option<Id> {
    if |active| == 0 then current else Some(Successor(active, current))
  }

  /** The candidate after one call of either function: some player of the
      order that is not eliminated whenever one exists, and the current
      candidate, unchanged, when every player of the order is eliminated. */
  function Successive(order: seq<Id>, players: map<Id, Player>, current: Option<Id>): (r: Option<Id>)
    ensures (exists i :: 0 <= i < |order| && !Eliminated(players, order[i]))
            ==> r.Some? && r.value in order && !Eliminated(players, r.value)
    ensures (forall i :: 0 <= i < |order| ==> Eliminated(players, order[i])) ==> r == current
  {
    var active := ActiveOrder(order, players);
    if |active| == 0 then
      assert forall i :: 0 <= i < |order| ==> order[i] !in active;
      current
    else
      assert active[0] in order;
      Step(active, current)
  }

  /** Either function takes one step of the filtered order. */
  lemma SuccessiveIsStep(order: seq<Id>, players: map<Id, Player>, current: Option<Id>)
    ensures Successive(order, players, current) == Step(ActiveOrder(order, players), current)
  {
  }

  /** The candidate after `k` calls. */
  function Advance(active: seq<Id>, current: Option<Id>, k: nat): Option<Id>
    decreases k
  {
    if k == 0 then current else Advance(active, Step(active, current), k - 1)
  }

  /** What the `attempts` loop of either function finds, looking at `idx`
      with `left` further attempts allowed. */
  function Scan(active: seq<Id>, players: map<Id, Player>, idx: nat, left: nat): (r: Option<Id>)
    requires idx < |active|
    ensures r.Some? ==> r.value in active && !Eliminated(players, r.value)
    decreases left
  {
    if !Eliminated(players, active[idx]) then Some(active[idx])
    else if left == 0 then None
    else Scan(active, players, (idx + 1) % |active|, left - 1)
  }

  /** The `attempts` loop: starting at `start`, step cyclically past
      eliminated players at most `|active|` times, then give up if the player
      reached is still eliminated. */
  method ScanEligible(active: seq<Id>, players: map<Id, Player>, start: nat) returns (r: Option<Id>)
    requires start < |active|
    ensures r == Scan(active, players, start, |active|)
  {
    var idx := start;
    var candidate := active[idx];
    var attempts := 0;
    while Eliminated(players, candidate) && attempts < |active|
      invariant 0 <= idx < |active| && 0 <= attempts <= |active|
      invariant candidate == active[idx]
      invariant Scan(active, players, idx, |active| - attempts) == Scan(active, players, start, |active|)
    {
      idx := (idx + 1) % |active|;
      candidate := active[idx];
      attempts := attempts + 1;
    }
    if Eliminated(players, candidate) {
      r := None;
    } else {
      r := Some(candidate);
    }
  }

  /** On the filtered order the loop stops at once: it returns the player it
      starts at. */
  lemma ScanOnActive(order: seq<Id>, players: map<Id, Player>, start: nat)
    requires start < |ActiveOrder(order, players)|
    ensures Scan(ActiveOrder(order, players), players, start, |ActiveOrder(order, players)|)
            == Some(ActiveOrder(order, players)[start])
  {
    var active := ActiveOrder(order, players);
    assert active[start] in active;
  }

  lemma IndexOfDistinct<T>(s: seq<T>, i: nat)
    requires Distinct(s) && i < |s|
    ensures IndexOf(s, s[i]) == i
  {
  }

  /** The `% length` of both functions wraps the index just past the end. */
  lemma ModWrap(x: int, n: int)
    requires 0 <= x <= n && n > 0
    ensures x % n == if x < n then x else 0
  {
    if x == n { assert x % n == 0; }
  }

  /** Without repeats, the successor of the `i`-th player is the next one,
      or the first after the last. */
  lemma SuccessorOf(active: seq<Id>, i: nat)
    requires Distinct(active) && i < |active| && active[i] != ""
    ensures Step(active, Some(active[i])) == Some(active[if i + 1 < |active| then i + 1 else 0])
  {
    IndexOfDistinct(active, i);
  }

  /** The seat `k` places after seat `i` of `n`, going round. */
  function Later(i: nat, k: nat, n: nat): nat
    decreases k
  {
    if k == 0 then i else Later(if i + 1 < n then i + 1 else 0, k - 1, n)
  }

  /** `k` calls from the `i`-th player of the filtered order reach the
      player `k` seats later, going round. */
  lemma {:induction false} AdvanceAt(active: seq<Id>, i: nat, k: nat)
    requires Distinct(active) && i < |active|
    requires forall j :: 0 <= j < |active| ==> active[j] != ""
    ensures Later(i, k, |active|) < |active|
    ensures Advance(active, Some(active[i]), k) == Some(active[Later(i, k, |active|)])
    decreases k
  {
    if k > 0 {
      SuccessorOf(active, i);
      AdvanceAt(active, if i + 1 < |active| then i + 1 else 0, k - 1);
    }
  }

  lemma {:induction false} LaterForward(i: nat, k: nat, n: nat)
    requires i + k < n
    ensures Later(i, k, n) == i + k
    decreases k
  {
    if k > 0 { LaterForward(i + 1, k - 1, n); }
  }

  lemma {:induction false} LaterAdd(i: nat, a: nat, b: nat, n: nat)
    ensures Later(i, a + b, n) == Later(Later(i, a, n), b, n)
    decreases a
  {
    if a > 0 { LaterAdd(if i + 1 < n then i + 1 else 0, a - 1, b, n); }
  }

  /** Going `n` seats round a table of `n` comes back to the same seat. */
  lemma LaterRound(i: nat, n: nat)
    requires i < n
    ensures Later(i, n, n) == i
  {
    LaterForward(i, n - 1 - i, n);
    LaterAdd(i, n - 1 - i, 1, n);
    assert Later(i, n - i, n) == 0;
    LaterForward(0, i, n);
    LaterAdd(i, n - i, i, n);
  }

  /** Succession walks the filtered order forward: `k` calls from its `i`-th
      player reach its `(i + k)`-th player while that exists. */
  lemma SuccessionForward(active: seq<Id>, i: nat, k: nat)
    requires Distinct(active) && i + k < |active|
    requires forall j :: 0 <= j < |active| ==> active[j] != ""
    ensures Advance(active, Some(active[i]), k) == Some(active[i + k])
  {
    AdvanceAt(active, i, k);
    LaterForward(i, k, |active|);
  }

  /** Succession is a cycle: `n` calls, `n` the number of eligible players,
      come back to the player they started from. */
  lemma SuccessionCycle(active: seq<Id>, i: nat)
    requires Distinct(active) && i < |active|
    requires forall j :: 0 <= j < |active| ==> active[j] != ""
    ensures Advance(active, Some(active[i]), |active|) == Some(active[i])
  {
    AdvanceAt(active, i, |active|);
    LaterRound(i, |active|);
  }

  /** Starting with no candidate, the first `n` rounds visit every eligible
      player once, in seating order. */
  lemma FirstRounds(active: seq<Id>, k: nat)
    requires Distinct(active) && k < |active|
    requires forall j :: 0 <= j < |active| ==> active[j] != ""
    ensures Advance(active, None, k + 1) == Some(active[k])
  {
    assert Step(active, None) == Some(active[0]);
    SuccessionForward(active, 0, k);
  }

  /** The double advance after a failed vote, an enactment or an
      assassination: with three or more eligible players, two calls from the
      `i`-th player land two seats on and skip the next one. */
  lemma DoubleAdvanceSkips(active: seq<Id>, i: nat)
    requires Distinct(active) && i + 2 < |active|
    requires forall j :: 0 <= j < |active| ==> active[j] != ""
    ensures Advance(active, Some(active[i]), 2) == Some(active[i + 2])
    ensures Advance(active, Some(active[i]), 2) != Some(active[i + 1])
  {
    SuccessionForward(active, i, 2);
  }
}
