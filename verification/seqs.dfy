/** Sequence helpers shared by both rooms: the JavaScript array operations
    `indexOf` and `splice(i, 1)`, distinctness, and mapping a function over
    a sequence. */
module Seqs {

  datatype Option<T> = None | Some(value: T)

  predicate Distinct<T(==)>(s: seq<T>) {
    forall i, j :: 0 <= i < j < |s| ==> s[i] != s[j]
  }

  /** `Array.prototype.indexOf`: the first index holding `x`, or -1. */
  function IndexOf<T(==)>(s: seq<T>, x: T): (r: int)
    ensures -1 <= r < |s|
    ensures r == -1 <==> x !in s
    ensures 0 <= r ==> s[r] == x && x !in s[..r]
  {
    if |s| == 0 then -1
    else if s[0] == x then 0
    else
      var k := IndexOf(s[1..], x);
      assert s[1..] == s[1..][..] && (0 <= k ==> s[..k + 1] == [s[0]] + s[1..][..k]);
      if k == -1 then -1 else k + 1
  }

  /** `splice(i, 1)`: the sequence without its element at `i`. */
  function RemoveAt<T>(s: seq<T>, i: nat): (r: seq<T>)
    requires i < |s|
    ensures |r| == |s| - 1
    ensures forall k :: 0 <= k < i ==> r[k] == s[k]
    ensures forall k :: i <= k < |r| ==> r[k] == s[k + 1]
  {
    s[..i] + s[i + 1..]
  }

  /** The element removed is the only one missing. */
  lemma RemoveAtCount<T>(s: seq<T>, i: nat)
    requires i < |s|
    ensures multiset(RemoveAt(s, i)) == multiset(s) - multiset{s[i]}
    ensures multiset(RemoveAt(s, i)) + multiset{s[i]} == multiset(s)
  {
    assert s == s[..i] + [s[i]] + s[i + 1..];
  }

  lemma DistinctRemoveAt<T>(s: seq<T>, i: nat)
    requires Distinct(s) && i < |s|
    ensures Distinct(RemoveAt(s, i))
    ensures forall x :: x in RemoveAt(s, i) <==> x in s && x != s[i]
  {
    var r := RemoveAt(s, i);
    forall x | x in s && x != s[i] ensures x in r {
      var k :| 0 <= k < |s| && s[k] == x;
      if k < i { assert r[k] == x; } else { assert r[k - 1] == x; }
    }
  }

  /** The distinct elements of `s` never appear twice, so a permutation of a
      distinct sequence is distinct. */
  lemma DistinctPermutation<T>(s: seq<T>, t: seq<T>)
    requires Distinct(s) && multiset(s) == multiset(t)
    ensures Distinct(t)
  {
    forall i, j | 0 <= i < j < |t| ensures t[i] != t[j] {
      if t[i] == t[j] {
        assert t == t[..i] + [t[i]] + t[i + 1..j] + [t[j]] + t[j + 1..];
        assert multiset(t)[t[i]] >= 2;
        DistinctCount(s, t[i]);
        assert false;
      }
    }
  }

  lemma {:induction false} DistinctCount<T>(s: seq<T>, x: T)
    requires Distinct(s)
    ensures multiset(s)[x] <= 1
  {
    if |s| > 0 {
      assert s == [s[0]] + s[1..];
      assert Distinct(s[1..]);
      DistinctCount(s[1..], x);
      if s[0] == x { assert x !in s[1..]; }
    }
  }

  function MapSeq<A, B>(f: A -> B, s: seq<A>): (r: seq<B>)
    ensures |r| == |s|
    ensures forall k :: 0 <= k < |s| ==> r[k] == f(s[k])
  {
    if |s| == 0 then [] else [f(s[0])] + MapSeq(f, s[1..])
  }

  /** Mapping over two permutations of one another gives two permutations of
      one another. */
  lemma {:induction false} MapPermutation<A, B>(f: A -> B, s: seq<A>, t: seq<A>)
    requires multiset(s) == multiset(t)
    ensures multiset(MapSeq(f, s)) == multiset(MapSeq(f, t))
    decreases |s|
  {
    if |s| == 0 {
      assert |t| == |multiset(t)| == 0;
    } else {
      assert s[0] in multiset(s);
      var i := IndexOf(t, s[0]);
      var t' := RemoveAt(t, i);
      MapPermutationTail(s, t, i);
      MapPermutation(f, s[1..], t');
      MapRemoveAt(f, t, i);
      MapHead(f, s);
    }
  }

  lemma MapPermutationTail<A>(s: seq<A>, t: seq<A>, i: nat)
    requires multiset(s) == multiset(t) && |s| > 0 && i < |t| && t[i] == s[0]
    ensures multiset(s[1..]) == multiset(RemoveAt(t, i))
  {
    RemoveAtCount(t, i);
    assert s == [s[0]] + s[1..];
  }

  lemma MapHead<A, B>(f: A -> B, s: seq<A>)
    requires |s| > 0
    ensures multiset(MapSeq(f, s)) == multiset{f(s[0])} + multiset(MapSeq(f, s[1..]))
  {
    assert MapSeq(f, s) == [f(s[0])] + MapSeq(f, s[1..]);
  }

  /** Removing the element at `i` before or after mapping gives the same
      multiset, up to the mapped image of that element. */
  lemma MapRemoveAt<A, B>(f: A -> B, t: seq<A>, i: nat)
    requires i < |t|
    ensures multiset(MapSeq(f, t)) == multiset(MapSeq(f, RemoveAt(t, i))) + multiset{f(t[i])}
  {
    var u := MapSeq(f, t);
    RemoveAtCount(u, i);
    assert MapSeq(f, RemoveAt(t, i)) == RemoveAt(u, i);
    assert u[i] == f(t[i]);
  }

  /** `n` copies of `x`, in the order repeated `push(x)` builds them. */
  function Repeat<T>(x: T, n: nat): (r: seq<T>)
    ensures |r| == n
    ensures forall k :: 0 <= k < n ==> r[k] == x
    ensures multiset(r) == multiset{}[x := n]
  {
    if n == 0 then [] else Repeat(x, n - 1) + [x]
  }

  /** The sequence without the first occurrence of `x` (`indexOf` followed by
      `splice(i, 1)` when the index is not -1). */
  function RemoveFirst<T(==)>(s: seq<T>, x: T): (r: seq<T>)
    ensures x in s ==> |r| == |s| - 1
    ensures x !in s ==> r == s
  {
    var i := IndexOf(s, x);
    if i >= 0 then RemoveAt(s, i) else s
  }

  /** One occurrence of `x` is missing, when there was one. */
  lemma RemoveFirstCount<T>(s: seq<T>, x: T)
    requires x in s
    ensures multiset(RemoveFirst(s, x)) == multiset(s) - multiset{x}
  {
    RemoveAtCount(s, IndexOf(s, x));
  }

  lemma DistinctRemoveFirst<T>(s: seq<T>, x: T)
    requires Distinct(s)
    ensures Distinct(RemoveFirst(s, x))
    ensures forall y :: y in RemoveFirst(s, x) <==> y in s && y != x
  {
    if x in s { DistinctRemoveAt(s, IndexOf(s, x)); }
  }

  /** A Fisher-Yates shuffle with the random index left open: for `i` from
      the last index down to 1, swap element `i` with some element `j`,
      `0 <= j <= i`. Whatever the choices, the result is a permutation. */
  method Shuffle<T>(s: seq<T>) returns (r: seq<T>)
    ensures multiset(r) == multiset(s)
  {
    r := s;
    var i := |r| - 1;
    while i > 0
      invariant i < |r|
      invariant multiset(r) == multiset(s)
    {
      var j :| 0 <= j <= i;
      SwapPermutes(r, i, j);
      r := r[i := r[j]][j := r[i]];
      i := i - 1;
    }
  }

  lemma SwapPermutes<T>(s: seq<T>, i: nat, j: nat)
    requires i < |s| && j < |s|
    ensures multiset(s[i := s[j]][j := s[i]]) == multiset(s)
  {
    if i != j {
      var t := s[i := s[j]];
      assert multiset(t) == multiset(s) - multiset{s[i]} + multiset{s[j]};
      assert multiset(t[j := s[i]]) == multiset(t) - multiset{t[j]} + multiset{s[i]};
    }
  }

  /** A map whose keys are listed once each by `keys` has `|keys|` entries. */
  lemma {:induction false} MapSize<K, V>(keys: seq<K>, m: map<K, V>)
    requires Distinct(keys)
    requires forall k :: k in m <==> k in keys
    ensures |m| == |keys|
    decreases |keys|
  {
    if |keys| == 0 {
      assert m.Keys == {};
    } else {
      var rest := m - {keys[0]};
      assert Distinct(keys[1..]);
      forall k ensures k in rest <==> k in keys[1..] {
        assert k in keys <==> k == keys[0] || k in keys[1..];
      }
      MapSize(keys[1..], rest);
      assert m.Keys == rest.Keys + {keys[0]};
    }
  }
}
