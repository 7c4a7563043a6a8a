/** The Fisher-Yates shuffle of memory.js (`shuffle`, lines 150-165).

    The source draws `i = Math.floor(Math.random() * m--)`, so on the j-th pass
    (j = 0, 1, ...) of an array of length n it draws an index below m = n - j,
    decrements m and swaps slots m and i. The random source is modelled as an
    oracle: the sequence of indices it returned, one per pass. */
module FisherYates {

  /** `picks` is a possible sequence of draws for an array of length n:
      one draw per pass, the j-th below n - j. */
  predicate ValidPicks(picks: seq<nat>, n: nat)
  {
    |picks| == n && forall j :: 0 <= j < n ==> picks[j] < n - j
  }

  /** Exchange of slots i and j (the three-assignment swap with temporary t). */
  function Swap<T>(s: seq<T>, i: nat, j: nat): (r: seq<T>)
    requires i < |s| && j < |s|
    ensures |r| == |s| && r[i] == s[j] && r[j] == s[i]
    ensures forall k :: 0 <= k < |s| && k != i && k != j ==> r[k] == s[k]
  {
    s[i := s[j]][j := s[i]]
  }

  lemma SwapPermutes<T>(s: seq<T>, i: nat, j: nat)
    requires i < |s| && j < |s|
    ensures multiset(Swap(s, i, j)) == multiset(s)
  {
    var t := s[i := s[j]];
    assert multiset(t) == multiset(s) - multiset{s[i]} + multiset{s[j]};
    assert multiset(t[j := s[i]]) == multiset(t) - multiset{t[j]} + multiset{s[i]};
  }

  /** Reference definition of what the loop computes: the first pass swaps the
      last slot with slot picks[0]; that slot is then final and the remaining
      passes shuffle the prefix before it. */
  function Shuffled<T>(s: seq<T>, picks: seq<nat>): (r: seq<T>)
    requires ValidPicks(picks, |s|)
    ensures |r| == |s|
    decreases |s|
  {
    if |s| == 0 then s
    else
      var m := |s| - 1;
      var t := Swap(s, picks[0], m);
      Shuffled(t[..m], picks[1..]) + [t[m]]
  }

  /** The shuffle result is a permutation of its input, whatever the draws. */
  lemma {:induction false} ShufflePermutes<T>(s: seq<T>, picks: seq<nat>)
    requires ValidPicks(picks, |s|)
    ensures multiset(Shuffled(s, picks)) == multiset(s)
    decreases |s|
  {
    if |s| > 0 {
      var m := |s| - 1;
      var t := Swap(s, picks[0], m);
      SwapPermutes(s, picks[0], m);
      ShufflePermutes(t[..m], picks[1..]);
      assert t == t[..m] + [t[m]];
    }
  }

  /** The swap through the temporary t (memory.js:160-162). */
  method Exchange<T>(a: array<T>, m: nat, i: nat)
    requires m < a.Length && i < a.Length
    modifies a
    ensures a[..] == Swap(old(a[..]), i, m)
  {
    var t := a[m];
    a[m] := a[i];
    a[i] := t;
  }

  /** One pass of the loop: after swapping slot m with slot q[0], the part
      still to shuffle is the prefix of length m and the suffix from m is final. */
  lemma ShuffledStep<T>(b: seq<T>, q: seq<nat>, m: nat, after: seq<T>)
    requires m < |b| && ValidPicks(q, m + 1)
    requires after == Swap(b, q[0], m)
    ensures ValidPicks(q[1..], m)
    ensures Shuffled(b[..m + 1], q) + b[m + 1..] == Shuffled(after[..m], q[1..]) + after[m..]
  {
    var p := b[..m + 1];
    assert Swap(p, q[0], m) == after[..m + 1];
    assert after[..m + 1][..m] == after[..m];
    assert after[m..] == [after[m]] + after[m + 1..];
    assert after[m + 1..] == b[m + 1..];
  }

  /** In-place shuffle of memory.js:150-165; the draws come from `picks`. */
  method Shuffle<T>(a: array<T>, picks: seq<nat>)
    requires ValidPicks(picks, a.Length)
    modifies a
    ensures a[..] == Shuffled(old(a[..]), picks)
    ensures multiset(a[..]) == multiset(old(a[..]))
  {
    var n := a.Length;
    var m := n;
    assert a[..m] == old(a[..]) && a[m..] == [] && picks[n - m..] == picks;
    while m > 0
      invariant 0 <= m <= n
      invariant ValidPicks(picks[n - m..], m)
      invariant Shuffled(old(a[..]), picks) == Shuffled(a[..m], picks[n - m..]) + a[m..]
    {
      ghost var before := a[..];
      var i := picks[n - m];
      m := m - 1;
      Exchange(a, m, i);
      ShuffledStep(before, picks[n - m - 1..], m, a[..]);
      assert picks[n - m - 1..][1..] == picks[n - m..];
    }
    assert a[..0] == [];
    ShufflePermutes(old(a[..]), picks);
  }

  /** Position of the first occurrence of x in s. */
  function IndexOf<T(==)>(s: seq<T>, x: T): (i: nat)
    requires x in s
    ensures i < |s| && s[i] == x
    ensures forall k :: 0 <= k < i ==> s[k] != x
  {
    if s[0] == x then 0 else 1 + IndexOf(s[1..], x)
  }

  /** Fixing r's last element in the last slot leaves prefixes that are
      still permutations of each other. */
  lemma FixLast<T>(s: seq<T>, r: seq<T>, i: nat)
    requires multiset(r) == multiset(s) && 0 < |s| == |r| && i < |s|
    requires s[i] == r[|s| - 1]
    ensures multiset(Swap(s, i, |s| - 1)[..|s| - 1]) == multiset(r[..|s| - 1])
  {
    var m := |s| - 1;
    var t := Swap(s, i, m);
    SwapPermutes(s, i, m);
    assert t == t[..m] + [t[m]];
    assert r == r[..m] + [r[m]];
    assert multiset(t[..m]) == multiset(t) - multiset{t[m]};
    assert multiset(r[..m]) == multiset(r) - multiset{r[m]};
  }

  /** Every permutation r of s is a possible outcome of the shuffle: these are
      draws that produce it (on each pass, the index of the element that r
      wants in the slot being fixed). */
  function PicksFor<T(==)>(s: seq<T>, r: seq<T>): (picks: seq<nat>)
    requires multiset(r) == multiset(s)
    ensures ValidPicks(picks, |s|)
    ensures Shuffled(s, picks) == r
    decreases |s|
  {
    assert |r| == |multiset(r)| == |s|;
    if |s| == 0 then
      []
    else
      var m := |s| - 1;
      assert r[m] in multiset(s);
      var i := IndexOf(s, r[m]);
      FixLast(s, r, i);
      var t := Swap(s, i, m);
      var rest := PicksFor(t[..m], r[..m]);
      assert ([i] + rest)[1..] == rest;
      assert r == r[..m] + [r[m]];
      [i] + rest
  }
}
