/** Random permutations and their undoing (src/setops/util/permutation.h). */
module Permutation {
  import opened Sequences

  ghost predicate IsPerm(p: seq<nat>) {
    Distinct(p) && forall i :: 0 <= i < |p| ==> p[i] < |p|
  }

  function Identity(n: nat): seq<nat> {
    seq(n, i => i)
  }

  /** The library shuffle is a run of swaps whose positions the generator chooses. */
  function Swapped(p: seq<nat>, i: nat, j: nat): seq<nat>
    requires i < |p| && j < |p|
  {
    p[i := p[j]][j := p[i]]
  }

  ghost predicate SwapsInRange(swaps: seq<(nat, nat)>, n: nat) {
    forall k :: 0 <= k < |swaps| ==> swaps[k].0 < n && swaps[k].1 < n
  }

  method GeneratePermutation(n: nat, swaps: seq<(nat, nat)>) returns (p: array<nat>)
    requires SwapsInRange(swaps, n)
    ensures fresh(p) && p.Length == n && IsPerm(p[..])
    ensures p[..] == ApplySwaps(Identity(n), swaps)
  {
    p := new nat[n];
    for i := 0 to n
      invariant forall k :: 0 <= k < i ==> p[k] == k
    {
      p[i] := i;
    }
    assert p[..] == Identity(n);
    assert swaps[..0] == [];
    for k := 0 to |swaps|
      invariant IsPerm(p[..])
      invariant p[..] == ApplySwaps(Identity(n), swaps[..k])
    {
      ghost var before := p[..];
      var (i, j) := swaps[k];
      p[i], p[j] := p[j], p[i];
      assert p[..] == Swapped(before, i, j);
      SwapKeepsPerm(before, i, j);
      assert swaps[..k + 1][..k] == swaps[..k];
    }
    assert swaps[..|swaps|] == swaps;
  }

  ghost function ApplySwaps(p: seq<nat>, swaps: seq<(nat, nat)>): (r: seq<nat>)
    requires SwapsInRange(swaps, |p|)
    ensures |r| == |p|
  {
    if swaps == [] then p
    else
      var last := |swaps| - 1;
      Swapped(ApplySwaps(p, swaps[..last]), swaps[last].0, swaps[last].1)
  }

  lemma SwapKeepsPerm(p: seq<nat>, i: nat, j: nat)
    requires IsPerm(p) && i < |p| && j < |p|
    ensures IsPerm(Swapped(p, i, j))
  {
  }

  lemma PermCovers(p: seq<nat>)
    requires IsPerm(p)
    ensures forall v :: 0 <= v < |p| ==> v in p
  {
    Pigeonhole(p, |p|);
  }

  /** One more swap exchanges the two entries it names, and leaves all others where they were. */
  lemma OneMoreSwap(p: seq<nat>, swaps: seq<(nat, nat)>, i: nat, j: nat)
    requires SwapsInRange(swaps, |p|) && i < |p| && j < |p|
    ensures SwapsInRange(swaps + [(i, j)], |p|)
    ensures var before, after := ApplySwaps(p, swaps), ApplySwaps(p, swaps + [(i, j)]);
      after[i] == before[j] && after[j] == before[i]
      && forall k :: 0 <= k < |p| && k != i && k != j ==> after[k] == before[k]
  {
    assert (swaps + [(i, j)])[..|swaps|] == swaps;
  }

  lemma NoSwap(n: nat)
    ensures |ApplySwaps(Identity(n), [])| == n && forall k :: 0 <= k < n ==> ApplySwaps(Identity(n), [])[k] == k
  {
  }

  ghost predicate FixesFrom(p: seq<nat>, m: nat) {
    forall k :: m <= k < |p| ==> p[k] == k
  }

  lemma PlaceOf(p: seq<nat>, v: nat) returns (k: nat)
    requires IsPerm(p) && v < |p|
    ensures k < |p| && p[k] == v
  {
    PermCovers(p);
    assert v in p;
    k :| 0 <= k < |p| && p[k] == v;
  }

  lemma FixesOneMore(p: seq<nat>, k: nat, m: nat)
    requires IsPerm(p) && 0 < m <= |p| && k < |p| && p[k] == m - 1
    requires FixesFrom(p, m)
    ensures IsPerm(Swapped(p, k, m - 1))
    ensures FixesFrom(Swapped(p, k, m - 1), m - 1)
  {
    SwapKeepsPerm(p, k, m - 1);
  }

  lemma LastSwap(p: seq<nat>, swaps: seq<(nat, nat)>, i: nat, j: nat)
    requires SwapsInRange(swaps, |p|) && i < |p| && j < |p|
    ensures SwapsInRange(swaps + [(i, j)], |p|)
    ensures ApplySwaps(p, swaps + [(i, j)]) == Swapped(ApplySwaps(p, swaps), i, j)
  {
    assert (swaps + [(i, j)])[..|swaps|] == swaps;
  }

  lemma SwappedTwice(p: seq<nat>, i: nat, j: nat)
    requires i < |p| && j < |p|
    ensures Swapped(Swapped(p, i, j), i, j) == p
  {
  }

  /** Swaps that lead to a permutation which leaves the positions from `m` on alone. */
  lemma {:induction false} SwapsTo(p: seq<nat>, m: nat) returns (swaps: seq<(nat, nat)>)
    requires IsPerm(p) && m <= |p| && FixesFrom(p, m)
    ensures SwapsInRange(swaps, |p|) && ApplySwaps(Identity(|p|), swaps) == p
    decreases m
  {
    if m == 0 {
      swaps := [];
      NoSwap(|p|);
      assert ApplySwaps(Identity(|p|), []) == p;
    } else {
      var k := PlaceOf(p, m - 1);
      FixesOneMore(p, k, m);
      var front := SwapsTo(Swapped(p, k, m - 1), m - 1);
      swaps := front + [(k, m - 1)];
      LastSwap(Identity(|p|), front, k, m - 1);
      SwappedTwice(p, k, m - 1);
    }
  }

  /** Every permutation is the outcome of some swaps. */
  lemma EveryPermReached(p: seq<nat>) returns (swaps: seq<(nat, nat)>)
    requires IsPerm(p)
    ensures SwapsInRange(swaps, |p|) && ApplySwaps(Identity(|p|), swaps) == p
  {
    swaps := SwapsTo(p, |p|);
  }

  /** Position `k` of the permuted data holds entry `p[k]`. */
  function Permuted<T>(p: seq<nat>, data: seq<T>): (r: seq<T>)
    requires |p| == |data| && forall i :: 0 <= i < |p| ==> p[i] < |p|
    ensures |r| == |data| && forall k :: 0 <= k < |r| ==> r[k] == data[p[k]]
  {
    seq(|data|, k requires 0 <= k < |data| => data[p[k]])
  }

  /** `Undoes(p, data, r)`: `r` is `data` with the permutation taken back. It determines `r`. */
  ghost predicate Undoes<T>(p: seq<nat>, data: seq<T>, r: seq<T>)
    requires IsPerm(p) && |p| == |data|
  {
    |r| == |data| && forall k :: 0 <= k < |p| ==> r[p[k]] == data[k]
  }

  method PermuteAndUndo<T(0)>(p: seq<nat>, isPermute: bool, data: seq<T>) returns (output: array<T>)
    requires IsPerm(p) && |p| == |data|
    ensures fresh(output) && output.Length == |data|
    ensures isPermute ==> output[..] == Permuted(p, data)
    ensures !isPermute ==> Undoes(p, data, output[..])
  {
    output := new T[|data|];
    if isPermute {
      for i := 0 to |p|
        invariant forall k :: 0 <= k < i ==> output[k] == data[p[k]]
      {
        output[i] := data[p[i]];
      }
    } else {
      for i := 0 to |p|
        invariant forall k :: 0 <= k < i ==> output[p[k]] == data[k]
      {
        output[p[i]] := data[i];
      }
    }
  }

  /** Undoing has at most one outcome. */
  lemma UndoUnique<T>(p: seq<nat>, data: seq<T>, r: seq<T>, r': seq<T>)
    requires IsPerm(p) && |p| == |data|
    requires Undoes(p, data, r) && Undoes(p, data, r')
    ensures r == r'
  {
    PermCovers(p);
    forall v | 0 <= v < |r| ensures r[v] == r'[v] {
      assert v in p;
      var k :| 0 <= k < |p| && p[k] == v;
    }
  }

  ghost function Undone<T>(p: seq<nat>, data: seq<T>): (r: seq<T>)
    requires IsPerm(p) && |p| == |data|
    ensures Undoes(p, data, r)
  {
    PermCovers(p);
    seq(|p|, v requires 0 <= v < |p| =>
      assert v in p; var k :| 0 <= k < |p| && p[k] == v; data[k])
  }

  /** Undo after permute restores the data, also when each element was mapped in between. */
  lemma UndoRestoresMapped<A, B>(p: seq<nat>, f: A -> B, data: seq<A>, r: seq<B>)
    requires IsPerm(p) && |p| == |data|
    requires Undoes(p, Map(f, Permuted(p, data)), r)
    ensures r == Map(f, data)
  {
    assert Undoes(p, Map(f, Permuted(p, data)), Map(f, data));
    UndoUnique(p, Map(f, Permuted(p, data)), r, Map(f, data));
  }

  /** Permute after undo is the identity as well. */
  lemma PermuteRestores<T>(p: seq<nat>, data: seq<T>, r: seq<T>)
    requires IsPerm(p) && |p| == |data| && Undoes(p, data, r)
    ensures Permuted(p, r) == data
  {
  }

  /** Permuting keeps every element as often as it occurred. */
  lemma {:induction false} PermuteKeepsMultiset<T>(p: seq<nat>, data: seq<T>)
    requires IsPerm(p) && |p| == |data|
    ensures multiset(Permuted(p, data)) == multiset(data)
  {
    var n := |p|;
    if n > 0 {
      var k := PlaceOf(p, n - 1);
      PermutedWithout(p, k, data);
      PermuteKeepsMultiset(p[..k] + p[k + 1..], data[..n - 1]);
      var r := Permuted(p, data);
      PutBack(r, k, data[n - 1]);
      assert data == data[..n - 1] + [data[n - 1]];
    }
  }

  lemma WithoutLargest(p: seq<nat>, k: nat)
    requires IsPerm(p) && k < |p| && p[k] == |p| - 1
    ensures IsPerm(p[..k] + p[k + 1..])
  {
  }

  lemma PermutedWithout<T>(p: seq<nat>, k: nat, data: seq<T>)
    requires IsPerm(p) && |p| == |data| && k < |p| && p[k] == |p| - 1
    ensures IsPerm(p[..k] + p[k + 1..])
    ensures Permuted(p[..k] + p[k + 1..], data[..|p| - 1]) == Permuted(p, data)[..k] + Permuted(p, data)[k + 1..]
  {
    WithoutLargest(p, k);
  }

  lemma PutBack<T>(s: seq<T>, k: nat, x: T)
    requires k < |s| && s[k] == x
    ensures multiset(s) == multiset(s[..k] + s[k + 1..]) + multiset{x}
  {
    assert s == s[..k] + [x] + s[k + 1..];
  }

  lemma PermuteKeepsMembers<T(!new)>(p: seq<nat>, data: seq<T>)
    requires IsPerm(p) && |p| == |data|
    ensures forall x :: x in Permuted(p, data) <==> x in data
  {
    PermuteKeepsMultiset(p, data);
    forall x ensures x in Permuted(p, data) <==> x in data {
      assert x in Permuted(p, data) <==> x in multiset(Permuted(p, data));
    }
  }
}
