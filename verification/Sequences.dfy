/** Facts about sequences that several protocols share. */
module Sequences {

  function Map<A, B>(f: A -> B, s: seq<A>): (r: seq<B>)
    ensures |r| == |s| && forall i :: 0 <= i < |s| ==> r[i] == f(s[i])
  {
    seq(|s|, i requires 0 <= i < |s| => f(s[i]))
  }

  ghost predicate Distinct<T>(s: seq<T>) {
    forall i, j :: 0 <= i < j < |s| ==> s[i] != s[j]
  }

  /** The elements of `s` whose flag is set, in order. */
  function Select<T>(s: seq<T>, flags: seq<bool>): (r: seq<T>)
    requires |s| <= |flags|
    ensures |r| == CountTrue(flags[..|s|])
  {
    if s == [] then []
    else
      var last := |s| - 1;
      assert flags[..|s|][..last] == flags[..last];
      Select(s[..last], flags) + if flags[last] then [s[last]] else []
  }

  function CountTrue(flags: seq<bool>): (n: nat)
    ensures n <= |flags|
  {
    if flags == [] then 0
    else CountTrue(flags[..|flags| - 1]) + if flags[|flags| - 1] then 1 else 0
  }

  /** The elements of `s` that occur in `other`: in the order of `s`, duplicates kept. */
  function Intersect<T(==,!new)>(s: seq<T>, other: seq<T>): (r: seq<T>)
    ensures forall x :: x in r <==> x in s && x in other
  {
    if s == [] then []
    else
      assert s == s[..|s| - 1] + [s[|s| - 1]];
      Intersect(s[..|s| - 1], other) + if s[|s| - 1] in other then [s[|s| - 1]] else []
  }

  lemma {:induction false} SelectIsIntersect<T(!new)>(s: seq<T>, other: seq<T>, flags: seq<bool>)
    requires |s| <= |flags|
    requires forall i :: 0 <= i < |s| ==> (flags[i] <==> s[i] in other)
    ensures Select(s, flags) == Intersect(s, other)
    ensures CountTrue(flags[..|s|]) == |Intersect(s, other)|
  {
    if s != [] {
      SelectIsIntersect(s[..|s| - 1], other, flags);
    }
  }

  lemma {:induction false} SelectPrefix<T>(s: seq<T>, flags: seq<bool>, n: nat)
    requires n < |s| <= |flags|
    ensures Select(s[..n + 1], flags) == Select(s[..n], flags) + if flags[n] then [s[n]] else []
  {
    assert s[..n + 1][..n] == s[..n];
  }

  lemma {:induction false} CountPrefix(flags: seq<bool>, n: nat)
    requires n < |flags|
    ensures CountTrue(flags[..n + 1]) == CountTrue(flags[..n]) + if flags[n] then 1 else 0
  {
    assert flags[..n + 1][..n] == flags[..n];
  }

  lemma {:induction false} CountGrows(flags: seq<bool>, m: nat, n: nat)
    requires m <= n <= |flags|
    ensures CountTrue(flags[..m]) <= CountTrue(flags[..n])
  {
    if m < n {
      CountGrows(flags, m, n - 1);
      CountPrefix(flags, n - 1);
    }
  }

  /** The resize-and-copy loop that ends both PSI protocols. The output was sized by a separate
      count; the copy fills it exactly and stays inside both vectors. */
  method EmitFlagged(input: seq<string>, indices: array<bool>, count: nat) returns (output: seq<string>)
    requires |input| <= indices.Length
    requires count == CountTrue(indices[..|input|])
    ensures output == Select(input, indices[..])
  {
    var result := new string[count];
    var resultIdx := 0;
    ghost var flags := indices[..];
    assert flags[..|input|] == indices[..|input|];
    for i := 0 to |input|
      invariant indices[..] == flags
      invariant 0 <= resultIdx <= count && resultIdx == CountTrue(flags[..i])
      invariant result[..resultIdx] == Select(input[..i], flags)
    {
      CountPrefix(flags, i);
      CountGrows(flags, i + 1, |input|);
      SelectPrefix(input, flags, i);
      if indices[i] {
        result[resultIdx] := input[i];
        resultIdx := resultIdx + 1;
      }
    }
    assert input[..|input|] == input;
    output := result[..];
  }

  // ---- finite injections ----

  ghost function Indices(n: nat): (s: set<nat>)
    ensures forall i :: i in s <==> 0 <= i < n
    ensures |s| == n
  {
    if n == 0 then {} else Indices(n - 1) + {n - 1}
  }

  lemma SubsetSize<T>(a: set<T>, b: set<T>)
    requires a <= b
    ensures |a| <= |b|
    ensures |a| == |b| ==> a == b
  {
    assert b == a + (b - a);
  }

  ghost function Elements<T(!new)>(s: seq<T>): (r: set<T>)
    ensures forall x :: x in r <==> x in s
  {
    set x | x in s
  }

  lemma {:induction false} DistinctSize<T(!new)>(s: seq<T>)
    requires Distinct(s)
    ensures |Elements(s)| == |s|
  {
    if s != [] {
      var n := |s| - 1;
      DistinctSize(s[..n]);
      assert s == s[..n] + [s[n]];
      assert Elements(s) == Elements(s[..n]) + {s[n]};
    }
  }

  /** Pigeonhole: distinct numbers below `n` number at most `n`, and exactly `n` of them leave none out. */
  lemma Pigeonhole(s: seq<nat>, n: nat)
    requires Distinct(s) && forall i :: 0 <= i < |s| ==> s[i] < n
    ensures |s| <= n
    ensures |s| == n ==> forall v :: 0 <= v < n ==> v in s
  {
    DistinctSize(s);
    SubsetSize(Elements(s), Indices(n));
    if |s| == n {
      forall v | 0 <= v < n ensures v in s {
        assert v in Indices(n);
      }
    }
  }

  ghost function TrueAt(flags: seq<bool>): (r: set<nat>)
    ensures forall i :: i in r <==> 0 <= i < |flags| && flags[i]
    ensures |r| == CountTrue(flags)
  {
    if flags == [] then {}
    else TrueAt(flags[..|flags| - 1]) + if flags[|flags| - 1] then {|flags| - 1} else {}
  }

  /** `flags[b]` holds for a position `b` of `s` that carries `x`. */
  ghost predicate FlaggedWith<T>(s: seq<T>, flags: seq<bool>, x: T) {
    exists b :: 0 <= b < |s| && b < |flags| && flags[b] && s[b] == x
  }

  lemma {:induction false} FlaggedPrefix<T(!new)>(s: seq<T>, flags: seq<bool>, n: nat)
    requires n < |s| && n < |flags|
    ensures forall x :: FlaggedWith(s[..n + 1], flags, x) <==> FlaggedWith(s[..n], flags, x) || (flags[n] && s[n] == x)
  {
    forall x ensures FlaggedWith(s[..n + 1], flags, x) <==> FlaggedWith(s[..n], flags, x) || (flags[n] && s[n] == x) {
      if FlaggedWith(s[..n], flags, x) {
        var b :| 0 <= b < n && flags[b] && s[..n][b] == x;
        assert s[..n + 1][b] == x;
      }
      if flags[n] && s[n] == x {
        assert s[..n + 1][n] == x;
      }
    }
  }

  lemma {:induction false} SelectMembers<T(!new)>(s: seq<T>, flags: seq<bool>)
    requires |s| <= |flags|
    ensures forall x :: x in Select(s, flags) <==> FlaggedWith(s, flags, x)
  {
    if s != [] {
      var n := |s| - 1;
      SelectMembers(s[..n], flags);
      FlaggedPrefix(s, flags, n);
      assert s[..n + 1] == s;
    }
  }

  ghost predicate DistinctWhere<T>(s: seq<T>, flags: seq<bool>)
    requires |s| <= |flags|
  {
    forall b, b' :: 0 <= b < b' < |s| && flags[b] && flags[b'] ==> s[b] != s[b']
  }

  /** Targets in one list of distinct items, exchanged for the places of the same items in another. */
  lemma Retargeted<T>(r: seq<T>, s: seq<T>, ids: seq<nat>, places: seq<nat>, flags: seq<bool>)
    requires Distinct(r) && Distinct(s) && |ids| == |places| == |flags| && DistinctWhere(ids, flags)
    requires forall b :: 0 <= b < |ids| && flags[b] ==>
      ids[b] < |r| && places[b] < |s| && s[places[b]] == r[ids[b]]
    requires forall x :: 0 <= x < |r| && r[x] in s ==> FlaggedWith(ids, flags, x)
    ensures DistinctWhere(places, flags)
    ensures forall x :: FlaggedWith(places, flags, x) <==> 0 <= x < |s| && s[x] in r
  {
    forall x | 0 <= x < |s| && s[x] in r ensures FlaggedWith(places, flags, x) {
      var id: nat :| id < |r| && r[id] == s[x];
      assert FlaggedWith(ids, flags, id);
      var b :| 0 <= b < |ids| && flags[b] && ids[b] == id;
      assert s[places[b]] == s[x];
    }
    forall x | FlaggedWith(places, flags, x) ensures 0 <= x < |s| && s[x] in r {
      var b :| 0 <= b < |places| && flags[b] && places[b] == x;
      assert s[x] == r[ids[b]];
    }
  }

  lemma {:induction false} SelectDistinct<T(!new)>(s: seq<T>, flags: seq<bool>)
    requires |s| <= |flags| && DistinctWhere(s, flags)
    ensures Distinct(Select(s, flags))
  {
    if s != [] {
      var front := s[..|s| - 1];
      SelectDistinct(front, flags);
      SelectMembers(front, flags);
      assert flags[|s| - 1] ==> !FlaggedWith(front, flags, s[|s| - 1]);
      assert flags[|s| - 1] ==> s[|s| - 1] !in Select(front, flags);
    }
  }

  /** Counting hits by target agrees with counting them by bin when no two hits share their target. */
  lemma CountByTarget(target: seq<nat>, hits: seq<bool>, flags: seq<bool>)
    requires |hits| == |target| && DistinctWhere(target, hits)
    requires forall i :: FlaggedWith(target, hits, i) <==> 0 <= i < |flags| && flags[i]
    ensures CountTrue(flags) == CountTrue(hits)
  {
    SelectDistinct(target, hits);
    SelectMembers(target, hits);
    DistinctSize(Select(target, hits));
    assert Elements(Select(target, hits)) == TrueAt(flags);
    assert hits[..|target|] == hits;
  }

  lemma {:induction false} AllCounted(flags: seq<bool>)
    requires forall i :: 0 <= i < |flags| ==> flags[i]
    ensures CountTrue(flags) == |flags|
  {
    if flags != [] {
      AllCounted(flags[..|flags| - 1]);
    }
  }

  /** Two duplicate-free lists agree on how many elements they share. */
  lemma IntersectSizeSymmetric<T(!new)>(s: seq<T>, t: seq<T>)
    requires Distinct(s) && Distinct(t)
    ensures |Intersect(s, t)| == |Intersect(t, s)|
  {
    IntersectDistinct(s, t);
    IntersectDistinct(t, s);
    DistinctSize(Intersect(s, t));
    DistinctSize(Intersect(t, s));
    assert Elements(Intersect(s, t)) == Elements(Intersect(t, s));
  }

  lemma {:induction false} IntersectDistinct<T(!new)>(s: seq<T>, t: seq<T>)
    requires Distinct(s)
    ensures Distinct(Intersect(s, t))
  {
    if s != [] {
      IntersectDistinct(s[..|s| - 1], t);
    }
  }

  /** Flags that are set where others are, and at one more place, count more. */
  lemma {:induction false} CountsMore(fewer: seq<bool>, more: seq<bool>, extra: nat)
    requires |fewer| == |more| && forall i :: 0 <= i < |fewer| && fewer[i] ==> more[i]
    ensures CountTrue(fewer) <= CountTrue(more)
    ensures extra < |fewer| && !fewer[extra] && more[extra] ==> CountTrue(fewer) < CountTrue(more)
  {
    if fewer != [] {
      CountsMore(fewer[..|fewer| - 1], more[..|more| - 1], extra);
    }
  }

  /** An item that is flagged wherever it stands is selected as often as it occurs. */
  lemma {:induction false} SelectKeepsAll<T>(s: seq<T>, flags: seq<bool>, x: T)
    requires |s| <= |flags| && forall i :: 0 <= i < |s| && s[i] == x ==> flags[i]
    ensures multiset(Select(s, flags))[x] == multiset(s)[x]
  {
    if s != [] {
      var last := |s| - 1;
      SelectKeepsAll(s[..last], flags, x);
      assert s == s[..last] + [s[last]];
    }
  }

  /** Flags that miss no member and flag an item that is none select more than the members. */
  lemma SelectsMore<T(!new)>(s: seq<T>, other: seq<T>, flags: seq<bool>, extra: nat)
    requires |s| <= |flags| && extra < |s| && flags[extra] && s[extra] !in other
    requires forall i :: 0 <= i < |s| && s[i] in other ==> flags[i]
    ensures |Select(s, flags)| > |Intersect(s, other)|
  {
    var members := Map(x => x in other, s);
    SelectIsIntersect(s, other, members);
    assert members[..|s|] == members;
    CountsMore(members, flags[..|s|], extra);
  }

  // ---- records of a fixed width ----

  function Flatten<T>(rows: seq<seq<T>>): (r: seq<T>) {
    if rows == [] then [] else Flatten(rows[..|rows| - 1]) + rows[|rows| - 1]
  }

  ghost predicate AllWidth<T>(rows: seq<seq<T>>, width: nat) {
    forall i :: 0 <= i < |rows| ==> |rows[i]| == width
  }

  lemma {:induction false} FlattenPrefix<T>(rows: seq<seq<T>>, n: nat)
    requires n < |rows|
    ensures Flatten(rows[..n + 1]) == Flatten(rows[..n]) + rows[n]
  {
    assert rows[..n + 1][..n] == rows[..n];
  }

  lemma FlattenSnoc<T>(rows: seq<seq<T>>, row: seq<T>)
    ensures Flatten(rows + [row]) == Flatten(rows) + row
  {
    assert (rows + [row])[..|rows|] == rows;
  }

  lemma {:induction false} FlattenLength<T>(rows: seq<seq<T>>, width: nat)
    requires AllWidth(rows, width)
    ensures |Flatten(rows)| == |rows| * width
  {
    if rows != [] {
      InBuffer(|rows| - 1, |rows|, width);
      FlattenLength(rows[..|rows| - 1], width);
    }
  }

  lemma {:induction false} MulMonotone(a: nat, b: nat, width: nat)
    requires a <= b
    ensures a * width <= b * width
    decreases b
  {
    if a < b {
      MulMonotone(a, b - 1, width);
      assert b * width == (b - 1) * width + width;
    }
  }

  lemma InBuffer(i: nat, n: nat, width: nat)
    requires i < n
    ensures (i + 1) * width == i * width + width
    ensures 0 <= i * width <= (i + 1) * width <= n * width
  {
    MulMonotone(i + 1, n, width);
    MulMonotone(0, i, width);
    assert (i + 1) * width == i * width + width;
  }

  /** Record `i` of a buffer of `n` records. */
  function SliceAt<T>(buffer: seq<T>, i: nat, n: nat, width: nat): (row: seq<T>)
    requires |buffer| == n * width && i < n
    ensures |row| == width
  {
    InBuffer(i, n, width);
    buffer[i * width..(i + 1) * width]
  }

  /** Re-slicing a buffer of `n` records at multiples of the width. */
  function Slices<T>(buffer: seq<T>, n: nat, width: nat): (rows: seq<seq<T>>)
    requires |buffer| == n * width
    ensures |rows| == n && AllWidth(rows, width)
  {
    seq(n, i requires 0 <= i < n => SliceAt(buffer, i, n, width))
  }

  /** Re-slicing what flattening produced gives back the records. */
  lemma {:induction false} SlicesFlatten<T>(rows: seq<seq<T>>, width: nat)
    requires AllWidth(rows, width)
    ensures |Flatten(rows)| == |rows| * width
    ensures Slices(Flatten(rows), |rows|, width) == rows
  {
    FlattenLength(rows, width);
    if rows != [] {
      var n := |rows| - 1;
      var front := rows[..n];
      SlicesFlatten(front, width);
      forall i | 0 <= i < |rows| ensures Slices(Flatten(rows), |rows|, width)[i] == rows[i] {
        InBuffer(i, |rows|, width);
        if i < n {
          InBuffer(i, n, width);
          assert Slices(Flatten(front), n, width)[i] == front[i];
          assert Flatten(rows)[i * width..(i + 1) * width] == Flatten(front)[i * width..(i + 1) * width];
        }
      }
    }
  }
}
