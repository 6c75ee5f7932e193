/** The local computations of KKRT-PSI (src/setops/psi/kkrt_psi.cpp). */
module Kkrt {
  import opened Sequences
  import opened Bytes
  import opened Permutation
  import opened Hashing
  import opened ObliviousPrf

  const REDUCED_LENGTH: nat := 12

  // ---- the sender ----

  /** The masks of the entries that function `f` placed, in walking order. */
  function Group(oprf: Oprf, walk: seq<Placed>, f: nat): seq<Block> {
    if walk == [] then []
    else
      var last := walk[|walk| - 1];
      Group(oprf, walk[..|walk| - 1], f) + if last.fid == f then [oprf(last.bin, last.value)] else []
  }

  lemma GroupSnoc(oprf: Oprf, walked: seq<Placed>, last: Placed)
    ensures forall f ::
      Group(oprf, walked + [last], f)
      == Group(oprf, walked, f) + if last.fid == f then [oprf(last.bin, last.value)] else []
  {
    assert (walked + [last])[..|walked|] == walked;
  }

  /** What the simple table holds, the protocol may use as an index: every function id is in range. */
  lemma FunctionsInRange(lib: HashLib, seed: Block, bins: nat, funs: nat, xs: seq<Item>)
    requires SimpleOk(lib, seed, bins, funs, xs)
    ensures var table := lib.simple(seed, bins, funs, xs);
      forall i, j :: 0 <= i < |table| && 0 <= j < |table[i]| ==> table[i][j].fid < funs
  {
    var table: seq<seq<Entry>> := lib.simple(seed, bins, funs, xs);
    forall i, j | 0 <= i < |table| && 0 <= j < |table[i]| ensures table[i][j].fid < funs {
      var e := Placed(i, table[i][j].value, table[i][j].fid);
      WalkMember(table, e);
      assert e in multiset(Walk(table));
      assert e in multiset(Expected(lib, seed, bins, funs, xs));
      ExpectedMember(lib, seed, bins, funs, xs, e);
    }
  }

  /** The sender's loop over its own table: the groups are those of the protocol. */
  method GroupsOfTable(oprf: Oprf, lib: HashLib, seed: Block, bins: nat, funs: nat, xs: seq<Item>)
      returns (groups: array<seq<Block>>)
    requires SimpleOk(lib, seed, bins, funs, xs)
    ensures fresh(groups) && groups.Length == funs
    ensures forall f :: 0 <= f < funs ==>
      multiset(groups[f]) == multiset(MasksUnder(oprf, lib, seed, bins, xs, f)) && |groups[f]| == |xs|
  {
    FunctionsInRange(lib, seed, bins, funs, xs);
    groups := CollectByFunction(oprf, lib.simple(seed, bins, funs, xs), funs);
    forall f | 0 <= f < funs
      ensures multiset(groups[f]) == multiset(MasksUnder(oprf, lib, seed, bins, xs, f)) && |groups[f]| == |xs|
    {
      GroupIsMasks(oprf, lib, seed, bins, funs, xs, f);
    }
  }

  method CollectByFunction(oprf: Oprf, table: seq<seq<Entry>>, funs: nat) returns (groups: array<seq<Block>>)
    requires forall i, j :: 0 <= i < |table| && 0 <= j < |table[i]| ==> table[i][j].fid < funs
    ensures fresh(groups) && groups.Length == funs
    ensures forall f :: 0 <= f < funs ==> groups[f] == Group(oprf, Walk(table), f)
  {
    groups := new seq<Block>[funs](_ => []);
    for i := 0 to |table|
      invariant forall f :: 0 <= f < funs ==> groups[f] == Group(oprf, Walk(table[..i]), f)
    {
      var row := table[i];
      ghost var before := Walk(table[..i]);
      ghost var walked := before;
      assert WalkBin(i, row)[..0] == [];
      for j := 0 to |row|
        invariant walked == before + WalkBin(i, row)[..j]
        invariant forall f :: 0 <= f < funs ==> groups[f] == Group(oprf, walked, f)
      {
        var mask := oprf(i, row[j].value);
        groups[row[j].fid] := groups[row[j].fid] + [mask];
        ghost var last := Placed(i, row[j].value, row[j].fid);
        GroupSnoc(oprf, walked, last);
        walked := walked + [last];
      }
      assert WalkBin(i, row)[..|row|] == WalkBin(i, row);
      assert table[..i + 1][..i] == table[..i];
    }
    assert table[..|table|] == table;
  }

  /** The masks of all items under function `f`, in insertion order. */
  ghost function MasksUnder(
      oprf: Oprf, lib: HashLib, seed: Block, bins: nat, xs: seq<Item>, f: nat): (r: seq<Block>)
    ensures |r| == |xs|
    ensures forall p :: 0 <= p < |xs| ==> r[p] == oprf(lib.address(seed, f, xs[p], bins), Tagged(xs[p], f))
  {
    seq<Block>(|xs|, p requires 0 <= p < |xs| => oprf(lib.address(seed, f, xs[p], bins), Tagged(xs[p], f)))
  }

  lemma {:induction false} GroupConcat(oprf: Oprf, v: seq<Placed>, w: seq<Placed>, f: nat)
    ensures Group(oprf, v + w, f) == Group(oprf, v, f) + Group(oprf, w, f)
  {
    if w == [] {
      assert v + w == v;
    } else {
      var n := |w| - 1;
      assert (v + w)[..|v| + n] == v + w[..n];
      GroupConcat(oprf, v, w[..n], f);
    }
  }

  lemma {:induction false} GroupOfItem(
      oprf: Oprf, lib: HashLib, seed: Block, bins: nat, funs: nat, x: Item, f: nat, n: nat)
    requires n <= funs
    ensures Group(oprf, PlacedBy(lib, seed, bins, funs, x)[..n], f)
         == if f < n then [oprf(lib.address(seed, f, x, bins), Tagged(x, f))] else []
  {
    if n > 0 {
      var w := PlacedBy(lib, seed, bins, funs, x);
      assert w[..n][..n - 1] == w[..n - 1];
      GroupOfItem(oprf, lib, seed, bins, funs, x, f, n - 1);
    }
  }

  lemma {:induction false} GroupOfExpected(
      oprf: Oprf, lib: HashLib, seed: Block, bins: nat, funs: nat, xs: seq<Item>, f: nat)
    requires f < funs
    ensures Group(oprf, Expected(lib, seed, bins, funs, xs), f) == MasksUnder(oprf, lib, seed, bins, xs, f)
  {
    if xs != [] {
      var n := |xs| - 1;
      GroupOfExpected(oprf, lib, seed, bins, funs, xs[..n], f);
      var w := PlacedBy(lib, seed, bins, funs, xs[n]);
      GroupConcat(oprf, Expected(lib, seed, bins, funs, xs[..n]), w, f);
      GroupOfItem(oprf, lib, seed, bins, funs, xs[n], f, funs);
      assert w[..funs] == w;
    }
  }

  /** An entry adds its own mask to its group, wherever it stands. */
  lemma GroupWith(oprf: Oprf, w: seq<Placed>, k: nat, f: nat)
    requires k < |w|
    ensures multiset(Group(oprf, w, f))
      == multiset(Group(oprf, w[..k] + w[k + 1..], f)) + multiset(Group(oprf, [w[k]], f))
  {
    assert w == w[..k] + [w[k]] + w[k + 1..];
    GroupConcat(oprf, w[..k], w[k + 1..], f);
    GroupConcat(oprf, w[..k], [w[k]], f);
    GroupConcat(oprf, w[..k] + [w[k]], w[k + 1..], f);
  }

  /** Reordering the walk reorders each group. */
  lemma {:induction false} GroupReordered(oprf: Oprf, v: seq<Placed>, w: seq<Placed>, f: nat)
    requires multiset(v) == multiset(w)
    ensures multiset(Group(oprf, v, f)) == multiset(Group(oprf, w, f))
    decreases |v|
  {
    if v == [] {
      assert |multiset(w)| == 0;
    } else {
      var n := |v| - 1;
      assert v[n] in multiset(w);
      var k :| 0 <= k < |w| && w[k] == v[n];
      var front, rest := v[..n] + v[n + 1..], w[..k] + w[k + 1..];
      PutBack(v, n, v[n]);
      PutBack(w, k, v[n]);
      assert multiset(front) == multiset(v) - multiset{v[n]} == multiset(rest);
      GroupReordered(oprf, front, rest, f);
      GroupWith(oprf, v, n, f);
      GroupWith(oprf, w, k, f);
    }
  }

  /** Each group has one mask for each of the sender's keys, whatever the order inside the bins. */
  lemma GroupIsMasks(oprf: Oprf, lib: HashLib, seed: Block, bins: nat, funs: nat, xs: seq<Item>, f: nat)
    requires SimpleOk(lib, seed, bins, funs, xs) && f < funs
    ensures var group := Group(oprf, Walk(lib.simple(seed, bins, funs, xs)), f);
      multiset(group) == multiset(MasksUnder(oprf, lib, seed, bins, xs, f)) && |group| == |xs|
  {
    var walk := Walk(lib.simple(seed, bins, funs, xs));
    GroupReordered(oprf, walk, Expected(lib, seed, bins, funs, xs), f);
    GroupOfExpected(oprf, lib, seed, bins, funs, xs, f);
    assert |multiset(Group(oprf, walk, f))| == |Group(oprf, walk, f)|;
    assert |multiset(MasksUnder(oprf, lib, seed, bins, xs, f))| == |xs|;
  }

  function Reduced(masks: seq<Block>): (r: seq<Record>)
    ensures |r| == |masks| && AllWidth(r, REDUCED_LENGTH)
    ensures forall i :: 0 <= i < |r| ==> r[i] == Head(masks[i].bytes, REDUCED_LENGTH)
  {
    seq<Record>(|masks|, i requires 0 <= i < |masks| => Head(masks[i].bytes, REDUCED_LENGTH))
  }

  /** Truncating keeps multiplicities. */
  lemma {:induction false} ReducedReordered(v: seq<Block>, w: seq<Block>)
    requires multiset(v) == multiset(w)
    ensures multiset(Reduced(v)) == multiset(Reduced(w))
    decreases |v|
  {
    if v == [] {
      assert |multiset(w)| == 0;
    } else {
      var n := |v| - 1;
      assert v[n] in multiset(w);
      var k :| 0 <= k < |w| && w[k] == v[n];
      var front, rest := v[..n] + v[n + 1..], w[..k] + w[k + 1..];
      PutBack(v, n, v[n]);
      PutBack(w, k, v[n]);
      assert multiset(front) == multiset(v) - multiset{v[n]} == multiset(rest);
      ReducedReordered(front, rest);
      ReducedWithout(v, n);
      ReducedWithout(w, k);
    }
  }

  lemma ReducedWithout(w: seq<Block>, k: nat)
    requires k < |w|
    ensures multiset(Reduced(w))
      == multiset(Reduced(w[..k] + w[k + 1..])) + multiset{Head(w[k].bytes, REDUCED_LENGTH)}
  {
    var r := Reduced(w);
    PutBack(r, k, Head(w[k].bytes, REDUCED_LENGTH));
    assert Reduced(w[..k] + w[k + 1..]) == r[..k] + r[k + 1..];
  }

  function AllReduced(groups: seq<seq<Block>>): (r: seq<seq<Record>>)
    ensures |r| == |groups| && forall f :: 0 <= f < |r| ==> r[f] == Reduced(groups[f])
  {
    seq(|groups|, f requires 0 <= f < |groups| => Reduced(groups[f]))
  }

  lemma FlattenNone(done: seq<Record>, row: seq<Record>)
    ensures Flatten(done + row[..0]) == Flatten(done)
  {
    assert done + row[..0] == done;
  }

  lemma FlattenOneMore(done: seq<Record>, row: seq<Record>, j: nat)
    requires j < |row|
    ensures Flatten(done + row[..j + 1]) == Flatten(done + row[..j]) + row[j]
  {
    assert done + row[..j + 1] == (done + row[..j]) + [row[j]];
    FlattenSnoc(done + row[..j], row[j]);
  }

  /** Truncates all shuffled groups into one buffer. */
  method ReduceAndFlatten(groups: seq<seq<Block>>, n: nat) returns (buffer: Record)
    requires forall f :: 0 <= f < |groups| ==> |groups[f]| == n
    ensures buffer == Flatten(Flatten(AllReduced(groups)))
  {
    buffer := [];
    ghost var rows := AllReduced(groups);
    for i := 0 to |groups|
      invariant buffer == Flatten(Flatten(rows[..i]))
    {
      ghost var done := Flatten(rows[..i]);
      FlattenNone(done, rows[i]);
      for j := 0 to n
        invariant buffer == Flatten(done + rows[i][..j])
      {
        buffer := buffer + Head(groups[i][j].bytes, REDUCED_LENGTH);
        FlattenOneMore(done, rows[i], j);
      }
      assert rows[i][..n] == rows[i];
      FlattenPrefix(rows, i);
    }
    assert rows[..|groups|] == rows;
  }

  /** Re-slicing the buffer and taking the `f`-th run of `n` records gives the `f`-th truncated group. */
  lemma SliceIsGroup(groups: seq<seq<Block>>, n: nat, f: nat)
    requires (forall g :: 0 <= g < |groups| ==> |groups[g]| == n) && f < |groups|
    ensures 0 <= f * n <= (f + 1) * n <= |groups| * n
    ensures |Flatten(Flatten(AllReduced(groups)))| == |groups| * n * REDUCED_LENGTH
    ensures Slices(Flatten(Flatten(AllReduced(groups))), |groups| * n, REDUCED_LENGTH)[f * n..(f + 1) * n]
         == Reduced(groups[f])
  {
    var rows := AllReduced(groups);
    InBuffer(f, |groups|, n);
    SlicesFlatten(rows, n);
    AllWidthFlatten(rows, REDUCED_LENGTH);
    SlicesFlatten(Flatten(rows), REDUCED_LENGTH);
    assert Slices(Flatten(rows), |groups|, n)[f] == rows[f];
  }

  lemma {:induction false} AllWidthFlatten(rows: seq<seq<Record>>, width: nat)
    requires forall i :: 0 <= i < |rows| ==> AllWidth(rows[i], width)
    ensures AllWidth(Flatten(rows), width)
  {
    if rows != [] {
      AllWidthFlatten(rows[..|rows| - 1], width);
    }
  }

  // ---- the receiver ----

  method FindRecord(records: seq<Record>, from: nat, to: nat, key: Record) returns (found: bool)
    requires from <= to <= |records|
    ensures found <==> key in records[from..to]
  {
    found := false;
    for i := from to to
      invariant found <==> key in records[from..i]
    {
      if records[i] == key {
        found := true;
      }
    }
  }

  /** The `n` records that function `f` has among those received. */
  function RecordsOf(records: seq<Record>, n: nat, funs: nat, f: nat): seq<Record>
    requires |records| == funs * n && f < funs
  {
    InBuffer(f, funs, n);
    records[f * n..(f + 1) * n]
  }

  /** Bin `b` is occupied, and its truncated mask is among those received for its function id. */
  predicate Hit(t: CuckooTable, masks: seq<Block>, records: seq<Record>, n: nat, funs: nat, b: nat)
    requires b < |t.fids| && b < |masks| && |records| == funs * n
  {
    var f := t.fids[b];
    f < funs && Head(masks[b].bytes, REDUCED_LENGTH) in RecordsOf(records, n, funs, f)
  }

  ghost function Hits(t: CuckooTable, masks: seq<Block>, records: seq<Record>, n: nat, funs: nat): (r: seq<bool>)
    requires |t.fids| <= |masks| && |records| == funs * n
    ensures |r| == |t.fids| && forall b :: 0 <= b < |r| ==> r[b] == Hit(t, masks, records, n, funs, b)
  {
    seq(|t.fids|, b requires 0 <= b < |t.fids| => Hit(t, masks, records, n, funs, b))
  }

  /** Input position `id` is flagged when some hit bin holds it. */
  ghost function InputFlags(ids: seq<nat>, hits: seq<bool>, n: nat): (r: seq<bool>)
    requires |ids| == |hits|
    ensures |r| == n && forall id :: 0 <= id < n ==> r[id] == FlaggedWith(ids, hits, id)
  {
    seq(n, id requires 0 <= id < n => FlaggedWith(ids, hits, id))
  }

  method MatchBins(t: CuckooTable, masks: seq<Block>, records: seq<Record>, n: nat, funs: nat)
      returns (indices: array<bool>, count: nat)
    requires |t.fids| == |t.ids| == |masks| && |records| == funs * n
    requires forall b :: 0 <= b < |t.fids| && t.fids[b] < funs ==> t.ids[b] < |t.fids|
    ensures fresh(indices)
    ensures indices[..] == InputFlags(t.ids, Hits(t, masks, records, n, funs), |t.fids|)
    ensures count == CountTrue(Hits(t, masks, records, n, funs))
  {
    ghost var hits := Hits(t, masks, records, n, funs);
    indices := new bool[|t.fids|](_ => false);
    count := 0;
    for b := 0 to |t.fids|
      invariant forall id :: 0 <= id < |t.fids| ==> indices[id] == FlaggedWith(t.ids[..b], hits, id)
      invariant count == CountTrue(hits[..b])
    {
      CountPrefix(hits, b);
      var f := t.fids[b];
      var found := false;
      if f < funs {
        InBuffer(f, funs, n);
        found := FindRecord(records, f * n, (f + 1) * n, Head(masks[b].bytes, REDUCED_LENGTH));
      }
      FlaggedPrefix(t.ids, hits, b);
      if found {
        indices[t.ids[b]] := true;
        count := count + 1;
      }
    }
    assert hits[..|t.fids|] == hits && t.ids[..|t.fids|] == t.ids;
  }

  /** The table places no input twice: what an empty stash guarantees. */
  ghost predicate PlacesOnce(t: CuckooTable, funs: nat, inputs: nat) {
    && |t.fids| == |t.ids| && inputs <= |t.fids|
    && (forall b :: 0 <= b < |t.fids| && t.fids[b] < funs ==> t.ids[b] < inputs)
    && (forall b, b' :: 0 <= b < b' < |t.fids| && t.fids[b] < funs && t.fids[b'] < funs ==> t.ids[b] != t.ids[b'])
  }

  lemma EmptyStashPlacesOnce(lib: HashLib, seed: Block, bins: nat, funs: nat, xs: seq<Item>)
    requires CuckooOk(lib, seed, bins, funs, xs) && lib.cuckoo(seed, bins, funs, xs).stash == 0
    ensures PlacesOnce(lib.cuckoo(seed, bins, funs, xs), funs, |xs|)
  {
    EmptyStashFits(lib, seed, bins, funs, xs);
  }

  lemma HitsCountInputs(t: CuckooTable, masks: seq<Block>, records: seq<Record>, n: nat, funs: nat, inputs: nat)
    requires PlacesOnce(t, funs, inputs) && |masks| == |t.fids| && |records| == funs * n
    ensures var hits := Hits(t, masks, records, n, funs);
      CountTrue(InputFlags(t.ids, hits, |hits|)[..inputs]) == CountTrue(hits)
  {
    var hits := Hits(t, masks, records, n, funs);
    CountByTarget(t.ids, hits, InputFlags(t.ids, hits, |hits|)[..inputs]);
  }

  /** The receiver's whole matching: the output is sized by the hits in the bins and filled by the
      flags on the inputs; the two agree, so it is filled exactly and no index leaves its vector. */
  method ReceiverIntersect(
      t: CuckooTable, masks: seq<Block>, records: seq<Record>, n: nat, funs: nat, keys: seq<string>)
      returns (output: seq<string>, count: nat)
    requires PlacesOnce(t, funs, |keys|) && |masks| == |t.fids| && |records| == funs * n
    ensures var hits := Hits(t, masks, records, n, funs);
      output == Select(keys, InputFlags(t.ids, hits, |hits|)) && count == CountTrue(hits) == |output|
  {
    var indices;
    indices, count := MatchBins(t, masks, records, n, funs);
    HitsCountInputs(t, masks, records, n, funs, |keys|);
    assert indices[..|keys|] == indices[..][..|keys|];
    output := EmitFlagged(keys, indices, count);
  }
}
