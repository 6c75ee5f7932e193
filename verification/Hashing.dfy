/**
 The hash tables of the PETAce-Solo library, whose code is not part of this model. The library is a
 parameter; the predicates below state what the protocols rely on. They speak of positions in the
 inserted list, so a key that is inserted twice is stored twice.
 */
module Hashing {
  import opened Bytes
  import opened Sequences

  const ITEM_LENGTH: nat := 16

  type Item = x: Record | |x| == ITEM_LENGTH witness seq(ITEM_LENGTH, _ => 0 as Byte)
  /** What the PRF and the generators produce and take: 16 bytes. */
  datatype Block = Block(bytes: Item)

  /** The cast to a byte: counting up in eight bits, with wrap-around. */
  function ByteOf(f: nat): Byte {
    if f == 0 then 0 else ByteOf(f - 1) + 1
  }

  lemma NextByte(b: Byte)
    ensures (b + 1) as int == (b as int + 1) % 256
  {
  }

  lemma NextRemainder(f: nat)
    ensures (f % 256 + 1) % 256 == (f + 1) % 256
  {
  }

  lemma ByteOfNext(f: nat)
    ensures ByteOf(f + 1) == ByteOf(f) + 1
  {
  }

  /** The cast keeps the remainder by 256. */
  lemma {:induction false} ByteOfIsRemainder(f: nat)
    ensures ByteOf(f) as int == f % 256
  {
    if f > 0 {
      var b := ByteOf(f - 1);
      ByteOfIsRemainder(f - 1);
      ByteOfNext(f - 1);
      NextByte(b);
      NextRemainder(f - 1);
    } else {
      assert ByteOf(0) == 0;
    }
  }

  lemma ByteIsNumber(a: Byte, b: Byte)
    requires a as int == b as int
    ensures a == b
  {
    assert a == (a as int) as Byte;
  }

  /** Two function ids have the same byte exactly when they agree modulo 256. */
  lemma SameByteIff(f: nat, g: nat)
    ensures ByteOf(f) == ByteOf(g) <==> f % 256 == g % 256
  {
    ByteOfIsRemainder(f);
    ByteOfIsRemainder(g);
    if f % 256 == g % 256 {
      ByteIsNumber(ByteOf(f), ByteOf(g));
    }
  }

  function Marked(x: Item, mark: Byte): Item {
    x[0 := x[0] ^ mark]
  }

  /** An item marked with the hash function that placed it. */
  function Tagged(x: Item, f: nat): Item {
    Marked(x, ByteOf(f))
  }

  /** Two marked items coincide exactly when the items agree after byte 0 and differ there by the marks. */
  lemma MarkedEqualIff(x: Item, m: Byte, y: Item, n: Byte)
    ensures Marked(x, m) == Marked(y, n) <==> x[1..] == y[1..] && x[0] ^ y[0] == m ^ n
  {
    FirstUpdated(x, x[0] ^ m, y, y[0] ^ n);
    XorSwap(x[0], m, y[0], n);
  }

  lemma FirstUpdated(s: Record, a: Byte, t: Record, b: Byte)
    requires s != [] && t != []
    ensures s[0 := a] == t[0 := b] <==> a == b && s[1..] == t[1..]
  {
    assert s[0 := a] == [a] + s[1..] && t[0 := b] == [b] + t[1..];
    assert ([a] + s[1..])[1..] == s[1..] && ([b] + t[1..])[1..] == t[1..];
  }

  lemma XorSwap(a: Byte, b: Byte, c: Byte, d: Byte)
    ensures a ^ b == c ^ d <==> a ^ c == b ^ d
  {
  }

  /** A tag changes byte 0 alone, by exclusive-or with the function id. */
  lemma TagBytes(x: Item, f: nat, k: nat)
    requires f < 256 && k < 16
    ensures Tagged(x, f)[k] == if k == 0 then x[0] ^ (f as Byte) else x[k]
  {
    ByteOfIsRemainder(f);
    ByteIsNumber(ByteOf(f), f as Byte);
  }

  /** One item has different tags under different functions, as long as these fit into a byte. */
  lemma OneItemTags(x: Item, f: nat, g: nat)
    ensures Tagged(x, f) == Tagged(x, g) <==> f % 256 == g % 256
  {
    MarkedEqualIff(x, ByteOf(f), x, ByteOf(g));
    SameByteIff(f, g);
    SelfXor(x[0], ByteOf(f), ByteOf(g));
  }

  lemma SelfXor(a: Byte, m: Byte, n: Byte)
    ensures a ^ a == m ^ n <==> m == n
  {
  }

  datatype Entry = Entry(value: Item, fid: nat)

  /** Slot `b` holds element `ids[b]` of the inserted list, placed by function `fids[b]`. */
  datatype CuckooTable = CuckooTable(
    stash: nat, occupied: seq<bool>, ids: seq<nat>, fids: seq<nat>, values: seq<Item>, sources: seq<Item>)

  /** Arguments: seed, function id, item, bins; and seed, bins, number of functions, items. */
  datatype HashLib = HashLib(
    address: (Block, nat, Item, nat) -> nat,
    simple: (Block, nat, nat, seq<Item>) -> seq<seq<Entry>>,
    cuckoo: (Block, nat, nat, seq<Item>) -> CuckooTable)

  // ---- simple hashing ----

  datatype Placed = Placed(bin: nat, value: Item, fid: nat)

  function WalkBin(bin: nat, row: seq<Entry>): (r: seq<Placed>)
    ensures |r| == |row|
    ensures forall j :: 0 <= j < |row| ==> r[j] == Placed(bin, row[j].value, row[j].fid)
  {
    seq(|row|, j requires 0 <= j < |row| => Placed(bin, row[j].value, row[j].fid))
  }

  /** The entries of a table in the order in which the protocols walk it: bin by bin. */
  function Walk(table: seq<seq<Entry>>): seq<Placed> {
    if table == [] then []
    else Walk(table[..|table| - 1]) + WalkBin(|table| - 1, table[|table| - 1])
  }

  function PlacedBy(lib: HashLib, seed: Block, bins: nat, funs: nat, x: Item): (r: seq<Placed>)
    ensures |r| == funs
    ensures forall f :: 0 <= f < funs ==> r[f] == Placed(lib.address(seed, f, x, bins), Tagged(x, f), f)
  {
    seq(funs, f requires 0 <= f < funs => Placed(lib.address(seed, f, x, bins), Tagged(x, f), f))
  }

  /** Every item under every function, in insertion order. */
  function Expected(lib: HashLib, seed: Block, bins: nat, funs: nat, xs: seq<Item>): seq<Placed> {
    if xs == [] then []
    else Expected(lib, seed, bins, funs, xs[..|xs| - 1]) + PlacedBy(lib, seed, bins, funs, xs[|xs| - 1])
  }

  lemma {:induction false} ExpectedLength(lib: HashLib, seed: Block, bins: nat, funs: nat, xs: seq<Item>)
    ensures |Expected(lib, seed, bins, funs, xs)| == |xs| * funs
  {
    if xs != [] {
      ExpectedLength(lib, seed, bins, funs, xs[..|xs| - 1]);
      InBuffer(|xs| - 1, |xs|, funs);
    }
  }

  /** Simple hashing stores as many entries as there are items times functions. */
  lemma SimpleLength(lib: HashLib, seed: Block, bins: nat, funs: nat, xs: seq<Item>)
    requires SimpleOk(lib, seed, bins, funs, xs)
    ensures |Walk(lib.simple(seed, bins, funs, xs))| == |xs| * funs
  {
    var walk, expected := Walk(lib.simple(seed, bins, funs, xs)), Expected(lib, seed, bins, funs, xs);
    ExpectedLength(lib, seed, bins, funs, xs);
    assert |multiset(walk)| == |walk| && |multiset(expected)| == |expected|;
  }

  lemma {:induction false} WalkMember(table: seq<seq<Entry>>, e: Placed)
    ensures e in Walk(table) <==> e.bin < |table| && Entry(e.value, e.fid) in table[e.bin]
  {
    if table != [] {
      var n := |table| - 1;
      WalkMember(table[..n], e);
      if e.bin == n && Entry(e.value, e.fid) in table[n] {
        var j :| 0 <= j < |table[n]| && table[n][j] == Entry(e.value, e.fid);
        assert WalkBin(n, table[n])[j] == e;
      }
    }
  }

  lemma {:induction false} ExpectedMember(
      lib: HashLib, seed: Block, bins: nat, funs: nat, xs: seq<Item>, e: Placed)
    ensures e in Expected(lib, seed, bins, funs, xs) <==>
      exists p ::
        0 <= p < |xs| && e.fid < funs
        && e == Placed(lib.address(seed, e.fid, xs[p], bins), Tagged(xs[p], e.fid), e.fid)
  {
    if xs != [] {
      var n := |xs| - 1;
      ExpectedMember(lib, seed, bins, funs, xs[..n], e);
      var w := PlacedBy(lib, seed, bins, funs, xs[n]);
      if e.fid < funs && e == Placed(lib.address(seed, e.fid, xs[n], bins), Tagged(xs[n], e.fid), e.fid) {
        assert w[e.fid] == e;
      }
      if p :|
        0 <= p < n && e.fid < funs && e == Placed(lib.address(seed, e.fid, xs[p], bins), Tagged(xs[p], e.fid), e.fid)
      {
        assert xs[..n][p] == xs[p];
      }
    }
  }

  /** Simple hashing stores each item once under each function, in the bin the function names. */
  ghost predicate SimpleOk(lib: HashLib, seed: Block, bins: nat, funs: nat, xs: seq<Item>) {
    var table := lib.simple(seed, bins, funs, xs);
    |table| == bins && multiset(Walk(table)) == multiset(Expected(lib, seed, bins, funs, xs))
  }

  // ---- cuckoo hashing ----

  ghost predicate InSomeSlot(t: CuckooTable, id: nat) {
    exists b: nat :: b < |t.occupied| && b < |t.ids| && t.occupied[b] && t.ids[b] == id
  }

  /** With an empty stash, each position of the list sits in one slot, at the address that the
      recorded function gives; the function id of an empty slot is out of range. */
  ghost predicate CuckooOk(lib: HashLib, seed: Block, bins: nat, funs: nat, xs: seq<Item>) {
    var t := lib.cuckoo(seed, bins, funs, xs);
    t.stash == 0 ==>
      && |t.occupied| == |t.ids| == |t.fids| == |t.values| == |t.sources| == bins
      && (forall b :: 0 <= b < bins && !t.occupied[b] ==> t.fids[b] >= funs)
      && (forall b :: 0 <= b < bins && t.occupied[b] ==> t.fids[b] < funs && t.ids[b] < |xs|)
      && (forall b :: 0 <= b < bins && t.occupied[b] ==>
            && t.sources[b] == xs[t.ids[b]]
            && t.values[b] == Tagged(t.sources[b], t.fids[b])
            && lib.address(seed, t.fids[b], t.sources[b], bins) == b)
      && (forall b, b' :: 0 <= b < b' < bins && t.occupied[b] && t.occupied[b'] ==> t.ids[b] != t.ids[b'])
      && (forall id :: 0 <= id < |xs| ==> InSomeSlot(t, id))
  }

  ghost predicate AddressOk(lib: HashLib, seed: Block, f: nat, x: Item, bins: nat) {
    lib.address(seed, f, x, bins) < bins
  }

  /** Every function maps every item into the bins. */
  ghost predicate LibOk(lib: HashLib) {
    forall seed, f, x, bins :: bins > 0 ==> AddressOk(lib, seed, f, x, bins)
  }

  /** An empty stash means that there are at least as many bins as inserted positions. */
  lemma EmptyStashFits(lib: HashLib, seed: Block, bins: nat, funs: nat, xs: seq<Item>)
    requires CuckooOk(lib, seed, bins, funs, xs) && lib.cuckoo(seed, bins, funs, xs).stash == 0
    ensures |xs| <= bins
  {
    var t := lib.cuckoo(seed, bins, funs, xs);
    var slots := seq(|xs|, id requires 0 <= id < |xs| => SlotOf(lib, seed, bins, funs, xs, id));
    Pigeonhole(slots, bins);
  }

  /** The slot that holds position `id`. */
  ghost function SlotOf(lib: HashLib, seed: Block, bins: nat, funs: nat, xs: seq<Item>, id: nat): (b: nat)
    requires CuckooOk(lib, seed, bins, funs, xs) && lib.cuckoo(seed, bins, funs, xs).stash == 0 && id < |xs|
    ensures var t := lib.cuckoo(seed, bins, funs, xs);
      b < bins && t.occupied[b] && t.ids[b] == id &&
      forall b' :: 0 <= b' < bins && t.occupied[b'] && t.ids[b'] == id ==> b' == b
  {
    var t := lib.cuckoo(seed, bins, funs, xs);
    assert InSomeSlot(t, id);
    var b: nat :| b < bins && t.occupied[b] && t.ids[b] == id;
    b
  }

  /** With an empty stash as many slots are occupied as there are inserted positions. */
  lemma OccupiedCount(lib: HashLib, seed: Block, bins: nat, funs: nat, xs: seq<Item>)
    requires CuckooOk(lib, seed, bins, funs, xs) && lib.cuckoo(seed, bins, funs, xs).stash == 0
    ensures CountTrue(lib.cuckoo(seed, bins, funs, xs).occupied) == |xs|
  {
    var t := lib.cuckoo(seed, bins, funs, xs);
    var all := seq(|xs|, _ => true);
    forall id ensures FlaggedWith(t.ids, t.occupied, id) <==> 0 <= id < |xs| {
      if 0 <= id < |xs| {
        assert InSomeSlot(t, id);
      }
    }
    CountByTarget(t.ids, t.occupied, all);
    AllCounted(all);
  }

  function HashAll(hash: string -> Item, keys: seq<string>): (r: seq<Item>)
    ensures |r| == |keys| && forall i :: 0 <= i < |r| ==> r[i] == hash(keys[i])
  {
    seq(|keys|, i requires 0 <= i < |keys| => hash(keys[i]))
  }

  /** `ceil(n * epsilon)`. */
  function Bins(n: nat, epsilon: real): nat {
    var x := n as real * epsilon;
    if x <= 0.0 then 0 else -((-x).Floor)
  }

  /** The smallest number of bins that is not below `n * epsilon`, with no bins for no keys. */
  lemma BinsRoundUp(n: nat, epsilon: real)
    requires epsilon > 0.0
    ensures n as real * epsilon <= Bins(n, epsilon) as real < n as real * epsilon + 1.0
    ensures Bins(n, epsilon) == 0 <==> n == 0
  {
    ProductPositive(n, epsilon);
  }

  lemma ProductPositive(n: nat, epsilon: real)
    requires epsilon > 0.0
    ensures n as real * epsilon >= 0.0 && (n as real * epsilon == 0.0 <==> n == 0)
  {
  }

  /** A factor of at least one leaves room for every key. */
  lemma BinsLeaveRoom(n: nat, epsilon: real)
    requires epsilon >= 1.0
    ensures Bins(n, epsilon) >= n
  {
    BinsRoundUp(n, epsilon);
    FactorGrows(n as real, epsilon);
  }

  lemma FactorGrows(x: real, epsilon: real)
    requires x >= 0.0 && epsilon >= 1.0
    ensures x * epsilon >= x
  {
  }
}
