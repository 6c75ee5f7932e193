/**
 Circuit-PSI: the garbled cuckoo filter that carries one hint for each tagged entry, and its decoding
 (src/setops/pjc/circuit_psi.cpp).
 */
module CircuitHints {
  import opened Sequences
  import opened Hashing
  import opened Words
  import opened ObliviousPrf
  import opened CircuitTables

  /** The library generator: word number `j` of the stream that a seed gives. */
  type Pads = (Block, nat) -> Word

  /** The generator object: a stream and how much of it has been used. */
  class Prng {
    const stream: nat -> Word
    var drawn: nat

    constructor (stream: nat -> Word)
      ensures this.stream == stream && drawn == 0
    {
      this.stream := stream;
      drawn := 0;
    }

    method Generate() returns (w: Word)
      modifies this
      ensures w == stream(old(drawn)) && drawn == old(drawn) + 1
    {
      w := stream(drawn);
      drawn := drawn + 1;
    }
  }

  /** The pad of function `fid` is reached by drawing all words up to it. */
  method DrawPad(pads: Pads, seed: Block, fid: nat) returns (pad: Word)
    ensures pad == pads(seed, fid)
  {
    var local := new Prng(k => pads(seed, k));
    pad := 0;
    for j := 0 to fid + 1
      invariant local.stream == (k => pads(seed, k)) && local.drawn == j
      invariant j > 0 ==> pad == pads(seed, j - 1)
    {
      pad := local.Generate();
    }
  }

  // ---- seeds of the feature pads ----

  /** Byte `i` of a number, least significant first. */
  function Digit(n: nat, i: nat): nat {
    if i == 0 then n % 256 else Digit(n / 256, i - 1)
  }

  /** A mask with the low 64 bits exclusive-ored with the feature number. */
  function Tweaked(mask: Block, feature: nat): Block {
    Block(seq<bv8>(ITEM_LENGTH, i requires 0 <= i < ITEM_LENGTH =>
      if i < 8 then mask.bytes[i] ^ ByteOf(Digit(feature, i)) else mask.bytes[i]))
  }

  /** The number that bytes stand for, least significant first. */
  function FromBytes(bytes: seq<bv8>): nat {
    if bytes == [] then 0 else bytes[0] as int + 256 * FromBytes(bytes[1..])
  }

  function Digits(n: nat, k: nat): (r: seq<bv8>)
    ensures |r| == k && forall i :: 0 <= i < k ==> r[i] == ByteOf(Digit(n, i))
  {
    seq<bv8>(k, i requires 0 <= i < k => ByteOf(Digit(n, i)))
  }

  function Power256(k: nat): (p: nat)
    ensures p > 0
  {
    if k == 0 then 1 else 256 * Power256(k - 1)
  }

  lemma DigitsShift(n: nat, k: nat)
    requires k > 0
    ensures Digits(n, k) == [ByteOf(n % 256)] + Digits(n / 256, k - 1)
  {
  }

  lemma FromBytesCons(b: bv8, rest: seq<bv8>)
    ensures FromBytes([b] + rest) == b as int + 256 * FromBytes(rest)
  {
    assert ([b] + rest)[1..] == rest;
  }

  lemma LowByte(n: nat)
    ensures ByteOf(n % 256) as int == n % 256
  {
    ByteOfIsRemainder(n % 256);
    SmallRemainder(n);
  }

  lemma SmallRemainder(n: nat)
    ensures n % 256 % 256 == n % 256
  {
  }

  lemma HighPart(n: nat, p: nat)
    requires n < 256 * p
    ensures n / 256 < p && n == n % 256 + 256 * (n / 256)
  {
  }

  lemma {:induction false} DigitsGiveNumber(n: nat, k: nat)
    requires n < Power256(k)
    ensures FromBytes(Digits(n, k)) == n
    decreases k
  {
    if k > 0 {
      HighPart(n, Power256(k - 1));
      DigitsShift(n, k);
      DigitsGiveNumber(n / 256, k - 1);
      LowByte(n);
      FromBytesCons(ByteOf(n % 256), Digits(n / 256, k - 1));
    }
  }

  /** The first eight bytes of a mask, exclusive-ored with those of another. */
  function Difference(a: Block, b: Block): (r: seq<bv8>)
    ensures |r| == 8 && forall i :: 0 <= i < 8 ==> r[i] == a.bytes[i] ^ b.bytes[i]
  {
    seq<bv8>(8, i requires 0 <= i < 8 => a.bytes[i] ^ b.bytes[i])
  }

  /** The mask of a feature differs from the member mask in its first eight bytes, by exclusive-or with the
      number of the feature, and nowhere else. */
  lemma TweakedBytes(mask: Block, feature: nat)
    requires feature < 0x1_0000_0000_0000_0000
    ensures |Tweaked(mask, feature).bytes| == 16 && Tweaked(mask, feature).bytes[8..] == mask.bytes[8..]
    ensures FromBytes(Difference(Tweaked(mask, feature), mask)) == feature
  {
    forall i | 0 <= i < 8 ensures Difference(Tweaked(mask, feature), mask)[i] == Digits(feature, 8)[i] {
      XorTwice(mask.bytes[i], Digits(feature, 8)[i]);
    }
    assert Difference(Tweaked(mask, feature), mask) == Digits(feature, 8);
    EightBytes();
    DigitsGiveNumber(feature, 8);
  }

  lemma XorTwice(a: bv8, b: bv8)
    ensures (a ^ b) ^ a == b
  {
  }

  lemma EightBytes()
    ensures Power256(8) == 0x1_0000_0000_0000_0000
  {
    assert Power256(4) == 0x1_0000_0000;
  }

  // ---- the sender's filters ----

  datatype Slot = Free | Fixed(word: Word)

  /** Filling a filter from left to right: each free slot takes the next random word. */
  function Fill(slots: seq<Slot>, rnd: nat -> Word, at: nat): (r: seq<Word>)
    ensures |r| == |slots|
    ensures forall k :: 0 <= k < |r| && slots[k].Fixed? ==> r[k] == slots[k].word
  {
    if slots == [] then []
    else
      var n := |slots| - 1;
      Fill(slots[..n], rnd, at) +
      [if slots[n].Fixed? then slots[n].word else rnd(at + FreeCount(slots[..n]))]
  }

  function FreeCount(slots: seq<Slot>): nat {
    if slots == [] then 0 else FreeCount(slots[..|slots| - 1]) + if slots[|slots| - 1].Free? then 1 else 0
  }

  /** The free slots and the occupied ones are all slots. */
  lemma {:induction false} FreeAndOccupied(slots: seq<Slot>, occupied: seq<bool>)
    requires |slots| == |occupied| && forall k :: 0 <= k < |slots| ==> (slots[k].Free? <==> !occupied[k])
    ensures FreeCount(slots) + CountTrue(occupied) == |slots|
  {
    if slots != [] {
      FreeAndOccupied(slots[..|slots| - 1], occupied[..|occupied| - 1]);
    }
  }

  function Draws(rnd: nat -> Word, at: nat, n: nat): (r: seq<Word>)
    ensures |r| == n && forall i :: 0 <= i < n ==> r[i] == rnd(at + i)
  {
    seq<Word>(n, i requires 0 <= i < n => rnd(at + i))
  }

  method DrawContents(prng: Prng, n: nat) returns (contents: seq<Word>)
    modifies prng
    ensures contents == Draws(prng.stream, old(prng.drawn), n) && prng.drawn == old(prng.drawn) + n
  {
    contents := [];
    for i := 0 to n
      invariant contents == Draws(prng.stream, old(prng.drawn), i) && prng.drawn == old(prng.drawn) + i
    {
      var content := prng.Generate();
      contents := contents + [content];
    }
  }

  function MaskAt(oprf: Oprf, table: seq<seq<Entry>>, at: Loc): Block
    requires at.bin < |table| && at.index < |table[at.bin]|
  {
    oprf(at.bin, table[at.bin][at.index].value)
  }

  /** Every occupied slot of the hint table holds a value of the simple table. */
  ghost predicate Ready(table: seq<seq<Entry>>, ht: CuckooTable) {
    && |ht.occupied| == |ht.sources| == |ht.fids|
    && (forall s :: 0 <= s < |ht.occupied| && ht.occupied[s] ==> ht.sources[s] in Locations(table))
    && (forall value :: value in Locations(table) ==> Stands(table, Locations(table)[value], value))
  }

  ghost function MemberSlot(
      oprf: Oprf, pads: Pads, table: seq<seq<Entry>>, ht: CuckooTable, contents: seq<Word>, s: nat): Slot
    requires Ready(table, ht) && |contents| == |table| && s < |ht.occupied|
  {
    if !ht.occupied[s] then Free
    else
      var at := Locations(table)[ht.sources[s]];
      assert Stands(table, at, ht.sources[s]);
      Fixed(Xor(contents[at.bin], pads(MaskAt(oprf, table, at), ht.fids[s])))
  }

  ghost function MemberSlots(
      oprf: Oprf, pads: Pads, table: seq<seq<Entry>>, ht: CuckooTable, contents: seq<Word>): (r: seq<Slot>)
    requires Ready(table, ht) && |contents| == |table|
    ensures |r| == |ht.occupied|
    ensures forall s :: 0 <= s < |r| ==> r[s] == MemberSlot(oprf, pads, table, ht, contents, s)
  {
    seq(|ht.occupied|, s requires 0 <= s < |ht.occupied| => MemberSlot(oprf, pads, table, ht, contents, s))
  }

  /** The masks the sender computed: one for each place of the table. */
  ghost predicate AreMasks(oprf: Oprf, table: seq<seq<Entry>>, masks: seq<seq<Block>>) {
    && |masks| == |table|
    && (forall i :: 0 <= i < |table| ==> |masks[i]| == |table[i]|)
    && (forall i, j :: 0 <= i < |table| && 0 <= j < |table[i]| ==> masks[i][j] == oprf(i, table[i][j].value))
  }

  method EncodeTable(oprf: Oprf, table: seq<seq<Entry>>) returns (masks: seq<seq<Block>>)
    ensures AreMasks(oprf, table, masks)
  {
    masks := [];
    for i := 0 to |table|
      invariant AreMasks(oprf, table[..i], masks)
    {
      var row: seq<Block> := [];
      for j := 0 to |table[i]|
        invariant |row| == j && forall k :: 0 <= k < j ==> row[k] == oprf(i, table[i][k].value)
      {
        row := row + [oprf(i, table[i][j].value)];
      }
      masks := masks + [row];
    }
    assert table[..|table|] == table;
  }

  lemma {:induction false} FillAt(slots: seq<Slot>, rnd: nat -> Word, at: nat, n: nat, k: nat)
    requires k < n <= |slots|
    ensures Fill(slots[..n], rnd, at)[k] == if slots[k].Fixed? then slots[k].word else rnd(at + FreeCount(slots[..k]))
    ensures FreeCount(slots[..k + 1]) == FreeCount(slots[..k]) + if slots[k].Free? then 1 else 0
    decreases n
  {
    assert slots[..n][..n - 1] == slots[..n - 1] && slots[..k + 1][..k] == slots[..k];
    if k < n - 1 {
      FillAt(slots, rnd, at, n - 1, k);
    }
  }

  /** The word of a free slot: the next one after those of the free slots before it. */
  lemma FreeSlotTakes(slots: seq<Slot>, occupied: seq<bool>, rnd: nat -> Word, at: nat, k: nat)
    requires |slots| == |occupied| && forall i :: 0 <= i < |slots| ==> (slots[i].Free? <==> !occupied[i])
    requires k < |slots| && !occupied[k]
    ensures Fill(slots, rnd, at)[k] == rnd(at + k - CountTrue(occupied[..k]))
  {
    FillAt(slots, rnd, at, |slots|, k);
    assert slots[..|slots|] == slots;
    FreeAndOccupied(slots[..k], occupied[..k]);
  }

  method GarbleMember(
      oprf: Oprf, pads: Pads, table: seq<seq<Entry>>, masks: seq<seq<Block>>, locs: map<Item, Loc>,
      ht: CuckooTable, contents: seq<Word>, s: nat) returns (word: Word)
    requires AreMasks(oprf, table, masks) && locs == Locations(table)
    requires Ready(table, ht) && |contents| == |table| && s < |ht.occupied| && ht.occupied[s]
    ensures Fixed(word) == MemberSlot(oprf, pads, table, ht, contents, s)
  {
    var at := locs[ht.sources[s]];
    assert Stands(table, at, ht.sources[s]);
    var pad := DrawPad(pads, masks[at.bin][at.index], ht.fids[s]);
    word := Xor(contents[at.bin], pad);
  }

  /** The next word of the filter: garbled content for an occupied slot, a random word for a free one. */
  method MemberWord(
      oprf: Oprf, pads: Pads, prng: Prng, table: seq<seq<Entry>>, masks: seq<seq<Block>>, locs: map<Item, Loc>,
      ht: CuckooTable, contents: seq<Word>, s: nat) returns (word: Word)
    requires AreMasks(oprf, table, masks) && locs == Locations(table)
    requires Ready(table, ht) && |contents| == |table| && s < |ht.occupied|
    modifies prng
    ensures Stored(MemberSlot(oprf, pads, table, ht, contents, s), word, prng.stream, old(prng.drawn), prng.drawn)
  {
    if ht.occupied[s] {
      word := GarbleMember(oprf, pads, table, masks, locs, ht, contents, s);
    } else {
      word := prng.Generate();
    }
  }

  /** A fixed slot stores its word; a free one takes the next random word. */
  ghost predicate Stored(slot: Slot, word: Word, rnd: nat -> Word, before: nat, after: nat) {
    match slot
    case Fixed(w) => word == w && after == before
    case Free => word == rnd(before) && after == before + 1
  }

  lemma FillNext(slots: seq<Slot>, rnd: nat -> Word, start: nat, s: nat, word: Word, before: nat, after: nat)
    requires s < |slots| && before == start + FreeCount(slots[..s]) && Stored(slots[s], word, rnd, before, after)
    ensures word == Fill(slots, rnd, start)[s] && after == start + FreeCount(slots[..s + 1])
  {
    FillAt(slots, rnd, start, |slots|, s);
    assert slots[..|slots|] == slots;
  }

  method BuildMemberFilter(
      oprf: Oprf, pads: Pads, prng: Prng, table: seq<seq<Entry>>, masks: seq<seq<Block>>, locs: map<Item, Loc>,
      ht: CuckooTable, contents: seq<Word>) returns (filter: array<Word>)
    requires AreMasks(oprf, table, masks) && locs == Locations(table)
    requires Ready(table, ht) && |contents| == |table|
    modifies prng
    ensures fresh(filter)
    ensures var slots := MemberSlots(oprf, pads, table, ht, contents);
      filter[..] == Fill(slots, prng.stream, old(prng.drawn)) && prng.drawn == old(prng.drawn) + FreeCount(slots)
  {
    filter := new Word[|ht.occupied|];
    ghost var slots := MemberSlots(oprf, pads, table, ht, contents);
    ghost var start := prng.drawn;
    ghost var want := Fill(slots, prng.stream, start);
    for s := 0 to |ht.occupied|
      invariant filter[..s] == want[..s]
      invariant prng.drawn == start + FreeCount(slots[..s])
    {
      ghost var before := prng.drawn;
      var word := MemberWord(oprf, pads, prng, table, masks, locs, ht, contents, s);
      FillNext(slots, prng.stream, start, s, word, before, prng.drawn);
      filter[s] := word;
      assert filter[..s + 1] == filter[..s] + [word];
    }
    assert slots[..|slots|] == slots && want[..|want|] == want;
  }

  // ---- features ----

  /** The features of key number `p`: one from each column. */
  function Row(features: seq<seq<Word>>, p: nat): (r: seq<Word>)
    requires forall k :: 0 <= k < |features| ==> p < |features[k]|
    ensures |r| == |features| && forall k :: 0 <= k < |r| ==> r[k] == features[k][p]
  {
    seq<Word>(|features|, k requires 0 <= k < |features| => features[k][p])
  }

  ghost predicate Rectangular(features: seq<seq<Word>>, n: nat) {
    forall k :: 0 <= k < |features| ==> |features[k]| == n
  }

  /** The map insertion that keeps the first entry. */
  function Emplaced(m: map<Item, seq<Word>>, key: Item, row: seq<Word>): map<Item, seq<Word>> {
    if key in m then m else m[key := row]
  }

  function EmplacedTags(m: map<Item, seq<Word>>, x: Item, funs: nat, row: seq<Word>): map<Item, seq<Word>> {
    if funs == 0 then m else Emplaced(EmplacedTags(m, x, funs - 1, row), Tagged(x, funs - 1), row)
  }

  /** The features of each tagged item. */
  function FeatureMap(xs: seq<Item>, features: seq<seq<Word>>, funs: nat, n: nat): map<Item, seq<Word>>
    requires n <= |xs| && forall k :: 0 <= k < |features| ==> |features[k]| == |xs|
  {
    if n == 0 then map[]
    else EmplacedTags(FeatureMap(xs, features, funs, n - 1), xs[n - 1], funs, Row(features, n - 1))
  }

  method CollectFeatures(xs: seq<Item>, features: seq<seq<Word>>, funs: nat) returns (m: map<Item, seq<Word>>)
    requires Rectangular(features, |xs|)
    ensures m == FeatureMap(xs, features, funs, |xs|)
  {
    m := map[];
    for i := 0 to |xs|
      invariant m == FeatureMap(xs, features, funs, i)
    {
      var row: seq<Word> := [];
      for k := 0 to |features|
        invariant row == Row(features, i)[..k]
      {
        row := row + [features[k][i]];
      }
      assert row == Row(features, i);
      for j := 0 to funs
        invariant m == EmplacedTags(FeatureMap(xs, features, funs, i), xs[i], j, row)
      {
        m := Emplaced(m, Tagged(xs[i], j), row);
      }
    }
  }

  ghost predicate IsTagOf(key: Item, x: Item, funs: nat) {
    exists f :: 0 <= f < funs && key == Tagged(x, f)
  }

  lemma {:induction false} EmplacedTagsHave(m: map<Item, seq<Word>>, x: Item, funs: nat, row: seq<Word>, key: Item)
    ensures var r := EmplacedTags(m, x, funs, row);
      (key in r <==> key in m || IsTagOf(key, x, funs)) && (key in r ==> r[key] == if key in m then m[key] else row)
  {
    if funs > 0 {
      EmplacedTagsHave(m, x, funs - 1, row, key);
      assert IsTagOf(key, x, funs) <==> IsTagOf(key, x, funs - 1) || key == Tagged(x, funs - 1) by {
        if IsTagOf(key, x, funs - 1) {
          var f :| 0 <= f < funs - 1 && key == Tagged(x, f);
          assert 0 <= f < funs;
        }
        if f :| 0 <= f < funs && key == Tagged(x, f) && f < funs - 1 {
          assert IsTagOf(key, x, funs - 1);
        }
      }
    }
  }

  /** The map holds every tagged item and gives it the features of a key that has this tag. */
  lemma {:induction false} FeatureMapHas(
      xs: seq<Item>, features: seq<seq<Word>>, funs: nat, n: nat, key: Item)
    requires n <= |xs| && Rectangular(features, |xs|)
    ensures var m := FeatureMap(xs, features, funs, n);
      (key in m <==> exists p :: 0 <= p < n && IsTagOf(key, xs[p], funs))
      && (key in m ==> exists p :: 0 <= p < n && IsTagOf(key, xs[p], funs) && m[key] == Row(features, p))
  {
    if n > 0 {
      FeatureMapHas(xs, features, funs, n - 1, key);
      EmplacedTagsHave(FeatureMap(xs, features, funs, n - 1), xs[n - 1], funs, Row(features, n - 1), key);
    }
  }

  /** The first key that has a tag gives it its features: later insertions change nothing. */
  lemma {:induction false} FeatureMapFirst(
      xs: seq<Item>, features: seq<seq<Word>>, funs: nat, n: nat, p: nat, key: Item)
    requires n <= |xs| && Rectangular(features, |xs|) && p < n && IsTagOf(key, xs[p], funs)
    requires forall q :: 0 <= q < p ==> !IsTagOf(key, xs[q], funs)
    ensures key in FeatureMap(xs, features, funs, n) && FeatureMap(xs, features, funs, n)[key] == Row(features, p)
  {
    EmplacedTagsHave(FeatureMap(xs, features, funs, n - 1), xs[n - 1], funs, Row(features, n - 1), key);
    if p < n - 1 {
      FeatureMapFirst(xs, features, funs, n - 1, p, key);
    } else {
      FeatureMapHas(xs, features, funs, n - 1, key);
    }
  }

  /** Without tag clashes, each tagged item has the features of its own key. */
  lemma FeatureMapIsOwn(xs: seq<Item>, features: seq<seq<Word>>, funs: nat, p: nat, f: nat)
    requires Rectangular(features, |xs|) && NoTagClash(xs, funs) && p < |xs| && f < funs
    ensures var m := FeatureMap(xs, features, funs, |xs|);
      Tagged(xs[p], f) in m && m[Tagged(xs[p], f)] == Row(features, p)
  {
    var key := Tagged(xs[p], f);
    assert IsTagOf(key, xs[p], funs);
    FeatureMapHas(xs, features, funs, |xs|, key);
    var q :| 0 <= q < |xs| && IsTagOf(key, xs[q], funs)
      && FeatureMap(xs, features, funs, |xs|)[key] == Row(features, q);
    var g :| 0 <= g < funs && key == Tagged(xs[q], g);
    assert Tagged(xs[p], f) == Tagged(xs[q], g);
  }

  /** Every occupied slot holds a value whose features are known. */
  ghost predicate FeaturesKnown(ht: CuckooTable, m: map<Item, seq<Word>>, count: nat) {
    && |ht.occupied| == |ht.sources|
    && (forall s :: 0 <= s < |ht.occupied| && ht.occupied[s] ==> ht.sources[s] in m && |m[ht.sources[s]]| == count)
  }

  ghost function FeatureSlot(
      oprf: Oprf, pads: Pads, table: seq<seq<Entry>>, ht: CuckooTable, m: map<Item, seq<Word>>, count: nat,
      contents: seq<Word>, k: nat, s: nat): Slot
    requires Ready(table, ht) && FeaturesKnown(ht, m, count) && k < count
    requires |contents| == |table| && s < |ht.occupied|
  {
    if !ht.occupied[s] then Free
    else
      var at := Locations(table)[ht.sources[s]];
      assert Stands(table, at, ht.sources[s]);
      Fixed(Xor(Sub(m[ht.sources[s]][k], contents[at.bin]), pads(Tweaked(MaskAt(oprf, table, at), k), ht.fids[s])))
  }

  ghost function FeatureSlots(
      oprf: Oprf, pads: Pads, table: seq<seq<Entry>>, ht: CuckooTable, m: map<Item, seq<Word>>, count: nat,
      contents: seq<Word>, k: nat): (r: seq<Slot>)
    requires Ready(table, ht) && FeaturesKnown(ht, m, count) && k < count && |contents| == |table|
    ensures |r| == |ht.occupied|
    ensures forall s :: 0 <= s < |r| ==> r[s] == FeatureSlot(oprf, pads, table, ht, m, count, contents, k, s)
  {
    seq(|ht.occupied|, s requires 0 <= s < |ht.occupied| =>
      FeatureSlot(oprf, pads, table, ht, m, count, contents, k, s))
  }

  method GarbleFeature(
      oprf: Oprf, pads: Pads, table: seq<seq<Entry>>, masks: seq<seq<Block>>, locs: map<Item, Loc>,
      ht: CuckooTable, m: map<Item, seq<Word>>, count: nat, contents: seq<Word>, k: nat, s: nat) returns (word: Word)
    requires AreMasks(oprf, table, masks) && locs == Locations(table)
    requires Ready(table, ht) && FeaturesKnown(ht, m, count) && k < count && |contents| == |table|
    requires s < |ht.occupied| && ht.occupied[s]
    ensures Fixed(word) == FeatureSlot(oprf, pads, table, ht, m, count, contents, k, s)
  {
    var at := locs[ht.sources[s]];
    assert Stands(table, at, ht.sources[s]);
    var pad := DrawPad(pads, Tweaked(masks[at.bin][at.index], k), ht.fids[s]);
    word := Xor(Sub(m[ht.sources[s]][k], contents[at.bin]), pad);
  }

  method FeatureWord(
      oprf: Oprf, pads: Pads, prng: Prng, table: seq<seq<Entry>>, masks: seq<seq<Block>>, locs: map<Item, Loc>,
      ht: CuckooTable, m: map<Item, seq<Word>>, count: nat, contents: seq<Word>, k: nat, s: nat) returns (word: Word)
    requires AreMasks(oprf, table, masks) && locs == Locations(table)
    requires Ready(table, ht) && FeaturesKnown(ht, m, count) && k < count && |contents| == |table|
    requires s < |ht.occupied|
    modifies prng
    ensures Stored(FeatureSlot(oprf, pads, table, ht, m, count, contents, k, s), word, prng.stream, old(prng.drawn),
      prng.drawn)
  {
    if ht.occupied[s] {
      word := GarbleFeature(oprf, pads, table, masks, locs, ht, m, count, contents, k, s);
    } else {
      word := prng.Generate();
    }
  }

  method FillFeatureFilter(
      oprf: Oprf, pads: Pads, prng: Prng, table: seq<seq<Entry>>, masks: seq<seq<Block>>, locs: map<Item, Loc>,
      ht: CuckooTable, m: map<Item, seq<Word>>, count: nat, contents: seq<Word>, k: nat) returns (filter: array<Word>)
    requires AreMasks(oprf, table, masks) && locs == Locations(table)
    requires Ready(table, ht) && FeaturesKnown(ht, m, count) && k < count && |contents| == |table|
    modifies prng
    ensures fresh(filter)
    ensures var slots := FeatureSlots(oprf, pads, table, ht, m, count, contents, k);
      filter[..] == Fill(slots, prng.stream, old(prng.drawn)) && prng.drawn == old(prng.drawn) + FreeCount(slots)
  {
    filter := new Word[|ht.occupied|];
    ghost var slots := FeatureSlots(oprf, pads, table, ht, m, count, contents, k);
    ghost var start := prng.drawn;
    ghost var want := Fill(slots, prng.stream, start);
    for s := 0 to |ht.occupied|
      invariant filter[..s] == want[..s]
      invariant prng.drawn == start + FreeCount(slots[..s])
    {
      ghost var before := prng.drawn;
      var word := FeatureWord(oprf, pads, prng, table, masks, locs, ht, m, count, contents, k, s);
      FillNext(slots, prng.stream, start, s, word, before, prng.drawn);
      filter[s] := word;
      assert filter[..s + 1] == filter[..s] + [word];
    }
    assert slots[..|slots|] == slots && want[..|want|] == want;
  }

  /** Feature `k`: draws one random content for each bin, then garbles feature minus content. */
  method BuildFeatureFilter(
      oprf: Oprf, pads: Pads, prng: Prng, table: seq<seq<Entry>>, masks: seq<seq<Block>>, locs: map<Item, Loc>,
      ht: CuckooTable, m: map<Item, seq<Word>>, count: nat, k: nat) returns (contents: seq<Word>, filter: array<Word>)
    requires AreMasks(oprf, table, masks) && locs == Locations(table)
    requires Ready(table, ht) && FeaturesKnown(ht, m, count) && k < count
    modifies prng
    ensures fresh(filter)
    ensures contents == Draws(prng.stream, old(prng.drawn), |table|)
    ensures var slots := FeatureSlots(oprf, pads, table, ht, m, count, contents, k);
      filter[..] == Fill(slots, prng.stream, old(prng.drawn) + |table|)
      && prng.drawn == old(prng.drawn) + |table| + FreeCount(slots)
  {
    contents := DrawContents(prng, |table|);
    filter := FillFeatureFilter(oprf, pads, prng, table, masks, locs, ht, m, count, contents, k);
  }

  // ---- the receiver's decoding ----

  /** Unmasking the filter at the address that each hint function gives to bin `i`'s value. */
  function DecodedRow(
      pads: Pads, filter: seq<Word>, addresses: seq<nat>, seed: Block): (r: seq<Word>)
    requires forall j :: 0 <= j < |addresses| ==> addresses[j] < |filter|
    ensures |r| == |addresses| && forall j :: 0 <= j < |r| ==> r[j] == Xor(filter[addresses[j]], pads(seed, j))
  {
    seq<Word>(|addresses|, j requires 0 <= j < |addresses| => Xor(filter[addresses[j]], pads(seed, j)))
  }

  ghost predicate InFilter(filter: seq<Word>, addresses: seq<seq<nat>>, hintFuns: nat) {
    forall i :: 0 <= i < |addresses| ==>
      |addresses[i]| == hintFuns && forall j :: 0 <= j < hintFuns ==> addresses[i][j] < |filter|
  }

  function Decoded(
      pads: Pads, filter: seq<Word>, addresses: seq<seq<nat>>, hintFuns: nat, seeds: seq<Block>): (r: seq<seq<Word>>)
    requires |seeds| == |addresses| && InFilter(filter, addresses, hintFuns)
    ensures |r| == |addresses|
    ensures forall i :: 0 <= i < |r| ==> |r[i]| == hintFuns && r[i] == DecodedRow(pads, filter, addresses[i], seeds[i])
  {
    seq(|addresses|, i requires 0 <= i < |addresses| => DecodedRow(pads, filter, addresses[i], seeds[i]))
  }

  method DecodeBin(pads: Pads, filter: seq<Word>, addresses: seq<nat>, seed: Block, contents: array<Word>, base: nat)
    requires forall j :: 0 <= j < |addresses| ==> addresses[j] < |filter|
    requires base + |addresses| <= contents.Length
    modifies contents
    ensures contents[..base + |addresses|] == old(contents[..base]) + DecodedRow(pads, filter, addresses, seed)
  {
    var local := new Prng(k => pads(seed, k));
    ghost var row := DecodedRow(pads, filter, addresses, seed);
    for j := 0 to |addresses|
      invariant local.stream == (k => pads(seed, k)) && local.drawn == j
      invariant contents[..base + j] == old(contents[..base]) + row[..j]
    {
      var pad := local.Generate();
      contents[base + j] := Xor(filter[addresses[j]], pad);
      assert contents[..base + (j + 1)] == contents[..base + j] + [row[j]];
    }
    assert row[..|addresses|] == row;
  }

  /** Row `i` of a flat vector of rows, and what stands before it and after it. */
  lemma {:induction false} RowOfFlat<T>(rows: seq<seq<T>>, i: nat, n: nat)
    requires i < n <= |rows|
    ensures |Flatten(rows[..i])| + |rows[i]| == |Flatten(rows[..i + 1])| <= |Flatten(rows[..n])|
    ensures Flatten(rows[..n])[|Flatten(rows[..i])|..|Flatten(rows[..i + 1])|] == rows[i]
    decreases n
  {
    FlattenPrefix(rows, n - 1);
    FlattenPrefix(rows, i);
    if i < n - 1 {
      RowOfFlat(rows, i, n - 1);
    }
  }

  lemma FlatRow(flat: seq<nat>, addresses: seq<seq<nat>>, width: nat, i: nat, base: nat)
    requires i < |addresses| && AllWidth(addresses, width) && flat == Flatten(addresses)
    requires base == |Flatten(addresses[..i])|
    ensures base + width == |Flatten(addresses[..i + 1])| <= |flat| && flat[base..base + width] == addresses[i]
  {
    RowOfFlat(addresses, i, |addresses|);
    assert addresses[..|addresses|] == addresses;
  }

  /** The receiver keeps addresses and contents in flat vectors, `hintFuns` entries for each bin; `base`
      runs through the multiples of `hintFuns`. */
  method Decode(
      pads: Pads, filter: seq<Word>, flat: seq<nat>, ghost addresses: seq<seq<nat>>, hintFuns: nat, seeds: seq<Block>)
      returns (contents: array<Word>)
    requires |seeds| == |addresses| && InFilter(filter, addresses, hintFuns) && flat == Flatten(addresses)
    ensures fresh(contents) && contents[..] == Flatten(Decoded(pads, filter, addresses, hintFuns, seeds))
  {
    ghost var rows := Decoded(pads, filter, addresses, hintFuns, seeds);
    FlattenLength(addresses, hintFuns);
    contents := new Word[|seeds| * hintFuns];
    var base := 0;
    for i := 0 to |seeds|
      invariant base == |Flatten(addresses[..i])| <= contents.Length
      invariant contents[..base] == Flatten(rows[..i])
    {
      FlatRow(flat, addresses, hintFuns, i, base);
      FlattenPrefix(rows, i);
      DecodeBin(pads, filter, flat[base..base + hintFuns], seeds[i], contents, base);
      base := base + hintFuns;
    }
    assert addresses[..|seeds|] == addresses && rows[..|seeds|] == rows;
    assert contents[..] == contents[..base];
  }
}
