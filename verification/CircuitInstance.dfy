/**
 A Circuit-PSI call with three table functions, each of which sends the sender's key to a bin of its own. It
 meets every hypothesis of the end-to-end statements, with a receiver key that the sender holds and with one
 that it lacks, so that these statements hold of it and name its result.
 */
module CircuitInstance {
  import opened Sequences
  import opened Words
  import opened Hashing
  import opened Network
  import opened CommonSeed
  import opened CircuitTables
  import opened CircuitProtocol
  import opened CircuitRun
  import opened CircuitJoin
  import opened CircuitTotals
  import opened CircuitSession
  import opened Instances

  // ---- a hash library that spreads by byte 0 and by function ----

  function SpreadAddress(x: Item, f: nat, bins: nat): nat {
    if x[0] as nat + f < bins then x[0] as nat + f else 0
  }

  function SpreadRow(xs: seq<Item>, funs: nat, b: nat): seq<Entry> {
    if b < funs then seq(|xs|, p requires 0 <= p < |xs| => Entry(Tagged(xs[p], b), b)) else []
  }

  function SpreadTable(bins: nat, funs: nat, xs: seq<Item>): (r: seq<seq<Entry>>)
    ensures |r| == bins && forall b :: 0 <= b < bins ==> r[b] == SpreadRow(xs, funs, b)
  {
    seq(bins, b requires 0 <= b < bins => SpreadRow(xs, funs, b))
  }

  /** What stands in a slot that holds no item. */
  function Dummy(): Item {
    Zero()[2 := 1]
  }

  /** Item number `b` goes to slot `b` under function 0. */
  function SlotEach(bins: nat, funs: nat, xs: seq<Item>): (t: CuckooTable)
    ensures |t.occupied| == |t.ids| == |t.fids| == |t.values| == |t.sources| == bins
    ensures forall b :: 0 <= b < bins ==>
      t.occupied[b] == (b < |xs|) && t.ids[b] == b && t.fids[b] == (if b < |xs| then 0 else funs)
      && t.values[b] == (if b < |xs| then Tagged(xs[b], 0) else Dummy())
      && t.sources[b] == (if b < |xs| then xs[b] else Dummy())
  {
    CuckooTable(
      if |xs| <= bins then 0 else 1,
      seq(bins, b requires 0 <= b < bins => b < |xs|),
      seq<nat>(bins, b requires 0 <= b < bins => b),
      seq<nat>(bins, b requires 0 <= b < bins => if b < |xs| then 0 else funs),
      seq<Item>(bins, b requires 0 <= b < bins => if b < |xs| then Tagged(xs[b], 0) else Dummy()),
      seq<Item>(bins, b requires 0 <= b < bins => if b < |xs| then xs[b] else Dummy()))
  }

  function SpreadLib(): HashLib {
    HashLib(
      (seed, f: nat, x: Item, bins: nat) => SpreadAddress(x, f, bins),
      (seed, bins: nat, funs: nat, xs) => SpreadTable(bins, funs, xs),
      (seed, bins: nat, funs: nat, xs) => SlotEach(bins, funs, xs))
  }

  // ---- the call ----

  function HashOf(key: string): Item {
    if |key| == 1 then Zero() else Zero()[1 := 1]
  }

  function PadOf(seed: Block, j: nat): Word {
    if seed.bytes[1] == 0 && seed.bytes[2] == 0 then 0 else 1
  }

  /** The sender's own generator gives the three bins the contents 0, 2 and 4. */
  function OwnWord(n: nat): Word {
    if n < 3 then 2 * n else 0
  }

  /** Three bins for one receiver key, three table functions, one hint function. */
  function ThreeSetup(): Setup {
    Setup(SpreadLib(), HashOf, TinyOprf, PadOf, 3.0, 1.0, 3, 1)
  }

  /** A party that holds one key with one feature. */
  function OneKey(key: string, feature: Word): Party {
    Party([key], [[feature]], TinyGenerator(), NoSeed(), NoSeed(), OwnWord, 0)
  }

  ghost function Call(key: string, f: Word, g: Word): Invocation {
    Invocation(ThreeSetup(), CircuitIdeal, OneKey("a", f), OneKey(key, g))
  }

  function S(f: Word): Party {
    Seeded(OneKey("a", f))
  }

  function R(key: string, g: Word): Party {
    Seeded(OneKey(key, g))
  }

  /** The sender's entry in bin `b`. */
  function ValueIn(b: nat): Item {
    Tagged(Zero(), b)
  }

  lemma ValueByte(b: nat)
    requires b < 3
    ensures ValueIn(b)[0] as nat == b && ValueIn(b)[1] == 0 && ValueIn(b)[2] == 0
  {
    TagBytes(Zero(), b, 0);
    TagBytes(Zero(), b, 1);
    TagBytes(Zero(), b, 2);
    assert 0 ^ (b as bv8) == b as bv8;
  }

  // ---- the library keeps its contract ----

  lemma HashedOnce(key: string)
    ensures HashAll(HashOf, [key]) == [HashOf(key)]
  {
  }

  lemma ThreeRows(f: Word)
    ensures SenderTable(ThreeSetup(), S(f), 3)
      == [[Entry(ValueIn(0), 0)], [Entry(ValueIn(1), 1)], [Entry(ValueIn(2), 2)]]
  {
    HashedOnce("a");
    var table := SenderTable(ThreeSetup(), S(f), 3);
    forall b | 0 <= b < 3 ensures table[b] == [Entry(ValueIn(b), b)] {
      assert table[b] == SpreadRow([Zero()], 3, b);
    }
  }

  lemma ThreePlaced(rows: seq<seq<Entry>>)
    requires rows == [[Entry(ValueIn(0), 0)], [Entry(ValueIn(1), 1)], [Entry(ValueIn(2), 2)]]
    ensures Walk(rows) == [Placed(0, ValueIn(0), 0), Placed(1, ValueIn(1), 1), Placed(2, ValueIn(2), 2)]
  {
    assert rows[..2] == [[Entry(ValueIn(0), 0)], [Entry(ValueIn(1), 1)]];
    assert rows[..2][..1] == [[Entry(ValueIn(0), 0)]];
    assert rows[..2][..1][..0] == [];
    assert Walk(rows[..2][..1]) == [Placed(0, ValueIn(0), 0)];
    assert Walk(rows[..2]) == [Placed(0, ValueIn(0), 0), Placed(1, ValueIn(1), 1)];
  }

  lemma ThreeExpected(seed: Block)
    ensures Expected(SpreadLib(), seed, 3, 3, [Zero()])
      == [Placed(0, ValueIn(0), 0), Placed(1, ValueIn(1), 1), Placed(2, ValueIn(2), 2)]
  {
    assert [Zero()][..0] == [];
    assert Expected(SpreadLib(), seed, 3, 3, [Zero()][..0]) == [];
    assert PlacedBy(SpreadLib(), seed, 3, 3, Zero())
      == [Placed(0, ValueIn(0), 0), Placed(1, ValueIn(1), 1), Placed(2, ValueIn(2), 2)];
  }

  lemma SenderSimple(f: Word)
    ensures SimpleOk(SpreadLib(), S(f).tableSeed, 3, 3, HashAll(HashOf, ["a"]))
    ensures FilterInputs(SenderTable(ThreeSetup(), S(f), 3)) == [ValueIn(0), ValueIn(1), ValueIn(2)]
  {
    HashedOnce("a");
    ThreeRows(f);
    ThreePlaced(SenderTable(ThreeSetup(), S(f), 3));
    ThreeExpected(S(f).tableSeed);
  }

  lemma SlotsKept(seed: Block, bins: nat, funs: nat, xs: seq<Item>)
    requires funs > 0 && |xs| <= bins && forall b :: 0 <= b < |xs| ==> xs[b][0] as nat == b
    ensures CuckooOk(SpreadLib(), seed, bins, funs, xs) && SlotEach(bins, funs, xs).stash == 0
  {
    var lib, t := SpreadLib(), SlotEach(bins, funs, xs);
    forall id | 0 <= id < |xs| ensures InSomeSlot(t, id) {
      assert t.occupied[id] && t.ids[id] == id;
    }
    forall b | 0 <= b < bins && t.occupied[b] ensures lib.address(seed, t.fids[b], t.sources[b], bins) == b {
      assert t.sources[b] == xs[b];
    }
  }

  lemma SpreadLibOk()
    ensures LibOk(SpreadLib())
  {
  }

  lemma ThreeHints()
    ensures HintBins(ThreeSetup(), 1, 3) == 3 && Bins(1, 3.0) == 3
  {
  }

  lemma SenderLive(f: Word)
    ensures Live(ThreeSetup(), S(f), 3)
    ensures HintTable(ThreeSetup(), S(f), 3) == SlotEach(3, 1, [ValueIn(0), ValueIn(1), ValueIn(2)])
  {
    SpreadLibOk();
    ThreeHints();
    SenderSimple(f);
    ValueByte(0);
    ValueByte(1);
    ValueByte(2);
    SlotsKept(S(f).hintSeed, 3, 1, [ValueIn(0), ValueIn(1), ValueIn(2)]);
  }

  lemma ReceiverLive(key: string, g: Word)
    ensures AllPlaced(ThreeSetup(), R(key, g), 3)
    ensures ReceiverTable(ThreeSetup(), R(key, g), 3) == SlotEach(3, 3, [HashOf(key)])
  {
    SpreadLibOk();
    HashedOnce(key);
    SlotsKept(R(key, g).tableSeed, 3, 3, [HashOf(key)]);
  }

  lemma ThreeLive(key: string, f: Word, g: Word)
    ensures BothLive(ThreeSetup(), S(f), R(key, g)) && BinCount(ThreeSetup(), R(key, g)) == 3
  {
    ThreeHints();
    SenderLive(f);
    ReceiverLive(key, g);
  }

  lemma CallSensible(key: string, f: Word, g: Word)
    ensures Sensible(Call(key, f, g))
  {
    ThreeHints();
    SenderLive(f);
    ReceiverLive(key, g);
    SamePlaces(ThreeSetup(), DrawTable(OneKey(key, g)), 3);
    CircuitIdealOk();
  }

  // ---- no accident ----

  lemma ThreeTags(key: string)
    requires key == "a" || key == "bc"
    ensures TagsSeparate(ThreeSetup(), ["a"] + [key])
  {
    var keys := ["a"] + [key];
    forall x, y, f, g |
      x in keys && y in keys && 0 <= f < 3 && 0 <= g < 3 && Tagged(HashOf(x), f) == Tagged(HashOf(y), g)
      ensures x == y && f == g
    {
      TagBytes(HashOf(x), f, 1);
      TagBytes(HashOf(y), g, 1);
      assert HashOf("a")[1] == 0 && HashOf("bc")[1] == 1;
      OneItemTags(HashOf(x), f, g);
    }
  }

  /** Slot `b` of the filter holds the content of bin `b`, padded by 0. */
  lemma FilterWord(f: Word, b: nat)
    requires b < 3
    ensures Live(ThreeSetup(), S(f), 3) && |MemberFilter(ThreeSetup(), S(f), 3)| == 3
    ensures MemberFilter(ThreeSetup(), S(f), 3)[b] == 2 * b
  {
    var su, s := ThreeSetup(), S(f);
    SenderLive(f);
    ThreeHints();
    ThreeTags("a");
    SeparateMeansNoClash(su, s, ["a"]);
    FilterWidths(su, s, 3);
    ThreeRows(f);
    ValueByte(b);
    assert SenderTable(su, s, 3)[b][0].value == ValueIn(b);
    SlotPadded(su, s, 3, b, ValueIn(b), b);
    XorZero(2 * b);
  }

  /** What stands in the receiver's bins. */
  lemma ReceiverValues(key: string, g: Word, i: nat)
    requires (key == "a" || key == "bc") && i < 3
    ensures AllPlaced(ThreeSetup(), R(key, g), 3)
    ensures var v := ReceiverTable(ThreeSetup(), R(key, g), 3).values;
      |v| == 3 && v[i] == (if i == 0 then HashOf(key) else Dummy()) && v[i][0] == 0
      && PadOf(Block(v[i]), 0) == if i == 0 && key == "a" then 0 else 1
  {
    ReceiverLive(key, g);
    TagBytes(HashOf(key), 0, 0);
    assert Tagged(HashOf(key), 0) == HashOf(key);
  }

  lemma Reading(key: string, f: Word, g: Word, i: nat)
    requires (key == "a" || key == "bc") && i < 3
    ensures BothLive(ThreeSetup(), S(f), R(key, g)) && BinCount(ThreeSetup(), R(key, g)) == 3
    ensures MemberRead(ThreeSetup(), S(f), R(key, g))[i][0] == if i == 0 && key == "a" then 0 else 1
  {
    ThreeLive(key, f, g);
    ThreeHints();
    FilterWord(f, 0);
    ReceiverValues(key, g, i);
    XorZero(0);
    XorZero(1);
    assert Xor(0, 1) == Xor(1, 0) by {
      XorDigitsCommutes(0, 1);
    }
    var v := ReceiverTable(ThreeSetup(), R(key, g), 3).values[i];
    assert SpreadAddress(v, 0, 3) == 0;
    assert ReceiverMasks(ThreeSetup(), R(key, g))[i] == Block(v);
  }

  lemma LowApart(i: nat, word: Word)
    requires i < 3 && word <= 1 && Low(word) == Low(OwnWord(i))
    ensures i == 0 && word == 0
  {
  }

  lemma OnlyOwnMatches(key: string, f: Word, g: Word, i: nat)
    requires (key == "a" || key == "bc") && i < 3
    ensures BothLive(ThreeSetup(), S(f), R(key, g)) && BinCount(ThreeSetup(), R(key, g)) == 3
    ensures Matches(ThreeSetup(), S(f), R(key, g), i)[0] ==> i == 0 && key == "a"
  {
    Reading(key, f, g, i);
    var word := MemberRead(ThreeSetup(), S(f), R(key, g))[i][0];
    assert Contents(S(f), 3)[i] == OwnWord(i);
    if Low(word) == Low(OwnWord(i)) {
      LowApart(i, word);
    }
  }

  lemma OwnHint(f: Word, g: Word)
    ensures BothLive(ThreeSetup(), S(f), R("a", g)) && BinCount(ThreeSetup(), R("a", g)) == 3
    ensures Held(ThreeSetup(), S(f), R("a", g), 0) && IsHintOf(ThreeSetup(), S(f), R("a", g), 0, 0)
  {
    ThreeLive("a", f, g);
    ThreeRows(f);
    SenderLive(f);
    ReceiverValues("a", g, 0);
    TagBytes(Zero(), 0, 0);
    assert ValueIn(0) == Zero();
    assert SenderTable(ThreeSetup(), S(f), 3)[0][0].value == ValueIn(0);
    var ht := HintTable(ThreeSetup(), S(f), 3);
    assert ht.occupied[0] && ht.sources[0] == ValueIn(0) && ht.fids[0] == 0;
    assert IsHint(ht, ValueIn(0), 0);
  }

  lemma MatchIsHint(key: string, f: Word, g: Word, i: nat)
    requires (key == "a" || key == "bc") && i < 3
    requires BothLive(ThreeSetup(), S(f), R(key, g)) && BinCount(ThreeSetup(), R(key, g)) == 3
    requires Matches(ThreeSetup(), S(f), R(key, g), i)[0]
    ensures Held(ThreeSetup(), S(f), R(key, g), i) && IsHintOf(ThreeSetup(), S(f), R(key, g), i, 0)
  {
    OnlyOwnMatches(key, f, g, i);
    OwnHint(f, g);
  }

  lemma NothingByAccident(key: string, f: Word, g: Word)
    requires key == "a" || key == "bc"
    ensures BothLive(ThreeSetup(), S(f), R(key, g)) && NoAccident(ThreeSetup(), S(f), R(key, g))
  {
    var su, s, r := ThreeSetup(), S(f), R(key, g);
    ThreeLive(key, f, g);
    forall i, j | 0 <= i < BinCount(su, r) && 0 <= j < su.hintFuns && Matches(su, s, r, i)[j]
      ensures Held(su, s, r, i) && IsHintOf(su, s, r, i, j)
    {
      assert j == 0;
      MatchIsHint(key, f, g, i);
    }
  }

  lemma NoDummyHeld(key: string, f: Word, g: Word)
    requires key == "a" || key == "bc"
    ensures BothLive(ThreeSetup(), S(f), R(key, g)) && DummiesAbsent(ThreeSetup(), S(f), R(key, g))
  {
    var su, s, r := ThreeSetup(), S(f), R(key, g);
    ThreeLive(key, f, g);
    ThreeRows(f);
    ReceiverLive(key, g);
    forall i | 0 <= i < 3 && Held(su, s, r, i) ensures ReceiverTable(su, r, 3).occupied[i] {
      ReceiverValues(key, g, i);
      ValueByte(i);
    }
  }

  // ---- the statements hold of the call ----

  /** The hypotheses of the Circuit-PSI theorems hold together with three table functions, beside two empty
      bins, for a receiver key that the sender holds and for one that it lacks. */
  lemma CircuitHypotheses(key: string, f: Word, g: Word)
    requires key == "a" || key == "bc"
    ensures Sensible(Call(key, f, g)) && BothLive(ThreeSetup(), S(f), R(key, g))
    ensures Sound(ThreeSetup(), S(f), R(key, g))
  {
    CallSensible(key, f, g);
    NothingByAccident(key, f, g);
    NoDummyHeld(key, f, g);
    ThreeTags(key);
  }

  /** By any schedule, the opened bits of the call count one common key, or none. */
  lemma CallOpens(key: string, f: Word, g: Word, end: Net)
    requires key == "a" || key == "bc"
    requires RanTo(Call(key, f, g), end)
    ensures end.a.Ret? && end.a.result.Done? && end.b.Ret? && end.b.result.Done?
    ensures var sa, sb := end.a.result.shares, end.b.result.shares;
      |sa| == |sb| == 3 && |sa[0]| == |sb[0]| == 3 && Total(Xors(sa[0], sb[0])) == if key == "a" then 1 else 0
  {
    var c := Call(key, f, g);
    CircuitHypotheses(key, f, g);
    var m: nat :| Reaches(c.ideal, Start(SenderRole(c.su, c.sender), ReceiverRole(c.su, c.receiver)), m, end);
    OpenedTotals(c.ideal, c.su, c.sender, c.receiver, m, end);
    ThreeHints();
    OneCommon(key);
  }

  lemma OneCommon(key: string)
    requires key == "a" || key == "bc"
    ensures OfNat(|Intersect<string>([key], ["a"])|) == if key == "a" then 1 else 0
  {
    assert [key][..0] == [];
    assert |"bc"| == 2;
  }
}
