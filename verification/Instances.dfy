/**
 Small concrete instances of everything the protocol theorems assume of the libraries, so that none of
 those theorems holds for want of a library: one hash library, one ideal functionality for each
 protocol, one curve, and inputs that satisfy every hypothesis of the end-to-end statements.
 */
module Instances {
  import opened Sequences
  import opened Bytes
  import opened Permutation
  import opened Serialize
  import opened Words
  import opened Hashing
  import opened ObliviousPrf
  import opened Network
  import opened CommonSeed
  import opened CircuitTables
  import opened CircuitShares
  import CP = CircuitProtocol
  import CR = CircuitRun
  import CJ = CircuitJoin
  import CS = CircuitSession
  import KP = KkrtProtocol
  import Ecdh

  // ---- a hash library that uses bin 0 only ----

  function Zero(): (r: Item)
    ensures forall i :: 0 <= i < ITEM_LENGTH ==> r[i] == 0
  {
    seq(ITEM_LENGTH, _ => 0)
  }

  function AllInFirst(funs: nat, xs: seq<Item>): seq<Entry> {
    if xs == [] then []
    else AllInFirst(funs, xs[..|xs| - 1]) + seq(funs, f requires 0 <= f < funs => Entry(Tagged(xs[|xs| - 1], f), f))
  }

  function FirstBinOnly(row: seq<Entry>, bins: nat): (r: seq<seq<Entry>>)
    ensures |r| == bins
    ensures bins > 0 ==> r[0] == row && forall b :: 0 < b < bins ==> r[b] == []
  {
    seq(bins, b requires 0 <= b < bins => if b == 0 then row else [])
  }

  /** One item goes to slot 0 under function 0; more than one do not fit. */
  function OneSlot(bins: nat, funs: nat, xs: seq<Item>): CuckooTable {
    var used := |xs| == 1 && funs > 0;
    CuckooTable(
      if xs == [] || used then 0 else 1,
      seq(bins, b requires 0 <= b < bins => used && b == 0),
      seq(bins, b requires 0 <= b < bins => 0),
      seq(bins, b requires 0 <= b < bins => if used && b == 0 then 0 else funs),
      seq<Item>(bins, _ => Tagged(FirstItem(xs), 0)),
      seq<Item>(bins, _ => FirstItem(xs)))
  }

  function FirstItem(xs: seq<Item>): Item {
    if xs == [] then Zero() else xs[0]
  }

  function TinyLib(): HashLib {
    HashLib(
      (seed, f, x, bins) => 0,
      (seed, bins: nat, funs: nat, xs) => FirstBinOnly(AllInFirst(funs, xs), bins),
      (seed, bins: nat, funs: nat, xs) => OneSlot(bins, funs, xs))
  }

  lemma {:induction false} WalkFirst(table: seq<seq<Entry>>)
    requires table != [] && forall b :: 0 < b < |table| ==> table[b] == []
    ensures Walk(table) == WalkBin(0, table[0])
  {
    var n := |table| - 1;
    if n > 0 {
      WalkFirst(table[..n]);
      assert WalkBin(n, table[n]) == [];
    } else {
      assert Walk(table[..0]) == [];
    }
  }

  lemma {:induction false} FirstIsExpected(seed: Block, bins: nat, funs: nat, xs: seq<Item>)
    ensures WalkBin(0, AllInFirst(funs, xs)) == Expected(TinyLib(), seed, bins, funs, xs)
  {
    if xs != [] {
      var n := |xs| - 1;
      FirstIsExpected(seed, bins, funs, xs[..n]);
      var last := seq(funs, f requires 0 <= f < funs => Entry(Tagged(xs[n], f), f));
      assert WalkBin(0, AllInFirst(funs, xs[..n]) + last) == WalkBin(0, AllInFirst(funs, xs[..n])) + WalkBin(0, last);
      assert WalkBin(0, last) == PlacedBy(TinyLib(), seed, bins, funs, xs[n]);
    }
  }

  lemma TinySimple(seed: Block, bins: nat, funs: nat, xs: seq<Item>)
    requires bins > 0
    ensures SimpleOk(TinyLib(), seed, bins, funs, xs)
  {
    WalkFirst(FirstBinOnly(AllInFirst(funs, xs), bins));
    FirstIsExpected(seed, bins, funs, xs);
  }

  lemma TinyCuckoo(seed: Block, bins: nat, funs: nat, xs: seq<Item>)
    requires bins > 0
    ensures CuckooOk(TinyLib(), seed, bins, funs, xs)
  {
    var t := OneSlot(bins, funs, xs);
    if |xs| == 1 && funs > 0 {
      assert t.occupied[0] && t.ids[0] == 0;
      assert InSomeSlot(t, 0);
    }
  }

  lemma TinyLibOk()
    ensures LibOk(TinyLib())
  {
  }

  function TinyOprf(bin: nat, x: Item): Block {
    Block(x)
  }

  // ---- ideal functionalities: the first party gets the value, the second zeros ----

  function At(m: Matrix, i: nat, j: nat): Word {
    if i < |m| && j < |m[i]| then m[i][j] else 0
  }

  function Equals(xa: Matrix, ya: Matrix, xb: Matrix, yb: Matrix): (r: Matrix)
    ensures |r| == |xa|
    ensures forall i :: 0 <= i < |r| ==> |r[i]| == |xa[i]|
    ensures forall i, j :: 0 <= i < |r| && 0 <= j < |r[i]| ==>
      r[i][j] == Bit(Add(At(xa, i, j), At(xb, i, j)) == Add(At(ya, i, j), At(yb, i, j)))
  {
    seq(|xa|, i requires 0 <= i < |xa| => seq<Word>(|xa[i]|, j requires 0 <= j < |xa[i]| =>
      Bit(Add(At(xa, i, j), At(xb, i, j)) == Add(At(ya, i, j), At(yb, i, j)))))
  }

  function Chosen(ba: Matrix, va: Matrix, bb: Matrix, vb: Matrix): (r: Matrix)
    ensures |r| == |ba|
    ensures forall i :: 0 <= i < |r| ==> |r[i]| == |ba[i]|
    ensures forall i, j :: 0 <= i < |r| && 0 <= j < |r[i]| ==>
      r[i][j] == if Xor(At(ba, i, j), At(bb, i, j)) == 1 then Add(At(va, i, j), At(vb, i, j)) else 0
  {
    seq(|ba|, i requires 0 <= i < |ba| => seq<Word>(|ba[i]|, j requires 0 <= j < |ba[i]| =>
      if Xor(At(ba, i, j), At(bb, i, j)) == 1 then Add(At(va, i, j), At(vb, i, j)) else 0))
  }

  function ZerosLike(m: Matrix): (r: Matrix)
    ensures |r| == |m| && forall i :: 0 <= i < |r| ==> |r[i]| == |m[i]| && forall j :: 0 <= j < |r[i]| ==> r[i][j] == 0
  {
    seq(|m|, i requires 0 <= i < |m| => seq<Word>(|m[i]|, _ => 0))
  }

  function CircuitAnswer(a: CP.Input, b: CP.Input): (CP.Output, CP.Output) {
    match (a, b)
    case (OprfSender(n), OprfReceiver(values)) => (CP.OprfDone, CP.OprfMasks(MasksOf(TinyOprf, values)))
    case (EqualIn(xa, ya), EqualIn(xb, yb)) => (CP.EqualOut(Equals(xa, ya, xb, yb)), CP.EqualOut(ZerosLike(xa)))
    case (MuxIn(ba, va), MuxIn(bb, vb)) => (CP.MuxOut(Chosen(ba, va, bb, vb)), CP.MuxOut(ZerosLike(ba)))
    case _ => (CP.OprfDone, CP.OprfDone)
  }

  function CircuitIdeal(call: nat, a: CP.Input, b: CP.Input): (CP.Output, CP.Output) {
    CircuitAnswer(a, b)
  }

  lemma XorZero(w: Word)
    ensures Xor(w, 0) == w
  {
    XorDigitsZero(w);
    XorDigitsCommutes(w, 0);
  }

  lemma EqualIsIdeal(xa: Matrix, ya: Matrix, xb: Matrix, yb: Matrix, rows: nat, width: nat)
    requires Shaped(xa, rows, width) && Shaped(ya, rows, width) && Shaped(xb, rows, width) && Shaped(yb, rows, width)
    ensures CP.EqualShares(xa, ya, xb, yb, Equals(xa, ya, xb, yb), ZerosLike(xa), rows, width)
  {
    var ra, rb := Equals(xa, ya, xb, yb), ZerosLike(xa);
    forall i, j | 0 <= i < rows && 0 <= j < width
      ensures Xor(ra[i][j], rb[i][j]) == Bit(Add(xa[i][j], xb[i][j]) == Add(ya[i][j], yb[i][j]))
    {
      XorZero(ra[i][j]);
    }
  }

  lemma MuxIsIdeal(ba: Matrix, va: Matrix, bb: Matrix, vb: Matrix, rows: nat, width: nat)
    requires Shaped(ba, rows, width) && Shaped(va, rows, width) && Shaped(bb, rows, width) && Shaped(vb, rows, width)
    ensures CP.MuxShares(ba, va, bb, vb, Chosen(ba, va, bb, vb), ZerosLike(ba), rows, width)
  {
  }

  lemma CircuitIdealOk()
    ensures CP.IdealOk(CircuitIdeal, TinyOprf)
  {
    forall k: nat, xa, ya, xb, yb, rows, width |
      Shaped(xa, rows, width) && Shaped(ya, rows, width) && Shaped(xb, rows, width) && Shaped(yb, rows, width)
      ensures var (a, b) := CircuitIdeal(k, CP.EqualIn(xa, ya), CP.EqualIn(xb, yb));
        a.EqualOut? && b.EqualOut? && CP.EqualShares(xa, ya, xb, yb, a.bits, b.bits, rows, width)
    {
      EqualIsIdeal(xa, ya, xb, yb, rows, width);
    }
    forall k: nat, ba, va, bb, vb, rows, width |
      Shaped(ba, rows, width) && Shaped(va, rows, width) && Shaped(bb, rows, width) && Shaped(vb, rows, width)
      ensures var (a, b) := CircuitIdeal(k, CP.MuxIn(ba, va), CP.MuxIn(bb, vb));
        a.MuxOut? && b.MuxOut? && CP.MuxShares(ba, va, bb, vb, a.shares, b.shares, rows, width)
    {
      MuxIsIdeal(ba, va, bb, vb, rows, width);
    }
    assert CP.OprfOk(CircuitIdeal, TinyOprf);
  }

  // ---- Circuit-PSI runs ----

  function HashByLength(key: string): Item {
    if |key| == 1 then Zero() else Zero()[0 := 0x80]
  }

  function TinyPads(seed: Block, j: nat): Word {
    if seed.bytes[0] == 0 then 0 else 1
  }

  /** The sender's own generator: it gives bin 0 the content 0 and bin 1 the content 2. */
  function TinyOwn(n: nat): Word {
    if n == 1 then 2 else 0
  }

  /** Block number `n` of the common stream. */
  function TinyBlock(n: nat): Block {
    Block(Zero()[0 := ByteOf(n)])
  }

  function TinyGenerator(): Generator {
    Generator(TinyBlock, 0)
  }

  /** Two bins for each receiver key, so that one bin stays empty. */
  function CircuitSetup(): CP.Setup {
    CP.Setup(TinyLib(), HashByLength, TinyOprf, TinyPads, 2.0, 1.0, 1, 1)
  }

  /** A party that holds one key with one feature. */
  function CircuitParty(key: string, feature: Word): CP.Party {
    CP.Party([key], [[feature]], TinyGenerator(), NoSeed(), NoSeed(), TinyOwn, 0)
  }

  /** The library keeps its contract for whatever two parties insert. */
  lemma TinyKept(s: CP.Party, r: CP.Party, bins: nat)
    requires bins > 0 && CP.HintBins(CircuitSetup(), |s.keys|, bins) > 0
    ensures CP.SenderKept(CircuitSetup(), s, bins) && CP.ReceiverKept(CircuitSetup(), r, bins)
  {
    var su := CircuitSetup();
    TinyLibOk();
    TinySimple(s.tableSeed, bins, 1, HashAll(HashByLength, s.keys));
    TinyCuckoo(s.hintSeed, CP.HintBins(su, |s.keys|, bins), 1, FilterInputs(CP.SenderTable(su, s, bins)));
    TinyCuckoo(r.tableSeed, bins, 1, HashAll(HashByLength, r.keys));
  }

  lemma ReceiverPlaced(key: string, g: Word)
    ensures var su, r := CircuitSetup(), CP.Seeded(CircuitParty(key, g));
      && CR.BinCount(su, r) == 2 && CP.AllPlaced(su, r, 2)
      && CP.ReceiverTable(su, r, 2) == OneSlot(2, 1, [HashByLength(key)])
  {
    var r := CP.Seeded(CircuitParty(key, g));
    TinyKept(r, r, 2);
    assert HashAll(HashByLength, [key]) == [HashByLength(key)];
  }

  lemma CallSensible(s: CP.Party, key: string, g: Word)
    requires 0 < |s.keys| <= 2
    ensures CS.Sensible(CS.Invocation(CircuitSetup(), CircuitIdeal, s, CircuitParty(key, g)))
  {
    CircuitIdealOk();
    ReceiverPlaced(key, g);
    TinyKept(CP.Seeded(s), CP.DrawTable(CircuitParty(key, g)), 2);
  }

  function TwoKeySender(): CP.Party {
    CP.Party(["a", "b"], [], TinyGenerator(), NoSeed(), NoSeed(), TinyOwn, 0)
  }

  lemma {:induction false} AllInFirstLength(xs: seq<Item>)
    ensures |AllInFirst(1, xs)| == |xs|
  {
    if xs != [] {
      AllInFirstLength(xs[..|xs| - 1]);
    }
  }

  lemma TwoHintsOverflow()
    ensures CP.HintTable(CircuitSetup(), CP.Seeded(TwoKeySender()), 2).stash == 1
  {
    var xs := HashAll(HashByLength, ["a", "b"]);
    AllInFirstLength(xs);
    WalkFirst(FirstBinOnly(AllInFirst(1, xs), 2));
  }

  ghost function Overflow(g: Word): CS.Invocation {
    CS.Invocation(CircuitSetup(), CircuitIdeal, TwoKeySender(), CircuitParty("a", g))
  }

  /** Two keys of the sender overflow the hint table: by any schedule the sender ends with two draws made
      from the common generator and the receiver with one. Whatever the two parties call next with those
      generators, they hash with different seeds. */
  lemma HintStashDesynchronizes(g: Word, end: CP.Net)
    requires CS.RanTo(Overflow(g), end)
    ensures end.a.Ret? && end.a.result.HintAborted? && end.a.result.common.at == 2
    ensures end.b.Ret? && end.b.result.HintAborted? && end.b.result.common.at == 1
    ensures forall s: CP.Party, r: CP.Party :: s.common == end.a.result.common && r.common == end.b.result.common ==>
      !CJ.SameSeeds(CP.Seeded(s), CP.Seeded(r))
  {
    CallSensible(TwoKeySender(), "a", g);
    CS.RanToGoodEnd(Overflow(g), end);
    OverflowEnds(g, end);
    forall s: CP.Party, r: CP.Party | s.common == end.a.result.common && r.common == end.b.result.common
      ensures !CJ.SameSeeds(CP.Seeded(s), CP.Seeded(r))
    {
      OutOfStep(s, r);
    }
  }

  lemma OverflowEnds(g: Word, end: CP.Net)
    requires CR.Kept(CircuitSetup(), TwoKeySender(), CircuitParty("a", g))
    requires CR.GoodEnd(CircuitSetup(), TwoKeySender(), CircuitParty("a", g), end)
    ensures end.a == Ret(CP.HintAborted(Generator(TinyBlock, 2)))
    ensures end.b == Ret(CP.HintAborted(Generator(TinyBlock, 1)))
  {
    ReceiverPlaced("a", g);
    TwoHintsOverflow();
    CR.SamePlaces(CircuitSetup(), CP.DrawTable(CircuitParty("a", g)), 2);
    assert CP.HintBins(CircuitSetup(), 2, 2) == 2;
  }

  lemma OutOfStep(s: CP.Party, r: CP.Party)
    requires s.common == Generator(TinyBlock, 2) && r.common == Generator(TinyBlock, 1)
    ensures !CJ.SameSeeds(CP.Seeded(s), CP.Seeded(r))
  {
    assert CP.Seeded(s).tableSeed.bytes[0] == ByteOf(2) == 2;
    assert CP.Seeded(r).tableSeed.bytes[0] == ByteOf(1) == 1;
  }

  // ---- a KKRT-PSI run ----

  function KkrtAnswer(a: KP.Input, b: KP.Input): (KP.Output, KP.Output) {
    match (a, b)
    case (OprfSender(n), OprfReceiver(values)) => (KP.OprfDone, KP.OprfMasks(MasksOf(TinyOprf, values)))
    case _ => (KP.OprfDone, KP.OprfDone)
  }

  function KkrtIdeal(call: nat, a: KP.Input, b: KP.Input): (KP.Output, KP.Output) {
    KkrtAnswer(a, b)
  }

  function KkrtSetup(): KP.Setup {
    KP.Setup(TinyLib(), HashByLength, TinyOprf, NoSeed(), 1.0, 1)
  }

  ghost function KkrtSender(key: string): KP.Sender {
    assert IsPerm([0]);
    KP.Sender([key], _ => [0], true, [])
  }

  /** A full run of two parties that hold one key each, in which the sender asks for the result. */
  ghost function OneKeyEach(mine: string, yours: string, obtain: bool): KP.Invocation {
    KP.Invocation(KkrtSetup(), KkrtIdeal, KkrtSender(mine), KP.Receiver([yours], obtain), TinyGenerator(), false)
  }

  lemma OneKeyPlaced(mine: string, yours: string, obtain: bool)
    ensures KP.Sensible(OneKeyEach(mine, yours, obtain)) && KP.AllPlaced(OneKeyEach(mine, yours, obtain))
  {
    var seed := KP.SetupOf(OneKeyEach(mine, yours, obtain)).seed;
    TinySimple(seed, 1, 1, HashAll(HashByLength, [mine]));
    TinyCuckoo(seed, 1, 1, HashAll(HashByLength, [yours]));
    assert HashAll(HashByLength, [yours]) == [HashByLength(yours)];
  }

  /** The hypotheses of the KKRT-PSI theorems hold together, for a key that both parties hold and for
      one that the sender lacks. */
  lemma KkrtHypotheses(key: string)
    requires key == "a" || key == "bc"
    ensures var c := OneKeyEach("a", key, true);
      KP.Sensible(c) && KP.AllPlaced(c) && KP.CollisionFree(c) && AllNulFree(c.receiver.keys)
  {
    OneKeyPlaced("a", key, true);
    if key == "bc" {
      MasksDiffer(KP.SetupOf(OneKeyEach("a", key, true)));
    }
  }

  lemma MasksDiffer(su: KP.Setup)
    requires su == KkrtSetup().(seed := su.seed)
    ensures !KP.Agree(su, 1, 0, "bc", "a")
  {
    assert KP.Mask(su, 1, 0, "a") == Block(Tagged(Zero(), 0));
    assert KP.Mask(su, 1, 0, "bc") == Block(Tagged(Zero()[0 := 0x80], 0));
    assert KP.Mask(su, 1, 0, "bc").bytes[0] != KP.Mask(su, 1, 0, "a").bytes[0];
  }

  /** With different flags the sender waits, by any schedule, for a result that the receiver does not send. */
  lemma FlagsDiffer(end: KP.Net)
    requires KP.RanTo(OneKeyEach("a", "a", false), end)
    ensures end.a.Recv? && end.b.Ret?
  {
    OneKeyPlaced("a", "a", false);
    KP.RanToFinal(OneKeyEach("a", "a", false), end);
  }

  /** A common key that holds a NUL reaches the sender in pieces. */
  lemma NulKeyDiffers(end: KP.Net)
    requires KP.RanTo(OneKeyEach("\0", "\0", true), end)
    ensures end.a != end.b
  {
    var c := OneKeyEach("\0", "\0", true);
    OneKeyPlaced("\0", "\0", true);
    assert KP.CollisionFree(c);
    KP.PartiesAgreeIffNulFree(c, end);
    assert "\0" in Intersect(c.receiver.keys, c.sender.keys);
    assert NUL in "\0";
  }

  // ---- a curve of two points ----

  function PointBytes(p: int): Record {
    seq(Ecdh.POINT_LENGTH, i => if i == Ecdh.POINT_LENGTH - 1 && p == 1 then 1 else 0)
  }

  function PointOf(r: Record): int {
    if |r| == Ecdh.POINT_LENGTH && r[Ecdh.POINT_LENGTH - 1] == 1 then 1 else 0
  }

  /** Even keys leave the points alone and odd keys swap them; a string hashes to the parity of its length. */
  function TinyCurve(): Ecdh.Curve {
    Ecdh.Curve(2, (x: string) => |x| % 2, (k: int, p: int) => if k % 2 == 0 then p else 1 - p, PointBytes, PointOf)
  }

  lemma BytesOfPoint(p: int)
    ensures |PointBytes(p)| == Ecdh.POINT_LENGTH
    ensures PointOf(PointBytes(p)) == if p == 1 then 1 else 0
  {
  }

  lemma TinyCurveOk()
    ensures Ecdh.CurveOk(TinyCurve()) && Ecdh.Injective(TinyCurve())
  {
    var c := TinyCurve();
    forall p ensures |c.toBytes(p)| == Ecdh.POINT_LENGTH && (Ecdh.IsPoint(c, p) ==> c.fromBytes(c.toBytes(p)) == p) {
      BytesOfPoint(p);
    }
  }

  lemma TinyTruncation(k: int, l: int, mine: seq<string>, yours: seq<string>)
    ensures Ecdh.TruncationSeparates(TinyCurve(), k, l, mine, yours)
  {
    var c := TinyCurve();
    forall p, q | Ecdh.LastBytesAgree(PointBytes(p), PointBytes(q)) ensures PointBytes(p) == PointBytes(q) {
      assert PointBytes(p)[32] == PointBytes(q)[32];
    }
  }

  /** The hypotheses of the ECDH-PSI theorems hold together, for any two secret keys. */
  lemma EcdhHypotheses(k: int, l: int)
    ensures var c, mine, yours := TinyCurve(), ["a", ""], ["a"];
      && Ecdh.CurveOk(c) && Ecdh.Injective(c)
      && Ecdh.HashSeparates(c, mine, yours) && Ecdh.TruncationSeparates(c, k, l, mine, yours)
      && Ecdh.NoCollision(c, k, l, mine, yours)
  {
    TinyCurveOk();
    TinyTruncation(k, l, ["a", ""], ["a"]);
    Ecdh.PrimitivesGiveNoCollision(TinyCurve(), k, l, ["a", ""], ["a"]);
  }
}
