/** Every schedule of the two Circuit-PSI roles ends, and in which states. */
module CircuitRun {
  import opened Sequences
  import opened Network
  import opened Hashing
  import opened Words
  import opened ObliviousPrf
  import opened CircuitShares
  import opened CircuitProtocol

  // ---- the loops over features ----

  lemma {:induction false} VectorsPass(
      ideal: Ideal<Input, Output>, vectors: seq<seq<Word>>, size: nat, next: Program, got: seq<seq<Word>>,
      rest: Collect, calls: nat, goal: Goal)
    requires Backward(ideal, goal) && AllWidth(vectors, size)
    requires goal(Config(next, rest(got + vectors), [], [], calls))
    ensures goal(Config(SendAll(vectors, next), ReceiveAll(|vectors|, size, got, rest), [], [], calls))
    decreases |vectors|
  {
    if vectors == [] {
      assert got + vectors == got;
    } else {
      assert got + vectors == (got + [vectors[0]]) + vectors[1..];
      VectorsPass(ideal, vectors[1..], size, next, got + [vectors[0]], rest, calls, goal);
      PassAtoB(ideal, Data(vectors[0]), SendAll(vectors[1..], next), OnVector(|vectors|, size, got, rest), calls, goal);
    }
  }

  /** Both parties' results of multiplexing every feature by the same shared bits. */
  ghost predicate AllMux(
      ba: Matrix, va: seq<Matrix>, bb: Matrix, vb: seq<Matrix>, oa: seq<Matrix>, ob: seq<Matrix>, rows: nat, width: nat)
    requires Shaped(ba, rows, width) && Shaped(bb, rows, width)
    requires AllShaped(va, rows, width) && AllShaped(vb, rows, width) && |va| == |vb|
  {
    |oa| == |ob| == |va| && forall k :: 0 <= k < |va| ==> MuxShares(ba, va[k], bb, vb[k], oa[k], ob[k], rows, width)
  }

  lemma {:induction false} MuxPass(
      ideal: Ideal<Input, Output>, ba: Matrix, va: seq<Matrix>, gotA: seq<Matrix>, restA: CollectMatrices,
      bb: Matrix, vb: seq<Matrix>, gotB: seq<Matrix>, restB: CollectMatrices,
      rows: nat, width: nat, calls: nat, goal: Goal)
    requires Backward(ideal, goal) && MuxOk(ideal) && Shaped(ba, rows, width) && Shaped(bb, rows, width)
    requires AllShaped(va, rows, width) && AllShaped(vb, rows, width) && |va| == |vb|
    requires forall oa, ob :: AllMux(ba, va, bb, vb, oa, ob, rows, width) ==>
      goal(Config(restA(gotA + oa), restB(gotB + ob), [], [], calls + |va|))
    ensures goal(Config(MuxAll(ba, va, gotA, restA), MuxAll(bb, vb, gotB, restB), [], [], calls))
    decreases |va|
  {
    if va == [] {
      assert AllMux(ba, va, bb, vb, [], [], rows, width);
      assert gotA + [] == gotA && gotB + [] == gotB;
    } else {
      var (ya, yb) := ideal(calls, MuxIn(ba, va[0]), MuxIn(bb, vb[0]));
      assert Shaped(va[0], rows, width) && Shaped(vb[0], rows, width);
      var gotA', gotB' := gotA + [ya.shares], gotB + [yb.shares];
      forall oa, ob | AllMux(ba, va[1..], bb, vb[1..], oa, ob, rows, width)
        ensures goal(Config(restA(gotA' + oa), restB(gotB' + ob), [], [], calls + 1 + |va[1..]|))
      {
        assert AllMux(ba, va, bb, vb, [ya.shares] + oa, [yb.shares] + ob, rows, width);
        assert gotA + ([ya.shares] + oa) == gotA' + oa && gotB + ([yb.shares] + ob) == gotB' + ob;
      }
      MuxPass(ideal, ba, va[1..], gotA', restA, bb, vb[1..], gotB', restB, rows, width, calls + 1, goal);
      Meet(ideal, MuxIn(ba, va[0]), OnMux(ba, va, gotA, restA), MuxIn(bb, vb[0]), OnMux(bb, vb, gotB, restB), calls,
        goal);
    }
  }

  lemma NothingBefore(
      may: (seq<Matrix>, seq<Matrix>) -> bool, restA: CollectMatrices, restB: CollectMatrices, calls: nat, goal: Goal)
    requires forall oa, ob :: may(oa, ob) ==> goal(Config(restA(oa), restB(ob), [], [], calls))
    ensures forall oa, ob :: may(oa, ob) ==> goal(Config(restA([] + oa), restB([] + ob), [], [], calls))
  {
    forall oa: seq<Matrix>, ob: seq<Matrix> | may(oa, ob)
      ensures goal(Config(restA([] + oa), restB([] + ob), [], [], calls))
    {
      assert [] + oa == oa && [] + ob == ob;
    }
  }

  lemma MuxPassAll(
      ideal: Ideal<Input, Output>, ba: Matrix, va: seq<Matrix>, restA: CollectMatrices,
      bb: Matrix, vb: seq<Matrix>, restB: CollectMatrices, rows: nat, width: nat, calls: nat, goal: Goal)
    requires Backward(ideal, goal) && MuxOk(ideal) && Shaped(ba, rows, width) && Shaped(bb, rows, width)
    requires AllShaped(va, rows, width) && AllShaped(vb, rows, width) && |va| == |vb|
    requires forall oa, ob :: AllMux(ba, va, bb, vb, oa, ob, rows, width) ==>
      goal(Config(restA(oa), restB(ob), [], [], calls + |va|))
    ensures goal(Config(MuxAll(ba, va, [], restA), MuxAll(bb, vb, [], restB), [], [], calls))
  {
    NothingBefore((oa, ob) => AllMux(ba, va, bb, vb, oa, ob, rows, width), restA, restB, calls + |va|, goal);
    MuxPass(ideal, ba, va, [], restA, bb, vb, [], restB, rows, width, calls, goal);
  }

  // ---- comparison and multiplexing ----

  /** What the two parties put into the comparison and, feature by feature, into the multiplexer. */
  datatype Shared = Shared(
    xa: Matrix, ya: Matrix, xb: Matrix, yb: Matrix, va: seq<Matrix>, vb: seq<Matrix>, rows: nat, width: nat)

  ghost predicate SharedOk(i: Shared) {
    && Shaped(i.xa, i.rows, i.width) && Shaped(i.ya, i.rows, i.width)
    && Shaped(i.xb, i.rows, i.width) && Shaped(i.yb, i.rows, i.width)
    && AllShaped(i.va, i.rows, i.width) && AllShaped(i.vb, i.rows, i.width) && |i.va| == |i.vb|
  }

  /** The shared bits and multiplexed shares that the ideal functionality may hand out. */
  ghost predicate Hands(i: Shared, ra: Matrix, rb: Matrix, oa: seq<Matrix>, ob: seq<Matrix>)
    requires SharedOk(i)
  {
    && EqualShares(i.xa, i.ya, i.xb, i.yb, ra, rb, i.rows, i.width)
    && AllMux(ra, i.va, rb, i.vb, oa, ob, i.rows, i.width)
  }

  lemma ComparePass(
      ideal: Ideal<Input, Output>, i: Shared, doneA: Finish, doneB: Finish, calls: nat, goal: Goal)
    requires Backward(ideal, goal) && EqualOk(ideal) && MuxOk(ideal) && SharedOk(i)
    requires forall ra, rb, oa, ob :: Hands(i, ra, rb, oa, ob) ==>
      goal(Config(doneA(ra)(oa), doneB(rb)(ob), [], [], calls + 1 + |i.va|))
    ensures goal(Config(Call(EqualIn(i.xa, i.ya), OnCompared(i.va, doneA)),
      Call(EqualIn(i.xb, i.yb), OnCompared(i.vb, doneB)), [], [], calls))
  {
    var (a, b) := ideal(calls, EqualIn(i.xa, i.ya), EqualIn(i.xb, i.yb));
    var ra, rb := a.bits, b.bits;
    forall oa, ob | AllMux(ra, i.va, rb, i.vb, oa, ob, i.rows, i.width)
      ensures goal(Config(doneA(ra)(oa), doneB(rb)(ob), [], [], calls + 1 + |i.va|))
    {
      assert Hands(i, ra, rb, oa, ob);
    }
    MuxPassAll(ideal, ra, i.va, doneA(ra), rb, i.vb, doneB(rb), i.rows, i.width, calls + 1, goal);
    Meet(ideal, EqualIn(i.xa, i.ya), OnCompared(i.va, doneA), EqualIn(i.xb, i.yb), OnCompared(i.vb, doneB), calls,
      goal);
  }

  // ---- a run that gets past both stash checks ----

  ghost predicate BothLive(su: Setup, s: Party, r: Party) {
    Live(su, s, BinCount(su, r)) && AllPlaced(su, r, BinCount(su, r))
  }

  function BinCount(su: Setup, r: Party): nat {
    Bins(|r.keys|, su.epsilon)
  }

  function ReceiverMasks(su: Setup, r: Party): seq<Block> {
    MasksOf(su.oprf, ReceiverTable(su, r, BinCount(su, r)).values)
  }

  lemma FilterWidths(su: Setup, s: Party, bins: nat)
    requires Live(su, s, bins)
    ensures var hb := HintBins(su, |s.keys|, bins);
      |MemberFilter(su, s, bins)| == hb && AllWidth(FeatureFilters(su, s, bins), hb)
      && AllWidth([MemberFilter(su, s, bins)] + FeatureFilters(su, s, bins), hb)
  {
    HintReady(su, s, bins);
    SourceIsInput(su, s, bins, 0);
  }

  /** What the receiver unmasks from the membership filter. */
  ghost function MemberRead(su: Setup, s: Party, r: Party): (m: Matrix)
    requires BothLive(su, s, r)
    ensures Shaped(m, BinCount(su, r), su.hintFuns)
  {
    var bins := BinCount(su, r);
    FilterWidths(su, s, bins);
    ReceiverKnown(su, r, bins);
    Read(su, r, HintBins(su, |s.keys|, bins), ReceiverTable(su, r, bins).values, MemberFilter(su, s, bins),
      ReceiverMasks(su, r))
  }

  /** What the receiver unmasks from the feature filters. */
  ghost function FeatureRead(su: Setup, s: Party, r: Party): (m: seq<Matrix>)
    requires BothLive(su, s, r)
    ensures |m| == |s.features| && AllShaped(m, BinCount(su, r), su.hintFuns)
  {
    var bins := BinCount(su, r);
    FilterWidths(su, s, bins);
    ReceiverKnown(su, r, bins);
    FeatureReads(su, r, bins, HintBins(su, |s.keys|, bins), ReceiverMasks(su, r), FeatureFilters(su, s, bins))
  }

  ghost function RunShared(su: Setup, s: Party, r: Party): (i: Shared)
    requires BothLive(su, s, r)
    ensures SharedOk(i) && |i.va| == |s.features|
  {
    var bins, width := BinCount(su, r), su.hintFuns;
    Shared(
      Lows(Repeated(Contents(s, bins), width)), Repeated(ZeroColumn(bins), width),
      Repeated(ZeroColumn(bins), width), Lows(MemberRead(su, s, r)),
      FeatureContents(su, s, bins), FeatureRead(su, s, r), bins, width)
  }

  ghost function EndState(
      su: Setup, s: Party, r: Party, ra: Matrix, rb: Matrix, oa: seq<Matrix>, ob: seq<Matrix>): Net
    requires BothLive(su, s, r)
  {
    var bins := BinCount(su, r);
    Config(SenderFinish(su, s, bins, |r.features|, ra, oa), ReceiverFinish(su, r, bins, rb, ob), [], [],
      2 + |s.features|)
  }

  /** Every outcome that the ideal functionality may hand out is a state in the goal. */
  ghost predicate AllHandsReach(su: Setup, s: Party, r: Party, goal: Goal)
    requires BothLive(su, s, r)
  {
    forall ra, rb, oa, ob :: Hands(RunShared(su, s, r), ra, rb, oa, ob) ==> goal(EndState(su, s, r, ra, rb, oa, ob))
  }

  lemma Concludes(su: Setup, s: Party, r: Party, ra: Matrix, rb: Matrix, oa: seq<Matrix>, ob: seq<Matrix>)
    requires BothLive(su, s, r)
    ensures EndState(su, s, r, ra, rb, oa, ob) ==
      Config(SenderDone(su, s, BinCount(su, r), |r.features|)(ra)(oa), ReceiverDone(su, r, BinCount(su, r))(rb)(ob),
        [], [], 2 + |s.features|)
  {
  }

  lemma SendersComparison(su: Setup, s: Party, r: Party)
    requires BothLive(su, s, r)
    ensures var i, bins := RunShared(su, s, r), BinCount(su, r);
      SenderCompare(su, s, bins, |r.features|)
      == Call(EqualIn(i.xa, i.ya), OnCompared(i.va, SenderDone(su, s, bins, |r.features|)))
  {
  }

  ghost function RunFilters(su: Setup, s: Party, r: Party): seq<seq<Word>>
    requires BothLive(su, s, r)
  {
    [MemberFilter(su, s, BinCount(su, r))] + FeatureFilters(su, s, BinCount(su, r))
  }

  /** The second draw does not touch the receiver's first table. */
  lemma SamePlaces(su: Setup, early: Party, bins: nat)
    ensures BinCount(su, DrawHint(early)) == BinCount(su, early)
    ensures ReceiverTable(su, DrawHint(early), bins) == ReceiverTable(su, early, bins)
    ensures ReceiverMasks(su, DrawHint(early)) == ReceiverMasks(su, early)
    ensures AllPlaced(su, DrawHint(early), bins) <==> AllPlaced(su, early, bins)
  {
  }

  /** What the receiver goes on with once all filters have come in: the program of `early` is the one
      that has drawn its first seed only. */
  ghost function OnRunFilters(su: Setup, s: Party, early: Party): Collect
    requires BothLive(su, s, DrawHint(early))
  {
    SamePlaces(su, early, BinCount(su, early));
    ReceiverKnown(su, early, BinCount(su, early));
    OnFilters(su, early, BinCount(su, early), HintBins(su, |s.keys|, BinCount(su, early)), ReceiverMasks(su, early))
  }

  lemma ReceiversComparison(su: Setup, s: Party, early: Party)
    requires BothLive(su, s, DrawHint(early))
    ensures var r := DrawHint(early);
      var i := RunShared(su, s, r);
      OnRunFilters(su, s, early)(RunFilters(su, s, r))
      == Call(EqualIn(i.xb, i.yb), OnCompared(i.vb, ReceiverDone(su, r, BinCount(su, r))))
  {
    var r := DrawHint(early);
    var bins := BinCount(su, r);
    SamePlaces(su, early, bins);
    FilterWidths(su, s, bins);
    ReceiverKnown(su, r, bins);
    var filters := RunFilters(su, s, r);
    assert filters[0] == MemberFilter(su, s, bins) && filters[1..] == FeatureFilters(su, s, bins);
  }

  /** From the comparison to the end. */
  lemma BothCompare(ideal: Ideal<Input, Output>, su: Setup, s: Party, r: Party, goal: Goal)
    requires BothLive(su, s, r) && Backward(ideal, goal) && EqualOk(ideal) && MuxOk(ideal)
    requires AllHandsReach(su, s, r, goal)
    ensures var i, bins := RunShared(su, s, r), BinCount(su, r);
      goal(Config(Call(EqualIn(i.xa, i.ya), OnCompared(i.va, SenderDone(su, s, bins, |r.features|))),
        Call(EqualIn(i.xb, i.yb), OnCompared(i.vb, ReceiverDone(su, r, bins))), [], [], 1))
  {
    var bins, i := BinCount(su, r), RunShared(su, s, r);
    var doneA, doneB := SenderDone(su, s, bins, |r.features|), ReceiverDone(su, r, bins);
    forall ra, rb, oa, ob | Hands(i, ra, rb, oa, ob)
      ensures goal(Config(doneA(ra)(oa), doneB(rb)(ob), [], [], 2 + |i.va|))
    {
      Concludes(su, s, r, ra, rb, oa, ob);
    }
    ComparePass(ideal, i, doneA, doneB, 1, goal);
  }

  lemma ComparingEnds(ideal: Ideal<Input, Output>, su: Setup, s: Party, early: Party, goal: Goal)
    requires BothLive(su, s, DrawHint(early)) && Backward(ideal, goal) && EqualOk(ideal) && MuxOk(ideal)
    requires AllHandsReach(su, s, DrawHint(early), goal)
    ensures var r := DrawHint(early);
      goal(Config(SenderCompare(su, s, BinCount(su, r), |r.features|),
        OnRunFilters(su, s, early)(RunFilters(su, s, r)), [], [], 1))
  {
    ReceiversComparison(su, s, early);
    SendersComparison(su, s, DrawHint(early));
    BothCompare(ideal, su, s, DrawHint(early), goal);
  }

  /** From the hint filters to the end. */
  lemma SharingEnds(ideal: Ideal<Input, Output>, su: Setup, s: Party, early: Party, goal: Goal)
    requires BothLive(su, s, DrawHint(early)) && Backward(ideal, goal) && EqualOk(ideal) && MuxOk(ideal)
    requires AllHandsReach(su, s, DrawHint(early), goal)
    ensures var r := DrawHint(early);
      var bins, hb := BinCount(su, r), HintBins(su, |s.keys|, BinCount(su, r));
      goal(Config(SendAll(RunFilters(su, s, r), SenderCompare(su, s, bins, |r.features|)),
        ReceiveAll(1 + |s.features|, hb, [], OnRunFilters(su, s, early)), [], [], 1))
  {
    var r := DrawHint(early);
    var bins, hb := BinCount(su, r), HintBins(su, |s.keys|, BinCount(su, r));
    ComparingEnds(ideal, su, s, early, goal);
    FilterWidths(su, s, bins);
    assert [] + RunFilters(su, s, r) == RunFilters(su, s, r);
    VectorsPass(ideal, RunFilters(su, s, r), hb, SenderCompare(su, s, bins, |r.features|), [],
      OnRunFilters(su, s, early), 1, goal);
  }

  // ---- the whole run ----

  /** The library keeps its contract for the lists that this run inserts. */
  ghost predicate Kept(su: Setup, s: Party, r: Party) {
    var bins := BinCount(su, r);
    bins > 0 && HintBins(su, |s.keys|, bins) > 0 ==>
      SenderKept(su, Seeded(s), bins) && ReceiverKept(su, DrawTable(r), bins)
  }

  /** The states in which a run ends, with each party's generator where its own draws have left it. On
      a hint stash the sender has drawn both seeds and the receiver only the first. */
  ghost predicate GoodEnd(su: Setup, s: Party, r: Party, g: Net)
    requires Kept(su, s, r)
  {
    var bins := BinCount(su, r);
    if bins == 0 || HintBins(su, |s.keys|, bins) == 0 then g == Config(Ret(NoBins), Ret(NoBins), [], [], 0)
    else if ReceiverTable(su, DrawTable(r), bins).stash > 0 then
      g == Config(Ret(Aborted(DrawTable(s).common)), Ret(Aborted(DrawTable(r).common)), [], [], 0)
    else if HintTable(su, Seeded(s), bins).stash > 0 then
      g == Config(Ret(HintAborted(Seeded(s).common)), Ret(HintAborted(DrawTable(r).common)), [], [], 1)
    else SharedEnd(su, Seeded(s), Seeded(r), g)
  }

  ghost predicate SharedEnd(su: Setup, s: Party, r: Party, g: Net)
    requires BothLive(su, s, r)
  {
    exists ra, rb, oa, ob :: Hands(RunShared(su, s, r), ra, rb, oa, ob) && g == EndState(su, s, r, ra, rb, oa, ob)
  }

  lemma FiltersEnd(ideal: Ideal<Input, Output>, su: Setup, s: Party, early: Party, masks: seq<Block>, goal: Goal)
    requires AllPlaced(su, early, BinCount(su, early)) && HintBins(su, |s.keys|, BinCount(su, early)) > 0
    requires Live(su, s, BinCount(su, early))
    requires Backward(ideal, goal) && EqualOk(ideal) && MuxOk(ideal)
    requires masks == ReceiverMasks(su, early) && |masks| == BinCount(su, early)
    requires BothLive(su, s, DrawHint(early)) && forall g :: SharedEnd(su, s, DrawHint(early), g) ==> goal(g)
    ensures var bins, hb := BinCount(su, early), HintBins(su, |s.keys|, BinCount(su, early));
      goal(Config(SenderFilters(su, s, bins, |early.features|),
        ReceiveAll(1 + |s.features|, hb, [], OnFilters(su, early, bins, hb, masks)), [], [], 1))
  {
    var r := DrawHint(early);
    SamePlaces(su, early, BinCount(su, early));
    forall ra, rb, oa, ob | Hands(RunShared(su, s, r), ra, rb, oa, ob)
      ensures goal(EndState(su, s, r, ra, rb, oa, ob))
    {
      assert SharedEnd(su, s, r, EndState(su, s, r, ra, rb, oa, ob));
    }
    SharingEnds(ideal, su, s, early, goal);
  }

  lemma StashDecides(su: Setup, early: Party, bins: nat, hb: nat, fs: nat, masks: seq<Block>, stash: nat)
    requires AllPlaced(su, early, bins) && hb > 0 && |masks| == bins
    ensures OnHintStash(su, early, bins, hb, fs, masks)(Size(stash))
      == if stash > 0 then Ret(HintAborted(early.common))
         else ReceiveAll(1 + fs, hb, [], OnFilters(su, early, bins, hb, masks))
  {
  }

  /** Once the receiver knows the size of the hint stash. */
  lemma StashKnown(ideal: Ideal<Input, Output>, su: Setup, s: Party, r: Party, masks: seq<Block>, goal: Goal)
    requires Kept(su, s, r)
    requires AllPlaced(su, DrawTable(r), BinCount(su, r)) && HintBins(su, |s.keys|, BinCount(su, r)) > 0
    requires Backward(ideal, goal) && EqualOk(ideal) && MuxOk(ideal)
    requires masks == ReceiverMasks(su, DrawTable(r)) && |masks| == BinCount(su, r)
    requires forall g :: GoodEnd(su, s, r, g) ==> goal(g)
    ensures var bins, stash := BinCount(su, r), HintTable(su, Seeded(s), BinCount(su, r)).stash;
      goal(Config(SenderFilters(su, Seeded(s), bins, |r.features|),
        OnHintStash(su, DrawTable(r), bins, HintBins(su, |s.keys|, bins), |s.features|, masks)(Size(stash)), [], [], 1))
  {
    var bins, stash := BinCount(su, r), HintTable(su, Seeded(s), BinCount(su, r)).stash;
    StashDecides(su, DrawTable(r), bins, HintBins(su, |s.keys|, bins), |s.features|, masks, stash);
    if stash > 0 {
      assert GoodEnd(su, s, r,
        Config(Ret(HintAborted(Seeded(s).common)), Ret(HintAborted(DrawTable(r).common)), [], [], 1));
    } else {
      FiltersEnd(ideal, su, Seeded(s), DrawTable(r), masks, goal);
    }
  }

  lemma HintsEnd(ideal: Ideal<Input, Output>, su: Setup, s: Party, r: Party, masks: seq<Block>, goal: Goal)
    requires Kept(su, s, r)
    requires AllPlaced(su, DrawTable(r), BinCount(su, r)) && HintBins(su, |s.keys|, BinCount(su, r)) > 0
    requires Backward(ideal, goal) && EqualOk(ideal) && MuxOk(ideal)
    requires masks == ReceiverMasks(su, DrawTable(r)) && |masks| == BinCount(su, r)
    requires forall g :: GoodEnd(su, s, r, g) ==> goal(g)
    ensures var bins := BinCount(su, r);
      goal(Config(SenderHints(su, Seeded(s), bins, |r.features|),
        Recv(OnHintStash(su, DrawTable(r), bins, HintBins(su, |s.keys|, bins), |s.features|, masks)), [], [], 1))
  {
    var bins := BinCount(su, r);
    StashKnown(ideal, su, s, r, masks, goal);
    PassAtoB(ideal, Size(HintTable(su, Seeded(s), bins).stash), SenderFilters(su, Seeded(s), bins, |r.features|),
      OnHintStash(su, DrawTable(r), bins, HintBins(su, |s.keys|, bins), |s.features|, masks), 1, goal);
  }

  lemma OprfEnds(ideal: Ideal<Input, Output>, su: Setup, s: Party, r: Party, goal: Goal)
    requires Kept(su, s, r) && BinCount(su, r) > 0 && HintBins(su, |s.keys|, BinCount(su, r)) > 0
    requires Backward(ideal, goal) && IdealOk(ideal, su.oprf)
    requires forall g :: GoodEnd(su, s, r, g) ==> goal(g)
    ensures var bins := BinCount(su, r);
      goal(Config(Recv(OnStash(su, DrawTable(s), bins, |r.features|)),
        ReceiverTables(su, DrawTable(r), bins, HintBins(su, |s.keys|, bins), |s.features|), [], [], 0))
  {
    var bins, hb, r1 := BinCount(su, r), HintBins(su, |s.keys|, BinCount(su, r)), DrawTable(r);
    var t := ReceiverTable(su, r1, bins);
    if t.stash > 0 {
      assert GoodEnd(su, s, r, Config(Ret(Aborted(DrawTable(s).common)), Ret(Aborted(r1.common)), [], [], 0));
    } else {
      ReceiverKnown(su, r1, bins);
      HintsEnd(ideal, su, s, r, ReceiverMasks(su, r1), goal);
      OprfPass(ideal, su.oprf, bins, t.values, OnSent(su, DrawTable(s), bins, |r.features|),
        OnMasks(su, r1, bins, hb, |s.features|), goal);
    }
    PassBtoA(ideal, Size(t.stash), ReceiverOprf(su, r1, bins, hb, |s.features|),
      OnStash(su, DrawTable(s), bins, |r.features|), 0, goal);
  }

  lemma OprfPass(
      ideal: Ideal<Input, Output>, oprf: Oprf, bins: nat, values: seq<Item>, onA: Output -> Program,
      onB: Output -> Program, goal: Goal)
    requires OprfOk(ideal, oprf) && Backward(ideal, goal) && |values| == bins
    requires goal(Config(onA(OprfDone), onB(OprfMasks(MasksOf(oprf, values))), [], [], 1))
    ensures goal(Config(Call(OprfSender(bins), onA), Call(OprfReceiver(values), onB), [], [], 0))
  {
    Meet(ideal, OprfSender(bins), onA, OprfReceiver(values), onB, 0, goal);
  }

  lemma RunEnds(ideal: Ideal<Input, Output>, su: Setup, s: Party, r: Party, goal: Goal)
    requires Kept(su, s, r) && Backward(ideal, goal) && IdealOk(ideal, su.oprf)
    requires forall g :: GoodEnd(su, s, r, g) ==> goal(g)
    ensures goal(Start(SenderRole(su, s), ReceiverRole(su, r)))
  {
    var bins, ns, fs := BinCount(su, r), |s.keys|, |s.features|;
    if bins > 0 && HintBins(su, ns, bins) > 0 {
      OprfEnds(ideal, su, s, r, goal);
    } else {
      assert GoodEnd(su, s, r, Config(Ret(NoBins), Ret(NoBins), [], [], 0));
    }
    var hashes := SenderHashes(su, s, bins, |r.features|);
    PassAtoB(ideal, Size(fs), hashes, OnSenderWidth(su, r, ns), 0, goal);
    PassAtoB(ideal, Size(ns), Send(Size(fs), hashes), OnSenderSize(su, r), 0, goal);
    PassBtoA(ideal, Size(|r.features|), Recv(OnSenderSize(su, r)), OnReceiverWidth(su, s, bins), 0, goal);
    PassBtoA(ideal, Size(|r.keys|), Send(Size(|r.features|), Recv(OnSenderSize(su, r))), OnReceiverSize(su, s), 0,
      goal);
  }

  /** Every schedule terminates, all in the same state, and that is one of the good ends. */
  lemma EveryRun(ideal: Ideal<Input, Output>, su: Setup, s: Party, r: Party)
    requires Kept(su, s, r) && IdealOk(ideal, su.oprf)
    ensures exists f :: GoodEnd(su, s, r, f) && AlwaysEnds(ideal, Start(SenderRole(su, s), ReceiverRole(su, r)), f)
  {
    var good: Goal := f => GoodEnd(su, s, r, f);
    ToSomeBackward(ideal, good);
    forall f | GoodEnd(su, s, r, f) ensures ToSome(ideal, good)(f) {
      GoodEndStuck(su, s, r, f);
    }
    RunEnds(ideal, su, s, r, ToSome(ideal, good));
    var start := Start(SenderRole(su, s), ReceiverRole(su, r));
    assert ToSome(ideal, good)(start);
    var f :| good(f) && Ends(ideal, start, f);
    OneEndsAllEnd(ideal, start, f);
  }

  lemma StuckIsGoodEnd(ideal: Ideal<Input, Output>, su: Setup, s: Party, r: Party, m: nat, g: Net)
    requires Kept(su, s, r) && IdealOk(ideal, su.oprf)
    requires Reaches(ideal, Start(SenderRole(su, s), ReceiverRole(su, r)), m, g) && Stuck(g)
    ensures GoodEnd(su, s, r, g)
  {
    EveryRun(ideal, su, s, r);
    var start := Start(SenderRole(su, s), ReceiverRole(su, r));
    var f :| GoodEnd(su, s, r, f) && AlwaysEnds(ideal, start, f);
    StuckAtEnd(ideal, start, f, m, g);
  }

  lemma EndStateReturned(
      su: Setup, s: Party, r: Party, ra: Matrix, rb: Matrix, oa: seq<Matrix>, ob: seq<Matrix>)
    requires BothLive(su, s, r)
    ensures var f := EndState(su, s, r, ra, rb, oa, ob); f.a.Ret? && f.b.Ret?
  {
  }

  lemma BothReturned(g: Net)
    requires g.a.Ret? && g.b.Ret?
    ensures Stuck(g)
  {
  }

  lemma SharedEndStuck(su: Setup, s: Party, r: Party, g: Net)
    requires BothLive(su, s, r) && SharedEnd(su, s, r, g)
    ensures Stuck(g)
  {
    var ra, rb, oa, ob :| Hands(RunShared(su, s, r), ra, rb, oa, ob) && g == EndState(su, s, r, ra, rb, oa, ob);
    EndStateReturned(su, s, r, ra, rb, oa, ob);
    BothReturned(g);
  }

  lemma GoodEndStuck(su: Setup, s: Party, r: Party, g: Net)
    requires Kept(su, s, r) && GoodEnd(su, s, r, g)
    ensures Stuck(g)
  {
    if BothLive(su, Seeded(s), Seeded(r)) {
      SharedEndStuck(su, Seeded(s), Seeded(r), g);
    } else {
      BothReturned(g);
    }
  }
}
