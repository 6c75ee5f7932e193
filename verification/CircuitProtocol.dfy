/**
 Circuit-PSI as two role programs (src/setops/pjc/circuit_psi.cpp). The party called `a` is the sender.
 */
module CircuitProtocol {
  import opened Sequences
  import opened Network
  import opened Hashing
  import opened Words
  import opened ObliviousPrf
  import opened CommonSeed
  import opened CircuitTables
  import opened CircuitHints
  import opened CircuitShares

  datatype Msg = Size(n: nat) | Data(words: seq<Word>)
  datatype Input =
    | OprfSender(bins: nat)
    | OprfReceiver(values: seq<Item>)
    | EqualIn(x: Matrix, y: Matrix)
    | MuxIn(bits: Matrix, value: Matrix)
  datatype Output = OprfDone | OprfMasks(masks: seq<Block>) | EqualOut(bits: Matrix) | MuxOut(shares: Matrix)

  /** A party leaves with its copy of the common generator as the draws have left it; `used` is what
      the sender has taken from its own. `Broken` stands for what the source leaves open: a message of
      the wrong kind, or a table that breaks the library's contract. */
  datatype Outcome =
    | Done(shares: seq<seq<Word>>, common: Generator, used: nat)
    | Aborted(common: Generator)
    | HintAborted(common: Generator)
    | NoBins
    | Broken

  type Program = Prog<Msg, Input, Output, Outcome>
  type Net = Config<Msg, Input, Output, Outcome>
  type Goal = Net -> bool

  datatype Setup = Setup(
    lib: HashLib, hash: string -> Item, oprf: Oprf, pads: Pads,
    epsilon: real, epsilonHint: real, funs: nat, hintFuns: nat)

  /** A party with its copy of the common generator and the two seeds that it draws from it for its
      tables; the sender's own generator stands at `used`. */
  datatype AnyParty = Party(
    keys: seq<string>, features: seq<seq<Word>>, common: Generator, tableSeed: Block, hintSeed: Block,
    own: nat -> Word, used: nat)
  type Party = p: AnyParty | Rectangular(p.features, |p.keys|)
    ghost witness Party([], [], Generator(_ => NoSeed(), 0), NoSeed(), NoSeed(), _ => 0, 0)

  /** The draw that fills the seed of the party's first table. */
  function DrawTable(p: Party): Party {
    var (seed, common) := Drawn(p.common);
    p.(tableSeed := seed, common := common)
  }

  /** The draw that fills the seed of the hint table. */
  function DrawHint(p: Party): Party {
    var (seed, common) := Drawn(p.common);
    p.(hintSeed := seed, common := common)
  }

  /** The party after both draws. */
  function Seeded(p: Party): Party {
    DrawHint(DrawTable(p))
  }

  /** The two seeds are the next two blocks of the common stream, the table's first. */
  lemma SeedsDrawn(p: Party)
    ensures Seeded(p).tableSeed == p.common.stream(p.common.at)
    ensures Seeded(p).hintSeed == p.common.stream(p.common.at + 1)
    ensures Seeded(p).common == Generator(p.common.stream, p.common.at + 2)
    ensures Seeded(p).keys == p.keys && Seeded(p).features == p.features
  {
  }

  // ---- the ideal functionalities ----

  ghost predicate OprfOk(ideal: Ideal<Input, Output>, oprf: Oprf) {
    forall k, n, values :: |values| == n ==>
      ideal(k, OprfSender(n), OprfReceiver(values)) == (OprfDone, OprfMasks(MasksOf(oprf, values)))
  }

  /** Exclusive-or shares of the comparison of two additively shared matrices. */
  ghost predicate EqualShares(xa: Matrix, ya: Matrix, xb: Matrix, yb: Matrix, ra: Matrix, rb: Matrix, rows: nat,
      width: nat)
    requires Shaped(xa, rows, width) && Shaped(ya, rows, width) && Shaped(xb, rows, width) && Shaped(yb, rows, width)
  {
    && Shaped(ra, rows, width) && Shaped(rb, rows, width)
    && (forall i, j :: 0 <= i < rows && 0 <= j < width ==>
          Xor(ra[i][j], rb[i][j]) == Bit(Add(xa[i][j], xb[i][j]) == Add(ya[i][j], yb[i][j])))
  }

  /** Additive shares of bit times value, for exclusive-or shared bits and additively shared values. */
  ghost predicate MuxShares(ba: Matrix, va: Matrix, bb: Matrix, vb: Matrix, oa: Matrix, ob: Matrix, rows: nat,
      width: nat)
    requires Shaped(ba, rows, width) && Shaped(va, rows, width) && Shaped(bb, rows, width) && Shaped(vb, rows, width)
  {
    && Shaped(oa, rows, width) && Shaped(ob, rows, width)
    && (forall i, j :: 0 <= i < rows && 0 <= j < width && Xor(ba[i][j], bb[i][j]) <= 1 ==>
          Add(oa[i][j], ob[i][j]) == if Xor(ba[i][j], bb[i][j]) == 1 then Add(va[i][j], vb[i][j]) else 0)
  }

  ghost predicate EqualOk(ideal: Ideal<Input, Output>) {
    forall k, xa, ya, xb, yb, rows, width ::
      Shaped(xa, rows, width) && Shaped(ya, rows, width) && Shaped(xb, rows, width) && Shaped(yb, rows, width) ==>
      var (a, b) := ideal(k, EqualIn(xa, ya), EqualIn(xb, yb));
      a.EqualOut? && b.EqualOut? && EqualShares(xa, ya, xb, yb, a.bits, b.bits, rows, width)
  }

  ghost predicate MuxOk(ideal: Ideal<Input, Output>) {
    forall k, ba, va, bb, vb, rows, width ::
      Shaped(ba, rows, width) && Shaped(va, rows, width) && Shaped(bb, rows, width) && Shaped(vb, rows, width) ==>
      var (a, b) := ideal(k, MuxIn(ba, va), MuxIn(bb, vb));
      a.MuxOut? && b.MuxOut? && MuxShares(ba, va, bb, vb, a.shares, b.shares, rows, width)
  }

  ghost predicate IdealOk(ideal: Ideal<Input, Output>, oprf: Oprf) {
    OprfOk(ideal, oprf) && EqualOk(ideal) && MuxOk(ideal)
  }

  // ---- loops over the features ----

  ghost function SendAll(vectors: seq<seq<Word>>, next: Program): Program {
    if vectors == [] then next else Send(Data(vectors[0]), SendAll(vectors[1..], next))
  }

  type Collect = seq<seq<Word>> -> Program
  type CollectMatrices = seq<Matrix> -> Program
  type Finish = Matrix -> CollectMatrices

  ghost function ReceiveAll(n: nat, size: nat, got: seq<seq<Word>>, rest: Collect): Program
    decreases n
  {
    if n == 0 then rest(got) else Recv(OnVector(n, size, got, rest))
  }

  ghost function OnVector(n: nat, size: nat, got: seq<seq<Word>>, rest: Collect): Msg -> Program
    requires n > 0
    decreases n, 0
  {
    (m: Msg) => if m.Data? && |m.words| == size then ReceiveAll(n - 1, size, got + [m.words], rest) else Ret(Broken)
  }

  ghost function MuxAll(bits: Matrix, values: seq<Matrix>, got: seq<Matrix>, rest: CollectMatrices): Program
    decreases |values|
  {
    if values == [] then rest(got) else Call(MuxIn(bits, values[0]), OnMux(bits, values, got, rest))
  }

  ghost function OnMux(bits: Matrix, values: seq<Matrix>, got: seq<Matrix>, rest: CollectMatrices): Output -> Program
    requires values != []
    decreases |values|, 0
  {
    (y: Output) => if y.MuxOut? then MuxAll(bits, values[1..], got + [y.shares], rest) else Ret(Broken)
  }

  /** With its share of the comparison a party multiplexes every feature, and finishes with both. */
  ghost function OnCompared(values: seq<Matrix>, done: Finish): Output -> Program {
    (y: Output) => if y.EqualOut? then MuxAll(y.bits, values, [], done(y.bits)) else Ret(Broken)
  }

  // ---- the sender ----

  /** The hint filter is sized by the sender's entries, or by the bins when those are more. */
  function HintBins(su: Setup, ns: nat, bins: nat): nat {
    if ns * su.funs < bins then Bins(bins, su.epsilonHint) else Bins(ns * su.funs, su.epsilonHint)
  }

  /** The hint table has room for every entry of the sender and for every bin, and is the smallest such. */
  lemma HintBinsLeaveRoom(su: Setup, ns: nat, bins: nat)
    requires su.epsilonHint >= 1.0
    ensures HintBins(su, ns, bins) >= ns * su.funs && HintBins(su, ns, bins) >= bins
    ensures var larger := if ns * su.funs < bins then bins else ns * su.funs;
      HintBins(su, ns, bins) as real < larger as real * su.epsilonHint + 1.0
  {
    var larger := if ns * su.funs < bins then bins else ns * su.funs;
    BinsLeaveRoom(larger, su.epsilonHint);
    BinsRoundUp(larger, su.epsilonHint);
  }

  function SenderTable(su: Setup, s: Party, bins: nat): seq<seq<Entry>> {
    su.lib.simple(s.tableSeed, bins, su.funs, HashAll(su.hash, s.keys))
  }

  function HintTable(su: Setup, s: Party, bins: nat): CuckooTable {
    su.lib.cuckoo(s.hintSeed, HintBins(su, |s.keys|, bins), su.hintFuns, FilterInputs(SenderTable(su, s, bins)))
  }

  /** The library keeps its contract for the two lists that the sender inserts. */
  ghost predicate SenderKept(su: Setup, s: Party, bins: nat) {
    && LibOk(su.lib) && SimpleOk(su.lib, s.tableSeed, bins, su.funs, HashAll(su.hash, s.keys))
    && CuckooOk(su.lib, s.hintSeed, HintBins(su, |s.keys|, bins), su.hintFuns, FilterInputs(SenderTable(su, s, bins)))
  }

  /** The sender gets past both stash checks. */
  ghost predicate Live(su: Setup, s: Party, bins: nat) {
    bins > 0 && HintBins(su, |s.keys|, bins) > 0 && SenderKept(su, s, bins) && HintTable(su, s, bins).stash == 0
  }

  function SenderFeatures(su: Setup, s: Party): map<Item, seq<Word>> {
    FeatureMap(HashAll(su.hash, s.keys), s.features, su.funs, |s.keys|)
  }

  lemma SourceIsInput(su: Setup, s: Party, bins: nat, slot: nat)
    requires Live(su, s, bins)
    ensures var ht := HintTable(su, s, bins);
      |ht.occupied| == |ht.sources| == |ht.fids| == HintBins(su, |s.keys|, bins)
      && (slot < |ht.occupied| && ht.occupied[slot] ==> ht.sources[slot] in FilterInputs(SenderTable(su, s, bins)))
  {
    assert CuckooOk(su.lib, s.hintSeed, HintBins(su, |s.keys|, bins), su.hintFuns,
      FilterInputs(SenderTable(su, s, bins)));
  }

  /** Every input of the hint filter is a tagged key: it has a place in the table and known features. */
  lemma InputKnown(su: Setup, s: Party, bins: nat, value: Item)
    requires SenderKept(su, s, bins) && value in FilterInputs(SenderTable(su, s, bins))
    ensures value in Locations(SenderTable(su, s, bins))
    ensures value in SenderFeatures(su, s) && |SenderFeatures(su, s)[value]| == |s.features|
  {
    var table, xs := SenderTable(su, s, bins), HashAll(su.hash, s.keys);
    assert SimpleOk(su.lib, s.tableSeed, bins, su.funs, xs);
    var walk := Walk(table);
    var k :| 0 <= k < |walk| && walk[k].value == value;
    WalkMember(table, walk[k]);
    assert HoldsValue(table[walk[k].bin], value);
    LocationStands(table, value);
    BinHolds(su.lib, s.tableSeed, bins, su.funs, xs, walk[k].bin, value);
    var p, f :| 0 <= p < |xs| && 0 <= f < su.funs && value == Tagged(xs[p], f);
    assert IsTagOf(value, xs[p], su.funs);
    FeatureMapHas(xs, s.features, su.funs, |xs|, value);
  }

  lemma HintReady(su: Setup, s: Party, bins: nat)
    requires Live(su, s, bins)
    ensures |SenderTable(su, s, bins)| == bins
    ensures Ready(SenderTable(su, s, bins), HintTable(su, s, bins))
    ensures FeaturesKnown(HintTable(su, s, bins), SenderFeatures(su, s), |s.features|)
  {
    var table, ht := SenderTable(su, s, bins), HintTable(su, s, bins);
    assert SimpleOk(su.lib, s.tableSeed, bins, su.funs, HashAll(su.hash, s.keys));
    SourceIsInput(su, s, bins, 0);
    forall slot | 0 <= slot < |ht.occupied| && ht.occupied[slot]
      ensures ht.sources[slot] in Locations(table)
      ensures ht.sources[slot] in SenderFeatures(su, s) && |SenderFeatures(su, s)[ht.sources[slot]]| == |s.features|
    {
      SourceIsInput(su, s, bins, slot);
      InputKnown(su, s, bins, ht.sources[slot]);
    }
    forall value | value in Locations(table) ensures Stands(table, Locations(table)[value], value) {
      LocationStands(table, value);
    }
  }

  ghost function Contents(s: Party, bins: nat): seq<Word> {
    Draws(s.own, s.used, bins)
  }

  ghost function SenderMemberSlots(su: Setup, s: Party, bins: nat): seq<Slot>
    requires Live(su, s, bins)
  {
    HintReady(su, s, bins);
    MemberSlots(su.oprf, su.pads, SenderTable(su, s, bins), HintTable(su, s, bins), Contents(s, bins))
  }

  ghost function SenderFeatureSlots(su: Setup, s: Party, bins: nat, at: nat, k: nat): seq<Slot>
    requires Live(su, s, bins) && k < |s.features|
  {
    HintReady(su, s, bins);
    FeatureSlots(su.oprf, su.pads, SenderTable(su, s, bins), HintTable(su, s, bins), SenderFeatures(su, s),
      |s.features|, Draws(s.own, at, bins), k)
  }

  /** How much the sender has drawn from its own generator when it comes to feature `k`. */
  ghost function FeatureAt(su: Setup, s: Party, bins: nat, k: nat): nat
    requires Live(su, s, bins) && k <= |s.features|
  {
    if k == 0 then s.used + bins + FreeCount(SenderMemberSlots(su, s, bins))
    else
      var at := FeatureAt(su, s, bins, k - 1);
      at + bins + FreeCount(SenderFeatureSlots(su, s, bins, at, k - 1))
  }

  /** How many words one filter takes: a content for each bin, and a random word for each slot of the hint
      table that none of the entries of `ns` keys occupies. */
  function WordsPerFilter(su: Setup, ns: nat, bins: nat): int {
    bins + HintBins(su, ns, bins) - ns * su.funs
  }

  /** Where `k` filters take a generator. */
  function Moved(used: int, k: nat, each: int): int {
    if k == 0 then used else Moved(used, k - 1, each) + each
  }

  lemma {:induction false} MovedIsProduct(used: int, k: nat, each: int)
    ensures Moved(used, k, each) == used + k * each
  {
    if k > 0 {
      MovedIsProduct(used, k - 1, each);
      assert k * each == (k - 1) * each + each;
    }
  }

  lemma HintsOccupied(su: Setup, s: Party, bins: nat)
    requires Live(su, s, bins)
    ensures |HintTable(su, s, bins).occupied| == HintBins(su, |s.keys|, bins)
    ensures CountTrue(HintTable(su, s, bins).occupied) == |s.keys| * su.funs
  {
    var xs := HashAll(su.hash, s.keys);
    SimpleLength(su.lib, s.tableSeed, bins, su.funs, xs);
    OccupiedCount(su.lib, s.hintSeed, HintBins(su, |s.keys|, bins), su.hintFuns,
      FilterInputs(SenderTable(su, s, bins)));
    SourceIsInput(su, s, bins, 0);
  }

  lemma MemberSlotsFree(su: Setup, s: Party, bins: nat)
    requires Live(su, s, bins)
    ensures bins + FreeCount(SenderMemberSlots(su, s, bins)) == WordsPerFilter(su, |s.keys|, bins)
  {
    HintReady(su, s, bins);
    HintsOccupied(su, s, bins);
    FreeAndOccupied(SenderMemberSlots(su, s, bins), HintTable(su, s, bins).occupied);
  }

  lemma FeatureSlotsFree(su: Setup, s: Party, bins: nat, at: nat, k: nat)
    requires Live(su, s, bins) && k < |s.features|
    ensures bins + FreeCount(SenderFeatureSlots(su, s, bins, at, k)) == WordsPerFilter(su, |s.keys|, bins)
  {
    HintReady(su, s, bins);
    HintsOccupied(su, s, bins);
    FreeAndOccupied(SenderFeatureSlots(su, s, bins, at, k), HintTable(su, s, bins).occupied);
  }

  lemma AddsUp(at: nat, bins: nat, free: nat, each: int, next: nat)
    requires next == at + bins + free && bins + free == each
    ensures next == at + each
  {
  }

  lemma FirstFilter(su: Setup, s: Party, bins: nat)
    requires Live(su, s, bins)
    ensures FeatureAt(su, s, bins, 0) == s.used + WordsPerFilter(su, |s.keys|, bins)
  {
    var free, each := FreeCount(SenderMemberSlots(su, s, bins)), WordsPerFilter(su, |s.keys|, bins);
    MemberSlotsFree(su, s, bins);
    AddsUp(s.used, bins, free, each, FeatureAt(su, s, bins, 0));
  }

  lemma NextFilter(su: Setup, s: Party, bins: nat, k: nat)
    requires Live(su, s, bins) && k < |s.features|
    ensures FeatureAt(su, s, bins, k + 1) == FeatureAt(su, s, bins, k) + WordsPerFilter(su, |s.keys|, bins)
  {
    var at, each := FeatureAt(su, s, bins, k), WordsPerFilter(su, |s.keys|, bins);
    FeatureSlotsFree(su, s, bins, at, k);
    AddsUp(at, bins, FreeCount(SenderFeatureSlots(su, s, bins, at, k)), each, FeatureAt(su, s, bins, k + 1));
  }

  lemma {:induction false} MovesAdd(ats: seq<nat>, used: nat, each: int, k: nat)
    requires k < |ats| && ats[0] == used + each && forall i :: 0 <= i < |ats| - 1 ==> ats[i + 1] == ats[i] + each
    ensures ats[k] == Moved(used, k + 1, each)
  {
    if k > 0 {
      MovesAdd(ats, used, each, k - 1);
    }
  }

  ghost function FeaturePlaces(su: Setup, s: Party, bins: nat): (r: seq<nat>)
    requires Live(su, s, bins)
    ensures |r| == |s.features| + 1 && forall k :: 0 <= k < |r| ==> r[k] == FeatureAt(su, s, bins, k)
  {
    seq(|s.features| + 1, k requires 0 <= k <= |s.features| => FeatureAt(su, s, bins, k))
  }

  lemma PlacesAdvance(su: Setup, s: Party, bins: nat, each: int)
    requires Live(su, s, bins) && each == WordsPerFilter(su, |s.keys|, bins)
    ensures FeaturePlaces(su, s, bins)[0] == s.used + each
    ensures forall k :: 0 <= k < |s.features| ==>
      FeaturePlaces(su, s, bins)[k + 1] == FeaturePlaces(su, s, bins)[k] + each
  {
    FirstFilter(su, s, bins);
    forall k | 0 <= k < |s.features|
      ensures FeaturePlaces(su, s, bins)[k + 1] == FeaturePlaces(su, s, bins)[k] + each
    {
      NextFilter(su, s, bins, k);
    }
  }

  /** Every filter takes equally many words from the sender's own generator, and no word is taken twice. */
  lemma WordsTaken(su: Setup, s: Party, bins: nat, k: nat)
    requires Live(su, s, bins) && k <= |s.features|
    ensures FeatureAt(su, s, bins, k) == Moved(s.used, k + 1, WordsPerFilter(su, |s.keys|, bins))
  {
    PlacesAdvance(su, s, bins, WordsPerFilter(su, |s.keys|, bins));
    MovesAdd(FeaturePlaces(su, s, bins), s.used, WordsPerFilter(su, |s.keys|, bins), k);
  }

  ghost function MemberFilter(su: Setup, s: Party, bins: nat): seq<Word>
    requires Live(su, s, bins)
  {
    Fill(SenderMemberSlots(su, s, bins), s.own, s.used + bins)
  }

  /** The filter of feature `k` when the sender's generator stands at `at`: contents first, then free slots. */
  ghost function FilterFrom(su: Setup, s: Party, bins: nat, at: nat, k: nat): seq<Word>
    requires Live(su, s, bins) && k < |s.features|
  {
    Fill(SenderFeatureSlots(su, s, bins, at, k), s.own, at + bins)
  }

  ghost function FeatureFilter(su: Setup, s: Party, bins: nat, k: nat): seq<Word>
    requires Live(su, s, bins) && k < |s.features|
  {
    FilterFrom(su, s, bins, FeatureAt(su, s, bins, k), k)
  }

  ghost function FeatureFilters(su: Setup, s: Party, bins: nat): (r: seq<seq<Word>>)
    requires Live(su, s, bins)
    ensures |r| == |s.features| && forall k :: 0 <= k < |r| ==> r[k] == FeatureFilter(su, s, bins, k)
  {
    seq(|s.features|, k requires 0 <= k < |s.features| => FeatureFilter(su, s, bins, k))
  }

  /** One word for each bin, repeated for every hint function. */
  ghost function Repeated(column: seq<Word>, width: nat): (m: Matrix)
    ensures Shaped(m, |column|, width)
    ensures forall i, j :: 0 <= i < |column| && 0 <= j < width ==> m[i][j] == column[i]
  {
    seq(|column|, i requires 0 <= i < |column| => seq<Word>(width, _ => column[i]))
  }

  ghost function Lows(m: Matrix): (r: Matrix)
    ensures |r| == |m| && forall i :: 0 <= i < |m| ==>
      |r[i]| == |m[i]| && forall j :: 0 <= j < |m[i]| ==> r[i][j] == Low(m[i][j])
  {
    seq(|m|, i requires 0 <= i < |m| => seq<Word>(|m[i]|, j requires 0 <= j < |m[i]| => Low(m[i][j])))
  }

  ghost function FeatureContents(su: Setup, s: Party, bins: nat): (r: seq<Matrix>)
    requires Live(su, s, bins)
    ensures |r| == |s.features|
    ensures forall k :: 0 <= k < |r| ==> r[k] == Repeated(Draws(s.own, FeatureAt(su, s, bins, k), bins), su.hintFuns)
  {
    seq(|s.features|, k requires 0 <= k < |s.features| =>
      Repeated(Draws(s.own, FeatureAt(su, s, bins, k), bins), su.hintFuns))
  }

  /** The words of one filter, in the order in which they are taken: a content for each bin, then the free
      slots from left to right. Membership takes the first run of words, and feature `k` run number `k + 1`. */
  lemma WordOrder(su: Setup, s: Party, bins: nat, i: nat, k: nat)
    requires Live(su, s, bins) && i < bins && k < |s.features|
    ensures Contents(s, bins)[i] == s.own(s.used + i)
    ensures |FeatureContents(su, s, bins)| == |s.features| && |FeatureContents(su, s, bins)[k]| == bins
    ensures Moved(s.used, k + 1, WordsPerFilter(su, |s.keys|, bins)) >= 0
    ensures forall j :: 0 <= j < |FeatureContents(su, s, bins)[k][i]| ==>
      FeatureContents(su, s, bins)[k][i][j] == s.own(Moved(s.used, k + 1, WordsPerFilter(su, |s.keys|, bins)) + i)
  {
    WordsTaken(su, s, bins, k);
  }

  lemma FreeMemberSlot(su: Setup, s: Party, bins: nat, slot: nat)
    requires Live(su, s, bins)
    requires slot < |HintTable(su, s, bins).occupied| && !HintTable(su, s, bins).occupied[slot]
    ensures slot < |MemberFilter(su, s, bins)|
    ensures MemberFilter(su, s, bins)[slot]
      == s.own(s.used + bins + slot - CountTrue(HintTable(su, s, bins).occupied[..slot]))
  {
    HintReady(su, s, bins);
    FreeSlotTakes(SenderMemberSlots(su, s, bins), HintTable(su, s, bins).occupied, s.own, s.used + bins, slot);
  }

  lemma FreeFeatureSlot(su: Setup, s: Party, bins: nat, at: nat, k: nat, slot: nat)
    requires Live(su, s, bins) && k < |s.features|
    requires slot < |HintTable(su, s, bins).occupied| && !HintTable(su, s, bins).occupied[slot]
    ensures slot < |FilterFrom(su, s, bins, at, k)|
    ensures FilterFrom(su, s, bins, at, k)[slot]
      == s.own(at + bins + slot - CountTrue(HintTable(su, s, bins).occupied[..slot]))
  {
    HintReady(su, s, bins);
    FreeSlotTakes(SenderFeatureSlots(su, s, bins, at, k), HintTable(su, s, bins).occupied, s.own, at + bins, slot);
  }

  /** In particular the free slots of the filter that is sent follow the contents of their feature. */
  lemma FilterStands(su: Setup, s: Party, bins: nat, k: nat)
    requires Live(su, s, bins) && k < |s.features|
    ensures Moved(s.used, k + 1, WordsPerFilter(su, |s.keys|, bins)) >= 0
    ensures FeatureFilters(su, s, bins)[k]
      == FilterFrom(su, s, bins, Moved(s.used, k + 1, WordsPerFilter(su, |s.keys|, bins)), k)
  {
    WordsTaken(su, s, bins, k);
  }

  ghost function SenderRole(su: Setup, s: Party): Program
  {
    Recv(OnReceiverSize(su, s))
  }

  ghost function OnReceiverSize(su: Setup, s: Party): Msg -> Program
  {
    (m: Msg) => if m.Size? then Recv(OnReceiverWidth(su, s, Bins(m.n, su.epsilon))) else Ret(Broken)
  }

  ghost function OnReceiverWidth(su: Setup, s: Party, bins: nat): Msg -> Program
  {
    (m: Msg) =>
      if m.Size? then Send(Size(|s.keys|), Send(Size(|s.features|), SenderHashes(su, s, bins, m.n))) else Ret(Broken)
  }

  ghost function SenderHashes(su: Setup, s: Party, bins: nat, fr: nat): Program
  {
    if bins == 0 || HintBins(su, |s.keys|, bins) == 0 then Ret(NoBins) else Recv(OnStash(su, DrawTable(s), bins, fr))
  }

  ghost function OnStash(su: Setup, s: Party, bins: nat, fr: nat): Msg -> Program
  {
    (m: Msg) =>
      if !m.Size? then Ret(Broken)
      else if m.n > 0 then Ret(Aborted(s.common))
      else Call(OprfSender(bins), OnSent(su, s, bins, fr))
  }

  ghost function OnSent(su: Setup, s: Party, bins: nat, fr: nat): Output -> Program
  {
    (y: Output) => SenderHints(su, DrawHint(s), bins, fr)
  }

  ghost function SenderHints(su: Setup, s: Party, bins: nat, fr: nat): Program
  {
    Send(Size(HintTable(su, s, bins).stash), SenderFilters(su, s, bins, fr))
  }

  ghost function SenderFilters(su: Setup, s: Party, bins: nat, fr: nat): Program
  {
    if HintTable(su, s, bins).stash > 0 then Ret(HintAborted(s.common))
    else if !Live(su, s, bins) then Ret(Broken)
    else SendAll([MemberFilter(su, s, bins)] + FeatureFilters(su, s, bins), SenderCompare(su, s, bins, fr))
  }

  ghost function SenderCompare(su: Setup, s: Party, bins: nat, fr: nat): Program
    requires Live(su, s, bins)
  {
    Call(EqualIn(Lows(Repeated(Contents(s, bins), su.hintFuns)), Repeated(ZeroColumn(bins), su.hintFuns)),
      OnCompared(FeatureContents(su, s, bins), SenderDone(su, s, bins, fr)))
  }

  ghost function ZeroColumn(bins: nat): (r: seq<Word>)
    ensures |r| == bins && forall i :: 0 <= i < bins ==> r[i] == 0
  {
    seq<Word>(bins, _ => 0)
  }

  ghost function SenderDone(su: Setup, s: Party, bins: nat, fr: nat): Finish
    requires Live(su, s, bins)
  {
    bits => SenderCollect(su, s, bins, fr, bits)
  }

  ghost function SenderCollect(su: Setup, s: Party, bins: nat, fr: nat, bits: Matrix): CollectMatrices
    requires Live(su, s, bins)
  {
    shares => SenderFinish(su, s, bins, fr, bits, shares)
  }

  ghost function SenderFinish(su: Setup, s: Party, bins: nat, fr: nat, bits: Matrix, shares: seq<Matrix>): Program
    requires Live(su, s, bins)
  {
    Ret(Done(Columns(bits, shares, Zeros(fr, bins)), s.common, FeatureAt(su, s, bins, |s.features|)))
  }

  // ---- the receiver ----

  function ReceiverTable(su: Setup, r: Party, bins: nat): CuckooTable {
    su.lib.cuckoo(r.tableSeed, bins, su.funs, HashAll(su.hash, r.keys))
  }

  /** The library keeps its contract for the list that the receiver inserts. */
  ghost predicate ReceiverKept(su: Setup, r: Party, bins: nat) {
    LibOk(su.lib) && CuckooOk(su.lib, r.tableSeed, bins, su.funs, HashAll(su.hash, r.keys))
  }

  /** The receiver gets past the first stash check. */
  ghost predicate AllPlaced(su: Setup, r: Party, bins: nat) {
    bins > 0 && ReceiverKept(su, r, bins) && ReceiverTable(su, r, bins).stash == 0
  }

  /** The receiver's features by item, first insertion kept. */
  function OwnFeatures(xs: seq<Item>, features: seq<seq<Word>>, n: nat): map<Item, seq<Word>>
    requires n <= |xs| && forall k :: 0 <= k < |features| ==> |features[k]| == |xs|
  {
    if n == 0 then map[] else Emplaced(OwnFeatures(xs, features, n - 1), xs[n - 1], Row(features, n - 1))
  }

  function ReceiverFeatures(su: Setup, r: Party): map<Item, seq<Word>> {
    OwnFeatures(HashAll(su.hash, r.keys), r.features, |r.keys|)
  }

  lemma {:induction false} OwnFeaturesHave(xs: seq<Item>, features: seq<seq<Word>>, n: nat, p: nat)
    requires Rectangular(features, |xs|) && p < n <= |xs|
    ensures var m := OwnFeatures(xs, features, n);
      xs[p] in m && exists q :: 0 <= q < n && xs[q] == xs[p] && m[xs[p]] == Row(features, q)
  {
    if p < n - 1 {
      OwnFeaturesHave(xs, features, n - 1, p);
    } else if xs[p] in OwnFeatures(xs, features, n - 1) {
      OwnFeaturesFrom(xs, features, n - 1, xs[p]);
    }
  }

  lemma {:induction false} OwnFeaturesFrom(xs: seq<Item>, features: seq<seq<Word>>, n: nat, x: Item)
    requires Rectangular(features, |xs|) && n <= |xs| && x in OwnFeatures(xs, features, n)
    ensures exists q :: 0 <= q < n && xs[q] == x && OwnFeatures(xs, features, n)[x] == Row(features, q)
  {
    if x in OwnFeatures(xs, features, n - 1) {
      OwnFeaturesFrom(xs, features, n - 1, x);
    }
  }

  /** Among keys of one hash the first gives its features. */
  lemma {:induction false} OwnFeaturesFirst(xs: seq<Item>, features: seq<seq<Word>>, n: nat, p: nat)
    requires Rectangular(features, |xs|) && p < n <= |xs| && forall q :: 0 <= q < p ==> xs[q] != xs[p]
    ensures xs[p] in OwnFeatures(xs, features, n) && OwnFeatures(xs, features, n)[xs[p]] == Row(features, p)
  {
    if p < n - 1 {
      OwnFeaturesFirst(xs, features, n - 1, p);
    } else if xs[p] in OwnFeatures(xs, features, n - 1) {
      OwnFeaturesFrom(xs, features, n - 1, xs[p]);
    }
  }

  lemma ReceiverKnown(su: Setup, r: Party, bins: nat)
    requires AllPlaced(su, r, bins)
    ensures var t := ReceiverTable(su, r, bins);
      |t.occupied| == |t.values| == bins && FeaturesKnown(t, ReceiverFeatures(su, r), |r.features|)
  {
    var t, xs := ReceiverTable(su, r, bins), HashAll(su.hash, r.keys);
    assert CuckooOk(su.lib, r.tableSeed, bins, su.funs, xs);
    forall b | 0 <= b < |t.occupied| && t.occupied[b]
      ensures t.sources[b] in ReceiverFeatures(su, r) && |ReceiverFeatures(su, r)[t.sources[b]]| == |r.features|
    {
      OwnFeaturesHave(xs, r.features, |xs|, t.ids[b]);
    }
  }

  /** The addresses of each bin's value under all hint functions. */
  function Addresses(su: Setup, seed: Block, hintBins: nat, values: seq<Item>): (r: seq<seq<nat>>)
    ensures |r| == |values| && AllWidth(r, su.hintFuns)
    ensures forall i, j :: 0 <= i < |r| && 0 <= j < su.hintFuns ==>
      r[i][j] == su.lib.address(seed, j, values[i], hintBins)
  {
    seq(|values|, i requires 0 <= i < |values| =>
      seq<nat>(su.hintFuns, j requires 0 <= j < su.hintFuns => su.lib.address(seed, j, values[i], hintBins)))
  }

  lemma AddressesFit(su: Setup, seed: Block, hintBins: nat, values: seq<Item>, filter: seq<Word>)
    requires LibOk(su.lib) && hintBins > 0 && |filter| == hintBins
    ensures InFilter(filter, Addresses(su, seed, hintBins, values), su.hintFuns)
  {
    forall i, j | 0 <= i < |values| && 0 <= j < su.hintFuns
      ensures Addresses(su, seed, hintBins, values)[i][j] < |filter|
    {
      assert AddressOk(su.lib, seed, j, values[i], hintBins);
    }
  }

  ghost function TweakedAll(masks: seq<Block>, k: nat): (r: seq<Block>)
    ensures |r| == |masks| && forall i :: 0 <= i < |r| ==> r[i] == Tweaked(masks[i], k)
  {
    seq<Block>(|masks|, i requires 0 <= i < |masks| => Tweaked(masks[i], k))
  }

  /** What the receiver reads off one filter. */
  ghost function Read(su: Setup, r: Party, hintBins: nat, values: seq<Item>, filter: seq<Word>,
      seeds: seq<Block>): (m: Matrix)
    requires LibOk(su.lib) && hintBins > 0 && |filter| == hintBins && |seeds| == |values|
    ensures Shaped(m, |values|, su.hintFuns)
    ensures forall i, j :: 0 <= i < |values| && 0 <= j < su.hintFuns ==>
      var a := su.lib.address(r.hintSeed, j, values[i], hintBins);
      a < |filter| && m[i][j] == Xor(filter[a], su.pads(seeds[i], j))
  {
    var addresses := Addresses(su, r.hintSeed, hintBins, values);
    AddressesFit(su, r.hintSeed, hintBins, values, filter);
    var m := Decoded(su.pads, filter, addresses, su.hintFuns, seeds);
    assert forall i :: 0 <= i < |m| ==> |m[i]| == su.hintFuns;
    m
  }

  ghost function ReceiverRole(su: Setup, r: Party): Program
  {
    Send(Size(|r.keys|), Send(Size(|r.features|), Recv(OnSenderSize(su, r))))
  }

  ghost function OnSenderSize(su: Setup, r: Party): Msg -> Program
  {
    (m: Msg) => if m.Size? then Recv(OnSenderWidth(su, r, m.n)) else Ret(Broken)
  }

  ghost function OnSenderWidth(su: Setup, r: Party, ns: nat): Msg -> Program
  {
    (m: Msg) => if m.Size? then ReceiverHashes(su, r, Bins(|r.keys|, su.epsilon), ns, m.n) else Ret(Broken)
  }

  ghost function ReceiverHashes(su: Setup, r: Party, bins: nat, ns: nat, fs: nat): Program
  {
    var hintBins := HintBins(su, ns, bins);
    if bins == 0 || hintBins == 0 then Ret(NoBins) else ReceiverTables(su, DrawTable(r), bins, hintBins, fs)
  }

  ghost function ReceiverTables(su: Setup, r: Party, bins: nat, hintBins: nat, fs: nat): Program
    requires hintBins > 0
  {
    Send(Size(ReceiverTable(su, r, bins).stash), ReceiverOprf(su, r, bins, hintBins, fs))
  }

  ghost function ReceiverOprf(su: Setup, r: Party, bins: nat, hintBins: nat, fs: nat): Program
    requires hintBins > 0
  {
    var t := ReceiverTable(su, r, bins);
    if t.stash > 0 then Ret(Aborted(r.common))
    else if !AllPlaced(su, r, bins) then Ret(Broken)
    else Call(OprfReceiver(t.values), OnMasks(su, r, bins, hintBins, fs))
  }

  ghost function OnMasks(su: Setup, r: Party, bins: nat, hintBins: nat, fs: nat): Output -> Program
    requires AllPlaced(su, r, bins) && hintBins > 0
  {
    (y: Output) =>
      if y.OprfMasks? && |y.masks| == bins then Recv(OnHintStash(su, r, bins, hintBins, fs, y.masks)) else Ret(Broken)
  }

  /** On a hint stash the receiver stops before its second draw, which follows the filters. */
  ghost function OnHintStash(su: Setup, r: Party, bins: nat, hintBins: nat, fs: nat, masks: seq<Block>): Msg -> Program
    requires AllPlaced(su, r, bins) && hintBins > 0 && |masks| == bins
  {
    (m: Msg) =>
      if !m.Size? then Ret(Broken)
      else if m.n > 0 then Ret(HintAborted(r.common))
      else ReceiveAll(1 + fs, hintBins, [], OnFilters(su, r, bins, hintBins, masks))
  }

  ghost function OnFilters(su: Setup, r: Party, bins: nat, hintBins: nat, masks: seq<Block>): Collect
    requires AllPlaced(su, r, bins) && hintBins > 0 && |masks| == bins
  {
    filters => ReceiverCompare(su, DrawHint(r), bins, hintBins, masks, filters)
  }

  ghost function ReceiverCompare(
      su: Setup, r: Party, bins: nat, hintBins: nat, masks: seq<Block>, filters: seq<seq<Word>>): Program
    requires AllPlaced(su, r, bins) && hintBins > 0 && |masks| == bins
  {
    if filters == [] || !AllWidth(filters, hintBins) then Ret(Broken)
    else
      ReceiverKnown(su, r, bins);
      var read := Read(su, r, hintBins, ReceiverTable(su, r, bins).values, filters[0], masks);
      Call(EqualIn(Repeated(ZeroColumn(bins), su.hintFuns), Lows(read)),
        OnCompared(FeatureReads(su, r, bins, hintBins, masks, filters[1..]), ReceiverDone(su, r, bins)))
  }

  ghost function FeatureReads(su: Setup, r: Party, bins: nat, hintBins: nat, masks: seq<Block>,
      filters: seq<seq<Word>>): (m: seq<Matrix>)
    requires AllPlaced(su, r, bins) && hintBins > 0 && |masks| == bins && AllWidth(filters, hintBins)
    ensures |m| == |filters| && AllShaped(m, bins, su.hintFuns)
    ensures |ReceiverTable(su, r, bins).values| == bins
    ensures forall k :: 0 <= k < |m| ==>
      m[k] == Read(su, r, hintBins, ReceiverTable(su, r, bins).values, filters[k], TweakedAll(masks, k))
  {
    ReceiverKnown(su, r, bins);
    seq(|filters|, k requires 0 <= k < |filters| =>
      Read(su, r, hintBins, ReceiverTable(su, r, bins).values, filters[k], TweakedAll(masks, k)))
  }

  ghost function ReceiverDone(su: Setup, r: Party, bins: nat): Finish
    requires AllPlaced(su, r, bins)
  {
    bits => ReceiverCollect(su, r, bins, bits)
  }

  ghost function ReceiverCollect(su: Setup, r: Party, bins: nat, bits: Matrix): CollectMatrices
    requires AllPlaced(su, r, bins)
  {
    shares => ReceiverFinish(su, r, bins, bits, shares)
  }

  ghost function OwnShare(su: Setup, r: Party, bins: nat): seq<seq<Word>>
    requires AllPlaced(su, r, bins)
  {
    ReceiverKnown(su, r, bins);
    OwnColumns(ReceiverTable(su, r, bins), ReceiverFeatures(su, r), |r.features|)
  }

  ghost function ReceiverFinish(su: Setup, r: Party, bins: nat, bits: Matrix, shares: seq<Matrix>): Program
    requires AllPlaced(su, r, bins)
  {
    Ret(Done(Columns(bits, shares, OwnShare(su, r, bins)), r.common, r.used))
  }
}
