/**
 What a completed Circuit-PSI run means: hint decoding, the shares of every bin, and the totals over
 all bins (src/setops/pjc/circuit_psi.cpp, test/pjc/circuit_psi_test.cpp).
 */
module CircuitJoin {
  import opened Sequences
  import opened Hashing
  import opened Words
  import opened CircuitTables
  import opened CircuitHints
  import opened CircuitShares
  import opened CircuitProtocol
  import opened CircuitRun

  /** Both parties hash with the same seeds. */
  ghost predicate SameSeeds(s: Party, r: Party) {
    s.tableSeed == r.tableSeed && s.hintSeed == r.hintSeed
  }

  ghost predicate SenderTagsDiffer(su: Setup, s: Party) {
    NoTagClash(HashAll(su.hash, s.keys), su.funs)
  }

  // ---- hint decoding ----

  /** The hint table holds `value` under hint function `j`. */
  ghost predicate IsHint(ht: CuckooTable, value: Item, j: nat) {
    exists slot :: 0 <= slot < |ht.occupied| && slot < |ht.sources| && slot < |ht.fids|
      && ht.occupied[slot] && ht.sources[slot] == value && ht.fids[slot] == j
  }

  lemma TableFacts(su: Setup, s: Party, bins: nat)
    requires Live(su, s, bins) && SenderTagsDiffer(su, s)
    ensures |SenderTable(su, s, bins)| == bins && Distinct(FilterInputs(SenderTable(su, s, bins)))
  {
    assert SimpleOk(su.lib, s.tableSeed, bins, su.funs, HashAll(su.hash, s.keys));
    FilterInputsDistinct(su.lib, s.tableSeed, bins, su.funs, HashAll(su.hash, s.keys));
  }

  /** With an empty hint stash every filter input occupies exactly one slot: the slot at the address
      that its recorded function gives. */
  lemma OneSlotEach(su: Setup, s: Party, bins: nat, value: Item) returns (slot: nat)
    requires Live(su, s, bins) && SenderTagsDiffer(su, s) && value in FilterInputs(SenderTable(su, s, bins))
    ensures var ht := HintTable(su, s, bins);
      |ht.occupied| == |ht.sources| == |ht.fids| == HintBins(su, |s.keys|, bins)
      && slot < |ht.occupied| && ht.occupied[slot] && ht.sources[slot] == value && ht.fids[slot] < su.hintFuns
      && su.lib.address(s.hintSeed, ht.fids[slot], value, HintBins(su, |s.keys|, bins)) == slot
      && forall other ::
        0 <= other < |ht.occupied| && ht.occupied[other] && ht.sources[other] == value ==> other == slot
  {
    var hb, inputs := HintBins(su, |s.keys|, bins), FilterInputs(SenderTable(su, s, bins));
    TableFacts(su, s, bins);
    assert CuckooOk(su.lib, s.hintSeed, hb, su.hintFuns, inputs);
    var id :| 0 <= id < |inputs| && inputs[id] == value;
    slot := SlotOf(su.lib, s.hintSeed, hb, su.hintFuns, inputs, id);
  }

  lemma InputInBin(table: seq<seq<Entry>>, i: nat, value: Item)
    requires i < |table| && HoldsValue(table[i], value)
    ensures value in FilterInputs(table)
    ensures Distinct(FilterInputs(table)) ==>
      value in Locations(table) && Locations(table)[value].bin == i && Stands(table, Locations(table)[value], value)
  {
    var j :| 0 <= j < |table[i]| && table[i][j].value == value;
    WalkAt(table, i, j);
    assert FilterInputs(table)[Offset(table, i) + j] == value;
    if Distinct(FilterInputs(table)) {
      LocationsBijective(table, Loc(i, j));
    }
  }

  /** The slot of an entry of bin `i` is padded from that entry's own mask under its recorded function. */
  lemma SlotPadded(su: Setup, s: Party, bins: nat, i: nat, value: Item, slot: nat)
    requires Live(su, s, bins) && SenderTagsDiffer(su, s) && i < bins
    requires |SenderTable(su, s, bins)| == bins && HoldsValue(SenderTable(su, s, bins)[i], value)
    requires var ht := HintTable(su, s, bins);
      slot < |ht.occupied| && slot < |ht.sources| && ht.occupied[slot] && ht.sources[slot] == value
    ensures var ht, filter := HintTable(su, s, bins), MemberFilter(su, s, bins);
      slot < |filter| && slot < |ht.fids|
      && filter[slot] == Xor(Contents(s, bins)[i], su.pads(su.oprf(i, value), ht.fids[slot]))
  {
    HintReady(su, s, bins);
    TableFacts(su, s, bins);
    InputInBin(SenderTable(su, s, bins), i, value);
  }

  /** The same for feature `k`, whose slots hold the feature less the random content. */
  lemma FeatureSlotPadded(su: Setup, s: Party, bins: nat, i: nat, value: Item, slot: nat, k: nat)
    requires Live(su, s, bins) && SenderTagsDiffer(su, s) && i < bins && k < |s.features|
    requires |SenderTable(su, s, bins)| == bins && HoldsValue(SenderTable(su, s, bins)[i], value)
    requires var ht := HintTable(su, s, bins);
      slot < |ht.occupied| && slot < |ht.sources| && ht.occupied[slot] && ht.sources[slot] == value
    ensures value in SenderFeatures(su, s) && k < |SenderFeatures(su, s)[value]|
    ensures var ht, filter := HintTable(su, s, bins), FeatureFilter(su, s, bins, k);
      slot < |filter| && slot < |ht.fids|
      && filter[slot] == Xor(Sub(SenderFeatures(su, s)[value][k], FeatureRandom(su, s, bins, k, i)),
           su.pads(Tweaked(su.oprf(i, value), k), ht.fids[slot]))
  {
    HintReady(su, s, bins);
    TableFacts(su, s, bins);
    InputInBin(SenderTable(su, s, bins), i, value);
  }

  /** The random content of bin `i` for feature `k`. */
  ghost function FeatureRandom(su: Setup, s: Party, bins: nat, k: nat, i: nat): Word
    requires Live(su, s, bins) && k < |s.features| && i < bins
  {
    Draws(s.own, FeatureAt(su, s, bins, k), bins)[i]
  }

  /** The receiver's value of bin `i` stands in that bin of the sender's table. */
  ghost predicate Held(su: Setup, s: Party, r: Party, i: nat)
    requires BothLive(su, s, r) && i < BinCount(su, r)
  {
    var bins := BinCount(su, r);
    SizesAgree(su, s, r);
    HoldsValue(SenderTable(su, s, bins)[i], ReceiverTable(su, r, bins).values[i])
  }

  lemma SizesAgree(su: Setup, s: Party, r: Party)
    requires BothLive(su, s, r)
    ensures |ReceiverTable(su, r, BinCount(su, r)).values| == |SenderTable(su, s, BinCount(su, r))| == BinCount(su, r)
  {
    ReceiverKnown(su, r, BinCount(su, r));
    HintReady(su, s, BinCount(su, r));
  }

  /** The slot that bin `i`'s value has in the hint table. */
  ghost predicate SlotFor(su: Setup, s: Party, r: Party, i: nat, slot: nat)
    requires BothLive(su, s, r) && i < BinCount(su, r)
  {
    SizesAgree(su, s, r);
    var bins := BinCount(su, r);
    var ht, value := HintTable(su, s, bins), ReceiverTable(su, r, bins).values[i];
    && |ht.occupied| == |ht.sources| == |ht.fids|
    && slot < |ht.occupied| && ht.occupied[slot] && ht.sources[slot] == value && ht.fids[slot] < su.hintFuns
    && su.lib.address(s.hintSeed, ht.fids[slot], value, HintBins(su, |s.keys|, bins)) == slot
  }

  lemma MemberDecodes(su: Setup, s: Party, r: Party, i: nat, slot: nat)
    requires BothLive(su, s, r) && SameSeeds(s, r) && SenderTagsDiffer(su, s) && i < BinCount(su, r)
    requires Held(su, s, r, i) && SlotFor(su, s, r, i, slot)
    ensures MemberRead(su, s, r)[i][HintTable(su, s, BinCount(su, r)).fids[slot]] == Contents(s, BinCount(su, r))[i]
  {
    var bins := BinCount(su, r);
    SizesAgree(su, s, r);
    var value, j := ReceiverTable(su, r, bins).values[i], HintTable(su, s, bins).fids[slot];
    SlotPadded(su, s, bins, i, value, slot);
    assert ReceiverMasks(su, r)[i] == su.oprf(i, value);
    XorCancels(Contents(s, bins)[i], su.pads(su.oprf(i, value), j));
  }

  /** At hint function `j` the receiver reads the feature of bin `i`'s key, less the random content. */
  ghost predicate FeatureReadAt(su: Setup, s: Party, r: Party, i: nat, j: nat, k: nat)
    requires BothLive(su, s, r) && i < BinCount(su, r) && j < su.hintFuns && k < |s.features|
  {
    SizesAgree(su, s, r);
    var bins := BinCount(su, r);
    var value := ReceiverTable(su, r, bins).values[i];
    && value in SenderFeatures(su, s) && k < |SenderFeatures(su, s)[value]|
    && FeatureRead(su, s, r)[k][i][j] == Sub(SenderFeatures(su, s)[value][k], FeatureRandom(su, s, bins, k, i))
  }

  lemma FeatureDecodes(su: Setup, s: Party, r: Party, i: nat, slot: nat, k: nat)
    requires BothLive(su, s, r) && SameSeeds(s, r) && SenderTagsDiffer(su, s) && i < BinCount(su, r)
    requires Held(su, s, r, i) && SlotFor(su, s, r, i, slot) && k < |s.features|
    ensures FeatureReadAt(su, s, r, i, HintTable(su, s, BinCount(su, r)).fids[slot], k)
  {
    var bins := BinCount(su, r);
    SizesAgree(su, s, r);
    var value, j := ReceiverTable(su, r, bins).values[i], HintTable(su, s, bins).fids[slot];
    FeatureSlotPadded(su, s, bins, i, value, slot, k);
    assert ReceiverMasks(su, r)[i] == su.oprf(i, value);
    XorCancels(Sub(SenderFeatures(su, s)[value][k], FeatureRandom(su, s, bins, k, i)),
      su.pads(Tweaked(su.oprf(i, value), k), j));
  }

  /** `j` is the one hint function recorded for bin `i`'s value. */
  ghost predicate IsHintOf(su: Setup, s: Party, r: Party, i: nat, j: nat)
    requires BothLive(su, s, r) && i < BinCount(su, r)
  {
    SizesAgree(su, s, r);
    var bins := BinCount(su, r);
    IsHint(HintTable(su, s, bins), ReceiverTable(su, r, bins).values[i], j)
  }

  lemma HintSlot(su: Setup, s: Party, r: Party, i: nat) returns (slot: nat)
    requires BothLive(su, s, r) && SenderTagsDiffer(su, s) && i < BinCount(su, r) && Held(su, s, r, i)
    ensures SlotFor(su, s, r, i, slot)
    ensures forall j :: IsHintOf(su, s, r, i, j) <==> j == HintTable(su, s, BinCount(su, r)).fids[slot]
  {
    var bins := BinCount(su, r);
    SizesAgree(su, s, r);
    var value := ReceiverTable(su, r, bins).values[i];
    InputInBin(SenderTable(su, s, bins), i, value);
    slot := OneSlotEach(su, s, bins, value);
    assert IsHint(HintTable(su, s, bins), value, HintTable(su, s, bins).fids[slot]);
  }

  /** Hint decoding: when the receiver's value of bin `i` is among the sender's entries of that bin,
      unmasking at the one hint function recorded for it gives exactly the bin's content, and for each
      feature the key's feature less the random content, for any generator and any OPRF. */
  lemma HintDecodes(su: Setup, s: Party, r: Party, i: nat) returns (j: nat)
    requires BothLive(su, s, r) && SameSeeds(s, r) && SenderTagsDiffer(su, s) && i < BinCount(su, r)
    requires Held(su, s, r, i)
    ensures j < su.hintFuns && forall j' :: IsHintOf(su, s, r, i, j') <==> j' == j
    ensures MemberRead(su, s, r)[i][j] == Contents(s, BinCount(su, r))[i]
    ensures forall k :: 0 <= k < |s.features| ==> FeatureReadAt(su, s, r, i, j, k)
  {
    var slot := HintSlot(su, s, r, i);
    j := HintTable(su, s, BinCount(su, r)).fids[slot];
    MemberDecodes(su, s, r, i, slot);
    forall k | 0 <= k < |s.features| ensures FeatureReadAt(su, s, r, i, j, k) {
      FeatureDecodes(su, s, r, i, slot, k);
    }
  }

  // ---- the shares of one bin ----

  /** Which hint positions of bin `i` compare equal in the bits that are compared. */
  ghost function Matches(su: Setup, s: Party, r: Party, i: nat): (m: seq<bool>)
    requires BothLive(su, s, r) && i < BinCount(su, r)
    ensures |m| == su.hintFuns
    ensures forall j :: 0 <= j < su.hintFuns ==>
      m[j] == (Low(MemberRead(su, s, r)[i][j]) == Low(Contents(s, BinCount(su, r))[i]))
  {
    seq(su.hintFuns, j requires 0 <= j < su.hintFuns =>
      Low(MemberRead(su, s, r)[i][j]) == Low(Contents(s, BinCount(su, r))[i]))
  }

  /** No hint position compares equal by accident: only the one recorded for a value that is held. */
  ghost predicate NoAccident(su: Setup, s: Party, r: Party)
    requires BothLive(su, s, r)
  {
    forall i, j :: 0 <= i < BinCount(su, r) && 0 <= j < su.hintFuns && Matches(su, s, r, i)[j] ==>
      Held(su, s, r, i) && IsHintOf(su, s, r, i, j)
  }

  /** Where bin `i` matches: at its hint function if its value is held, else nowhere. */
  lemma MatchPosition(su: Setup, s: Party, r: Party, i: nat) returns (at: nat)
    requires BothLive(su, s, r) && SameSeeds(s, r) && SenderTagsDiffer(su, s) && NoAccident(su, s, r)
    requires i < BinCount(su, r)
    ensures OnlyAt(Matches(su, s, r, i), at)
    ensures (at < su.hintFuns && Matches(su, s, r, i)[at]) <==> Held(su, s, r, i)
    ensures Held(su, s, r, i) ==>
      at < su.hintFuns && forall k :: 0 <= k < |s.features| ==> FeatureReadAt(su, s, r, i, at, k)
  {
    if Held(su, s, r, i) {
      at := HintDecodes(su, s, r, i);
    } else {
      at := su.hintFuns;
    }
  }

  lemma ComparedBits(su: Setup, s: Party, r: Party, ra: Matrix, rb: Matrix, oa: seq<Matrix>, ob: seq<Matrix>, i: nat)
    requires BothLive(su, s, r) && Hands(RunShared(su, s, r), ra, rb, oa, ob) && i < BinCount(su, r)
    ensures |ra| == |rb| == BinCount(su, r) && |ra[i]| == |rb[i]| == su.hintFuns
    ensures forall j :: 0 <= j < su.hintFuns ==> Xor(ra[i][j], rb[i][j]) == Bit(Matches(su, s, r, i)[j])
  {
  }

  /** The membership shares of a bin reconstruct whether its value is held. */
  lemma BinMembership(
      su: Setup, s: Party, r: Party, ra: Matrix, rb: Matrix, oa: seq<Matrix>, ob: seq<Matrix>, i: nat)
    requires BothLive(su, s, r) && SameSeeds(s, r) && SenderTagsDiffer(su, s) && NoAccident(su, s, r)
    requires Hands(RunShared(su, s, r), ra, rb, oa, ob) && i < BinCount(su, r)
    ensures |ra| == |rb| == BinCount(su, r)
    ensures Xor(XorTotal(ra[i]), XorTotal(rb[i])) == Bit(Held(su, s, r, i))
  {
    ComparedBits(su, s, r, ra, rb, oa, ob, i);
    var at := MatchPosition(su, s, r, i);
    MembershipReconstructs(ra[i], rb[i], Matches(su, s, r, i), at);
  }

  /** What the two parties put into the multiplexer, summed, at one hint position. */
  ghost function Opened(su: Setup, s: Party, r: Party, k: nat, i: nat): (v: seq<Word>)
    requires BothLive(su, s, r) && k < |s.features| && i < BinCount(su, r)
    ensures |v| == su.hintFuns
    ensures forall j :: 0 <= j < su.hintFuns ==>
      v[j] == Add(FeatureRandom(su, s, BinCount(su, r), k, i), FeatureRead(su, s, r)[k][i][j])
  {
    seq<Word>(su.hintFuns, j requires 0 <= j < su.hintFuns =>
      Add(FeatureRandom(su, s, BinCount(su, r), k, i), FeatureRead(su, s, r)[k][i][j]))
  }

  lemma MultiplexedShares(
      su: Setup, s: Party, r: Party, ra: Matrix, rb: Matrix, oa: seq<Matrix>, ob: seq<Matrix>, k: nat, i: nat)
    requires BothLive(su, s, r) && Hands(RunShared(su, s, r), ra, rb, oa, ob)
    requires i < BinCount(su, r) && k < |s.features|
    ensures |oa| == |ob| == |s.features| && |oa[k]| == |ob[k]| == BinCount(su, r)
    ensures |oa[k][i]| == |ob[k][i]| == su.hintFuns
    ensures forall j :: 0 <= j < su.hintFuns ==>
      Add(oa[k][i][j], ob[k][i][j]) == if Matches(su, s, r, i)[j] then Opened(su, s, r, k, i)[j] else 0
  {
    ComparedBits(su, s, r, ra, rb, oa, ob, i);
    var sh := RunShared(su, s, r);
    assert MuxShares(ra, sh.va[k], rb, sh.vb[k], oa[k], ob[k], sh.rows, sh.width);
    forall j | 0 <= j < su.hintFuns
      ensures Add(oa[k][i][j], ob[k][i][j]) == if Matches(su, s, r, i)[j] then Opened(su, s, r, k, i)[j] else 0
    {
      assert Xor(ra[i][j], rb[i][j]) == Bit(Matches(su, s, r, i)[j]);
      assert sh.va[k][i][j] == FeatureRandom(su, s, BinCount(su, r), k, i);
    }
  }

  /** The shares of a bin that matches at most at one position open what stands there. */
  lemma BinOpened(su: Setup, s: Party, r: Party, ra: Matrix, rb: Matrix, oa: seq<Matrix>, ob: seq<Matrix>, k: nat,
      i: nat, at: nat)
    requires BothLive(su, s, r) && Hands(RunShared(su, s, r), ra, rb, oa, ob)
    requires i < BinCount(su, r) && k < |s.features| && OnlyAt(Matches(su, s, r, i), at)
    ensures |oa| == |ob| == |s.features| && |oa[k]| == |ob[k]| == BinCount(su, r)
    ensures Add(Total(oa[k][i]), Total(ob[k][i]))
      == if at < su.hintFuns && Matches(su, s, r, i)[at] then Opened(su, s, r, k, i)[at] else 0
  {
    MultiplexedShares(su, s, r, ra, rb, oa, ob, k, i);
    FeatureReconstructs(oa[k][i], ob[k][i], Matches(su, s, r, i), at, Opened(su, s, r, k, i));
  }

  /** The feature shares of a bin reconstruct the feature of its value if that is held, else zero: the
      random content cancels through unmasking, multiplexing and summing over the hint functions. */
  lemma BinFeature(
      su: Setup, s: Party, r: Party, ra: Matrix, rb: Matrix, oa: seq<Matrix>, ob: seq<Matrix>, k: nat, i: nat)
    requires BothLive(su, s, r) && SameSeeds(s, r) && SenderTagsDiffer(su, s) && NoAccident(su, s, r)
    requires Hands(RunShared(su, s, r), ra, rb, oa, ob) && i < BinCount(su, r) && k < |s.features|
    ensures |oa| == |ob| == |s.features| && |oa[k]| == |ob[k]| == BinCount(su, r)
    ensures |ReceiverTable(su, r, BinCount(su, r)).values| == BinCount(su, r)
    ensures var value := ReceiverTable(su, r, BinCount(su, r)).values[i];
      Held(su, s, r, i) ==>
        value in SenderFeatures(su, s) && k < |SenderFeatures(su, s)[value]|
        && Add(Total(oa[k][i]), Total(ob[k][i])) == SenderFeatures(su, s)[value][k]
    ensures !Held(su, s, r, i) ==> Add(Total(oa[k][i]), Total(ob[k][i])) == 0
  {
    SizesAgree(su, s, r);
    var at := MatchPosition(su, s, r, i);
    BinOpened(su, s, r, ra, rb, oa, ob, k, i, at);
    if Held(su, s, r, i) {
      OpenedAt(su, s, r, i, at, k);
    }
  }

  /** What is opened at the recorded hint position is the feature: the random content cancels. */
  lemma OpenedAt(su: Setup, s: Party, r: Party, i: nat, at: nat, k: nat)
    requires BothLive(su, s, r) && i < BinCount(su, r) && at < su.hintFuns && k < |s.features|
    requires FeatureReadAt(su, s, r, i, at, k)
    ensures |ReceiverTable(su, r, BinCount(su, r)).values| == BinCount(su, r)
    ensures var value := ReceiverTable(su, r, BinCount(su, r)).values[i];
      value in SenderFeatures(su, s) && k < |SenderFeatures(su, s)[value]|
      && Opened(su, s, r, k, i)[at] == SenderFeatures(su, s)[value][k]
  {
    SizesAgree(su, s, r);
    var value := ReceiverTable(su, r, BinCount(su, r)).values[i];
    RandomCancels(SenderFeatures(su, s)[value][k], FeatureRandom(su, s, BinCount(su, r), k, i));
  }

  // ---- from bins to keys ----

  /** Keys in play whose tagged hashes coincide are the same key under the same function. */
  ghost predicate TagsSeparate(su: Setup, keys: seq<string>) {
    forall x, y, f, g ::
      (x in keys && y in keys && 0 <= f < su.funs && 0 <= g < su.funs
      && Tagged(su.hash(x), f) == Tagged(su.hash(y), g)) ==>
      x == y && f == g
  }

  /** Two hashes agree after byte 0 and differ there by two function ids. */
  ghost predicate HashesClash(x: Item, f: nat, y: Item, g: nat) {
    x[1..] == y[1..] && x[0] ^ y[0] == ByteOf(f) ^ ByteOf(g)
  }

  /** The condition on tags, read on the hashes of the keys. */
  ghost predicate HashesSeparate(su: Setup, keys: seq<string>) {
    forall x, y, f, g ::
      (x in keys && y in keys && 0 <= f < su.funs && 0 <= g < su.funs && HashesClash(su.hash(x), f, su.hash(y), g)) ==>
      x == y && f == g
  }

  lemma TagsMeetIff(x: Item, f: nat, y: Item, g: nat)
    ensures Tagged(x, f) == Tagged(y, g) <==> HashesClash(x, f, y, g)
  {
    MarkedEqualIff(x, ByteOf(f), y, ByteOf(g));
  }

  lemma TagsSeparateIff(su: Setup, keys: seq<string>)
    ensures TagsSeparate(su, keys) <==> HashesSeparate(su, keys)
  {
    forall x: string, y: string, f: nat, g: nat
      ensures Tagged(su.hash(x), f) == Tagged(su.hash(y), g) <==> HashesClash(su.hash(x), f, su.hash(y), g)
    {
      TagsMeetIff(su.hash(x), f, su.hash(y), g);
    }
  }

  /** Every single key keeps its tags apart if and only if the function ids fit into a byte. */
  lemma OneKeySeparateIff(su: Setup, key: string)
    ensures TagsSeparate(su, [key]) <==> su.funs <= 256
  {
    if su.funs <= 256 {
      forall f, g | 0 <= f < su.funs && 0 <= g < su.funs && Tagged(su.hash(key), f) == Tagged(su.hash(key), g)
        ensures f == g
      {
        OneItemTags(su.hash(key), f, g);
      }
    } else {
      OneItemTags(su.hash(key), 0, 256);
    }
  }

  /** What the library puts into an empty bin is no entry of the sender in that bin. */
  ghost predicate DummiesAbsent(su: Setup, s: Party, r: Party)
    requires BothLive(su, s, r)
  {
    forall i :: 0 <= i < BinCount(su, r) && Held(su, s, r, i) ==>
      i < |ReceiverTable(su, r, BinCount(su, r)).occupied| && ReceiverTable(su, r, BinCount(su, r)).occupied[i]
  }

  /** Duplicate-free keys on both sides, and the hypotheses that exclude accidents. */
  ghost predicate Clean(su: Setup, s: Party, r: Party)
    requires BothLive(su, s, r)
  {
    && Distinct(s.keys) && Distinct(r.keys)
    && TagsSeparate(su, s.keys + r.keys) && DummiesAbsent(su, s, r) && NoAccident(su, s, r)
  }

  ghost predicate Sound(su: Setup, s: Party, r: Party)
    requires BothLive(su, s, r)
  {
    SameSeeds(s, r) && Clean(su, s, r)
  }

  lemma SeparateMeansNoClash(su: Setup, s: Party, others: seq<string>)
    requires TagsSeparate(su, s.keys + others) && Distinct(s.keys)
    ensures SenderTagsDiffer(su, s)
  {
    var xs := HashAll(su.hash, s.keys);
    forall p, q, f, g |
      0 <= p < |xs| && 0 <= q < |xs| && 0 <= f < su.funs && 0 <= g < su.funs && Tagged(xs[p], f) == Tagged(xs[q], g)
      ensures p == q && f == g
    {
      assert s.keys[p] in s.keys + others && s.keys[q] in s.keys + others;
    }
  }

  /** The receiver's key in bin `i`, if there is one, is among the sender's keys. */
  ghost predicate Joined(su: Setup, s: Party, r: Party, i: nat)
    requires BothLive(su, s, r) && i < BinCount(su, r)
  {
    var t := ReceiverTable(su, r, BinCount(su, r));
    i < |t.occupied| && i < |t.ids| && t.occupied[i] && t.ids[i] < |r.keys| && r.keys[t.ids[i]] in s.keys
  }

  lemma Occupant(su: Setup, r: Party, i: nat)
    requires AllPlaced(su, r, BinCount(su, r)) && i < BinCount(su, r)
    ensures var t := ReceiverTable(su, r, BinCount(su, r));
      |t.occupied| == |t.ids| == |t.fids| == |t.values| == |t.sources| == BinCount(su, r)
      && (t.occupied[i] ==>
        t.ids[i] < |r.keys| && t.fids[i] < su.funs && t.sources[i] == su.hash(r.keys[t.ids[i]])
        && t.values[i] == Tagged(su.hash(r.keys[t.ids[i]]), t.fids[i])
        && su.lib.address(r.tableSeed, t.fids[i], su.hash(r.keys[t.ids[i]]), BinCount(su, r)) == i)
  {
    assert CuckooOk(su.lib, r.tableSeed, BinCount(su, r), su.funs, HashAll(su.hash, r.keys));
  }

  /** Completeness needs no hypothesis on tags: a common key is held in its bin. */
  lemma JoinedIsHeld(su: Setup, s: Party, r: Party, i: nat)
    requires BothLive(su, s, r) && SameSeeds(s, r) && i < BinCount(su, r) && Joined(su, s, r, i)
    ensures Held(su, s, r, i)
  {
    Occupant(su, r, i);
    var bins, t, xs := BinCount(su, r), ReceiverTable(su, r, BinCount(su, r)), HashAll(su.hash, s.keys);
    var q :| 0 <= q < |s.keys| && s.keys[q] == r.keys[t.ids[i]];
    assert SimpleOk(su.lib, s.tableSeed, bins, su.funs, xs);
    assert su.lib.address(s.tableSeed, t.fids[i], xs[q], bins) == i && t.values[i] == Tagged(xs[q], t.fids[i]);
    BinHolds(su.lib, s.tableSeed, bins, su.funs, xs, i, t.values[i]);
  }

  lemma HeldIsJoined(su: Setup, s: Party, r: Party, i: nat)
    requires BothLive(su, s, r) && Sound(su, s, r) && i < BinCount(su, r) && Held(su, s, r, i)
    ensures Joined(su, s, r, i)
  {
    Occupant(su, r, i);
    var bins, t, xs := BinCount(su, r), ReceiverTable(su, r, BinCount(su, r)), HashAll(su.hash, s.keys);
    assert SimpleOk(su.lib, s.tableSeed, bins, su.funs, xs);
    BinHolds(su.lib, s.tableSeed, bins, su.funs, xs, i, t.values[i]);
    var p, f :| 0 <= p < |xs| && 0 <= f < su.funs && t.values[i] == Tagged(xs[p], f);
    assert s.keys[p] in s.keys + r.keys && r.keys[t.ids[i]] in s.keys + r.keys;
  }

  /** The features found for a joined bin are those of the sender's own key. */
  lemma JoinedFeatures(su: Setup, s: Party, r: Party, i: nat, q: nat)
    requires BothLive(su, s, r) && Sound(su, s, r) && i < BinCount(su, r) && Joined(su, s, r, i)
    requires q < |s.keys| && s.keys[q] == r.keys[ReceiverTable(su, r, BinCount(su, r)).ids[i]]
    ensures |ReceiverTable(su, r, BinCount(su, r)).values| == BinCount(su, r)
    ensures var value := ReceiverTable(su, r, BinCount(su, r)).values[i];
      value in SenderFeatures(su, s) && SenderFeatures(su, s)[value] == Row(s.features, q)
  {
    Occupant(su, r, i);
    SeparateMeansNoClash(su, s, r.keys);
    var t, xs := ReceiverTable(su, r, BinCount(su, r)), HashAll(su.hash, s.keys);
    FeatureMapIsOwn(xs, s.features, su.funs, q, t.fids[i]);
  }

  /** The receiver's own columns hold the features of the key in each bin. */
  lemma OwnShareIsFeature(su: Setup, s: Party, r: Party, i: nat, k: nat)
    requires BothLive(su, s, r) && Sound(su, s, r) && i < BinCount(su, r) && k < |r.features|
    ensures var t, own := ReceiverTable(su, r, BinCount(su, r)), OwnShare(su, r, BinCount(su, r));
      i < |t.occupied| && i < |t.ids| && |own| == |r.features| && i < |own[k]| == BinCount(su, r)
      && (t.occupied[i] ==> t.ids[i] < |r.keys| && own[k][i] == r.features[k][t.ids[i]])
      && (!t.occupied[i] ==> own[k][i] == 0)
  {
    Occupant(su, r, i);
    ReceiverKnown(su, r, BinCount(su, r));
    var t, xs := ReceiverTable(su, r, BinCount(su, r)), HashAll(su.hash, r.keys);
    if t.occupied[i] {
      OwnFeaturesHave(xs, r.features, |xs|, t.ids[i]);
      var q :| 0 <= q < |xs| && xs[q] == xs[t.ids[i]]
        && OwnFeatures(xs, r.features, |xs|)[xs[t.ids[i]]] == Row(r.features, q);
      assert Tagged(xs[q], t.fids[i]) == Tagged(xs[t.ids[i]], t.fids[i]);
      assert r.keys[q] in s.keys + r.keys && r.keys[t.ids[i]] in s.keys + r.keys;
    }
  }
}
