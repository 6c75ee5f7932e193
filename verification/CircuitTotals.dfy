/** The join that a completed Circuit-PSI run shares: bin by bin, and summed over the bins. */
module CircuitTotals {
  import opened Sequences
  import opened Network
  import opened Hashing
  import opened Words
  import opened CircuitShares
  import opened CircuitProtocol
  import opened CircuitRun
  import opened CircuitJoin

  /** Which bins hold a common key. */
  ghost function JoinedBins(su: Setup, s: Party, r: Party): (f: seq<bool>)
    requires BothLive(su, s, r)
    ensures |f| == BinCount(su, r) && forall i :: 0 <= i < |f| ==> f[i] == Joined(su, s, r, i)
  {
    seq(BinCount(su, r), i requires 0 <= i < BinCount(su, r) => Joined(su, s, r, i))
  }

  ghost function Ids(su: Setup, s: Party, r: Party): (t: seq<nat>)
    requires BothLive(su, s, r)
    ensures |t| == BinCount(su, r)
  {
    if BinCount(su, r) > 0 then Occupant(su, r, 0); ReceiverTable(su, r, BinCount(su, r)).ids else []
  }

  /** Where the sender has the key of each joined bin. */
  ghost function SenderPlaces(su: Setup, s: Party, r: Party): (t: seq<nat>)
    requires BothLive(su, s, r)
    ensures |t| == BinCount(su, r)
    ensures forall i :: 0 <= i < |t| && Joined(su, s, r, i) ==>
      t[i] < |s.keys| && s.keys[t[i]] == r.keys[ReceiverTable(su, r, BinCount(su, r)).ids[i]]
  {
    seq(BinCount(su, r), i requires 0 <= i < BinCount(su, r) =>
      if Joined(su, s, r, i) then PlaceOf(s.keys, r.keys[ReceiverTable(su, r, BinCount(su, r)).ids[i]]) else 0)
  }

  ghost function PlaceOf(keys: seq<string>, x: string): (q: nat)
    requires x in keys
    ensures q < |keys| && keys[q] == x
  {
    var q :| 0 <= q < |keys| && keys[q] == x;
    q
  }

  ghost predicate Sized(su: Setup, s: Party, r: Party, sa: seq<seq<Word>>, sb: seq<seq<Word>>) {
    |sa| == |sb| == 1 + |s.features| + |r.features| && AllWidth(sa, BinCount(su, r)) && AllWidth(sb, BinCount(su, r))
  }

  ghost predicate BitsJoin(su: Setup, s: Party, r: Party, sa: seq<seq<Word>>, sb: seq<seq<Word>>)
    requires BothLive(su, s, r) && Sized(su, s, r, sa, sb)
  {
    forall i :: 0 <= i < BinCount(su, r) ==> Xor(sa[0][i], sb[0][i]) == Bit(Joined(su, s, r, i))
  }

  ghost predicate SenderColumnJoins(su: Setup, s: Party, r: Party, sa: seq<seq<Word>>, sb: seq<seq<Word>>, k: nat)
    requires BothLive(su, s, r) && Sized(su, s, r, sa, sb) && k < |s.features|
  {
    forall i :: 0 <= i < BinCount(su, r) ==>
      Add(sa[k + 1][i], sb[k + 1][i]) == if Joined(su, s, r, i) then s.features[k][SenderPlaces(su, s, r)[i]] else 0
  }

  ghost predicate ReceiverColumnJoins(su: Setup, s: Party, r: Party, sa: seq<seq<Word>>, sb: seq<seq<Word>>, k: nat)
    requires BothLive(su, s, r) && Sized(su, s, r, sa, sb) && k < |r.features|
  {
    var c := |s.features| + k + 1;
    forall i :: 0 <= i < BinCount(su, r) ==>
      Add(sa[c][i], sb[c][i]) == if OccupiedBy(su, r, i) then r.features[k][Ids(su, s, r)[i]] else 0
  }

  ghost predicate OccupiedBy(su: Setup, r: Party, i: nat)
    requires AllPlaced(su, r, BinCount(su, r)) && i < BinCount(su, r)
    ensures var t := ReceiverTable(su, r, BinCount(su, r));
      i < |t.ids| && (OccupiedBy(su, r, i) ==> t.ids[i] < |r.keys|)
  {
    Occupant(su, r, i);
    ReceiverTable(su, r, BinCount(su, r)).occupied[i]
  }

  /** The share vectors `sa` and `sb` reconstruct, in every bin, the membership bit, the sender's
      features of the common key (zero without one), and the receiver's features of its key (zero in an
      empty bin). */
  ghost predicate SharesJoin(su: Setup, s: Party, r: Party, sa: seq<seq<Word>>, sb: seq<seq<Word>>)
    requires BothLive(su, s, r)
  {
    && Sized(su, s, r, sa, sb) && BitsJoin(su, s, r, sa, sb)
    && (forall k :: 0 <= k < |s.features| ==> SenderColumnJoins(su, s, r, sa, sb, k))
    && (forall k :: 0 <= k < |r.features| ==> ReceiverColumnJoins(su, s, r, sa, sb, k))
  }

  ghost function SenderShares(su: Setup, r: Party, ra: Matrix, oa: seq<Matrix>): seq<seq<Word>> {
    Columns(ra, oa, Zeros(|r.features|, BinCount(su, r)))
  }

  ghost function ReceiverShares(su: Setup, r: Party, rb: Matrix, ob: seq<Matrix>): seq<seq<Word>>
    requires AllPlaced(su, r, BinCount(su, r))
  {
    Columns(rb, ob, OwnShare(su, r, BinCount(su, r)))
  }

  lemma EndBit(su: Setup, s: Party, r: Party, ra: Matrix, rb: Matrix, oa: seq<Matrix>, ob: seq<Matrix>, i: nat)
    requires BothLive(su, s, r) && Sound(su, s, r) && Hands(RunShared(su, s, r), ra, rb, oa, ob) && i < BinCount(su, r)
    ensures |ra| == |rb| == BinCount(su, r)
    ensures Xor(RowXors(ra)[i], RowXors(rb)[i]) == Bit(Joined(su, s, r, i))
  {
    SeparateMeansNoClash(su, s, r.keys);
    BinMembership(su, s, r, ra, rb, oa, ob, i);
    HeldMeansJoined(su, s, r, i);
  }

  lemma EndFeature(su: Setup, s: Party, r: Party, ra: Matrix, rb: Matrix, oa: seq<Matrix>, ob: seq<Matrix>, k: nat,
      i: nat)
    requires BothLive(su, s, r) && Sound(su, s, r) && Hands(RunShared(su, s, r), ra, rb, oa, ob)
    requires i < BinCount(su, r) && k < |s.features|
    ensures |oa| == |ob| == |s.features| && |oa[k]| == |ob[k]| == BinCount(su, r)
    ensures Add(RowTotals(oa[k])[i], RowTotals(ob[k])[i])
      == if Joined(su, s, r, i) then s.features[k][SenderPlaces(su, s, r)[i]] else 0
  {
    SeparateMeansNoClash(su, s, r.keys);
    BinFeature(su, s, r, ra, rb, oa, ob, k, i);
    HeldMeansJoined(su, s, r, i);
    if Joined(su, s, r, i) {
      JoinedFeatures(su, s, r, i, SenderPlaces(su, s, r)[i]);
    }
  }

  lemma EndBits(su: Setup, s: Party, r: Party, ra: Matrix, rb: Matrix, oa: seq<Matrix>, ob: seq<Matrix>)
    requires BothLive(su, s, r) && Sound(su, s, r) && Hands(RunShared(su, s, r), ra, rb, oa, ob)
    ensures Sized(su, s, r, SenderShares(su, r, ra, oa), ReceiverShares(su, r, rb, ob))
    ensures BitsJoin(su, s, r, SenderShares(su, r, ra, oa), ReceiverShares(su, r, rb, ob))
  {
    EndWidths(su, s, r, ra, rb, oa, ob);
    forall i | 0 <= i < BinCount(su, r)
      ensures Xor(SenderShares(su, r, ra, oa)[0][i], ReceiverShares(su, r, rb, ob)[0][i]) == Bit(Joined(su, s, r, i))
    {
      EndBit(su, s, r, ra, rb, oa, ob, i);
    }
  }

  lemma EndOwn(su: Setup, s: Party, r: Party, ra: Matrix, rb: Matrix, oa: seq<Matrix>, ob: seq<Matrix>, k: nat)
    requires BothLive(su, s, r) && Sound(su, s, r) && Hands(RunShared(su, s, r), ra, rb, oa, ob) && k < |r.features|
    ensures Sized(su, s, r, SenderShares(su, r, ra, oa), ReceiverShares(su, r, rb, ob))
    ensures ReceiverColumnJoins(su, s, r, SenderShares(su, r, ra, oa), ReceiverShares(su, r, rb, ob), k)
  {
    EndWidths(su, s, r, ra, rb, oa, ob);
    var sa, sb := SenderShares(su, r, ra, oa), ReceiverShares(su, r, rb, ob);
    OwnShareColumns(su, s, r, ra, rb, oa, ob, k);
    OwnColumnJoins(su, s, r, sa, sb, k);
  }

  lemma OwnColumnJoins(su: Setup, s: Party, r: Party, sa: seq<seq<Word>>, sb: seq<seq<Word>>, k: nat)
    requires BothLive(su, s, r) && Sound(su, s, r) && Sized(su, s, r, sa, sb) && k < |r.features|
    requires |OwnShare(su, r, BinCount(su, r))| == |r.features|
    requires var c := |s.features| + k + 1;
      sa[c] == Zeros(|r.features|, BinCount(su, r))[k] && sb[c] == OwnShare(su, r, BinCount(su, r))[k]
    ensures ReceiverColumnJoins(su, s, r, sa, sb, k)
  {
    var c := |s.features| + k + 1;
    forall i | 0 <= i < BinCount(su, r)
      ensures Add(sa[c][i], sb[c][i]) == if OccupiedBy(su, r, i) then r.features[k][Ids(su, s, r)[i]] else 0
    {
      OwnBin(su, s, r, k, i);
    }
  }

  lemma OwnBin(su: Setup, s: Party, r: Party, k: nat, i: nat)
    requires BothLive(su, s, r) && Sound(su, s, r) && k < |r.features| && i < BinCount(su, r)
    ensures |OwnShare(su, r, BinCount(su, r))| == |r.features|
    ensures i < |OwnShare(su, r, BinCount(su, r))[k]|
    ensures Add(Zeros(|r.features|, BinCount(su, r))[k][i], OwnShare(su, r, BinCount(su, r))[k][i])
      == if OccupiedBy(su, r, i) then r.features[k][Ids(su, s, r)[i]] else 0
  {
    OwnShareIsFeature(su, s, r, i, k);
  }

  lemma OwnShareColumns(su: Setup, s: Party, r: Party, ra: Matrix, rb: Matrix, oa: seq<Matrix>, ob: seq<Matrix>, k: nat)
    requires AllPlaced(su, r, BinCount(su, r)) && |oa| == |ob| == |s.features| && k < |r.features|
    ensures |OwnShare(su, r, BinCount(su, r))| == |r.features|
    ensures var c, sa, sb := |s.features| + k + 1, SenderShares(su, r, ra, oa), ReceiverShares(su, r, rb, ob);
      c < |sa| && c < |sb|
      && sa[c] == Zeros(|r.features|, BinCount(su, r))[k] && sb[c] == OwnShare(su, r, BinCount(su, r))[k]
  {
    ReceiverKnown(su, r, BinCount(su, r));
  }

  lemma EndColumn(su: Setup, s: Party, r: Party, ra: Matrix, rb: Matrix, oa: seq<Matrix>, ob: seq<Matrix>, k: nat)
    requires BothLive(su, s, r) && Sound(su, s, r) && Hands(RunShared(su, s, r), ra, rb, oa, ob) && k < |s.features|
    ensures Sized(su, s, r, SenderShares(su, r, ra, oa), ReceiverShares(su, r, rb, ob))
    ensures SenderColumnJoins(su, s, r, SenderShares(su, r, ra, oa), ReceiverShares(su, r, rb, ob), k)
  {
    EndWidths(su, s, r, ra, rb, oa, ob);
    var sa, sb := SenderShares(su, r, ra, oa), ReceiverShares(su, r, rb, ob);
    forall i | 0 <= i < BinCount(su, r)
      ensures Add(sa[k + 1][i], sb[k + 1][i])
        == if Joined(su, s, r, i) then s.features[k][SenderPlaces(su, s, r)[i]] else 0
    {
      EndFeature(su, s, r, ra, rb, oa, ob, k, i);
    }
  }

  lemma EndShares(su: Setup, s: Party, r: Party, ra: Matrix, rb: Matrix, oa: seq<Matrix>, ob: seq<Matrix>)
    requires BothLive(su, s, r) && Sound(su, s, r) && Hands(RunShared(su, s, r), ra, rb, oa, ob)
    ensures SharesJoin(su, s, r, SenderShares(su, r, ra, oa), ReceiverShares(su, r, rb, ob))
  {
    var sa, sb := SenderShares(su, r, ra, oa), ReceiverShares(su, r, rb, ob);
    EndBits(su, s, r, ra, rb, oa, ob);
    forall k | 0 <= k < |s.features| ensures SenderColumnJoins(su, s, r, sa, sb, k) {
      EndColumn(su, s, r, ra, rb, oa, ob, k);
    }
    forall k | 0 <= k < |r.features| ensures ReceiverColumnJoins(su, s, r, sa, sb, k) {
      EndOwn(su, s, r, ra, rb, oa, ob, k);
    }
  }

  lemma HeldMeansJoined(su: Setup, s: Party, r: Party, i: nat)
    requires BothLive(su, s, r) && Sound(su, s, r) && i < BinCount(su, r)
    ensures Held(su, s, r, i) <==> Joined(su, s, r, i)
  {
    if Held(su, s, r, i) {
      HeldIsJoined(su, s, r, i);
    }
    if Joined(su, s, r, i) {
      JoinedIsHeld(su, s, r, i);
    }
  }

  lemma EndWidths(su: Setup, s: Party, r: Party, ra: Matrix, rb: Matrix, oa: seq<Matrix>, ob: seq<Matrix>)
    requires BothLive(su, s, r) && Hands(RunShared(su, s, r), ra, rb, oa, ob)
    ensures var bins := BinCount(su, r);
      var sa, sb := SenderShares(su, r, ra, oa), ReceiverShares(su, r, rb, ob);
      |sa| == |sb| == 1 + |s.features| + |r.features| && AllWidth(sa, bins) && AllWidth(sb, bins)
  {
    var bins := BinCount(su, r);
    ReceiverKnown(su, r, bins);
    var sh := RunShared(su, s, r);
    forall k | 0 <= k < |s.features| ensures |oa[k]| == |ob[k]| == bins {
      assert MuxShares(ra, sh.va[k], rb, sh.vb[k], oa[k], ob[k], sh.rows, sh.width);
    }
    ColumnWidths(ra, oa, Zeros(|r.features|, bins), bins);
    ColumnWidths(rb, ob, OwnShare(su, r, bins), bins);
  }

  lemma ColumnWidths(result: Matrix, features: seq<Matrix>, own: seq<seq<Word>>, bins: nat)
    requires |result| == bins && AllWidth(own, bins) && forall k :: 0 <= k < |features| ==> |features[k]| == bins
    ensures AllWidth(Columns(result, features, own), bins)
  {
    var c := Columns(result, features, own);
    forall i | 0 <= i < |c| ensures |c[i]| == bins {
      if 0 < i <= |features| {
        assert c[(i - 1) + 1] == RowTotals(features[i - 1]);
      } else if i > |features| {
        assert c[|features| + (i - |features| - 1) + 1] == own[i - |features| - 1];
      }
    }
  }

  // ---- totals ----

  /** The values of the keys that `others` contains; zero for the rest. */
  ghost function Restricted(values: seq<Word>, keys: seq<string>, others: seq<string>): (v: seq<Word>)
    requires |values| == |keys|
    ensures |v| == |values| && forall x :: 0 <= x < |v| ==> v[x] == if keys[x] in others then values[x] else 0
  {
    seq<Word>(|values|, x requires 0 <= x < |values| => if keys[x] in others then values[x] else 0)
  }

  /** Every common key has exactly one joined bin: seen from the receiver's positions. */
  lemma ByReceiver(su: Setup, s: Party, r: Party)
    requires BothLive(su, s, r) && Sound(su, s, r)
    ensures DistinctWhere(Ids(su, s, r), JoinedBins(su, s, r))
    ensures forall i :: 0 <= i < BinCount(su, r) && Joined(su, s, r, i) ==> Ids(su, s, r)[i] < |r.keys|
    ensures forall x ::
      FlaggedWith(Ids(su, s, r), JoinedBins(su, s, r), x) <==> 0 <= x < |r.keys| && r.keys[x] in s.keys
  {
    var bins, xs := BinCount(su, r), HashAll(su.hash, r.keys);
    assert CuckooOk(su.lib, r.tableSeed, bins, su.funs, xs);
    forall x | 0 <= x < |r.keys| && r.keys[x] in s.keys ensures FlaggedWith(Ids(su, s, r), JoinedBins(su, s, r), x) {
      var b := SlotOf(su.lib, r.tableSeed, bins, su.funs, xs, x);
      assert Joined(su, s, r, b);
    }
  }

  /** And from the sender's positions. */
  lemma BySender(su: Setup, s: Party, r: Party)
    requires BothLive(su, s, r) && Sound(su, s, r)
    ensures DistinctWhere(SenderPlaces(su, s, r), JoinedBins(su, s, r))
    ensures forall x ::
      FlaggedWith(SenderPlaces(su, s, r), JoinedBins(su, s, r), x) <==> 0 <= x < |s.keys| && s.keys[x] in r.keys
  {
    ByReceiver(su, s, r);
    Retargeted(r.keys, s.keys, Ids(su, s, r), SenderPlaces(su, s, r), JoinedBins(su, s, r));
  }

  /** The membership bits add up to the size of the intersection. */
  lemma BitsTotal(su: Setup, s: Party, r: Party, sa: seq<seq<Word>>, sb: seq<seq<Word>>)
    requires BothLive(su, s, r) && Sound(su, s, r) && SharesJoin(su, s, r, sa, sb)
    ensures Total(Xors(sa[0], sb[0])) == OfNat(|Intersect(r.keys, s.keys)|)
  {
    var joined, ids := JoinedBins(su, s, r), Ids(su, s, r);
    var common := seq(|r.keys|, x requires 0 <= x < |r.keys| => r.keys[x] in s.keys);
    ByReceiver(su, s, r);
    TotalOfBits(joined, Xors(sa[0], sb[0]));
    CountByTarget(ids, joined, common);
    SelectIsIntersect(r.keys, s.keys, common);
    assert common[..|r.keys|] == common;
  }

  /** Bit times sender feature adds up to that feature's total over the common keys. */
  lemma SenderFeatureTotal(su: Setup, s: Party, r: Party, sa: seq<seq<Word>>, sb: seq<seq<Word>>, k: nat)
    requires BothLive(su, s, r) && Sound(su, s, r) && SharesJoin(su, s, r, sa, sb) && k < |s.features|
    ensures Total(Products(Xors(sa[0], sb[0]), Sums(sa[k + 1], sb[k + 1])))
      == Total(Restricted(s.features[k], s.keys, r.keys))
  {
    var joined, places := JoinedBins(su, s, r), SenderPlaces(su, s, r);
    var products := Products(Xors(sa[0], sb[0]), Sums(sa[k + 1], sb[k + 1]));
    BySender(su, s, r);
    assert SenderColumnJoins(su, s, r, sa, sb, k);
    forall i | 0 <= i < |joined| ensures products[i] == if joined[i] then s.features[k][places[i]] else 0 {
      TimesBit(joined[i], Add(sa[k + 1][i], sb[k + 1][i]));
    }
    assert products == ByBin(joined, places, s.features[k]);
    Reindex(joined, places, s.features[k]);
    assert ByTarget(joined, places, s.features[k]) == Restricted(s.features[k], s.keys, r.keys);
  }

  /** Bit times receiver feature adds up to that feature's total over the common keys. */
  lemma ReceiverFeatureTotal(su: Setup, s: Party, r: Party, sa: seq<seq<Word>>, sb: seq<seq<Word>>, k: nat)
    requires BothLive(su, s, r) && Sound(su, s, r) && SharesJoin(su, s, r, sa, sb) && k < |r.features|
    ensures var c := |s.features| + k + 1;
      Total(Products(Xors(sa[0], sb[0]), Sums(sa[c], sb[c]))) == Total(Restricted(r.features[k], r.keys, s.keys))
  {
    var c := |s.features| + k + 1;
    var joined, ids := JoinedBins(su, s, r), Ids(su, s, r);
    var products := Products(Xors(sa[0], sb[0]), Sums(sa[c], sb[c]));
    ByReceiver(su, s, r);
    assert ReceiverColumnJoins(su, s, r, sa, sb, k);
    forall i | 0 <= i < |joined| ensures products[i] == if joined[i] then r.features[k][ids[i]] else 0 {
      TimesBit(joined[i], Add(sa[c][i], sb[c][i]));
    }
    assert products == ByBin(joined, ids, r.features[k]);
    Reindex(joined, ids, r.features[k]);
    assert ByTarget(joined, ids, r.features[k]) == Restricted(r.features[k], r.keys, s.keys);
  }

  /** Any end in which the shares were handed out joins the two inputs. */
  lemma SharedEndJoins(su: Setup, s: Party, r: Party, g: Net)
    requires BothLive(su, s, r) && Sound(su, s, r) && SharedEnd(su, s, r, g)
    ensures g.a.Ret? && g.a.result.Done? && g.b.Ret? && g.b.result.Done? && g.ab == [] && g.ba == []
    ensures SharesJoin(su, s, r, g.a.result.shares, g.b.result.shares)
  {
    var ra, rb, oa, ob :| Hands(RunShared(su, s, r), ra, rb, oa, ob) && g == EndState(su, s, r, ra, rb, oa, ob);
    EndShares(su, s, r, ra, rb, oa, ob);
  }

  /** End to end: whatever the schedule, a run that gets past both stash checks ends with both parties
      done, nothing left unread, and shares that join the two inputs. The parties are taken with the
      seeds that they draw in the run. */
  lemma EndToEnd(ideal: Ideal<Input, Output>, su: Setup, s: Party, r: Party, m: nat, g: Net)
    requires IdealOk(ideal, su.oprf)
    requires BothLive(su, Seeded(s), Seeded(r)) && Sound(su, Seeded(s), Seeded(r))
    requires Reaches(ideal, Start(SenderRole(su, s), ReceiverRole(su, r)), m, g) && Stuck(g)
    ensures g.a.Ret? && g.a.result.Done? && g.b.Ret? && g.b.result.Done? && g.ab == [] && g.ba == []
    ensures SharesJoin(su, Seeded(s), Seeded(r), g.a.result.shares, g.b.result.shares)
  {
    StuckIsGoodEnd(ideal, su, s, r, m, g);
    SharedEndJoins(su, Seeded(s), Seeded(r), g);
  }

  /** The totals of the opened shares: the size of the intersection, and every feature column of either
      party summed over the common keys, all with 64-bit wrap-around. */
  ghost predicate TotalsJoin(su: Setup, s: Party, r: Party, sa: seq<seq<Word>>, sb: seq<seq<Word>>) {
    && Sized(su, s, r, sa, sb)
    && Total(Xors(sa[0], sb[0])) == OfNat(|Intersect(r.keys, s.keys)|)
    && (forall k :: 0 <= k < |s.features| ==>
          Total(Products(Xors(sa[0], sb[0]), Sums(sa[k + 1], sb[k + 1])))
          == Total(Restricted(s.features[k], s.keys, r.keys)))
    && (forall k :: 0 <= k < |r.features| ==>
          Total(Products(Xors(sa[0], sb[0]), Sums(sa[|s.features| + k + 1], sb[|s.features| + k + 1])))
          == Total(Restricted(r.features[k], r.keys, s.keys)))
  }

  lemma JoinTotals(su: Setup, s: Party, r: Party, sa: seq<seq<Word>>, sb: seq<seq<Word>>)
    requires BothLive(su, s, r) && Sound(su, s, r) && SharesJoin(su, s, r, sa, sb)
    ensures TotalsJoin(su, s, r, sa, sb)
  {
    BitsTotal(su, s, r, sa, sb);
    forall k | 0 <= k < |s.features|
      ensures Total(Products(Xors(sa[0], sb[0]), Sums(sa[k + 1], sb[k + 1])))
        == Total(Restricted(s.features[k], s.keys, r.keys))
    {
      SenderFeatureTotal(su, s, r, sa, sb, k);
    }
    forall k | 0 <= k < |r.features|
      ensures Total(Products(Xors(sa[0], sb[0]), Sums(sa[|s.features| + k + 1], sb[|s.features| + k + 1])))
        == Total(Restricted(r.features[k], r.keys, s.keys))
    {
      ReceiverFeatureTotal(su, s, r, sa, sb, k);
    }
  }

  /** The seeds play no part in the totals. */
  lemma TotalsWithoutSeeds(su: Setup, s: Party, r: Party, sa: seq<seq<Word>>, sb: seq<seq<Word>>)
    requires TotalsJoin(su, Seeded(s), Seeded(r), sa, sb)
    ensures TotalsJoin(su, s, r, sa, sb)
  {
  }

  /** Whatever the schedule, a caller who opens the shares gets these totals. */
  lemma OpenedTotals(ideal: Ideal<Input, Output>, su: Setup, s: Party, r: Party, m: nat, g: Net)
    requires IdealOk(ideal, su.oprf)
    requires BothLive(su, Seeded(s), Seeded(r)) && Sound(su, Seeded(s), Seeded(r))
    requires Reaches(ideal, Start(SenderRole(su, s), ReceiverRole(su, r)), m, g) && Stuck(g)
    ensures g.a.Ret? && g.a.result.Done? && g.b.Ret? && g.b.result.Done?
    ensures TotalsJoin(su, s, r, g.a.result.shares, g.b.result.shares)
  {
    EndToEnd(ideal, su, s, r, m, g);
    JoinTotals(su, Seeded(s), Seeded(r), g.a.result.shares, g.b.result.shares);
    TotalsWithoutSeeds(su, s, r, g.a.result.shares, g.b.result.shares);
  }
}
