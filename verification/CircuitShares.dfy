/**
 Circuit-PSI: from the shared comparison and multiplexer results to the output shares, and what the
 two parties' shares reconstruct (src/setops/pjc/circuit_psi.cpp).
 */
module CircuitShares {
  import opened Sequences
  import opened Hashing
  import opened Words
  import opened CircuitHints

  /** One row for each bin, one entry for each hint function. */
  type Matrix = seq<seq<Word>>

  ghost predicate Shaped(m: Matrix, rows: nat, width: nat) {
    |m| == rows && AllWidth(m, width)
  }

  function RowXors(m: Matrix): (r: seq<Word>)
    ensures |r| == |m| && forall i :: 0 <= i < |r| ==> r[i] == XorTotal(m[i])
  {
    seq<Word>(|m|, i requires 0 <= i < |m| => XorTotal(m[i]))
  }

  function RowTotals(m: Matrix): (r: seq<Word>)
    ensures |r| == |m| && forall i :: 0 <= i < |r| ==> r[i] == Total(m[i])
  {
    seq<Word>(|m|, i requires 0 <= i < |m| => Total(m[i]))
  }

  /** Columns: the membership share, one share for each sender feature, the receiver's features. */
  function Columns(result: Matrix, features: seq<Matrix>, own: seq<seq<Word>>): (r: seq<seq<Word>>)
    ensures |r| == 1 + |features| + |own| && r[0] == RowXors(result)
    ensures forall k :: 0 <= k < |features| ==> r[k + 1] == RowTotals(features[k])
    ensures forall k :: 0 <= k < |own| ==> r[|features| + k + 1] == own[k]
  {
    [RowXors(result)] + seq(|features|, k requires 0 <= k < |features| => RowTotals(features[k])) + own
  }

  function Zeros(columns: nat, bins: nat): (r: seq<seq<Word>>)
    ensures |r| == columns && forall k :: 0 <= k < columns ==>
      |r[k]| == bins && forall i :: 0 <= i < bins ==> r[k][i] == 0
  {
    seq(columns, _ => seq<Word>(bins, _ => 0))
  }

  /** The receiver's own features of the key in each bin; zero in an empty bin. */
  function OwnColumns(t: CuckooTable, m: map<Item, seq<Word>>, columns: nat): (r: seq<seq<Word>>)
    requires FeaturesKnown(t, m, columns)
    ensures |r| == columns
    ensures AllWidth(r, |t.occupied|)
    ensures forall k, i :: 0 <= k < columns && 0 <= i < |t.occupied| ==>
      r[k][i] == if t.occupied[i] then m[t.sources[i]][k] else 0
  {
    seq(columns, k requires 0 <= k < columns =>
      seq<Word>(|t.occupied|, i requires 0 <= i < |t.occupied| => if t.occupied[i] then m[t.sources[i]][k] else 0))
  }

  // ---- the in-place accumulation ----

  ghost predicate AllShaped(features: seq<Matrix>, bins: nat, hintFuns: nat) {
    forall k :: 0 <= k < |features| ==> Shaped(features[k], bins, hintFuns)
  }

  method XorInto(out: array2<Word>, result: Matrix, hintFuns: nat)
    requires out.Length0 > 0 && Shaped(result, out.Length1, hintFuns)
    requires forall i :: 0 <= i < out.Length1 ==> out[0, i] == 0
    modifies out
    ensures forall i :: 0 <= i < out.Length1 ==> out[0, i] == XorTotal(result[i])
    ensures forall c, i :: 0 < c < out.Length0 && 0 <= i < out.Length1 ==> out[c, i] == old(out[c, i])
  {
    for i := 0 to out.Length1
      invariant forall b :: 0 <= b < out.Length1 ==> out[0, b] == if b < i then XorTotal(result[b]) else 0
      invariant forall c, b :: 0 < c < out.Length0 && 0 <= b < out.Length1 ==> out[c, b] == old(out[c, b])
    {
      for j := 0 to hintFuns
        invariant forall b :: 0 <= b < out.Length1 && b != i ==> out[0, b] == if b < i then XorTotal(result[b]) else 0
        invariant out[0, i] == XorTotal(result[i][..j])
        invariant forall c, b :: 0 < c < out.Length0 && 0 <= b < out.Length1 ==> out[c, b] == old(out[c, b])
      {
        TotalPrefix(result[i], j);
        out[0, i] := Xor(out[0, i], result[i][j]);
      }
      assert result[i][..hintFuns] == result[i];
    }
  }

  method AddBin(out: array2<Word>, i: nat, features: seq<Matrix>, hintFuns: nat)
    requires i < out.Length1 && |features| < out.Length0 && AllShaped(features, out.Length1, hintFuns)
    requires forall c :: 0 < c <= |features| ==> out[c, i] == 0
    modifies out
    ensures forall k :: 0 <= k < |features| ==> out[k + 1, i] == Total(features[k][i])
    ensures forall c, b :: 0 <= c < out.Length0 && 0 <= b < out.Length1 && (b != i || c == 0 || c > |features|) ==>
      out[c, b] == old(out[c, b])
  {
    for j := 0 to hintFuns
      invariant forall k :: 0 <= k < |features| ==> out[k + 1, i] == Total(features[k][i][..j])
      invariant forall c, b :: 0 <= c < out.Length0 && 0 <= b < out.Length1 && (b != i || c == 0 || c > |features|) ==>
        out[c, b] == old(out[c, b])
    {
      for k := 0 to |features|
        invariant forall k' :: 0 <= k' < |features| ==>
          out[k' + 1, i] == if k' < k then Total(features[k'][i][..j + 1]) else Total(features[k'][i][..j])
        invariant forall c, b ::
          0 <= c < out.Length0 && 0 <= b < out.Length1 && (b != i || c == 0 || c > |features|) ==>
          out[c, b] == old(out[c, b])
      {
        TotalPrefix(features[k][i], j);
        out[k + 1, i] := Add(out[k + 1, i], features[k][i][j]);
      }
    }
    forall k | 0 <= k < |features| ensures features[k][i][..hintFuns] == features[k][i] {
    }
  }

  method AddOwn(out: array2<Word>, i: nat, skip: nat, own: seq<seq<Word>>)
    requires i < out.Length1 && out.Length0 == 1 + skip + |own| && AllWidth(own, out.Length1)
    requires forall c :: skip < c < out.Length0 ==> out[c, i] == 0
    modifies out
    ensures forall c :: skip < c < out.Length0 ==> out[c, i] == own[c - skip - 1][i]
    ensures forall c, b :: 0 <= c < out.Length0 && 0 <= b < out.Length1 && (b != i || c <= skip) ==>
      out[c, b] == old(out[c, b])
  {
    for k := 0 to |own|
      invariant forall c :: skip < c < out.Length0 ==> out[c, i] == if c <= skip + k then own[c - skip - 1][i] else 0
      invariant forall c, b :: 0 <= c < out.Length0 && 0 <= b < out.Length1 && (b != i || c <= skip) ==>
        out[c, b] == old(out[c, b])
    {
      out[skip + k + 1, i] := Add(out[skip + k + 1, i], own[k][i]);
    }
  }

  lemma WantAt(result: Matrix, features: seq<Matrix>, own: seq<seq<Word>>, i: nat)
    requires i < |result| && AllShapedRows(features, |result|) && AllWidth(own, |result|)
    ensures var want := Columns(result, features, own);
      forall c :: 0 < c < |want| ==>
        |want[c]| == |result|
        && want[c][i] == if c <= |features| then Total(features[c - 1][i]) else own[c - |features| - 1][i]
  {
    var want := Columns(result, features, own);
    forall c | 0 < c < |want|
      ensures |want[c]| == |result|
        && want[c][i] == if c <= |features| then Total(features[c - 1][i]) else own[c - |features| - 1][i]
    {
      if c <= |features| {
        assert want[(c - 1) + 1] == RowTotals(features[c - 1]);
      } else {
        assert want[|features| + (c - |features| - 1) + 1] == own[c - |features| - 1];
      }
    }
  }

  ghost predicate AllShapedRows(features: seq<Matrix>, bins: nat) {
    forall k :: 0 <= k < |features| ==> |features[k]| == bins
  }

  /** The output shares of either party; `own` adds the receiver's features of bin `i`. The sender adds zero. */
  method Reduce(result: Matrix, features: seq<Matrix>, own: seq<seq<Word>>, bins: nat, hintFuns: nat)
      returns (out: array2<Word>)
    requires Shaped(result, bins, hintFuns) && AllShaped(features, bins, hintFuns) && AllWidth(own, bins)
    ensures fresh(out) && out.Length0 == 1 + |features| + |own| && out.Length1 == bins
    ensures forall c, i :: 0 <= c < out.Length0 && 0 <= i < bins ==> out[c, i] == Columns(result, features, own)[c][i]
  {
    out := new Word[1 + |features| + |own|, bins]((_, _) => 0);
    XorInto(out, result, hintFuns);
    ghost var want := Columns(result, features, own);
    for i := 0 to bins
      invariant forall b :: 0 <= b < bins ==> out[0, b] == want[0][b]
      invariant forall c, b :: 0 < c < out.Length0 && 0 <= b < bins ==> out[c, b] == if b < i then want[c][b] else 0
    {
      AddBin(out, i, features, hintFuns);
      AddOwn(out, i, |features|, own);
      WantAt(result, features, own, i);
    }
  }

  // ---- what the shares reconstruct ----

  /** Which hint positions of a bin match; at most position `at` does. */
  ghost predicate OnlyAt(matches: seq<bool>, at: nat) {
    forall j :: 0 <= j < |matches| && matches[j] ==> j == at
  }

  /** Exclusive-or over the hint functions: the shares of the bits reconstruct membership. */
  lemma MembershipReconstructs(a: seq<Word>, b: seq<Word>, matches: seq<bool>, at: nat)
    requires |a| == |b| == |matches| && OnlyAt(matches, at)
    requires forall j :: 0 <= j < |a| ==> Xor(a[j], b[j]) == Bit(matches[j])
    ensures Xor(XorTotal(a), XorTotal(b)) == Bit(at < |matches| && matches[at])
  {
    TotalOfSums(a, b);
    TotalOfOne(Xors(a, b), at);
  }

  /** Sum over the hint functions: the multiplexed shares reconstruct the value at the matching position. */
  lemma FeatureReconstructs(a: seq<Word>, b: seq<Word>, matches: seq<bool>, at: nat, values: seq<Word>)
    requires |a| == |b| == |matches| == |values| && OnlyAt(matches, at)
    requires forall j :: 0 <= j < |a| ==> Add(a[j], b[j]) == if matches[j] then values[j] else 0
    ensures Add(Total(a), Total(b)) == if at < |matches| && matches[at] then values[at] else 0
  {
    TotalOfSums(a, b);
    TotalOfOne(Sums(a, b), at);
  }
}
