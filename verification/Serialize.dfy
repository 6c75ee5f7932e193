/** NUL-terminated lists of strings (src/setops/util/serialize.h). */
module Serialize {

  const NUL: char := '\0'

  function Serialized(input: seq<string>): (r: string)
    ensures r == [] <==> input == []
    ensures r != [] ==> r[|r| - 1] == NUL
  {
    if input == [] then [] else Serialized(input[..|input| - 1]) + input[|input| - 1] + [NUL]
  }

  lemma AppendsOne(before: string, input: seq<string>, i: nat)
    requires i < |input|
    ensures before + Serialized(input[..i + 1]) == before + Serialized(input[..i]) + input[i] + [NUL]
  {
    assert input[..i + 1][..i] == input[..i];
  }

  /** The output vector held `before` at entry; the strings are appended to it. */
  method SerializeStringToChar(input: seq<string>, before: string) returns (output: string)
    ensures output == before + Serialized(input)
  {
    output := before;
    for i := 0 to |input|
      invariant output == before + Serialized(input[..i])
    {
      var str := input[i];
      ghost var held := output;
      for j := 0 to |str|
        invariant output == held + str[..j]
      {
        output := output + [str[j]];
      }
      assert str[..|str|] == str;
      output := output + [NUL];
      AppendsOne(before, input, i);
    }
    assert input[..|input|] == input;
  }

  /** A buffer that the scan can read to its end: every string in it is terminated. */
  ghost predicate Terminated(buffer: string) {
    buffer == [] || buffer[|buffer| - 1] == NUL
  }

  ghost predicate NulFree(s: string) {
    NUL !in s
  }

  ghost predicate AllNulFree(xs: seq<string>) {
    forall i :: 0 <= i < |xs| ==> NulFree(xs[i])
  }

  /** The inner scan stops at the first NUL and the outer one at the end of the buffer; what is
      appended to `before` is the NUL-free list that serializes back to the buffer. */
  method DeserializeStringFromChar(input: string, before: seq<string>) returns (output: seq<string>)
    requires Terminated(input)
    ensures output == before + Deserialized(input)
  {
    output := before;
    ghost var found: seq<string> := [];
    var i := 0;
    while i < |input|
      invariant 0 <= i <= |input|
      invariant output == before + found && AllNulFree(found)
      invariant Serialized(found) == input[..i]
    {
      var begin := i;
      var size := 0;
      while input[i] != NUL
        invariant begin <= i < |input| && size == i - begin
        invariant NUL !in input[begin..i]
        decreases |input| - i
      {
        size := size + 1;
        i := i + 1;
      }
      i := i + 1;
      var str := input[begin..begin + size];
      assert input[..i] == input[..begin] + str + [NUL];
      output := output + [str];
      found := found + [str];
      assert found[..|found| - 1] + [str] == found;
    }
    assert input[..|input|] == input;
    DeserializedUnique(input, found);
  }

  function Deserialized(buffer: string): (r: seq<string>)
    requires Terminated(buffer)
    ensures AllNulFree(r)
    ensures Serialized(r) == buffer
    decreases |buffer|
  {
    if buffer == [] then []
    else
      var begin := LastStart(buffer, |buffer| - 1);
      LastSplits(buffer, begin);
      var rest, last := Deserialized(buffer[..begin]), buffer[begin..|buffer| - 1];
      SerializedSnoc(rest, last);
      rest + [last]
  }

  lemma LastSplits(buffer: string, begin: nat)
    requires Terminated(buffer) && buffer != [] && begin == LastStart(buffer, |buffer| - 1)
    ensures Terminated(buffer[..begin]) && NulFree(buffer[begin..|buffer| - 1])
    ensures buffer == buffer[..begin] + buffer[begin..|buffer| - 1] + [NUL]
  {
    LastApart(buffer, begin);
  }

  lemma LastApart(buffer: string, begin: nat)
    requires begin < |buffer|
    ensures buffer == buffer[..begin] + buffer[begin..|buffer| - 1] + [buffer[|buffer| - 1]]
  {
  }

  lemma SerializedSnoc(xs: seq<string>, x: string)
    ensures Serialized(xs + [x]) == Serialized(xs) + x + [NUL]
    ensures AllNulFree(xs) && NulFree(x) ==> AllNulFree(xs + [x])
  {
    assert (xs + [x])[..|xs|] == xs;
  }

  /** Where the last terminated string of the buffer begins. */
  function LastStart(buffer: string, end: nat): (b: nat)
    requires end < |buffer|
    ensures b <= end && NUL !in buffer[b..end] && (b == 0 || buffer[b - 1] == NUL)
  {
    if end == 0 || buffer[end - 1] == NUL then end else LastStart(buffer, end - 1)
  }

  /** The last string of a buffer starts no earlier than any terminated front ends. */
  lemma FrontNoLonger(sx: string, x: string, sy: string, y: string)
    requires Terminated(sy) && NulFree(x)
    requires sx + x + [NUL] == sy + y + [NUL]
    ensures |sy| <= |sx|
  {
    var buffer := sx + x + [NUL];
    assert forall k :: |sx| <= k < |buffer| - 1 ==> buffer[k] == x[k - |sx|];
    assert sy != [] ==> buffer[|sy| - 1] == sy[|sy| - 1];
  }

  /** A terminated buffer splits in one way into a terminated front and a last NUL-free string. */
  lemma LastStringUnique(sx: string, x: string, sy: string, y: string)
    requires Terminated(sx) && Terminated(sy) && NulFree(x) && NulFree(y)
    requires sx + x + [NUL] == sy + y + [NUL]
    ensures sx == sy && x == y
  {
    var buffer := sx + x + [NUL];
    FrontNoLonger(sx, x, sy, y);
    FrontNoLonger(sy, y, sx, x);
    assert sx == buffer[..|sx|] && x == buffer[|sx|..|buffer| - 1];
    assert sy == buffer[..|sy|] && y == buffer[|sy|..|buffer| - 1];
  }

  /** NUL-free lists are determined by their serialization. */
  lemma {:induction false} SerializedInjective(xs: seq<string>, ys: seq<string>)
    requires AllNulFree(xs) && AllNulFree(ys) && Serialized(xs) == Serialized(ys)
    ensures xs == ys
    decreases |xs|
  {
    if xs != [] {
      var xs', ys' := xs[..|xs| - 1], ys[..|ys| - 1];
      LastStringUnique(Serialized(xs'), xs[|xs| - 1], Serialized(ys'), ys[|ys| - 1]);
      SerializedInjective(xs', ys');
    }
  }

  /** Deserializing gives back the serialized list exactly when no string contains a NUL. */
  lemma RoundTripIffNulFree(xs: seq<string>)
    ensures Deserialized(Serialized(xs)) == xs <==> AllNulFree(xs)
  {
    if AllNulFree(xs) {
      SerializedInjective(Deserialized(Serialized(xs)), xs);
    }
  }

  /** A serialization has a NUL for each string, and more only for strings that hold one. */
  lemma {:induction false} NulCount(xs: seq<string>)
    ensures multiset(Serialized(xs))[NUL] >= |xs|
    ensures AllNulFree(xs) ==> multiset(Serialized(xs))[NUL] == |xs|
  {
    if xs != [] {
      var front, last := xs[..|xs| - 1], xs[|xs| - 1];
      NulCount(front);
      assert multiset(Serialized(xs)) == multiset(Serialized(front)) + multiset(last) + multiset{NUL};
      assert NulFree(last) ==> NUL !in multiset(last);
    }
  }

  /** Deserializing never loses a string: what comes apart only makes the list longer. */
  lemma DeserializedNoShorter(xs: seq<string>)
    ensures |Deserialized(Serialized(xs))| >= |xs|
  {
    NulCount(xs);
    NulCount(Deserialized(Serialized(xs)));
  }

  /** The scanning loop and the recursive definition agree. */
  lemma DeserializedUnique(buffer: string, r: seq<string>)
    requires Terminated(buffer) && AllNulFree(r) && Serialized(r) == buffer
    ensures r == Deserialized(buffer)
  {
    SerializedInjective(r, Deserialized(buffer));
  }

  /** Every terminated buffer is the serialization of exactly one NUL-free list, and a buffer that
      is not terminated is the serialization of none. */
  lemma BufferRoundTrip(buffer: string)
    ensures Terminated(buffer) <==> exists xs :: Serialized(xs) == buffer
    ensures Terminated(buffer) ==> Serialized(Deserialized(buffer)) == buffer
  {
    if Terminated(buffer) {
      assert Serialized(Deserialized(buffer)) == buffer;
    }
  }
}
