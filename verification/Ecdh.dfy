/** The local computations of ECDH-PSI (src/setops/psi/ecdh_psi.cpp). */
module Ecdh {
  import opened Sequences
  import opened Bytes

  const POINT_LENGTH: nat := 33
  const COMPARE_LENGTH: nat := 12

  /** The elliptic-curve library. The points of the curve are numbered from 0 to `order - 1`; secret
      keys are integers. */
  datatype Curve = Curve(
    order: nat,
    hashToCurve: string -> int,
    multiply: (int, int) -> int,
    toBytes: int -> Record,
    fromBytes: Record -> int)

  ghost predicate IsPoint(c: Curve, p: int) {
    0 <= p < c.order
  }

  /** What the library promises: points stay points, they have a fixed encoding that can be read back,
      and keys commute. */
  ghost predicate CurveOk(c: Curve) {
    && (forall x :: IsPoint(c, c.hashToCurve(x)))
    && (forall k, p :: IsPoint(c, p) ==> IsPoint(c, c.multiply(k, p)))
    && (forall p :: IsPoint(c, p) ==> c.fromBytes(c.toBytes(p)) == p)
    && (forall p :: |c.toBytes(p)| == POINT_LENGTH)
    && (forall k, l, p :: IsPoint(c, p) ==> c.multiply(k, c.multiply(l, p)) == c.multiply(l, c.multiply(k, p)))
  }

  /** Different points stay different under encryption. Only soundness needs this. */
  ghost predicate Injective(c: Curve) {
    forall k, p, q :: IsPoint(c, p) && IsPoint(c, q) && c.multiply(k, p) == c.multiply(k, q) ==> p == q
  }

  function Encrypted(c: Curve, key: int, x: string): Record {
    c.toBytes(c.multiply(key, c.hashToCurve(x)))
  }

  function Reencrypted(c: Curve, key: int, r: Record): Record {
    Tail(c.toBytes(c.multiply(key, c.fromBytes(r))), COMPARE_LENGTH)
  }

  /** What key `x` of the owner of `mine` becomes once both parties have encrypted it. */
  ghost function Tag(c: Curve, mine: int, theirs: int, x: string): Record {
    Reencrypted(c, theirs, Encrypted(c, mine, x))
  }

  lemma TagSymmetric(c: Curve, k: int, l: int, x: string)
    requires CurveOk(c)
    ensures Tag(c, k, l, x) == Tag(c, l, k, x)
  {
    var p := c.hashToCurve(x);
    assert IsPoint(c, p) && IsPoint(c, c.multiply(k, p)) && IsPoint(c, c.multiply(l, p));
    assert c.fromBytes(c.toBytes(c.multiply(k, p))) == c.multiply(k, p);
    assert c.fromBytes(c.toBytes(c.multiply(l, p))) == c.multiply(l, p);
    assert c.multiply(k, c.multiply(l, p)) == c.multiply(l, c.multiply(k, p));
  }

  /** The bytes of the point that key `x` becomes under both secret keys. */
  ghost function DoubleEncoding(c: Curve, k: int, l: int, x: string): Record {
    c.toBytes(c.multiply(l, c.multiply(k, c.hashToCurve(x))))
  }

  /** Two encodings agree in the last 12 of their 33 bytes. */
  ghost predicate LastBytesAgree(a: Record, b: Record) {
    |a| == |b| == 33 && forall i :: 21 <= i < 33 ==> a[i] == b[i]
  }

  /** What the source compares are the last 12 bytes of the doubly encrypted points. */
  lemma SameTagIff(c: Curve, k: int, l: int, x: string, y: string)
    requires CurveOk(c)
    ensures Tag(c, k, l, x) == Tag(c, k, l, y) <==>
      LastBytesAgree(DoubleEncoding(c, k, l, x), DoubleEncoding(c, k, l, y))
  {
    TagIsTail(c, k, l, x);
    TagIsTail(c, k, l, y);
    SameTailIff(DoubleEncoding(c, k, l, x), DoubleEncoding(c, k, l, y), COMPARE_LENGTH);
  }

  lemma TagIsTail(c: Curve, k: int, l: int, x: string)
    requires CurveOk(c)
    ensures Tag(c, k, l, x) == Tail(DoubleEncoding(c, k, l, x), COMPARE_LENGTH)
    ensures |DoubleEncoding(c, k, l, x)| == 33
  {
    var p := c.multiply(k, c.hashToCurve(x));
    assert IsPoint(c, c.hashToCurve(x)) && IsPoint(c, p);
    assert c.fromBytes(c.toBytes(p)) == p && |c.toBytes(c.multiply(l, p))| == POINT_LENGTH;
  }

  /** Byte `b` of a record that has been encrypted once more. */
  lemma ReencryptedByte(c: Curve, key: int, r: Record, b: nat)
    requires CurveOk(c) && b < 12
    ensures var bytes := c.toBytes(c.multiply(key, c.fromBytes(r)));
      |bytes| == 33 && |Reencrypted(c, key, r)| == 12 && Reencrypted(c, key, r)[b] == bytes[21 + b]
  {
    var point := c.multiply(key, c.fromBytes(r));
    assert |c.toBytes(point)| == POINT_LENGTH;
    KeptBytes(c.toBytes(point), COMPARE_LENGTH, b);
  }

  /** No key that the other party lacks agrees in these bytes with a key of the other party. */
  ghost predicate NoCollision(c: Curve, k: int, l: int, mine: seq<string>, yours: seq<string>) {
    forall x, y :: x in mine && x !in yours && y in yours ==>
      !LastBytesAgree(DoubleEncoding(c, k, l, x), DoubleEncoding(c, k, l, y))
  }

  /** Hashing to the curve separates the keys in play. */
  ghost predicate HashSeparates(c: Curve, mine: seq<string>, yours: seq<string>) {
    forall x, y :: x in mine && y in yours && c.hashToCurve(x) == c.hashToCurve(y) ==> x == y
  }

  /** Keeping only the last bytes separates the doubly encrypted points in play. */
  ghost predicate TruncationSeparates(c: Curve, k: int, l: int, mine: seq<string>, yours: seq<string>) {
    forall x, y :: x in mine && y in yours && LastBytesAgree(DoubleEncoding(c, k, l, x), DoubleEncoding(c, k, l, y)) ==>
      DoubleEncoding(c, k, l, x) == DoubleEncoding(c, k, l, y)
  }

  lemma PrimitivesGiveNoCollision(c: Curve, k: int, l: int, mine: seq<string>, yours: seq<string>)
    requires CurveOk(c) && Injective(c)
    requires HashSeparates(c, mine, yours) && TruncationSeparates(c, k, l, mine, yours)
    ensures NoCollision(c, k, l, mine, yours)
  {
    forall x, y | x in mine && y in yours && LastBytesAgree(DoubleEncoding(c, k, l, x), DoubleEncoding(c, k, l, y))
      ensures x == y
    {
      var p, q := c.multiply(k, c.hashToCurve(x)), c.multiply(k, c.hashToCurve(y));
      assert IsPoint(c, c.hashToCurve(x)) && IsPoint(c, c.hashToCurve(y));
      assert IsPoint(c, p) && IsPoint(c, q) && IsPoint(c, c.multiply(l, p)) && IsPoint(c, c.multiply(l, q));
      assert c.fromBytes(c.toBytes(c.multiply(l, p))) == c.fromBytes(c.toBytes(c.multiply(l, q)));
    }
  }

  function EncryptAll(c: Curve, key: int, input: seq<string>): seq<Record> {
    Map(x => Encrypted(c, key, x), input)
  }

  function ReencryptAll(c: Curve, key: int, records: seq<Record>): (r: seq<Record>)
    ensures |r| == |records| && forall i :: 0 <= i < |r| ==> r[i] == Reencrypted(c, key, records[i])
  {
    seq(|records|, i requires 0 <= i < |records| => Reencrypted(c, key, records[i]))
  }

  lemma Widths(c: Curve, key: int, input: seq<string>, records: seq<Record>)
    requires CurveOk(c)
    ensures AllWidth(EncryptAll(c, key, input), POINT_LENGTH)
    ensures AllWidth(ReencryptAll(c, key, records), COMPARE_LENGTH)
  {
    forall x ensures |Encrypted(c, key, x)| == POINT_LENGTH {
      var point := c.multiply(key, c.hashToCurve(x));
      assert |c.toBytes(point)| == POINT_LENGTH;
    }
    forall r ensures |Reencrypted(c, key, r)| == COMPARE_LENGTH {
      var point := c.multiply(key, c.fromBytes(r));
      assert |c.toBytes(point)| == POINT_LENGTH;
    }
  }

  // ---- loops ----

  method EncryptKeys(c: Curve, key: int, input: seq<string>) returns (encrypted: array<Record>)
    ensures fresh(encrypted)
    ensures encrypted[..] == EncryptAll(c, key, input)
  {
    encrypted := new Record[|input|];
    for i := 0 to |input|
      invariant forall k :: 0 <= k < i ==> encrypted[k] == Encrypted(c, key, input[k])
    {
      var point := c.hashToCurve(input[i]);
      point := c.multiply(key, point);
      encrypted[i] := c.toBytes(point);
    }
  }

  /** Copies the last `n` bytes of `from`, last byte first. */
  method CopyTail(from: Record, n: nat) returns (to: array<Byte>)
    requires n <= |from|
    ensures fresh(to) && to.Length == n && forall k :: 0 <= k < n ==> to[k] == from[|from| - n + k]
    ensures to[..] == Tail(from, n)
  {
    to := new Byte[n];
    var skipped := |from| - n;
    for k := 0 to n
      invariant forall j :: n - k <= j < n ==> to[j] == from[skipped + j]
    {
      to[n - 1 - k] := from[|from| - 1 - k];
    }
    assert to[..] == from[skipped..];
  }

  /** Byte `b` of `after` is byte `21 + b` of the encoding that `before` has once it is encrypted again. */
  ghost predicate TailByte(c: Curve, key: int, before: Record, after: Record, b: nat)
    requires b < 12
  {
    var bytes := c.toBytes(c.multiply(key, c.fromBytes(before)));
    |bytes| == 33 && |after| == 12 && after[b] == bytes[21 + b]
  }

  method DoublelyEncryptKeys(c: Curve, key: int, keys: array<Record>)
    requires CurveOk(c)
    modifies keys
    ensures keys[..] == ReencryptAll(c, key, old(keys[..]))
    ensures forall i, b :: 0 <= i < keys.Length && 0 <= b < 12 ==> TailByte(c, key, old(keys[..])[i], keys[i], b)
  {
    for i := 0 to keys.Length
      invariant forall k :: 0 <= k < i ==> keys[k] == Reencrypted(c, key, old(keys[k]))
      invariant forall k :: i <= k < keys.Length ==> keys[k] == old(keys[k])
    {
      var point := c.fromBytes(keys[i]);
      point := c.multiply(key, point);
      assert |c.toBytes(point)| == POINT_LENGTH;
      var tail := CopyTail(c.toBytes(point), COMPARE_LENGTH);
      keys[i] := tail[..];
    }
    forall i, b | 0 <= i < keys.Length && 0 <= b < 12 ensures TailByte(c, key, old(keys[..])[i], keys[i], b) {
      ReencryptedByte(c, key, old(keys[..])[i], b);
    }
  }

  // ---- the intersection ----

  /** Which of my doubly encrypted keys occur among the other party's. */
  function Flags(remote: seq<Record>, mine: seq<Record>): seq<bool> {
    Map(r => r in remote, mine)
  }

  /** The output list when it held `before`: with any list empty, it is left as it was. */
  function Intersection(remote: seq<Record>, mine: seq<Record>, input: seq<string>, before: seq<string>): seq<string>
    requires |mine| == |input|
  {
    if remote == [] || mine == [] || input == [] then before
    else Select(input, Flags(remote, mine))
  }

  method CalculateIntersection(
      remote: seq<Record>, mine: seq<Record>, input: seq<string>, before: seq<string>)
      returns (output: seq<string>)
    requires IsSorted(remote) && |mine| == |input|
    ensures output == Intersection(remote, mine, input, before)
  {
    if remote == [] || mine == [] || input == [] {
      return before;
    }
    var indices := new bool[|input|](_ => false);
    var count := 0;
    ghost var flags := Flags(remote, mine);
    for i := 0 to |mine|
      invariant forall k :: 0 <= k < i ==> indices[k] == flags[k]
      invariant forall k :: i <= k < |input| ==> !indices[k]
      invariant count == CountTrue(flags[..i])
    {
      var found := BinarySearch(remote, mine[i]);
      if found {
        indices[i] := true;
        count := count + 1;
      }
      CountPrefix(flags, i);
    }
    assert indices[..] == flags && flags[..|mine|] == flags;
    output := EmitFlagged(input, indices, count);
  }

  function Cardinality(remote: seq<Record>, mine: seq<Record>): nat {
    if remote == [] || mine == [] then 0 else CountTrue(Flags(remote, mine))
  }

  method CalculateCardinalityOnly(remote: seq<Record>, mine: seq<Record>) returns (count: nat)
    requires IsSorted(remote)
    ensures count == Cardinality(remote, mine)
  {
    if remote == [] || mine == [] {
      return 0;
    }
    count := 0;
    ghost var flags := Flags(remote, mine);
    for i := 0 to |mine|
      invariant count == CountTrue(flags[..i])
    {
      var found := BinarySearch(remote, mine[i]);
      if found {
        count := count + 1;
      }
      CountPrefix(flags, i);
    }
    assert flags[..|mine|] == flags;
  }
}
