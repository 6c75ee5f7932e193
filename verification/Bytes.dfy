/** Byte records, their lexicographic order, sorting and binary search. */
module Bytes {
  import opened Sequences

  type Byte = bv8
  type Record = seq<Byte>

  /** The last `n` bytes of a record, or all of a shorter one. */
  function Tail(r: Record, n: nat): Record {
    if n <= |r| then r[|r| - n..] else r
  }

  /** The first `n` bytes of a record, or all of a shorter one. */
  function Head(r: Record, n: nat): Record {
    if n <= |r| then r[..n] else r
  }

  /** Which bytes each of them keeps. */
  lemma KeptBytes(r: Record, n: nat, k: nat)
    requires k < n <= |r|
    ensures |Tail(r, n)| == |Head(r, n)| == n
    ensures Tail(r, n)[k] == r[|r| - n + k] && Head(r, n)[k] == r[k]
  {
  }

  lemma SameTailIff(a: Record, b: Record, n: nat)
    requires n <= |a| == |b|
    ensures Tail(a, n) == Tail(b, n) <==> forall k :: |a| - n <= k < |a| ==> a[k] == b[k]
  {
    if Tail(a, n) == Tail(b, n) {
      forall k | |a| - n <= k < |a| ensures a[k] == b[k] {
        assert Tail(a, n)[k - (|a| - n)] == Tail(b, n)[k - (|a| - n)];
      }
    }
  }

  lemma SameHeadIff(a: Record, b: Record, n: nat)
    requires n <= |a| && n <= |b|
    ensures Head(a, n) == Head(b, n) <==> forall k :: 0 <= k < n ==> a[k] == b[k]
  {
    if Head(a, n) == Head(b, n) {
      forall k | 0 <= k < n ensures a[k] == b[k] {
        assert Head(a, n)[k] == Head(b, n)[k];
      }
    }
  }

  method FlattenRecords(records: seq<Record>) returns (buffer: Record)
    ensures buffer == Flatten(records)
  {
    buffer := [];
    for i := 0 to |records|
      invariant buffer == Flatten(records[..i])
    {
      buffer := buffer + records[i];
      FlattenPrefix(records, i);
    }
    assert records[..|records|] == records;
  }

  method SliceRecords(buffer: Record, n: nat, width: nat) returns (records: seq<Record>)
    requires |buffer| == n * width
    ensures records == Slices(buffer, n, width)
  {
    records := [];
    for i := 0 to n
      invariant records == Slices(buffer, n, width)[..i]
    {
      InBuffer(i, n, width);
      records := records + [buffer[i * width..(i + 1) * width]];
    }
  }

  predicate Less(a: Record, b: Record) {
    b != [] && (a == [] || a[0] < b[0] || (a[0] == b[0] && Less(a[1..], b[1..])))
  }

  lemma {:induction false} LessTotal(a: Record, b: Record)
    ensures Less(a, b) || a == b || Less(b, a)
    ensures !(Less(a, b) && Less(b, a)) && !(a == b && Less(a, b))
  {
    if a != [] && b != [] && a[0] == b[0] {
      LessTotal(a[1..], b[1..]);
      assert a == [a[0]] + a[1..] && b == [b[0]] + b[1..];
    }
  }

  lemma {:induction false} LessTransitive(a: Record, b: Record, c: Record)
    requires Less(a, b) && Less(b, c)
    ensures Less(a, c)
  {
    if a != [] && a[0] == b[0] && b[0] == c[0] {
      LessTransitive(a[1..], b[1..], c[1..]);
    }
  }

  /** The first `k` bytes agree, and then `a` ends or has the smaller byte. */
  ghost predicate LessAt(a: Record, b: Record, k: nat) {
    k <= |a| && k < |b| && a[..k] == b[..k] && (k == |a| || a[k] < b[k])
  }

  /** The order is lexicographic: the first difference decides. */
  lemma {:induction false} LessIff(a: Record, b: Record)
    ensures Less(a, b) <==> exists k: nat :: LessAt(a, b, k)
  {
    if a == [] || b == [] || a[0] != b[0] {
      if Less(a, b) {
        assert LessAt(a, b, 0);
      }
    } else {
      LessIff(a[1..], b[1..]);
      if k: nat :| LessAt(a[1..], b[1..], k) {
        assert a[..k + 1] == [a[0]] + a[1..][..k] && b[..k + 1] == [b[0]] + b[1..][..k];
        assert LessAt(a, b, k + 1);
      }
      if k: nat :| LessAt(a, b, k) {
        assert k > 0;
        assert a[1..][..k - 1] == a[..k][1..] && b[1..][..k - 1] == b[..k][1..];
        assert LessAt(a[1..], b[1..], k - 1);
      }
    }
  }

  predicate AtMost(a: Record, b: Record) {
    a == b || Less(a, b)
  }

  ghost predicate IsSorted(s: seq<Record>) {
    forall i, j :: 0 <= i < j < |s| ==> AtMost(s[i], s[j])
  }

  function Inserted(s: seq<Record>, x: Record): seq<Record> {
    if s == [] || AtMost(s[|s| - 1], x) then s + [x] else Inserted(s[..|s| - 1], x) + [s[|s| - 1]]
  }

  /** The sorted arrangement of a list. */
  function Sort(s: seq<Record>): seq<Record> {
    if s == [] then [] else Inserted(Sort(s[..|s| - 1]), s[|s| - 1])
  }

  lemma {:induction false} InsertedSorted(s: seq<Record>, x: Record)
    requires IsSorted(s)
    ensures IsSorted(Inserted(s, x))
    ensures multiset(Inserted(s, x)) == multiset(s) + multiset{x}
  {
    if s != [] {
      var front, last := s[..|s| - 1], s[|s| - 1];
      assert s == front + [last];
      if AtMost(last, x) {
        forall i | 0 <= i < |s| ensures AtMost(s[i], x) {
          if s[i] != last && last != x {
            LessTransitive(s[i], last, x);
          }
        }
      } else {
        InsertedSorted(front, x);
        LessTotal(last, x);
        var r := Inserted(front, x);
        forall i | 0 <= i < |r| ensures AtMost(r[i], last) {
          assert r[i] in multiset(r);
          assert r[i] in front || r[i] == x;
        }
      }
    }
  }

  lemma {:induction false} SortSorts(s: seq<Record>)
    ensures IsSorted(Sort(s)) && multiset(Sort(s)) == multiset(s)
  {
    if s != [] {
      SortSorts(s[..|s| - 1]);
      InsertedSorted(Sort(s[..|s| - 1]), s[|s| - 1]);
      assert s == s[..|s| - 1] + [s[|s| - 1]];
    }
  }

  lemma SortMembers(s: seq<Record>)
    ensures |Sort(s)| == |s| && forall x :: x in Sort(s) <==> x in s
  {
    SortSorts(s);
    assert |multiset(Sort(s))| == |Sort(s)| && |multiset(s)| == |s|;
    forall x ensures x in Sort(s) <==> x in s {
      assert x in Sort(s) <==> x in multiset(Sort(s));
    }
  }

  /** Bisection for the first position that is not below the key. */
  method BinarySearch(s: seq<Record>, key: Record) returns (found: bool)
    requires IsSorted(s)
    ensures found <==> key in s
  {
    var lo, hi := 0, |s|;
    while lo < hi
      invariant 0 <= lo <= hi <= |s|
      invariant forall i :: 0 <= i < lo ==> Less(s[i], key)
      invariant forall i :: hi <= i < |s| ==> !Less(s[i], key)
    {
      var mid := lo + (hi - lo) / 2;
      if Less(s[mid], key) {
        LessUpTo(s, mid, key);
        lo := mid + 1;
      } else {
        NotLessFrom(s, mid, key);
        hi := mid;
      }
    }
    forall i | 0 <= i < lo ensures s[i] != key {
      LessTotal(s[i], key);
    }
    if lo < |s| && s[lo] != key {
      forall i | lo <= i < |s| ensures s[i] != key {
        LessTotal(s[lo], key);
        LessTotal(s[lo], s[i]);
      }
    }
    found := lo < |s| && !Less(key, s[lo]);
    if lo < |s| {
      LessTotal(s[lo], key);
    }
  }

  lemma LessUpTo(s: seq<Record>, mid: nat, key: Record)
    requires IsSorted(s) && mid < |s| && Less(s[mid], key)
    ensures forall i :: 0 <= i <= mid ==> Less(s[i], key)
  {
    forall i | 0 <= i <= mid ensures Less(s[i], key) {
      if s[i] != s[mid] {
        LessTransitive(s[i], s[mid], key);
      }
    }
  }

  lemma NotLessFrom(s: seq<Record>, mid: nat, key: Record)
    requires IsSorted(s) && mid < |s| && !Less(s[mid], key)
    ensures forall i :: mid <= i < |s| ==> !Less(s[i], key)
  {
    forall i | mid <= i < |s| && Less(s[i], key) ensures false {
      if s[i] != s[mid] {
        LessTransitive(s[mid], s[i], key);
      }
    }
  }
}
