/** The unsigned 64-bit words of C++: arithmetic wraps, exclusive-or works bit by bit. */
module Words {
  import opened Sequences

  const MODULUS: nat := 0x1_0000_0000_0000_0000
  /** Only the low 62 bits enter the comparison of bin contents. */
  const COMPARED: nat := 0x4000_0000_0000_0000

  type Word = w: nat | w < MODULUS

  function OfNat(n: nat): Word {
    n % MODULUS
  }

  function Add(a: Word, b: Word): Word {
    if a + b < MODULUS then a + b else a + b - MODULUS
  }

  function Sub(a: Word, b: Word): Word {
    if b <= a then a - b else MODULUS + a - b
  }

  function Mul(a: Word, b: Word): Word {
    (a * b) % MODULUS
  }

  function Low(a: Word): Word {
    a % COMPARED
  }

  function Bit(b: bool): Word {
    if b then 1 else 0
  }

  /** Exclusive-or of the binary digits. */
  function XorDigits(a: nat, b: nat): nat
    decreases a + b
  {
    if a == 0 && b == 0 then 0 else 2 * XorDigits(a / 2, b / 2) + (a + b) % 2
  }

  predicate PowerOfTwo(m: nat) {
    m == 1 || (m > 0 && m % 2 == 0 && PowerOfTwo(m / 2))
  }

  lemma {:induction false} XorBound(a: nat, b: nat, m: nat)
    requires a < m && b < m && PowerOfTwo(m)
    ensures XorDigits(a, b) < m
    decreases m
  {
    if m > 1 && !(a == 0 && b == 0) {
      XorBound(a / 2, b / 2, m / 2);
    }
  }

  lemma {:induction false} PowerSquared(m: nat, n: nat)
    requires PowerOfTwo(m) && PowerOfTwo(n)
    ensures PowerOfTwo(m * n)
    decreases n
  {
    if n > 1 {
      PowerSquared(m, n / 2);
      DoubledFactor(m, n / 2);
      PowerDoubled(m * (n / 2));
    }
  }

  lemma DoubledFactor(m: nat, h: nat)
    ensures m * (2 * h) == 2 * (m * h)
  {
  }

  lemma PowerDoubled(p: nat)
    requires PowerOfTwo(p)
    ensures PowerOfTwo(2 * p)
  {
  }

  lemma ModulusIsPower()
    ensures PowerOfTwo(MODULUS)
  {
    assert PowerOfTwo(0x10);
    PowerSquared(0x10, 0x10);
    PowerSquared(0x100, 0x100);
    PowerSquared(0x1_0000, 0x1_0000);
    PowerSquared(0x1_0000_0000, 0x1_0000_0000);
  }

  function Xor(a: Word, b: Word): Word {
    ModulusIsPower();
    XorBound(a, b, MODULUS);
    XorDigits(a, b)
  }

  lemma {:induction false} XorDigitsZero(a: nat)
    ensures XorDigits(a, 0) == a && XorDigits(0, a) == a && XorDigits(a, a) == 0
  {
    if a > 0 {
      XorDigitsZero(a / 2);
    }
  }

  lemma {:induction false} XorDigitsCommutes(a: nat, b: nat)
    ensures XorDigits(a, b) == XorDigits(b, a)
    decreases a + b
  {
    if a != 0 || b != 0 {
      XorDigitsCommutes(a / 2, b / 2);
    }
  }

  lemma XorDigitsSplit(a: nat, b: nat)
    ensures XorDigits(a, b) / 2 == XorDigits(a / 2, b / 2) && XorDigits(a, b) % 2 == (a + b) % 2
  {
  }

  lemma SameHalves(x: nat, y: nat)
    requires x / 2 == y / 2 && x % 2 == y % 2
    ensures x == y
  {
  }

  lemma Parity(x: nat, a: nat, b: nat, c: nat)
    requires x % 2 == (a + b) % 2
    ensures (x + c) % 2 == (a + b + c) % 2
  {
  }

  lemma {:induction false} XorDigitsAssociates(a: nat, b: nat, c: nat)
    ensures XorDigits(XorDigits(a, b), c) == XorDigits(a, XorDigits(b, c))
    decreases a + b + c
  {
    if a == 0 && b == 0 && c == 0 {
    } else {
      var ab, bc := XorDigits(a, b), XorDigits(b, c);
      XorDigitsAssociates(a / 2, b / 2, c / 2);
      XorDigitsSplit(a, b);
      XorDigitsSplit(b, c);
      XorDigitsSplit(ab, c);
      XorDigitsSplit(a, bc);
      Parity(ab, a, b, c);
      Parity(bc, b, c, a);
      SameHalves(XorDigits(ab, c), XorDigits(a, bc));
    }
  }

  lemma XorCancels(a: Word, p: Word)
    ensures Xor(Xor(a, p), p) == a
  {
    XorDigitsAssociates(a, p, p);
    XorDigitsZero(p);
    XorDigitsZero(a);
  }

  /** Binary digit `i` of a number, least significant first. */
  function DigitAt(n: nat, i: nat): nat {
    if i == 0 then n % 2 else DigitAt(n / 2, i - 1)
  }

  /** Exclusive-or works digit by digit. */
  lemma {:induction false} XorDigitAt(a: nat, b: nat, i: nat)
    ensures DigitAt(XorDigits(a, b), i) == 1 <==> DigitAt(a, i) != DigitAt(b, i)
    decreases i
  {
    XorDigitsSplit(a, b);
    if i == 0 {
      OddSum(a, b);
    } else {
      XorDigitAt(a / 2, b / 2, i - 1);
    }
  }

  lemma OddSum(a: nat, b: nat)
    ensures (a + b) % 2 == 1 <==> a % 2 != b % 2
  {
  }

  /** Words are the 64-bit ones: sums, differences and products wrap there, and comparison sees the low 62 bits. */
  lemma WordsWrap(a: Word, b: Word)
    ensures Add(a, b) == (a + b) % 0x1_0000_0000_0000_0000
    ensures Sub(a, b) == (a - b) % 0x1_0000_0000_0000_0000
    ensures Mul(a, b) == (a * b) % 0x1_0000_0000_0000_0000
    ensures Low(a) == a % 0x4000_0000_0000_0000
  {
  }

  function NatTotal(ws: seq<Word>): nat {
    if ws == [] then 0 else NatTotal(ws[..|ws| - 1]) + ws[|ws| - 1]
  }

  /** A total is the sum of the numbers, wrapped once. */
  lemma {:induction false} TotalWraps(ws: seq<Word>)
    ensures Total(ws) == NatTotal(ws) % MODULUS
  {
    if ws != [] {
      TotalWraps(ws[..|ws| - 1]);
    }
  }

  lemma XorPairs(a: Word, b: Word, c: Word, d: Word)
    ensures Xor(Xor(a, b), Xor(c, d)) == Xor(Xor(a, c), Xor(b, d))
  {
    XorDigitsAssociates(Xor(a, b), c, d);
    XorDigitsAssociates(a, b, c);
    XorDigitsCommutes(b, c);
    XorDigitsAssociates(a, c, b);
    XorDigitsAssociates(Xor(a, c), b, d);
  }

  /** A value less a random word, plus that word, is the value: sums wrap. */
  lemma RandomCancels(value: Word, random: Word)
    ensures Add(random, Sub(value, random)) == value
  {
  }

  lemma TimesBit(b: bool, w: Word)
    ensures Mul(Bit(b), w) == if b then w else 0
  {
  }

  lemma AddPairs(a: Word, b: Word, c: Word, d: Word)
    ensures Add(Add(a, b), Add(c, d)) == Add(Add(a, c), Add(b, d))
  {
  }

  function Total(ws: seq<Word>): Word {
    if ws == [] then 0 else Add(Total(ws[..|ws| - 1]), ws[|ws| - 1])
  }

  function XorTotal(ws: seq<Word>): Word {
    if ws == [] then 0 else Xor(XorTotal(ws[..|ws| - 1]), ws[|ws| - 1])
  }

  lemma {:induction false} TotalPrefix(ws: seq<Word>, n: nat)
    requires n < |ws|
    ensures Total(ws[..n + 1]) == Add(Total(ws[..n]), ws[n])
    ensures XorTotal(ws[..n + 1]) == Xor(XorTotal(ws[..n]), ws[n])
  {
    assert ws[..n + 1][..n] == ws[..n];
  }

  function Sums(a: seq<Word>, b: seq<Word>): (r: seq<Word>)
    requires |a| == |b|
    ensures |r| == |a| && forall i :: 0 <= i < |r| ==> r[i] == Add(a[i], b[i])
  {
    seq<Word>(|a|, i requires 0 <= i < |a| => Add(a[i], b[i]))
  }

  function Xors(a: seq<Word>, b: seq<Word>): (r: seq<Word>)
    requires |a| == |b|
    ensures |r| == |a| && forall i :: 0 <= i < |r| ==> r[i] == Xor(a[i], b[i])
  {
    seq<Word>(|a|, i requires 0 <= i < |a| => Xor(a[i], b[i]))
  }

  function Products(a: seq<Word>, b: seq<Word>): (r: seq<Word>)
    requires |a| == |b|
    ensures |r| == |a| && forall i :: 0 <= i < |r| ==> r[i] == Mul(a[i], b[i])
  {
    seq<Word>(|a|, i requires 0 <= i < |a| => Mul(a[i], b[i]))
  }

  /** Adding the totals of two share vectors adds the shares. */
  lemma {:induction false} TotalOfSums(a: seq<Word>, b: seq<Word>)
    requires |a| == |b|
    ensures Add(Total(a), Total(b)) == Total(Sums(a, b))
    ensures Xor(XorTotal(a), XorTotal(b)) == XorTotal(Xors(a, b))
  {
    if a != [] {
      var n := |a| - 1;
      TotalOfSums(a[..n], b[..n]);
      assert Sums(a, b)[..n] == Sums(a[..n], b[..n]) && Xors(a, b)[..n] == Xors(a[..n], b[..n]);
      AddPairs(Total(a[..n]), a[n], Total(b[..n]), b[n]);
      XorPairs(XorTotal(a[..n]), a[n], XorTotal(b[..n]), b[n]);
    }
  }

  ghost predicate ZeroExcept(ws: seq<Word>, k: nat) {
    forall i :: 0 <= i < |ws| && i != k ==> ws[i] == 0
  }

  /** A vector with at most one entry that is not zero totals to that entry. */
  lemma {:induction false} TotalOfOne(ws: seq<Word>, k: nat)
    requires ZeroExcept(ws, k)
    ensures Total(ws) == XorTotal(ws) == if k < |ws| then ws[k] else 0
  {
    if ws != [] {
      var n := |ws| - 1;
      TotalOfOne(ws[..n], k);
      XorDigitsZero(ws[n]);
      XorDigitsZero(Total(ws[..n]));
    }
  }

  lemma {:induction false} TotalUpdate(ws: seq<Word>, x: nat, v: Word)
    requires x < |ws| && ws[x] == 0
    ensures Total(ws[x := v]) == Add(Total(ws), v)
  {
    var n := |ws| - 1;
    if x < n {
      TotalUpdate(ws[..n], x, v);
      assert ws[x := v][..n] == ws[..n][x := v];
      AddPairs(Total(ws[..n]), v, ws[n], 0);
      assert Add(ws[n], 0) == ws[n] && Add(v, 0) == v;
    } else {
      assert ws[x := v][..n] == ws[..n];
    }
  }

  lemma {:induction false} TotalZero(ws: seq<Word>)
    requires forall i :: 0 <= i < |ws| ==> ws[i] == 0
    ensures Total(ws) == 0
  {
    TotalOfOne(ws, |ws|);
  }

  // ---- summing over bins and summing over keys ----

  /** The value of each selected bin's target; zero elsewhere. */
  ghost function ByBin(select: seq<bool>, target: seq<nat>, value: seq<Word>): (r: seq<Word>)
    requires |select| == |target| && forall b :: 0 <= b < |select| && select[b] ==> target[b] < |value|
    ensures |r| == |select|
    ensures forall b :: 0 <= b < |r| ==> r[b] == if select[b] then value[target[b]] else 0
  {
    seq<Word>(|select|, b requires 0 <= b < |select| => if select[b] then value[target[b]] else 0)
  }

  /** The value of each target that some selected bin has; zero elsewhere. */
  ghost function ByTarget(select: seq<bool>, target: seq<nat>, value: seq<Word>): (r: seq<Word>)
    requires |select| == |target|
    ensures |r| == |value|
    ensures forall x :: 0 <= x < |r| ==> r[x] == if FlaggedWith(target, select, x) then value[x] else 0
  {
    seq<Word>(|value|, x requires 0 <= x < |value| => if FlaggedWith(target, select, x) then value[x] else 0)
  }

  /** One more bin adds the value of its target, if it is selected. */
  lemma ByTargetStep(select: seq<bool>, target: seq<nat>, value: seq<Word>, n: nat)
    requires n < |select| == |target| && DistinctWhere(target, select) && (select[n] ==> target[n] < |value|)
    ensures Total(ByTarget(select[..n + 1], target[..n + 1], value))
      == Add(Total(ByTarget(select[..n], target[..n], value)), if select[n] then value[target[n]] else 0)
  {
    var before, after := ByTarget(select[..n], target[..n], value), ByTarget(select[..n + 1], target[..n + 1], value);
    FlaggedPrefix(target, select, n);
    FlaggedTrim(target, select, n);
    FlaggedTrim(target, select, n + 1);
    if select[n] {
      assert !FlaggedWith(target[..n], select, target[n]);
      TotalUpdate(before, target[n], value[target[n]]);
      forall x | 0 <= x < |value| ensures after[x] == before[target[n] := value[target[n]]][x] {
        assert FlaggedWith(target[..n + 1], select, x) <==> FlaggedWith(target[..n], select, x) || target[n] == x;
      }
      assert after == before[target[n] := value[target[n]]];
    } else {
      forall x | 0 <= x < |value| ensures after[x] == before[x] {
        assert FlaggedWith(target[..n + 1], select, x) <==> FlaggedWith(target[..n], select, x);
      }
      assert after == before;
    }
  }

  lemma FlaggedTrim(target: seq<nat>, select: seq<bool>, n: nat)
    requires n <= |select| == |target|
    ensures forall x :: FlaggedWith(target[..n], select[..n], x) <==> FlaggedWith(target[..n], select, x)
  {
  }

  lemma NothingByTarget(select: seq<bool>, target: seq<nat>, value: seq<Word>)
    requires |select| == |target|
    ensures Total(ByTarget(select[..0], target[..0], value)) == 0
  {
    TotalZero(ByTarget(select[..0], target[..0], value));
  }

  lemma ReindexStep(select: seq<bool>, target: seq<nat>, value: seq<Word>, n: nat)
    requires n < |select| == |target| && DistinctWhere(target, select)
    requires forall b :: 0 <= b < |select| && select[b] ==> target[b] < |value|
    requires Total(ByBin(select, target, value)[..n]) == Total(ByTarget(select[..n], target[..n], value))
    ensures Total(ByBin(select, target, value)[..n + 1]) == Total(ByTarget(select[..n + 1], target[..n + 1], value))
  {
    TotalPrefix(ByBin(select, target, value), n);
    ByTargetStep(select, target, value, n);
  }

  lemma {:induction false} ReindexPrefix(select: seq<bool>, target: seq<nat>, value: seq<Word>, n: nat)
    requires n <= |select| == |target| && DistinctWhere(target, select)
    requires forall b :: 0 <= b < |select| && select[b] ==> target[b] < |value|
    ensures Total(ByBin(select, target, value)[..n]) == Total(ByTarget(select[..n], target[..n], value))
  {
    if n == 0 {
      NothingByTarget(select, target, value);
    } else {
      ReindexPrefix(select, target, value, n - 1);
      ReindexStep(select, target, value, n - 1);
    }
  }

  /** A sum over bins is a sum over targets when no two selected bins share their target. */
  lemma Reindex(select: seq<bool>, target: seq<nat>, value: seq<Word>)
    requires |select| == |target| && DistinctWhere(target, select)
    requires forall b :: 0 <= b < |select| && select[b] ==> target[b] < |value|
    ensures Total(ByBin(select, target, value)) == Total(ByTarget(select, target, value))
  {
    ReindexPrefix(select, target, value, |select|);
    assert select[..|select|] == select && target[..|target|] == target;
    assert ByBin(select, target, value)[..|select|] == ByBin(select, target, value);
  }

  lemma CountOneMore(n: nat, b: bool)
    ensures Add(OfNat(n), Bit(b)) == OfNat(n + if b then 1 else 0)
  {
  }

  /** A total of bits counts them. */
  lemma {:induction false} TotalOfBits(flags: seq<bool>, ws: seq<Word>)
    requires |ws| == |flags| && forall i :: 0 <= i < |ws| ==> ws[i] == Bit(flags[i])
    ensures Total(ws) == OfNat(CountTrue(flags))
  {
    if flags != [] {
      var n := |flags| - 1;
      TotalOfBits(flags[..n], ws[..n]);
      CountOneMore(CountTrue(flags[..n]), flags[n]);
    }
  }
}
