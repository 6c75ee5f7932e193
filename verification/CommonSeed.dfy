/**
 The common generator of two parties: how they agree on its seed, and how draws move it
 (src/setops/pjc/circuit_psi.cpp, src/setops/psi/kkrt_psi.cpp).
 */
module CommonSeed {
  import opened Sequences
  import opened Network
  import opened Hashing

  /** A generator object: what it will yield, and how far it has come. */
  datatype Generator = Generator(stream: nat -> Block, at: nat)

  /** One draw: the next block, and the generator moved past it. */
  function Drawn(g: Generator): (Block, Generator) {
    (g.stream(g.at), g.(at := g.at + 1))
  }

  /** What a seed variable holds before it is filled. */
  function NoSeed(): Block {
    Block(seq(ITEM_LENGTH, _ => 0))
  }

  // ---- agreeing on the seed ----

  function XorBlock(a: Block, b: Block): Block {
    Block(seq<bv8>(ITEM_LENGTH, i requires 0 <= i < ITEM_LENGTH => a.bytes[i] ^ b.bytes[i]))
  }

  lemma XorBlockCommutes(a: Block, b: Block)
    ensures XorBlock(a, b) == XorBlock(b, a)
  {
    forall i | 0 <= i < ITEM_LENGTH ensures a.bytes[i] ^ b.bytes[i] == b.bytes[i] ^ a.bytes[i] {
    }
    assert XorBlock(a, b).bytes == XorBlock(b, a).bytes;
  }

  /** Whatever block a party sends, each seed comes from exactly one block of the other party: the
      combination is taken back by combining once more, and zeros change nothing. */
  lemma XorBlockUndone(mine: Block, theirs: Block, seed: Block)
    ensures XorBlock(mine, theirs) == seed <==> theirs == XorBlock(mine, seed)
    ensures XorBlock(mine, NoSeed()) == mine
  {
    XorBlockTwice(mine, theirs);
    XorBlockTwice(mine, seed);
    forall i | 0 <= i < ITEM_LENGTH ensures XorBlock(mine, NoSeed()).bytes[i] == mine.bytes[i] {
    }
    assert XorBlock(mine, NoSeed()).bytes == mine.bytes;
  }

  lemma XorBlockTwice(a: Block, b: Block)
    ensures XorBlock(a, XorBlock(a, b)) == b
  {
    forall i | 0 <= i < ITEM_LENGTH ensures a.bytes[i] ^ (a.bytes[i] ^ b.bytes[i]) == b.bytes[i] {
    }
    assert XorBlock(a, XorBlock(a, b)).bytes == b.bytes;
  }

  type InitProgram = Prog<Block, (), (), Block>
  type InitNet = Config<Block, (), (), Block>

  /** Both roles send their random block first, then combine it with the one they receive. */
  ghost function InitRole(mine: Block): InitProgram {
    Send(mine, Recv(Combine(mine)))
  }

  ghost function Combine(mine: Block): Block -> InitProgram {
    theirs => InitDone(mine, theirs)
  }

  ghost function InitDone(mine: Block, theirs: Block): InitProgram {
    Ret(XorBlock(mine, theirs))
  }

  /** Every schedule terminates, with the same seed at both parties. */
  lemma SeedsAgree(ideal: Ideal<(), ()>, a: Block, b: Block)
    ensures AlwaysEnds(ideal, Start(InitRole(a), InitRole(b)),
      Config(Ret(XorBlock(a, b)), Ret(XorBlock(a, b)), [], [], 0))
  {
    var f: InitNet := Config(Ret(XorBlock(a, b)), Ret(XorBlock(a, b)), [], [], 0);
    XorBlockCommutes(a, b);
    EndsHere(ideal, f);
    var c3: InitNet := Config(Ret(XorBlock(a, b)), Recv(Combine(b)), [a], [], 0);
    var c2: InitNet := Config(Recv(Combine(a)), Recv(Combine(b)), [a], [b], 0);
    var c1: InitNet := Config(Recv(Combine(a)), InitRole(b), [a], [], 0);
    assert Step(ideal, c3, MoveB) == f;
    EndsBefore(ideal, c3, MoveB, f);
    assert Step(ideal, c2, MoveA) == c3;
    EndsBefore(ideal, c2, MoveA, f);
    assert Step(ideal, c1, MoveB) == c2;
    EndsBefore(ideal, c1, MoveB, f);
    assert Step(ideal, Start(InitRole(a), InitRole(b)), MoveA) == c1;
    EndsBefore(ideal, Start(InitRole(a), InitRole(b)), MoveA, f);
    OneEndsAllEnd(ideal, Start(InitRole(a), InitRole(b)), f);
  }

  /** A state that cannot go on holds the same seed at both parties. */
  lemma ReadyAlike(ideal: Ideal<(), ()>, a: Block, b: Block, m: nat, ready: InitNet)
    requires Reaches(ideal, Start(InitRole(a), InitRole(b)), m, ready) && Stuck(ready)
    ensures ready.a.Ret? && ready.b == ready.a
  {
    SeedsAgree(ideal, a, b);
    StuckAtEnd(ideal, Start(InitRole(a), InitRole(b)),
      Config(Ret(XorBlock(a, b)), Ret(XorBlock(a, b)), [], [], 0), m, ready);
  }

  // ---- counting draws ----

  /** How many draws lead from one state of a generator to another. */
  ghost predicate DrawnTimes(before: Generator, n: nat, after: Generator)
    decreases n
  {
    if n == 0 then after == before else DrawnTimes(Drawn(before).1, n - 1, after)
  }

  lemma {:induction false} DrawsAdvance(before: Generator, n: nat, after: Generator)
    requires DrawnTimes(before, n, after)
    ensures after.stream == before.stream && after.at == before.at + n
    decreases n
  {
    if n > 0 {
      DrawsAdvance(Drawn(before).1, n - 1, after);
    }
  }

  lemma {:induction false} AdvancesDraw(before: Generator, n: nat, after: Generator)
    requires after.stream == before.stream && after.at == before.at + n
    ensures DrawnTimes(before, n, after)
    decreases n
  {
    if n > 0 {
      AdvancesDraw(Drawn(before).1, n - 1, after);
    }
  }

  /** A chain of single draws. */
  lemma {:induction false} SingleDraws(chain: seq<Generator>, n: nat)
    requires n < |chain| && forall k :: 0 <= k < |chain| - 1 ==> chain[k + 1] == Drawn(chain[k]).1
    ensures DrawnTimes(chain[0], n, chain[n])
  {
    AtPosition(chain, n);
    AdvancesDraw(chain[0], n, chain[n]);
  }

  lemma {:induction false} AtPosition(chain: seq<Generator>, n: nat)
    requires n < |chain| && forall k :: 0 <= k < |chain| - 1 ==> chain[k + 1] == Drawn(chain[k]).1
    ensures chain[n].stream == chain[0].stream && chain[n].at == chain[0].at + n
  {
    if n > 0 {
      AtPosition(chain, n - 1);
    }
  }

  /** Two copies of a generator have been drawn from, the first one once more often if `extra`. */
  ghost predicate Advances(a: Generator, b: Generator, extra: bool, a': Generator, b': Generator) {
    && a'.stream == a.stream && b'.stream == b.stream && b'.at >= b.at
    && a'.at - a.at == b'.at - b.at + if extra then 1 else 0
  }

  /** The lead of the first copy is the number of extra draws. */
  lemma {:induction false} LeadIsCount(a: seq<Generator>, b: seq<Generator>, extras: seq<bool>, n: nat)
    requires |a| == |b| == |extras| + 1 && a[0] == b[0] && n <= |extras|
    requires forall k :: 0 <= k < |extras| ==> Advances(a[k], b[k], extras[k], a[k + 1], b[k + 1])
    ensures a[n].stream == b[n].stream && a[n].at == b[n].at + CountTrue(extras[..n])
  {
    if n > 0 {
      LeadIsCount(a, b, extras, n - 1);
      CountPrefix(extras, n - 1);
      assert Advances(a[n - 1], b[n - 1], extras[n - 1], a[n], b[n]);
    }
  }
}
