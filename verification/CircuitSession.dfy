/**
 How long the two Circuit-PSI parties' copies of the common generator stay in step over a sequence of
 calls, and what the calls then share (src/setops/pjc/circuit_psi.cpp).
 */
module CircuitSession {
  import opened Network
  import opened Hashing
  import opened Sequences
  import opened CommonSeed
  import opened CircuitShares
  import opened CircuitProtocol
  import opened CircuitRun
  import opened CircuitJoin
  import opened CircuitTotals

  // ---- staying in step ----

  /** One call: the two parties, each with its copy of the common generator, and what is chosen anew for
      it: the OPRF, and how the joint functionalities hand out their shares. */
  datatype Invocation = Invocation(su: Setup, ideal: Ideal<Input, Output>, sender: Party, receiver: Party)

  /** The call has bins to hash into, and the libraries keep their contracts in it. */
  ghost predicate Sensible(c: Invocation) {
    && BinCount(c.su, c.receiver) > 0 && HintBins(c.su, |c.sender.keys|, BinCount(c.su, c.receiver)) > 0
    && Kept(c.su, c.sender, c.receiver) && IdealOk(c.ideal, c.su.oprf)
  }

  ghost predicate RanTo(c: Invocation, g: Net) {
    && Stuck(g)
    && exists m: nat :: Reaches(c.ideal, Start(SenderRole(c.su, c.sender), ReceiverRole(c.su, c.receiver)), m, g)
  }

  lemma RanToGoodEnd(c: Invocation, g: Net)
    requires Sensible(c) && RanTo(c, g)
    ensures GoodEnd(c.su, c.sender, c.receiver, g)
  {
    var m: nat :| Reaches(c.ideal, Start(SenderRole(c.su, c.sender), ReceiverRole(c.su, c.receiver)), m, g);
    StuckIsGoodEnd(c.ideal, c.su, c.sender, c.receiver, m, g);
  }

  ghost predicate Left(o: Outcome) {
    o.Done? || o.Aborted? || o.HintAborted?
  }

  ghost predicate Returned(g: Net) {
    g.a.Ret? && g.b.Ret? && Left(g.a.result) && Left(g.b.result)
  }

  /** How often each party draws in a call that ends in this way. */
  ghost function SenderDraws(o: Outcome): nat {
    if o.Aborted? then 1 else 2
  }

  ghost function ReceiverDraws(o: Outcome): nat {
    if o.Done? then 2 else 1
  }

  /** The draws of one call, counted on the generators: a call that completes or stops at the first
      stash check draws equally often on both sides, and one stopped by a hint stash once more at the
      sender. */
  lemma DrawsPerCall(c: Invocation, g: Net)
    requires Sensible(c) && RanTo(c, g)
    ensures Returned(g)
    ensures (g.a.result.Done? <==> g.b.result.Done?) && (g.a.result.HintAborted? <==> g.b.result.HintAborted?)
    ensures DrawnTimes(c.sender.common, SenderDraws(g.a.result), g.a.result.common)
    ensures DrawnTimes(c.receiver.common, ReceiverDraws(g.b.result), g.b.result.common)
  {
    RanToGoodEnd(c, g);
    EndDraws(c.su, c.sender, c.receiver, g);
    DrawTwice(c.sender);
    DrawTwice(c.receiver);
  }

  /** Where the two generators are in every end that has bins. */
  lemma EndDraws(su: Setup, s: Party, r: Party, g: Net)
    requires Kept(su, s, r) && GoodEnd(su, s, r, g)
    requires BinCount(su, r) > 0 && HintBins(su, |s.keys|, BinCount(su, r)) > 0
    ensures Returned(g)
    ensures (g.a.result.Done? <==> g.b.result.Done?) && (g.a.result.HintAborted? <==> g.b.result.HintAborted?)
    ensures g.a.result.common == if g.a.result.Aborted? then DrawTable(s).common else Seeded(s).common
    ensures g.b.result.common == if g.b.result.Done? then Seeded(r).common else DrawTable(r).common
  {
    if BothLive(su, Seeded(s), Seeded(r)) {
      SharedDraws(su, Seeded(s), Seeded(r), g);
    }
  }

  /** The table that the receiver builds from its next draw. */
  function DrawnTable(c: Invocation): CuckooTable {
    c.su.lib.cuckoo(c.receiver.common.stream(c.receiver.common.at), BinCount(c.su, c.receiver), c.su.funs,
      HashAll(c.su.hash, c.receiver.keys))
  }

  /** The hint table that the sender builds from its next two draws. */
  function DrawnHints(c: Invocation): CuckooTable {
    HintTable(c.su, Seeded(c.sender), BinCount(c.su, c.receiver))
  }

  lemma SharedUses(su: Setup, s: Party, r: Party, g: Net)
    requires BothLive(su, s, r) && SharedEnd(su, s, r, g)
    ensures Returned(g) && g.a.result.Done? && g.b.result.Done?
    ensures g.a.result.used == Moved(s.used, |s.features| + 1, WordsPerFilter(su, |s.keys|, BinCount(su, r)))
    ensures g.b.result.used == r.used
  {
    var ra, rb, oa, ob :| Hands(RunShared(su, s, r), ra, rb, oa, ob) && g == EndState(su, s, r, ra, rb, oa, ob);
    WordsTaken(su, s, BinCount(su, r), |s.features|);
  }

  /** Which way a call ends, by any schedule, the two stashes decide. */
  lemma HowCallsEnd(c: Invocation, g: Net)
    requires Sensible(c) && RanTo(c, g)
    ensures Returned(g)
    ensures g.a.result.Aborted? <==> DrawnTable(c).stash > 0
    ensures g.a.result.HintAborted? <==> DrawnTable(c).stash == 0 && DrawnHints(c).stash > 0
    ensures g.a.result.Done? <==> DrawnTable(c).stash == 0 && DrawnHints(c).stash == 0
    ensures (g.b.result.Aborted? <==> g.a.result.Aborted?) && (g.b.result.Done? <==> g.a.result.Done?)
  {
    RanToGoodEnd(c, g);
    KindOfEnd(c.su, c.sender, c.receiver, g);
  }

  lemma KindOfEnd(su: Setup, s: Party, r: Party, g: Net)
    requires Kept(su, s, r) && GoodEnd(su, s, r, g)
    requires BinCount(su, r) > 0 && HintBins(su, |s.keys|, BinCount(su, r)) > 0
    ensures Returned(g)
    ensures var table, hints := ReceiverTable(su, DrawTable(r), BinCount(su, r)).stash,
        HintTable(su, Seeded(s), BinCount(su, r)).stash;
      (g.a.result.Aborted? <==> table > 0) && (g.b.result.Aborted? <==> table > 0)
      && (g.a.result.HintAborted? <==> table == 0 && hints > 0) && (g.a.result.Done? <==> table == 0 && hints == 0)
      && (g.b.result.Done? <==> table == 0 && hints == 0)
  {
    if BothLive(su, Seeded(s), Seeded(r)) {
      SharedUses(su, Seeded(s), Seeded(r), g);
    }
  }

  /** A call without bins to hash into ends before anything is drawn or joined. */
  lemma EmptyCallEnds(c: Invocation, g: Net)
    requires Kept(c.su, c.sender, c.receiver) && IdealOk(c.ideal, c.su.oprf) && RanTo(c, g)
    requires BinCount(c.su, c.receiver) == 0 || HintBins(c.su, |c.sender.keys|, BinCount(c.su, c.receiver)) == 0
    ensures g == Config(Ret(NoBins), Ret(NoBins), [], [], 0)
  {
    var m: nat :| Reaches(c.ideal, Start(SenderRole(c.su, c.sender), ReceiverRole(c.su, c.receiver)), m, g);
    StuckIsGoodEnd(c.ideal, c.su, c.sender, c.receiver, m, g);
  }

  /** A call that completes has taken from the sender's own generator the same number of words for membership
      and for each feature, and none from the receiver's. */
  lemma WordsUsed(c: Invocation, g: Net)
    requires Sensible(c) && RanTo(c, g) && g.a.Ret? && g.a.result.Done?
    ensures g.a.result.used == Moved(c.sender.used, |c.sender.features| + 1,
      WordsPerFilter(c.su, |c.sender.keys|, BinCount(c.su, c.receiver)))
    ensures g.b.Ret? && g.b.result.Done? && g.b.result.used == c.receiver.used
  {
    RanToGoodEnd(c, g);
    SharedUses(c.su, Seeded(c.sender), Seeded(c.receiver), g);
  }

  /** Filling the first seed is one draw, and filling both is two. */
  lemma DrawTwice(p: Party)
    ensures DrawnTimes(p.common, 1, DrawTable(p).common) && DrawnTimes(p.common, 2, Seeded(p).common)
  {
    assert DrawnTimes(DrawTable(p).common, 1, Seeded(p).common);
  }

  lemma SharedDraws(su: Setup, s: Party, r: Party, g: Net)
    requires BothLive(su, s, r) && SharedEnd(su, s, r, g)
    ensures Returned(g) && g.a.result.Done? && g.b.result.Done?
    ensures g.a.result.common == s.common && g.b.result.common == r.common
  {
    var ra, rb, oa, ob :| Hands(RunShared(su, s, r), ra, rb, oa, ob) && g == EndState(su, s, r, ra, rb, oa, ob);
    FinishedGenerators(su, s, r, ra, rb, oa, ob);
  }

  lemma FinishedGenerators(
      su: Setup, s: Party, r: Party, ra: Matrix, rb: Matrix, oa: seq<Matrix>, ob: seq<Matrix>)
    requires BothLive(su, s, r)
    ensures var g := EndState(su, s, r, ra, rb, oa, ob);
      Returned(g) && g.a.result.Done? && g.b.result.Done?
      && g.a.result.common == s.common && g.b.result.common == r.common
  {
  }

  /** A sequence of calls, each run to its end by some schedule, each made with the generators that the
      last one left. */
  ghost predicate Session(calls: seq<Invocation>, ends: seq<Net>, sent: seq<Generator>, received: seq<Generator>) {
    && |ends| == |calls| && |sent| == |received| == |calls| + 1
    && (forall k :: 0 <= k < |calls| ==>
          && Sensible(calls[k]) && RanTo(calls[k], ends[k]) && Returned(ends[k])
          && calls[k].sender.common == sent[k] && calls[k].receiver.common == received[k]
          && sent[k + 1] == ends[k].a.result.common && received[k + 1] == ends[k].b.result.common)
  }

  ghost predicate StoppedByHints(g: Net) {
    g.a.Ret? && g.a.result.HintAborted?
  }

  ghost function Stops(ends: seq<Net>): (r: seq<bool>)
    ensures |r| == |ends| && forall k :: 0 <= k < |r| ==> r[k] == StoppedByHints(ends[k])
  {
    seq(|ends|, k requires 0 <= k < |ends| => StoppedByHints(ends[k]))
  }

  /** How many of the first `n` calls were stopped by a hint stash. */
  ghost function HintAborts(ends: seq<Net>, n: nat): nat
    requires n <= |ends|
  {
    CountTrue(Stops(ends)[..n])
  }

  /** One call moves the sender's copy one draw further if a hint stash stops it, and equally far otherwise. */
  lemma CallAdvances(c: Invocation, g: Net)
    requires Sensible(c) && RanTo(c, g)
    ensures Returned(g)
    ensures Advances(c.sender.common, c.receiver.common, StoppedByHints(g), g.a.result.common, g.b.result.common)
  {
    DrawsPerCall(c, g);
    DrawsAdvance(c.sender.common, SenderDraws(g.a.result), g.a.result.common);
    DrawsAdvance(c.receiver.common, ReceiverDraws(g.b.result), g.b.result.common);
  }

  lemma SessionAdvances(calls: seq<Invocation>, ends: seq<Net>, sent: seq<Generator>, received: seq<Generator>)
    requires Session(calls, ends, sent, received)
    ensures forall k :: 0 <= k < |calls| ==>
      Advances(sent[k], received[k], Stops(ends)[k], sent[k + 1], received[k + 1])
  {
    forall k | 0 <= k < |calls| ensures Advances(sent[k], received[k], Stops(ends)[k], sent[k + 1], received[k + 1]) {
      CallAdvances(calls[k], ends[k]);
    }
  }

  /** Conservation: the sender is ahead of the receiver by the number of hint-stash aborts. */
  lemma LeadIsHintAborts(
      calls: seq<Invocation>, ends: seq<Net>, sent: seq<Generator>, received: seq<Generator>, n: nat)
    requires Session(calls, ends, sent, received) && sent[0] == received[0] && n <= |calls|
    ensures DrawnTimes(received[n], HintAborts(ends, n), sent[n])
  {
    SessionAdvances(calls, ends, sent, received);
    LeadIsCount(sent, received, Stops(ends), n);
    AdvancesDraw(received[n], HintAborts(ends, n), sent[n]);
  }

  ghost predicate NoneStopped(ends: seq<Net>, n: nat)
    requires n <= |ends|
  {
    forall k :: 0 <= k < n ==> !StoppedByHints(ends[k])
  }

  /** Both parties stand at the same place of the common generator, and so hash with the same seeds in
      the next call, exactly as long as no hint stash has stopped a call. */
  lemma InStepIffNoHintAbort(
      calls: seq<Invocation>, ends: seq<Net>, sent: seq<Generator>, received: seq<Generator>, n: nat)
    requires Session(calls, ends, sent, received) && sent[0] == received[0] && n <= |calls|
    ensures sent[n] == received[n] <==> NoneStopped(ends, n)
    ensures sent[n].stream == received[n].stream && sent[n].at == received[n].at + HintAborts(ends, n)
    ensures n < |calls| && NoneStopped(ends, n) ==> SameSeeds(Seeded(calls[n].sender), Seeded(calls[n].receiver))
  {
    LeadIsHintAborts(calls, ends, sent, received, n);
    DrawsAdvance(received[n], HintAborts(ends, n), sent[n]);
    NoHintAborts(ends, n);
    if n < |calls| && sent[n] == received[n] {
      SameGeneratorSameSeeds(calls[n].sender, calls[n].receiver);
    }
  }

  /** The first `n` blocks of a stream are pairwise different. */
  ghost predicate NoRepeat(stream: nat -> Block, n: nat) {
    forall i, j :: 0 <= i < j < n ==> stream(i) != stream(j)
  }

  /** The exact condition on the seeds: as long as the stream has not repeated a block, the parties hash
      with the same seeds in the next call if and only if no hint stash has stopped a call before it. */
  lemma SameSeedsIffNoHintAbort(
      calls: seq<Invocation>, ends: seq<Net>, sent: seq<Generator>, received: seq<Generator>, n: nat)
    requires Session(calls, ends, sent, received) && sent[0] == received[0] && n < |calls|
    requires NoRepeat(sent[n].stream, sent[n].at + 1)
    ensures SameSeeds(Seeded(calls[n].sender), Seeded(calls[n].receiver)) <==> NoneStopped(ends, n)
  {
    InStepIffNoHintAbort(calls, ends, sent, received, n);
    SeedsFromGenerators(calls[n].sender, calls[n].receiver);
  }

  /** Copies of one stream give the same seeds exactly when they stand at the same place. */
  lemma SeedsFromGenerators(s: Party, r: Party)
    requires s.common.stream == r.common.stream && r.common.at <= s.common.at
    requires NoRepeat(s.common.stream, s.common.at + 1)
    ensures SameSeeds(Seeded(s), Seeded(r)) <==> s.common == r.common
  {
    assert Seeded(s).tableSeed == s.common.stream(s.common.at);
    assert Seeded(r).tableSeed == s.common.stream(r.common.at);
  }

  lemma SameGeneratorSameSeeds(s: Party, r: Party)
    requires s.common == r.common
    ensures SameSeeds(Seeded(s), Seeded(r))
  {
  }

  lemma {:induction false} NoHintAborts(ends: seq<Net>, n: nat)
    requires n <= |ends|
    ensures HintAborts(ends, n) == 0 <==> NoneStopped(ends, n)
  {
    if n > 0 {
      NoHintAborts(ends, n - 1);
      CountPrefix(Stops(ends), n - 1);
    }
  }

  // ---- initialization, session and join together ----

  /** The inputs of a call have no duplicates, and no accident befalls it. */
  ghost predicate CleanCall(c: Invocation) {
    BothLive(c.su, Seeded(c.sender), Seeded(c.receiver)) ==> Clean(c.su, Seeded(c.sender), Seeded(c.receiver))
  }

  /** The call ended with shares of the join of its inputs. */
  ghost predicate JoinsInputs(c: Invocation, g: Net) {
    && g.a.Ret? && g.a.result.Done? && g.b.Ret? && g.b.result.Done?
    && BothLive(c.su, Seeded(c.sender), Seeded(c.receiver))
    && SharesJoin(c.su, Seeded(c.sender), Seeded(c.receiver), g.a.result.shares, g.b.result.shares)
  }

  lemma CompletedJoins(c: Invocation, g: Net)
    requires Sensible(c) && RanTo(c, g) && CleanCall(c) && g.a.Ret? && g.a.result.Done?
    requires SameSeeds(Seeded(c.sender), Seeded(c.receiver))
    ensures JoinsInputs(c, g)
  {
    RanToGoodEnd(c, g);
    SharedEndJoins(c.su, Seeded(c.sender), Seeded(c.receiver), g);
  }

  lemma InStepJoins(
      calls: seq<Invocation>, ends: seq<Net>, sent: seq<Generator>, received: seq<Generator>, k: nat)
    requires Session(calls, ends, sent, received) && sent[0] == received[0]
    requires k < |calls| && ends[k].a.result.Done? && NoneStopped(ends, k) && CleanCall(calls[k])
    ensures JoinsInputs(calls[k], ends[k])
  {
    InStepIffNoHintAbort(calls, ends, sent, received, k);
    CompletedJoins(calls[k], ends[k]);
  }

  /** The two parties initialize by some schedule, expand the seeds they end with into their copies of
      the common generator, and make a sequence of calls. Then every call that completes, after calls of
      which none was stopped by a hint stash, shares the join of its inputs. */
  lemma SessionJoins(
      init: Ideal<(), ()>, a: Block, b: Block, m: nat, ready: InitNet, expand: Block -> (nat -> Block),
      calls: seq<Invocation>, ends: seq<Net>, sent: seq<Generator>, received: seq<Generator>, k: nat)
    requires Reaches(init, Start(InitRole(a), InitRole(b)), m, ready) && Stuck(ready)
    requires Session(calls, ends, sent, received)
    requires ready.a.Ret? && sent[0] == Generator(expand(ready.a.result), 0)
    requires ready.b.Ret? && received[0] == Generator(expand(ready.b.result), 0)
    requires k < |calls| && ends[k].a.result.Done? && NoneStopped(ends, k) && CleanCall(calls[k])
    ensures JoinsInputs(calls[k], ends[k])
  {
    ReadyAlike(init, a, b, m, ready);
    InStepJoins(calls, ends, sent, received, k);
  }
}
