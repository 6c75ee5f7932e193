/**
 KKRT-PSI as two role programs (src/setops/psi/kkrt_psi.cpp), and what every schedule of them
 computes. The party called `a` is the sender.
 */
module KkrtProtocol {
  import opened Sequences
  import opened Bytes
  import opened Permutation
  import opened Serialize
  import opened Network
  import opened Hashing
  import opened ObliviousPrf
  import opened CommonSeed
  import opened Kkrt

  datatype Msg = Size(n: nat) | Data(bytes: Record) | Text(chars: string)
  datatype Input = OprfSender(bins: nat) | OprfReceiver(values: seq<Item>)
  datatype Output = OprfDone | OprfMasks(masks: seq<Block>)
  /** `Broken` stands for what the source leaves open: a message of the wrong kind, or a table that breaks
      the library's contract. */
  datatype Outcome = Keys(keys: seq<string>) | Count(count: nat) | Aborted | NoBins | Broken

  /** A party leaves with its copy of the common generator as its draws have left it. */
  datatype Return = Return(outcome: Outcome, common: Generator)

  type Program = Prog<Msg, Input, Output, Return>
  type Net = Config<Msg, Input, Output, Return>
  type Goal = Net -> bool

  /** `seed` is what the party has drawn from its copy of the common generator for its table. */
  datatype Setup = Setup(lib: HashLib, hash: string -> Item, oprf: Oprf, seed: Block, epsilon: real, funs: nat)

  function DrawSeed(su: Setup, common: Generator): Setup {
    su.(seed := Drawn(common).0)
  }

  ghost function Leave(outcome: Outcome, common: Generator): Program {
    Ret(Return(outcome, common))
  }

  /** `obtain` is the party's own `sender_obtain_result` flag; `before` is what the sender's output
      list held; `perms` gives the permutation drawn for each hash function. */
  datatype AnySender = Sender(keys: seq<string>, perms: nat -> seq<nat>, obtain: bool, before: seq<string>)
  type Sender = s: AnySender | forall f :: IsPerm(s.perms(f)) && |s.perms(f)| == |s.keys|
    ghost witness Sender([], _ => [], false, [])
  datatype Receiver = Receiver(keys: seq<string>, obtain: bool)

  /** The oblivious PRF: the receiver learns the masks of its own values and nothing is lost. */
  ghost predicate IdealOk(ideal: Ideal<Input, Output>, oprf: Oprf) {
    forall k, n, values :: |values| == n ==>
      ideal(k, OprfSender(n), OprfReceiver(values)) == (OprfDone, OprfMasks(MasksOf(oprf, values)))
  }

  // ---- the library's contract, for the lists of one run ----

  ghost predicate TableKept(su: Setup, s: Sender, bins: nat) {
    SimpleOk(su.lib, su.seed, bins, su.funs, HashAll(su.hash, s.keys))
  }

  ghost predicate PlacesKept(su: Setup, r: Receiver) {
    CuckooOk(su.lib, su.seed, Bins(|r.keys|, su.epsilon), su.funs, HashAll(su.hash, r.keys))
  }

  /** What the theorems ask of the library, for a run that has bins. */
  ghost predicate Kept(su: Setup, s: Sender, r: Receiver) {
    var bins := Bins(|r.keys|, su.epsilon);
    bins > 0 ==> TableKept(su, s, bins) && PlacesKept(su, r)
  }

  // ---- the sender ----

  ghost function ShuffledGroup(su: Setup, s: Sender, bins: nat, f: nat): (r: seq<Block>)
    requires TableKept(su, s, bins) && f < su.funs
    ensures |r| == |s.keys|
    ensures var group := Group(su.oprf, Walk(su.lib.simple(su.seed, bins, su.funs, HashAll(su.hash, s.keys))), f);
      |group| == |s.keys| && forall k :: 0 <= k < |r| ==> r[k] == group[s.perms(f)[k]]
    ensures multiset(r) == multiset(MasksUnder(su.oprf, su.lib, su.seed, bins, HashAll(su.hash, s.keys), f))
  {
    var xs := HashAll(su.hash, s.keys);
    var group := Group(su.oprf, Walk(su.lib.simple(su.seed, bins, su.funs, xs)), f);
    GroupIsMasks(su.oprf, su.lib, su.seed, bins, su.funs, xs, f);
    PermuteKeepsMultiset(s.perms(f), group);
    Permuted(s.perms(f), group)
  }

  ghost function ShuffledGroups(su: Setup, s: Sender, bins: nat): (r: seq<seq<Block>>)
    requires TableKept(su, s, bins)
    ensures |r| == su.funs && forall f :: 0 <= f < |r| ==> r[f] == ShuffledGroup(su, s, bins, f)
  {
    seq(su.funs, f requires 0 <= f < su.funs => ShuffledGroup(su, s, bins, f))
  }

  ghost function Payload(su: Setup, s: Sender, bins: nat): Record
    requires TableKept(su, s, bins)
  {
    Flatten(Flatten(AllReduced(ShuffledGroups(su, s, bins))))
  }

  ghost function SenderRole(su: Setup, s: Sender, common: Generator, only: bool): Program {
    Recv(OnReceiverSize(su, s, common, only))
  }

  /** The seed is drawn once the sizes are known, before anything else can end the call. */
  ghost function OnReceiverSize(su: Setup, s: Sender, common: Generator, only: bool): Msg -> Program {
    (m: Msg) =>
      if m.Size? then Send(Size(|s.keys|), SenderDraws(su, s, common, only, Bins(m.n, su.epsilon)))
      else Leave(Broken, common)
  }

  ghost function SenderDraws(su: Setup, s: Sender, common: Generator, only: bool, bins: nat): Program {
    SenderHashes(DrawSeed(su, common), s, Drawn(common).1, only, bins)
  }

  ghost function SenderHashes(su: Setup, s: Sender, left: Generator, only: bool, bins: nat): Program {
    if bins == 0 then Leave(NoBins, left) else Recv(OnStash(su, s, left, only, bins))
  }

  ghost function OnStash(su: Setup, s: Sender, left: Generator, only: bool, bins: nat): Msg -> Program {
    (m: Msg) =>
      if !m.Size? then Leave(Broken, left)
      else if m.n > 0 then Leave(Aborted, left)
      else Call(OprfSender(bins), OnSent(su, s, left, only, bins))
  }

  ghost function OnSent(su: Setup, s: Sender, left: Generator, only: bool, bins: nat): Output -> Program {
    (y: Output) =>
      if TableKept(su, s, bins) then Send(Data(Payload(su, s, bins)), SenderEnd(s, left, only))
      else Leave(Broken, left)
  }

  /** A sender that does not ask for the result leaves its output list as it was. */
  ghost function SenderEnd(s: Sender, left: Generator, only: bool): Program {
    if s.obtain then Recv(OnCount(left, only)) else Leave(if only then Count(0) else Keys(s.before), left)
  }

  ghost function OnCount(left: Generator, only: bool): Msg -> Program {
    (m: Msg) =>
      if !m.Size? then Leave(Broken, left) else if only then Leave(Count(m.n), left) else Recv(OnText(left, m.n))
  }

  ghost function OnText(left: Generator, n: nat): Msg -> Program {
    (m: Msg) =>
      if m.Text? && |m.chars| == n && Terminated(m.chars) then Leave(Keys(Deserialized(m.chars)), left)
      else Leave(Broken, left)
  }

  // ---- the receiver ----

  ghost function Table(su: Setup, r: Receiver, bins: nat): CuckooTable {
    su.lib.cuckoo(su.seed, bins, su.funs, HashAll(su.hash, r.keys))
  }

  ghost function ReceiverRole(su: Setup, r: Receiver, common: Generator, only: bool): Program {
    Send(Size(|r.keys|), Recv(OnSenderSize(su, r, common, only)))
  }

  ghost function OnSenderSize(su: Setup, r: Receiver, common: Generator, only: bool): Msg -> Program {
    (m: Msg) => if m.Size? then ReceiverDraws(su, r, common, only, m.n) else Leave(Broken, common)
  }

  ghost function ReceiverDraws(su: Setup, r: Receiver, common: Generator, only: bool, ns: nat): Program {
    ReceiverHashes(DrawSeed(su, common), r, Drawn(common).1, only, ns)
  }

  ghost function ReceiverHashes(su: Setup, r: Receiver, left: Generator, only: bool, ns: nat): Program {
    var bins := Bins(|r.keys|, su.epsilon);
    if bins == 0 then Leave(NoBins, left)
    else Send(Size(Table(su, r, bins).stash), ReceiverOprf(su, r, left, only, ns, bins))
  }

  ghost function ReceiverOprf(su: Setup, r: Receiver, left: Generator, only: bool, ns: nat, bins: nat): Program {
    var t := Table(su, r, bins);
    if t.stash > 0 then Leave(Aborted, left)
    else Call(OprfReceiver(t.values), OnMasks(su, r, left, only, ns, bins))
  }

  ghost function OnMasks(su: Setup, r: Receiver, left: Generator, only: bool, ns: nat, bins: nat): Output -> Program {
    (y: Output) => if y.OprfMasks? then Recv(OnData(su, r, left, only, ns, bins, y.masks)) else Leave(Broken, left)
  }

  ghost function OnData(
      su: Setup, r: Receiver, left: Generator, only: bool, ns: nat, bins: nat, masks: seq<Block>): Msg -> Program
  {
    (m: Msg) =>
      if m.Data? && |m.bytes| == su.funs * ns * REDUCED_LENGTH then
        ReceiverMatches(su, r, left, only, Table(su, r, bins), masks,
          Slices(m.bytes, su.funs * ns, REDUCED_LENGTH), ns)
      else Leave(Broken, left)
  }

  ghost function ReceiverMatches(su: Setup, r: Receiver, left: Generator, only: bool, t: CuckooTable,
      masks: seq<Block>, records: seq<Record>, ns: nat): Program
    requires |records| == su.funs * ns
  {
    if |t.fids| == |t.ids| == |masks| && |r.keys| <= |t.fids| then
      var hits := Hits(t, masks, records, ns, su.funs);
      ReceiverEnd(r, left, only, CountTrue(hits), Select(r.keys, InputFlags(t.ids, hits, |hits|)))
    else Leave(Broken, left)
  }

  ghost function ReceiverEnd(r: Receiver, left: Generator, only: bool, count: nat, keys: seq<string>): Program {
    var end := Leave(if only then Count(count) else Keys(keys), left);
    if !r.obtain then end
    else if only then Send(Size(count), end)
    else Send(Size(|Serialized(keys)|), Send(Text(Serialized(keys)), end))
  }

  // ---- what every run ends in ----

  /** The bins of the receiver that find their mask, when both parties follow the protocol. */
  ghost function RunHits(su: Setup, s: Sender, r: Receiver): (hits: seq<bool>)
    requires Kept(su, s, r) && Completes(su, r)
    ensures |hits| == Bins(|r.keys|, su.epsilon)
  {
    var bins := Bins(|r.keys|, su.epsilon);
    var t := Table(su, r, bins);
    var groups := ShuffledGroups(su, s, bins);
    FlattenLength(AllReduced(groups), |s.keys|);
    Hits(t, MasksOf(su.oprf, t.values), Flatten(AllReduced(groups)), |s.keys|, su.funs)
  }

  /** There are bins, and cuckoo hashing places every key of the receiver. */
  ghost predicate Completes(su: Setup, r: Receiver) {
    var bins := Bins(|r.keys|, su.epsilon);
    bins > 0 && Table(su, r, bins).stash == 0
  }

  ghost function RunFlags(su: Setup, s: Sender, r: Receiver): (flags: seq<bool>)
    requires Kept(su, s, r) && Completes(su, r)
    ensures |r.keys| <= |flags|
  {
    var bins := Bins(|r.keys|, su.epsilon);
    var t := Table(su, r, bins);
    EmptyStashFits(su.lib, su.seed, bins, su.funs, HashAll(su.hash, r.keys));
    InputFlags(t.ids, RunHits(su, s, r), bins)
  }

  ghost function Found(su: Setup, s: Sender, r: Receiver): seq<string>
    requires Kept(su, s, r) && Completes(su, r)
  {
    Select(r.keys, RunFlags(su, s, r))
  }

  /** The state in which a run with drawn seed ends. The two `obtain` flags are set separately and the
      protocol does not compare them, so the last messages may stay unread, or unsent. */
  ghost function Final(su: Setup, s: Sender, r: Receiver, left: Generator, only: bool): Net
    requires Kept(su, s, r)
  {
    var bins := Bins(|r.keys|, su.epsilon);
    if bins == 0 then Config(Leave(NoBins, left), Leave(NoBins, left), [], [], 0)
    else if !Completes(su, r) then Config(Leave(Aborted, left), Leave(Aborted, left), [], [], 0)
    else Closing(s, r, left, only, CountTrue(RunHits(su, s, r)), Found(su, s, r))
  }

  ghost function Closing(s: Sender, r: Receiver, left: Generator, only: bool, count: nat, output: seq<string>): Net {
    var result := if only then Count(count) else Keys(output);
    var kept := if only then Count(0) else Keys(s.before);
    if s.obtain && r.obtain then
      Config(Leave(if only then result else Keys(Deserialized(Serialized(output))), left), Leave(result, left), [], [],
        1)
    else if s.obtain then Config(Recv(OnCount(left, only)), Leave(result, left), [], [], 1)
    else if !r.obtain then Config(Leave(kept, left), Leave(result, left), [], [], 1)
    else if only then Config(Leave(kept, left), Leave(result, left), [], [Size(count)], 1)
    else Config(Leave(kept, left), Leave(result, left), [], [Size(|Serialized(output)|), Text(Serialized(output))], 1)
  }

  lemma BothObtain(ideal: Ideal<Input, Output>, s: Sender, r: Receiver, left: Generator, only: bool, count: nat,
      keys: seq<string>, goal: Goal)
    requires Backward(ideal, goal) && goal(Closing(s, r, left, only, count, keys)) && s.obtain && r.obtain
    ensures goal(Config(SenderEnd(s, left, only), ReceiverEnd(r, left, only, count, keys), [], [], 1))
  {
    var end := Leave(if only then Count(count) else Keys(keys), left);
    if only {
      PassBtoA(ideal, Size(count), end, OnCount(left, only), 1, goal);
    } else {
      var text := Text(Serialized(keys));
      PassBtoA(ideal, text, end, OnText(left, |Serialized(keys)|), 1, goal);
      PassBtoA(ideal, Size(|Serialized(keys)|), Send(text, end), OnCount(left, only), 1, goal);
    }
  }

  lemma OnlyReceiverSends(ideal: Ideal<Input, Output>, s: Sender, r: Receiver, left: Generator, only: bool, count: nat,
      keys: seq<string>, goal: Goal)
    requires Backward(ideal, goal) && goal(Closing(s, r, left, only, count, keys)) && !s.obtain && r.obtain
    ensures goal(Config(SenderEnd(s, left, only), ReceiverEnd(r, left, only, count, keys), [], [], 1))
  {
    var end := Leave(if only then Count(count) else Keys(keys), left);
    if only {
      assert [] + [Size(count)] == [Size(count)];
      LeaveBehind(ideal, SenderEnd(s, left, only), Size(count), end, [], 1, goal);
    } else {
      var size, text := Size(|Serialized(keys)|), Text(Serialized(keys));
      assert [size] + [text] == [size, text] && [] + [size] == [size];
      LeaveBehind(ideal, SenderEnd(s, left, only), text, end, [size], 1, goal);
      LeaveBehind(ideal, SenderEnd(s, left, only), size, Send(text, end), [], 1, goal);
    }
  }

  lemma ClosingEnds(ideal: Ideal<Input, Output>, s: Sender, r: Receiver, left: Generator, only: bool, count: nat,
      keys: seq<string>, goal: Goal)
    requires Backward(ideal, goal) && goal(Closing(s, r, left, only, count, keys))
    ensures goal(Config(SenderEnd(s, left, only), ReceiverEnd(r, left, only, count, keys), [], [], 1))
  {
    if s.obtain && r.obtain {
      BothObtain(ideal, s, r, left, only, count, keys, goal);
    } else if r.obtain {
      OnlyReceiverSends(ideal, s, r, left, only, count, keys, goal);
    }
  }

  lemma LeaveBehind(
      ideal: Ideal<Input, Output>, a: Program, msg: Msg, next: Program, before: seq<Msg>, calls: nat, goal: Goal)
    requires Backward(ideal, goal) && goal(Config(a, next, [], before + [msg], calls))
    ensures goal(Config(a, Send(msg, next), [], before, calls))
  {
    assert Step(ideal, Config(a, Send(msg, next), [], before, calls), MoveB)
      == Config(a, next, [], before + [msg], calls);
  }

  /** The receiver re-slices the payload into the shuffled, truncated groups. */
  lemma PayloadUnpacks(su: Setup, s: Sender, bins: nat)
    requires TableKept(su, s, bins)
    ensures var rows := AllReduced(ShuffledGroups(su, s, bins));
      |Flatten(rows)| == su.funs * |s.keys|
      && |Payload(su, s, bins)| == su.funs * |s.keys| * REDUCED_LENGTH
      && Slices(Payload(su, s, bins), su.funs * |s.keys|, REDUCED_LENGTH) == Flatten(rows)
  {
    var rows := AllReduced(ShuffledGroups(su, s, bins));
    FlattenLength(rows, |s.keys|);
    AllWidthFlatten(rows, REDUCED_LENGTH);
    SlicesFlatten(Flatten(rows), REDUCED_LENGTH);
  }

  lemma DataSliced(su: Setup, r: Receiver, left: Generator, only: bool, ns: nat, bins: nat, masks: seq<Block>,
      bytes: Record)
    requires |bytes| == su.funs * ns * REDUCED_LENGTH
    ensures OnData(su, r, left, only, ns, bins, masks)(Data(bytes))
      == ReceiverMatches(su, r, left, only, Table(su, r, bins), masks, Slices(bytes, su.funs * ns, REDUCED_LENGTH), ns)
  {
  }

  lemma DataArrives(su: Setup, s: Sender, r: Receiver, left: Generator, only: bool)
    requires Kept(su, s, r) && Completes(su, r)
    ensures var bins := Bins(|r.keys|, su.epsilon);
      OnData(su, r, left, only, |s.keys|, bins, MasksOf(su.oprf, Table(su, r, bins).values))(
        Data(Payload(su, s, bins)))
      == ReceiverEnd(r, left, only, CountTrue(RunHits(su, s, r)), Found(su, s, r))
  {
    var bins := Bins(|r.keys|, su.epsilon);
    PayloadUnpacks(su, s, bins);
    DataSliced(su, r, left, only, |s.keys|, bins, MasksOf(su.oprf, Table(su, r, bins).values), Payload(su, s, bins));
    EmptyStashFits(su.lib, su.seed, bins, su.funs, HashAll(su.hash, r.keys));
  }

  /** From the OPRF to the end. */
  lemma MatchingEnds(
      ideal: Ideal<Input, Output>, su: Setup, s: Sender, r: Receiver, left: Generator, only: bool, goal: Goal)
    requires Kept(su, s, r) && IdealOk(ideal, su.oprf) && Backward(ideal, goal) && Completes(su, r)
    requires goal(Final(su, s, r, left, only))
    ensures var bins := Bins(|r.keys|, su.epsilon);
      goal(Config(Call(OprfSender(bins), OnSent(su, s, left, only, bins)),
        ReceiverOprf(su, r, left, only, |s.keys|, bins), [], [], 0))
  {
    var bins, ns := Bins(|r.keys|, su.epsilon), |s.keys|;
    var t := Table(su, r, bins);
    DataArrives(su, s, r, left, only);
    ClosingEnds(ideal, s, r, left, only, CountTrue(RunHits(su, s, r)), Found(su, s, r), goal);
    OprfPasses(ideal, su.oprf, bins, t.values, OnSent(su, s, left, only, bins), OnMasks(su, r, left, only, ns, bins),
      Payload(su, s, bins), SenderEnd(s, left, only), OnData(su, r, left, only, ns, bins, MasksOf(su.oprf, t.values)),
      goal);
  }

  lemma OprfPasses(
      ideal: Ideal<Input, Output>, oprf: Oprf, bins: nat, values: seq<Item>, onA: Output -> Program,
      onB: Output -> Program, payload: Record, nextA: Program, onData: Msg -> Program, goal: Goal)
    requires IdealOk(ideal, oprf) && Backward(ideal, goal) && |values| == bins
    requires onA(OprfDone) == Send(Data(payload), nextA) && onB(OprfMasks(MasksOf(oprf, values))) == Recv(onData)
    requires goal(Config(nextA, onData(Data(payload)), [], [], 1))
    ensures goal(Config(Call(OprfSender(bins), onA), Call(OprfReceiver(values), onB), [], [], 0))
  {
    PassAtoB(ideal, Data(payload), nextA, onData, 1, goal);
    Meet(ideal, OprfSender(bins), onA, OprfReceiver(values), onB, 0, goal);
  }

  /** From the drawn seeds to the end. */
  lemma HashingEnds(
      ideal: Ideal<Input, Output>, su: Setup, s: Sender, r: Receiver, left: Generator, only: bool, goal: Goal)
    requires Kept(su, s, r) && IdealOk(ideal, su.oprf) && Backward(ideal, goal)
    requires goal(Final(su, s, r, left, only))
    ensures goal(Config(SenderHashes(su, s, left, only, Bins(|r.keys|, su.epsilon)),
      ReceiverHashes(su, r, left, only, |s.keys|), [], [], 0))
  {
    var bins, ns := Bins(|r.keys|, su.epsilon), |s.keys|;
    if bins > 0 {
      if Completes(su, r) {
        MatchingEnds(ideal, su, s, r, left, only, goal);
      }
      PassBtoA(ideal, Size(Table(su, r, bins).stash), ReceiverOprf(su, r, left, only, ns, bins),
        OnStash(su, s, left, only, bins), 0, goal);
    }
  }

  /** Both roles, with equal copies of the common generator. */
  ghost function Opening(su: Setup, s: Sender, r: Receiver, common: Generator, only: bool): Net {
    Start(SenderRole(su, s, common, only), ReceiverRole(su, r, common, only))
  }

  lemma RunEnds(
      ideal: Ideal<Input, Output>, su: Setup, s: Sender, r: Receiver, common: Generator, only: bool, goal: Goal)
    requires Kept(DrawSeed(su, common), s, r) && IdealOk(ideal, su.oprf) && Backward(ideal, goal)
    requires goal(Final(DrawSeed(su, common), s, r, Drawn(common).1, only))
    ensures goal(Opening(su, s, r, common, only))
  {
    var bins, ns := Bins(|r.keys|, su.epsilon), |s.keys|;
    HashingEnds(ideal, DrawSeed(su, common), s, r, Drawn(common).1, only, goal);
    PassAtoB(ideal, Size(ns), SenderDraws(su, s, common, only, bins), OnSenderSize(su, r, common, only), 0, goal);
    PassBtoA(ideal, Size(|r.keys|), Recv(OnSenderSize(su, r, common, only)), OnReceiverSize(su, s, common, only), 0,
      goal);
  }

  lemma FinalStuck(su: Setup, s: Sender, r: Receiver, left: Generator, only: bool)
    requires Kept(su, s, r)
    ensures Stuck(Final(su, s, r, left, only))
  {
    if Completes(su, r) {
      ClosingStuck(s, r, left, only, CountTrue(RunHits(su, s, r)), Found(su, s, r));
    }
  }

  lemma ClosingStuck(s: Sender, r: Receiver, left: Generator, only: bool, count: nat, keys: seq<string>)
    ensures Stuck(Closing(s, r, left, only, count, keys))
  {
  }

  /** Every schedule of the two roles terminates, after equally many moves, in the state `Final`. */
  lemma EveryRun(ideal: Ideal<Input, Output>, su: Setup, s: Sender, r: Receiver, common: Generator, only: bool)
    requires Kept(DrawSeed(su, common), s, r) && IdealOk(ideal, su.oprf)
    ensures AlwaysEnds(ideal, Opening(su, s, r, common, only),
      Final(DrawSeed(su, common), s, r, Drawn(common).1, only))
  {
    var f := Final(DrawSeed(su, common), s, r, Drawn(common).1, only);
    FinalStuck(DrawSeed(su, common), s, r, Drawn(common).1, only);
    ToEndBackward(ideal, f);
    RunEnds(ideal, su, s, r, common, only, ToEnd(ideal, f));
    OneEndsAllEnd(ideal, Opening(su, s, r, common, only), f);
  }

  /** One call: the two parties with equal copies of the common generator, and what is chosen anew for it. */
  datatype Invocation = Invocation(
    su: Setup, ideal: Ideal<Input, Output>, sender: Sender, receiver: Receiver, common: Generator, only: bool)

  /** What the tables of the call are hashed with. */
  function SetupOf(c: Invocation): Setup {
    DrawSeed(c.su, c.common)
  }

  /** The libraries keep their contracts in the call. */
  ghost predicate Sensible(c: Invocation) {
    Kept(SetupOf(c), c.sender, c.receiver) && IdealOk(c.ideal, c.su.oprf)
  }

  /** Some schedule of the call cannot go on from `g`. */
  ghost predicate RanTo(c: Invocation, g: Net) {
    Stuck(g) && exists m: nat :: Reaches(c.ideal, Opening(c.su, c.sender, c.receiver, c.common, c.only), m, g)
  }

  lemma RanToFinal(c: Invocation, g: Net)
    requires Sensible(c) && RanTo(c, g)
    ensures g == Final(SetupOf(c), c.sender, c.receiver, Drawn(c.common).1, c.only)
  {
    EveryRun(c.ideal, c.su, c.sender, c.receiver, c.common, c.only);
    var start := Opening(c.su, c.sender, c.receiver, c.common, c.only);
    var m: nat :| Reaches(c.ideal, start, m, g);
    StuckAtEnd(c.ideal, start, Final(SetupOf(c), c.sender, c.receiver, Drawn(c.common).1, c.only), m, g);
  }

  /** The call has bins, and all keys of its receiver are placed. */
  ghost predicate AllPlaced(c: Invocation) {
    Completes(SetupOf(c), c.receiver)
  }

  /** A run that is not aborted, by any schedule, ends with both parties finished and nothing left
      unread exactly when the two parties' `sender_obtain_result` flags agree. */
  lemma EndsCleanIffFlagsAgree(c: Invocation, g: Net)
    requires Sensible(c) && RanTo(c, g) && AllPlaced(c)
    ensures g.a.Ret? && g.b.Ret? && g.ab == [] && g.ba == [] <==> c.sender.obtain == c.receiver.obtain
  {
    RanToFinal(c, g);
  }

  /** A sender that does not ask for the result returns with its output list as the caller passed it. */
  lemma SenderKeepsList(c: Invocation, g: Net)
    requires Sensible(c) && RanTo(c, g) && AllPlaced(c) && !c.sender.obtain && !c.only
    ensures g.a.Ret? && g.a.result.outcome == Keys(c.sender.before)
  {
    RanToFinal(c, g);
  }

  /** On every path past the sizes each party draws exactly once, so whichever way a call ends, a party
      that returns leaves with its copy of the generator one draw further. */
  lemma OneDrawEach(c: Invocation, g: Net)
    requires Sensible(c) && RanTo(c, g)
    ensures g.a.Ret? ==> g.a.result.common == Drawn(c.common).1
    ensures g.b.Ret? && g.b.result.common == Drawn(c.common).1
  {
    RanToFinal(c, g);
  }

  // ---- what the result means ----

  ghost function Mask(su: Setup, bins: nat, f: nat, x: string): Block {
    su.oprf(su.lib.address(su.seed, f, su.hash(x), bins), Tagged(su.hash(x), f))
  }

  /** The masks of two keys, each in the bin that function `f` gives it, agree in their first 12 bytes. */
  ghost predicate Agree(su: Setup, bins: nat, f: nat, x: string, y: string) {
    forall k :: 0 <= k < 12 ==> Mask(su, bins, f, x).bytes[k] == Mask(su, bins, f, y).bytes[k]
  }

  lemma AgreeIff(su: Setup, bins: nat, f: nat, x: string, y: string)
    ensures Agree(su, bins, f, x, y) <==>
      Head(Mask(su, bins, f, x).bytes, REDUCED_LENGTH) == Head(Mask(su, bins, f, y).bytes, REDUCED_LENGTH)
  {
    SameHeadIff(Mask(su, bins, f, x).bytes, Mask(su, bins, f, y).bytes, REDUCED_LENGTH);
  }

  ghost predicate AgreesWithSome(su: Setup, bins: nat, f: nat, x: string, keys: seq<string>) {
    exists y :: y in keys && Agree(su, bins, f, x, y)
  }

  lemma AgreesIff(su: Setup, bins: nat, f: nat, x: string, keys: seq<string>)
    ensures AgreesWithSome(su, bins, f, x, keys) <==>
      exists y :: y in keys
        && Head(Mask(su, bins, f, x).bytes, REDUCED_LENGTH) == Head(Mask(su, bins, f, y).bytes, REDUCED_LENGTH)
  {
    forall y ensures Agree(su, bins, f, x, y) <==>
      Head(Mask(su, bins, f, x).bytes, REDUCED_LENGTH) == Head(Mask(su, bins, f, y).bytes, REDUCED_LENGTH)
    {
      AgreeIff(su, bins, f, x, y);
    }
  }

  /** The function under which cuckoo hashing placed the receiver's key number `id`. */
  ghost function FunctionOf(su: Setup, r: Receiver, id: nat): (f: nat)
    requires PlacesKept(su, r) && Completes(su, r) && id < |r.keys|
    ensures f < su.funs
  {
    var bins := Bins(|r.keys|, su.epsilon);
    var xs := HashAll(su.hash, r.keys);
    Table(su, r, bins).fids[SlotOf(su.lib, su.seed, bins, su.funs, xs, id)]
  }

  /** No receiver key that the sender lacks agrees, at the function recorded for it, with a sender key. */
  ghost predicate NoCollision(su: Setup, s: Sender, r: Receiver)
    requires Kept(su, s, r) && Completes(su, r)
  {
    forall id, y :: 0 <= id < |r.keys| && r.keys[id] !in s.keys && y in s.keys ==>
      !Agree(su, Bins(|r.keys|, su.epsilon), FunctionOf(su, r, id), r.keys[id], y)
  }

  /** The truncated masks of the sender's keys under function `f`, in the order of the keys. */
  ghost function KeyMasks(su: Setup, s: Sender, bins: nat, f: nat): (r: seq<Record>)
    ensures |r| == |s.keys|
    ensures forall p :: 0 <= p < |r| ==> r[p] == Head(Mask(su, bins, f, s.keys[p]).bytes, REDUCED_LENGTH)
  {
    Reduced(MasksUnder(su.oprf, su.lib, su.seed, bins, HashAll(su.hash, s.keys), f))
  }

  /** Grouping, shuffling, truncating, flattening and re-slicing together: the slice that the receiver
      searches for function `f` is a permutation of the truncated masks of the sender's keys under it,
      each as often as it occurs, whatever the shuffle. */
  lemma SliceIsPermutation(su: Setup, s: Sender, bins: nat, f: nat)
    requires TableKept(su, s, bins) && f < su.funs
    ensures |Payload(su, s, bins)| == su.funs * |s.keys| * REDUCED_LENGTH
    ensures var rows := Slices(Payload(su, s, bins), su.funs * |s.keys|, REDUCED_LENGTH);
      multiset(RecordsOf(rows, |s.keys|, su.funs, f)) == multiset(KeyMasks(su, s, bins, f))
  {
    var groups := ShuffledGroups(su, s, bins);
    PayloadUnpacks(su, s, bins);
    SliceIsGroup(groups, |s.keys|, f);
    ReducedReordered(groups[f], MasksUnder(su.oprf, su.lib, su.seed, bins, HashAll(su.hash, s.keys), f));
  }

  /** In particular it holds exactly those truncated masks. */
  lemma SliceMembers(su: Setup, s: Sender, bins: nat, f: nat, key: Record)
    requires TableKept(su, s, bins) && f < su.funs
    ensures var rows := Flatten(AllReduced(ShuffledGroups(su, s, bins)));
      |rows| == su.funs * |s.keys|
      && (key in RecordsOf(rows, |s.keys|, su.funs, f) <==>
          exists y :: y in s.keys && key == Head(Mask(su, bins, f, y).bytes, REDUCED_LENGTH))
  {
    PayloadUnpacks(su, s, bins);
    SliceIsPermutation(su, s, bins, f);
    var rows := Flatten(AllReduced(ShuffledGroups(su, s, bins)));
    SameMembers(RecordsOf(rows, |s.keys|, su.funs, f), KeyMasks(su, s, bins, f), key);
    KeyMaskMembers(su, s, bins, f, key);
  }

  lemma SameMembers(v: seq<Record>, w: seq<Record>, key: Record)
    requires multiset(v) == multiset(w)
    ensures key in v <==> key in w
  {
    assert key in v <==> key in multiset(v);
  }

  lemma KeyMaskMembers(su: Setup, s: Sender, bins: nat, f: nat, key: Record)
    ensures key in KeyMasks(su, s, bins, f)
      <==> exists y :: y in s.keys && key == Head(Mask(su, bins, f, y).bytes, REDUCED_LENGTH)
  {
    var masks := KeyMasks(su, s, bins, f);
    if key in masks {
      var p :| 0 <= p < |masks| && masks[p] == key;
      assert s.keys[p] in s.keys;
    }
    if y :| y in s.keys && key == Head(Mask(su, bins, f, y).bytes, REDUCED_LENGTH) {
      var p :| 0 <= p < |s.keys| && s.keys[p] == y;
      assert masks[p] == key;
    }
  }

  /** The slot of a key finds its mask exactly when that agrees with the mask of some key of the sender. */
  lemma SlotHits(su: Setup, s: Sender, r: Receiver, id: nat, b: nat)
    requires Kept(su, s, r) && Completes(su, r) && id < |r.keys|
    requires var t := Table(su, r, Bins(|r.keys|, su.epsilon));
      b < Bins(|r.keys|, su.epsilon) && b < |t.occupied| && b < |t.ids| && t.occupied[b] && t.ids[b] == id
    ensures var bins, t := Bins(|r.keys|, su.epsilon), Table(su, r, Bins(|r.keys|, su.epsilon));
      b < |t.fids| && (RunHits(su, s, r)[b] <==> AgreesWithSome(su, bins, t.fids[b], r.keys[id], s.keys))
  {
    SlotMask(su, r, id, b);
    SlotSearched(su, s, r, b);
    AgreesIff(su, Bins(|r.keys|, su.epsilon), Table(su, r, Bins(|r.keys|, su.epsilon)).fids[b], r.keys[id], s.keys);
  }

  lemma SlotMask(su: Setup, r: Receiver, id: nat, b: nat)
    requires PlacesKept(su, r) && Completes(su, r) && id < |r.keys|
    requires var t := Table(su, r, Bins(|r.keys|, su.epsilon));
      b < Bins(|r.keys|, su.epsilon) && b < |t.occupied| && b < |t.ids| && t.occupied[b] && t.ids[b] == id
    ensures var bins, t := Bins(|r.keys|, su.epsilon), Table(su, r, Bins(|r.keys|, su.epsilon));
      b < |t.fids| && b < |t.values| && t.fids[b] < su.funs
      && su.oprf(b, t.values[b]) == Mask(su, bins, t.fids[b], r.keys[id])
  {
    var bins := Bins(|r.keys|, su.epsilon);
  }

  /** The search of a slot with a valid function id looks for its truncated mask among the sender's. */
  lemma SlotSearched(su: Setup, s: Sender, r: Receiver, b: nat)
    requires Kept(su, s, r) && Completes(su, r) && b < Bins(|r.keys|, su.epsilon)
    requires var t := Table(su, r, Bins(|r.keys|, su.epsilon)); b < |t.fids| && b < |t.values| && t.fids[b] < su.funs
    ensures var bins, t := Bins(|r.keys|, su.epsilon), Table(su, r, Bins(|r.keys|, su.epsilon));
      RunHits(su, s, r)[b] <==>
        exists y :: y in s.keys
          && Head(su.oprf(b, t.values[b]).bytes, REDUCED_LENGTH)
            == Head(Mask(su, bins, t.fids[b], y).bytes, REDUCED_LENGTH)
  {
    var bins := Bins(|r.keys|, su.epsilon);
    var t := Table(su, r, bins);
    SliceMembers(su, s, bins, t.fids[b], Head(su.oprf(b, t.values[b]).bytes, REDUCED_LENGTH));
    assert MasksOf(su.oprf, t.values)[b] == su.oprf(b, t.values[b]);
  }

  /** With no assumption on the OPRF: the flags are set for exactly the keys whose truncated mask
      agrees with that of some key of the sender. */
  lemma FlagMeaning(su: Setup, s: Sender, r: Receiver, id: nat)
    requires Kept(su, s, r) && Completes(su, r) && id < |r.keys|
    ensures RunFlags(su, s, r)[id] <==>
      AgreesWithSome(su, Bins(|r.keys|, su.epsilon), FunctionOf(su, r, id), r.keys[id], s.keys)
  {
    var bins := Bins(|r.keys|, su.epsilon);
    var t := Table(su, r, bins);
    var xs := HashAll(su.hash, r.keys);
    var b := SlotOf(su.lib, su.seed, bins, su.funs, xs, id);
    SlotHits(su, s, r, id, b);
    assert FlaggedWith(t.ids, RunHits(su, s, r), id) <==> RunHits(su, s, r)[b];
  }

  /** Completeness: a key that the sender also holds is never missed, for any OPRF. */
  lemma NothingMissed(su: Setup, s: Sender, r: Receiver, id: nat)
    requires Kept(su, s, r) && Completes(su, r) && id < |r.keys| && r.keys[id] in s.keys
    ensures RunFlags(su, s, r)[id]
  {
    FlagMeaning(su, s, r, id);
    assert Agree(su, Bins(|r.keys|, su.epsilon), FunctionOf(su, r, id), r.keys[id], r.keys[id]);
  }

  /** The count over bins is the number of flagged inputs: the size of the output. */
  lemma CountsAgree(su: Setup, s: Sender, r: Receiver)
    requires Kept(su, s, r) && Completes(su, r)
    ensures CountTrue(RunHits(su, s, r)) == |Found(su, s, r)|
  {
    var bins := Bins(|r.keys|, su.epsilon);
    var t := Table(su, r, bins);
    var xs := HashAll(su.hash, r.keys);
    EmptyStashPlacesOnce(su.lib, su.seed, bins, su.funs, xs);
    FlattenLength(AllReduced(ShuffledGroups(su, s, bins)), |s.keys|);
    HitsCountInputs(t, MasksOf(su.oprf, t.values), Flatten(AllReduced(ShuffledGroups(su, s, bins))), |s.keys|,
      su.funs, |xs|);
  }

  lemma MissesNone(su: Setup, s: Sender, r: Receiver)
    requires Kept(su, s, r) && Completes(su, r)
    ensures forall id :: 0 <= id < |r.keys| && r.keys[id] in s.keys ==> RunFlags(su, s, r)[id]
  {
    forall id | 0 <= id < |r.keys| && r.keys[id] in s.keys ensures RunFlags(su, s, r)[id] {
      NothingMissed(su, s, r, id);
    }
  }

  lemma CollidingPosition(su: Setup, s: Sender, r: Receiver) returns (id: nat)
    requires Kept(su, s, r) && Completes(su, r) && !NoCollision(su, s, r)
    ensures id < |r.keys| && r.keys[id] !in s.keys && RunFlags(su, s, r)[id]
  {
    var i, y :| 0 <= i < |r.keys| && r.keys[i] !in s.keys && y in s.keys
      && Agree(su, Bins(|r.keys|, su.epsilon), FunctionOf(su, r, i), r.keys[i], y);
    FlagMeaning(su, s, r, i);
    id := i;
  }

  lemma CollisionCounts(su: Setup, s: Sender, r: Receiver)
    requires Kept(su, s, r) && Completes(su, r) && !NoCollision(su, s, r)
    ensures |Found(su, s, r)| > |Intersect(r.keys, s.keys)|
  {
    var id := CollidingPosition(su, s, r);
    MissesNone(su, s, r);
    SelectsMore(r.keys, s.keys, RunFlags(su, s, r), id);
  }

  /** Exactness: the receiver's output is its input filtered by membership in the sender's keys, in
      input order, if and only if no truncated mask collides for a key that the sender lacks. */
  lemma OutputIsIntersectionIff(su: Setup, s: Sender, r: Receiver)
    requires Kept(su, s, r) && Completes(su, r)
    ensures Found(su, s, r) == Intersect(r.keys, s.keys) <==> NoCollision(su, s, r)
  {
    var flags := RunFlags(su, s, r);
    if NoCollision(su, s, r) {
      MissesNone(su, s, r);
      forall id | 0 <= id < |r.keys| && r.keys[id] !in s.keys ensures !flags[id] {
        FlagMeaning(su, s, r, id);
      }
      SelectIsIntersect(r.keys, s.keys, flags);
    } else {
      CollisionCounts(su, s, r);
    }
  }

  /** Exactness of the number: the hits count the common keys if and only if no truncated mask collides. */
  lemma CountIsSizeIff(su: Setup, s: Sender, r: Receiver)
    requires Kept(su, s, r) && Completes(su, r)
    ensures CountTrue(RunHits(su, s, r)) == |Intersect(r.keys, s.keys)| <==> NoCollision(su, s, r)
  {
    CountsAgree(su, s, r);
    if NoCollision(su, s, r) {
      OutputIsIntersectionIff(su, s, r);
    } else {
      CollisionCounts(su, s, r);
    }
  }

  /** The receiver's result of a full run, by any schedule and for all four pairs of flags: its own keys that
      the sender holds, in its own order, if and only if no truncated mask collides. */
  lemma ReceiverListIff(c: Invocation, g: Net)
    requires Sensible(c) && RanTo(c, g) && AllPlaced(c) && !c.only
    ensures g.b.Ret?
    ensures g.b.result.outcome == Keys(Intersect(c.receiver.keys, c.sender.keys)) <==> CollisionFree(c)
  {
    RanToFinal(c, g);
    OutputIsIntersectionIff(SetupOf(c), c.sender, c.receiver);
  }

  /** The sender's result, by any schedule: without its flag nothing but its own list, or zero; with its flag
      alone it is left waiting. */
  lemma SenderWithoutResult(c: Invocation, g: Net)
    requires Sensible(c) && RanTo(c, g) && AllPlaced(c)
    ensures !c.sender.obtain ==>
      g.a.Ret? && g.a.result.outcome == if c.only then Count(0) else Keys(c.sender.before)
    ensures c.sender.obtain && !c.receiver.obtain ==> g.a.Recv? && g.ba == []
  {
    RanToFinal(c, g);
  }

  /** With both flags set it is the same number, or the same list if that survives serialization: the sender
      ends with the common keys if and only if no truncated mask collides and, in a full run, none of these
      keys holds a NUL. */
  lemma SenderResultIff(c: Invocation, g: Net)
    requires Sensible(c) && RanTo(c, g) && AllPlaced(c) && c.sender.obtain && c.receiver.obtain
    ensures var common := Intersect(c.receiver.keys, c.sender.keys);
      g.a.Ret?
      && (g.a.result.outcome == (if c.only then Count(|common|) else Keys(common)) <==>
          CollisionFree(c) && (c.only || AllNulFree(common)))
  {
    RanToFinal(c, g);
    if c.only {
      CountIsSizeIff(SetupOf(c), c.sender, c.receiver);
    } else {
      SentListIff(SetupOf(c), c.sender, c.receiver);
    }
  }

  lemma SentListIff(su: Setup, s: Sender, r: Receiver)
    requires Kept(su, s, r) && Completes(su, r)
    ensures var common := Intersect(r.keys, s.keys);
      Deserialized(Serialized(Found(su, s, r))) == common <==> NoCollision(su, s, r) && AllNulFree(common)
  {
    if NoCollision(su, s, r) {
      OutputIsIntersectionIff(su, s, r);
      RoundTripIffNulFree(Found(su, s, r));
    } else {
      CollisionCounts(su, s, r);
      DeserializedNoShorter(Found(su, s, r));
    }
  }

  /** What stays unread: the result that a receiver sends to a sender which did not ask for it. */
  lemma LeftUnread(c: Invocation, g: Net)
    requires Sensible(c) && RanTo(c, g) && AllPlaced(c)
    ensures g.ab == [] && g.b.Ret? && (if c.only then g.b.result.outcome.Count? else g.b.result.outcome.Keys?)
    ensures g.ba ==
      if c.sender.obtain || !c.receiver.obtain then []
      else if c.only then [Size(g.b.result.outcome.count)]
      else
        var text := Serialized(g.b.result.outcome.keys);
        [Size(|text|), Text(text)]
  {
    RanToFinal(c, g);
  }

  /** The table that the receiver builds from its next draw. */
  function DrawnTable(c: Invocation): CuckooTable {
    c.su.lib.cuckoo(c.common.stream(c.common.at), Bins(|c.receiver.keys|, c.su.epsilon), c.su.funs,
      HashAll(c.su.hash, c.receiver.keys))
  }

  /** Which calls end early, by any schedule: those without bins, and those whose cuckoo table has a stash.
      Both parties then leave alike, before any OPRF and with nothing unread. */
  lemma EarlyEnds(c: Invocation, g: Net)
    requires Sensible(c) && RanTo(c, g)
    ensures var bins := Bins(|c.receiver.keys|, c.su.epsilon);
      g.b.Ret? && g.b.result.outcome != Broken
      && (g.b.result.outcome.NoBins? <==> bins == 0)
      && (g.b.result.outcome.Aborted? <==> bins > 0 && DrawnTable(c).stash > 0)
      && (bins == 0 || DrawnTable(c).stash > 0 ==> g.a == g.b && g.ab == [] && g.ba == [] && g.calls == 0)
  {
    RanToFinal(c, g);
  }

  /** With both flags set the parties end with the same list exactly when its keys are free of NULs. */
  lemma PartiesAgree(c: Invocation, g: Net)
    requires Sensible(c) && RanTo(c, g) && AllPlaced(c) && !c.only && c.sender.obtain && c.receiver.obtain
    ensures g.a == g.b <==> AllNulFree(Found(SetupOf(c), c.sender, c.receiver))
  {
    RanToFinal(c, g);
    RoundTripIffNulFree(Found(SetupOf(c), c.sender, c.receiver));
  }

  /** No truncated mask collides in the call. */
  ghost predicate CollisionFree(c: Invocation)
    requires Sensible(c) && AllPlaced(c)
  {
    NoCollision(SetupOf(c), c.sender, c.receiver)
  }

  /** The same condition on the inputs: when no truncated mask collides, the two lists agree, by any
      schedule, exactly when the common keys are free of NULs. */
  lemma PartiesAgreeIffNulFree(c: Invocation, g: Net)
    requires Sensible(c) && RanTo(c, g) && AllPlaced(c) && !c.only && c.sender.obtain && c.receiver.obtain
    requires CollisionFree(c)
    ensures g.a == g.b <==> AllNulFree(Intersect(c.receiver.keys, c.sender.keys))
  {
    PartiesAgree(c, g);
    OutputIsIntersectionIff(SetupOf(c), c.sender, c.receiver);
  }

  /** End to end, over every schedule: when cuckoo hashing places every key, both flags are set, no
      truncated mask collides and the receiver's keys are free of NULs, both parties end with the
      receiver's keys that the sender holds, in the receiver's order. */
  lemma EndToEnd(c: Invocation, g: Net)
    requires Sensible(c) && RanTo(c, g) && AllPlaced(c) && !c.only && c.sender.obtain && c.receiver.obtain
    requires CollisionFree(c) && AllNulFree(c.receiver.keys)
    ensures var end := Leave(Keys(Intersect(c.receiver.keys, c.sender.keys)), Drawn(c.common).1);
      g == Config(end, end, [], [], 1)
  {
    RanToFinal(c, g);
    OutputIsIntersectionIff(SetupOf(c), c.sender, c.receiver);
    var common := Intersect(c.receiver.keys, c.sender.keys);
    forall i | 0 <= i < |common| ensures NulFree(common[i]) {
      assert common[i] in c.receiver.keys;
    }
    RoundTripIffNulFree(common);
  }

  /** What a cardinality run gives the receiver, over every schedule: the size of the intersection if and
      only if no truncated mask collides. A sender that both sides let obtain the result gets the same. */
  lemma CardinalityIsSizeIff(c: Invocation, g: Net)
    requires Sensible(c) && RanTo(c, g) && AllPlaced(c) && c.only
    ensures g.b.Ret? && (g.b.result.outcome == Count(|Intersect(c.receiver.keys, c.sender.keys)|) <==> CollisionFree(c))
    ensures c.sender.obtain && c.receiver.obtain ==> g.a == g.b
  {
    RanToFinal(c, g);
    CountIsSizeIff(SetupOf(c), c.sender, c.receiver);
  }

  /** A full run and a cardinality run on the same keys, each with its own seed, OPRF and shuffles, and each
      by any schedule: without collisions the number is the length of the list, at both parties. */
  lemma CardinalityRunMatches(c: Invocation, g: Net, d: Invocation, h: Net)
    requires c.sender.keys == d.sender.keys && c.receiver.keys == d.receiver.keys
    requires Sensible(c) && RanTo(c, g) && AllPlaced(c) && CollisionFree(c) && !c.only
    requires Sensible(d) && RanTo(d, h) && AllPlaced(d) && CollisionFree(d) && d.only
    requires d.sender.obtain && d.receiver.obtain
    ensures g.b.Ret? && g.b.result.outcome.Keys? && h.a == h.b && h.b.Ret?
    ensures h.b.result.outcome == Count(|g.b.result.outcome.keys|)
  {
    RanToFinal(c, g);
    OutputIsIntersectionIff(SetupOf(c), c.sender, c.receiver);
    CardinalityIsSizeIff(d, h);
  }

  // ---- many calls ----

  /** A sequence of calls, each run to its end by some schedule and made with the generator that the
      receiver was left with by the one before. */
  ghost predicate Session(calls: seq<Invocation>, ends: seq<Net>, commons: seq<Generator>) {
    && |ends| == |calls| && |commons| == |calls| + 1
    && (forall k :: 0 <= k < |calls| ==>
          && Sensible(calls[k]) && RanTo(calls[k], ends[k]) && ends[k].b.Ret?
          && calls[k].common == commons[k] && ends[k].b.result.common == commons[k + 1])
  }

  /** The parties never fall out of step: a sender that returns from a call, whether with a result, an
      abort or nothing, stands where the receiver stands, so the next call again starts with equal copies;
      the number of calls made is the number of draws, and call `n` hashes with block `n` of the stream. */
  lemma AlwaysInStep(calls: seq<Invocation>, ends: seq<Net>, commons: seq<Generator>, n: nat)
    requires Session(calls, ends, commons) && n <= |calls|
    ensures forall k :: 0 <= k < |calls| && ends[k].a.Ret? ==> ends[k].a.result.common == commons[k + 1]
    ensures DrawnTimes(commons[0], n, commons[n])
    ensures n < |calls| ==> SetupOf(calls[n]).seed == commons[0].stream(commons[0].at + n)
  {
    forall k | 0 <= k < |calls|
      ensures commons[k + 1] == Drawn(commons[k]).1
      ensures ends[k].a.Ret? ==> ends[k].a.result.common == commons[k + 1]
    {
      OneDrawEach(calls[k], ends[k]);
    }
    SingleDraws(commons, n);
    if n < |calls| {
      SeedAt(calls[n], commons[0], n);
    }
  }

  /** A call made after `n` draws hashes with block `n` of what was left of the stream. */
  lemma SeedAt(c: Invocation, first: Generator, n: nat)
    requires DrawnTimes(first, n, c.common)
    ensures SetupOf(c).seed == first.stream(first.at + n)
  {
    DrawsAdvance(first, n, c.common);
  }
}
