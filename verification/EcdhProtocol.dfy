/**
 ECDH-PSI as two role programs (src/setops/psi/ecdh_psi.cpp), and what every schedule of them
 computes. The party called `a` is the sender.
 */
module EcdhProtocol {
  import opened Sequences
  import opened Bytes
  import opened Permutation
  import opened Network
  import opened Ecdh

  datatype Msg = Flag(flag: bool) | Size(n: nat) | Data(bytes: Record)
  datatype Outcome = Keys(keys: seq<string>) | Count(count: nat) | Got(records: seq<Record>) | Broken

  type Program = Prog<Msg, (), (), Outcome>
  type Net = Config<Msg, (), (), Outcome>
  type Goal = Net -> bool
  type Rest = seq<Record> -> Program

  // ---- one exchange of records ----

  ghost function SendRecords(keys: seq<Record>, next: Program): Program {
    Send(Size(|keys|), if keys == [] then next else Send(Data(Flatten(keys)), next))
  }

  ghost function ReceiveRecords(width: nat, rest: Rest): Program {
    Recv(OnSize(width, rest))
  }

  ghost function ReceiveBuffer(n: nat, width: nat, rest: Rest): Program {
    if n == 0 then rest([]) else Recv(OnData(n, width, rest))
  }

  /** The sender sends first; the receiver receives first. */
  ghost function Exchange(isSender: bool, keys: seq<Record>, width: nat, rest: Rest): Program {
    if isSender then SendRecords(keys, ReceiveRecords(width, rest))
    else ReceiveRecords(width, SendAfter(keys, rest))
  }

  ghost function SendAfter(keys: seq<Record>, rest: Rest): Rest {
    got => SendRecords(keys, rest(got))
  }

  ghost function OnSize(width: nat, rest: Rest): Msg -> Program {
    (m: Msg) => if m.Size? then ReceiveBuffer(m.n, width, rest) else Ret(Broken)
  }

  ghost function OnData(n: nat, width: nat, rest: Rest): Msg -> Program {
    (m: Msg) => if m.Data? && |m.bytes| == n * width then rest(Slices(m.bytes, n, width)) else Ret(Broken)
  }

  lemma SendsAtoB(ideal: Ideal<(), ()>, keys: seq<Record>, width: nat, next: Program, rest: Rest, calls: nat,
      goal: Goal)
    requires AllWidth(keys, width)
    requires Backward(ideal, goal) && goal(Config(next, rest(keys), [], [], calls))
    ensures goal(Config(SendRecords(keys, next), ReceiveRecords(width, rest), [], [], calls))
  {
    if keys != [] {
      SlicesFlatten(keys, width);
      PassAtoB(ideal, Data(Flatten(keys)), next, OnData(|keys|, width, rest), calls, goal);
      PassAtoB(ideal, Size(|keys|), Send(Data(Flatten(keys)), next), OnSize(width, rest), calls, goal);
    } else {
      PassAtoB(ideal, Size(0), next, OnSize(width, rest), calls, goal);
    }
  }

  lemma SendsBtoA(ideal: Ideal<(), ()>, keys: seq<Record>, width: nat, next: Program, rest: Rest, calls: nat,
      goal: Goal)
    requires AllWidth(keys, width)
    requires Backward(ideal, goal) && goal(Config(rest(keys), next, [], [], calls))
    ensures goal(Config(ReceiveRecords(width, rest), SendRecords(keys, next), [], [], calls))
  {
    if keys != [] {
      SlicesFlatten(keys, width);
      PassBtoA(ideal, Data(Flatten(keys)), next, OnData(|keys|, width, rest), calls, goal);
      PassBtoA(ideal, Size(|keys|), Send(Data(Flatten(keys)), next), OnSize(width, rest), calls, goal);
    } else {
      PassBtoA(ideal, Size(0), next, OnSize(width, rest), calls, goal);
    }
  }

  /** An exchange hands each party the other's list and leaves both channels empty. */
  lemma ExchangeMeets(
      ideal: Ideal<(), ()>, ka: seq<Record>, kb: seq<Record>, width: nat, ra: Rest, rb: Rest, calls: nat, goal: Goal)
    requires AllWidth(ka, width) && AllWidth(kb, width)
    requires Backward(ideal, goal) && goal(Config(ra(kb), rb(ka), [], [], calls))
    ensures goal(Config(Exchange(true, ka, width, ra), Exchange(false, kb, width, rb), [], [], calls))
  {
    SendsBtoA(ideal, kb, width, rb(ka), ra, calls, goal);
    SendsAtoB(ideal, ka, width, ReceiveRecords(width, ra), SendAfter(kb, rb), calls, goal);
  }

  ghost const REPORT: Rest := got => Ret(Got(got))

  /** Every schedule of the exchange terminates: no run is stuck half-way, both parties then hold the
      other's exact list, and nothing is left in either channel. */
  lemma ExchangeIsRendezvous(ideal: Ideal<(), ()>, ka: seq<Record>, kb: seq<Record>, width: nat)
    requires AllWidth(ka, width) && AllWidth(kb, width)
    ensures AlwaysEnds(ideal, Start(Exchange(true, ka, width, REPORT), Exchange(false, kb, width, REPORT)),
      Config(Ret(Got(kb)), Ret(Got(ka)), [], [], 0))
  {
    var f: Net := Config(Ret(Got(kb)), Ret(Got(ka)), [], [], 0);
    ToEndBackward(ideal, f);
    ExchangeMeets(ideal, ka, kb, width, REPORT, REPORT, 0, ToEnd(ideal, f));
    OneEndsAllEnd(ideal, Start(Exchange(true, ka, width, REPORT), Exchange(false, kb, width, REPORT)), f);
  }

  // ---- the two roles ----

  datatype AnyParty = Party(obtain: bool, key: int, input: seq<string>, perm: seq<nat>)

  /** A party shuffles its input by some permutation of its positions. */
  type Party = p: AnyParty | IsPerm(p.perm) && |p.perm| == |p.input| ghost witness Party(false, 0, [], [])

  ghost function Shuffled(p: Party): seq<string> {
    Permuted(p.perm, p.input)
  }

  /** Initialization tells each side whether the other obtains the result; then the protocol runs.
      `only` asks for the cardinality alone. */
  ghost function Role(c: Curve, isSender: bool, p: Party, only: bool): Program {
    if isSender then Send(Flag(p.obtain), Recv(OnFlagSender(c, p, only)))
    else Recv(OnFlagReceiver(c, p, only))
  }

  ghost function OnFlagSender(c: Curve, p: Party, only: bool): Msg -> Program {
    (m: Msg) => if m.Flag? then Process(c, true, p, only, m.flag) else Ret(Broken)
  }

  ghost function OnFlagReceiver(c: Curve, p: Party, only: bool): Msg -> Program {
    (m: Msg) => if m.Flag? then Send(Flag(p.obtain), Process(c, false, p, only, m.flag)) else Ret(Broken)
  }

  /** Shuffle, encrypt and exchange. */
  ghost function Process(c: Curve, isSender: bool, p: Party, only: bool, remoteObtain: bool): Program {
    Exchange(isSender, EncryptAll(c, p.key, Shuffled(p)), POINT_LENGTH, OnEncrypted(c, isSender, p, only, remoteObtain))
  }

  ghost function OnEncrypted(c: Curve, isSender: bool, p: Party, only: bool, remoteObtain: bool): Rest {
    got => SecondRound(c, isSender, p, only, remoteObtain, got)
  }

  /** Encrypt what came in once more; hand it back if the other party obtains the result. */
  ghost function SecondRound(
      c: Curve, isSender: bool, p: Party, only: bool, remoteObtain: bool, got: seq<Record>): Program
  {
    var twice := ReencryptAll(c, p.key, got);
    Exchange(isSender, if remoteObtain then twice else [], COMPARE_LENGTH, OnReturned(p, only, twice))
  }

  ghost function OnReturned(p: Party, only: bool, twice: seq<Record>): Rest
  {
    back => Ret(Result(p, only, twice, back))
  }

  ghost function Result(p: Party, only: bool, twice: seq<Record>, back: seq<Record>): Outcome {
    if only then Count(if p.obtain then Cardinality(Sort(twice), back) else 0)
    else if !p.obtain then Keys([])
    else if |back| != |p.perm| then Broken
    else Keys(Intersection(Sort(twice), Undone(p.perm, back), p.input, Shuffled(p)))
  }

  /** In the first exchange a party hands over its encrypted keys in the order of its permutation. */
  lemma FirstRound(c: Curve, isSender: bool, p: Party, only: bool, remoteObtain: bool)
      returns (records: seq<Record>, rest: Rest)
    ensures Process(c, isSender, p, only, remoteObtain) == Exchange(isSender, records, 33, rest)
    ensures |records| == |p.input|
    ensures forall i :: 0 <= i < |records| ==>
      records[i] == c.toBytes(c.multiply(p.key, c.hashToCurve(p.input[p.perm[i]])))
  {
    records, rest := EncryptAll(c, p.key, Shuffled(p)), OnEncrypted(c, isSender, p, only, remoteObtain);
  }

  /** What `me` computes when `you` is the other party. */
  ghost function Final(c: Curve, me: Party, you: Party, only: bool): Outcome {
    var twice := ReencryptAll(c, me.key, EncryptAll(c, you.key, Shuffled(you)));
    var back := ReencryptAll(c, you.key, EncryptAll(c, me.key, Shuffled(me)));
    Result(me, only, twice, if me.obtain then back else [])
  }

  lemma SecondRoundEnds(c: Curve, ideal: Ideal<(), ()>, s: Party, r: Party, only: bool, goal: Goal)
    requires CurveOk(c)
    requires Backward(ideal, goal)
    requires goal(Config(Ret(Final(c, s, r, only)), Ret(Final(c, r, s, only)), [], [], 0))
    ensures goal(Config(
      OnEncrypted(c, true, s, only, r.obtain)(EncryptAll(c, r.key, Shuffled(r))),
      OnEncrypted(c, false, r, only, s.obtain)(EncryptAll(c, s.key, Shuffled(s))), [], [], 0))
  {
    Widths(c, s.key, [], EncryptAll(c, r.key, Shuffled(r)));
    Widths(c, r.key, [], EncryptAll(c, s.key, Shuffled(s)));
    var ts := ReencryptAll(c, s.key, EncryptAll(c, r.key, Shuffled(r)));
    var tr := ReencryptAll(c, r.key, EncryptAll(c, s.key, Shuffled(s)));
    ExchangeMeets(ideal, if r.obtain then ts else [], if s.obtain then tr else [], COMPARE_LENGTH,
      OnReturned(s, only, ts), OnReturned(r, only, tr), 0, goal);
  }

  lemma ProcessEnds(c: Curve, ideal: Ideal<(), ()>, s: Party, r: Party, only: bool, goal: Goal)
    requires CurveOk(c)
    requires Backward(ideal, goal)
    requires goal(Config(Ret(Final(c, s, r, only)), Ret(Final(c, r, s, only)), [], [], 0))
    ensures goal(Config(Process(c, true, s, only, r.obtain), Process(c, false, r, only, s.obtain), [], [], 0))
  {
    SecondRoundEnds(c, ideal, s, r, only, goal);
    Widths(c, s.key, Shuffled(s), []);
    Widths(c, r.key, Shuffled(r), []);
    ExchangeMeets(ideal, EncryptAll(c, s.key, Shuffled(s)), EncryptAll(c, r.key, Shuffled(r)), POINT_LENGTH,
      OnEncrypted(c, true, s, only, r.obtain), OnEncrypted(c, false, r, only, s.obtain), 0, goal);
  }

  lemma FlagsPass(
      ideal: Ideal<(), ()>, fa: bool, fb: bool, onA: Msg -> Program, onB: Msg -> Program, nextB: Program, goal: Goal)
    requires onB(Flag(fa)) == Send(Flag(fb), nextB)
    requires Backward(ideal, goal) && goal(Config(onA(Flag(fb)), nextB, [], [], 0))
    ensures goal(Start(Send(Flag(fa), Recv(onA)), Recv(onB)))
  {
    PassBtoA(ideal, Flag(fb), nextB, onA, 0, goal);
    PassAtoB(ideal, Flag(fa), Recv(onA), onB, 0, goal);
  }

  lemma RoleShape(c: Curve, p: Party, only: bool, remote: bool)
    ensures Role(c, true, p, only) == Send(Flag(p.obtain), Recv(OnFlagSender(c, p, only)))
    ensures Role(c, false, p, only) == Recv(OnFlagReceiver(c, p, only))
    ensures OnFlagSender(c, p, only)(Flag(remote)) == Process(c, true, p, only, remote)
    ensures OnFlagReceiver(c, p, only)(Flag(remote)) == Send(Flag(p.obtain), Process(c, false, p, only, remote))
  {
  }

  lemma RolesMeet(c: Curve, ideal: Ideal<(), ()>, s: Party, r: Party, only: bool, goal: Goal)
    requires Backward(ideal, goal)
    requires goal(Config(Process(c, true, s, only, r.obtain), Process(c, false, r, only, s.obtain), [], [], 0))
    ensures goal(Start(Role(c, true, s, only), Role(c, false, r, only)))
  {
    RoleShape(c, s, only, r.obtain);
    RoleShape(c, r, only, s.obtain);
    FlagsPass(ideal, s.obtain, r.obtain, OnFlagSender(c, s, only), OnFlagReceiver(c, r, only),
      Process(c, false, r, only, s.obtain), goal);
  }

  /** Every schedule of the two roles terminates, with both channels empty and these two results. */
  lemma EveryRun(c: Curve, ideal: Ideal<(), ()>, s: Party, r: Party, only: bool)
    requires CurveOk(c)
    ensures AlwaysEnds(ideal, Start(Role(c, true, s, only), Role(c, false, r, only)),
      Config(Ret(Final(c, s, r, only)), Ret(Final(c, r, s, only)), [], [], 0))
  {
    var f := Config(Ret(Final(c, s, r, only)), Ret(Final(c, r, s, only)), [], [], 0);
    ToEndBackward(ideal, f);
    ProcessEnds(c, ideal, s, r, only, ToEnd(ideal, f));
    RolesMeet(c, ideal, s, r, only, ToEnd(ideal, f));
    OneEndsAllEnd(ideal, Start(Role(c, true, s, only), Role(c, false, r, only)), f);
  }

  // ---- what the result means ----

  /** Key `x`, encrypted by both parties, agrees in its last 12 bytes with some key of the other list. */
  ghost predicate IsMatch(c: Curve, mine: int, theirs: int, x: string, yours: seq<string>) {
    exists y :: y in yours && LastBytesAgree(DoubleEncoding(c, mine, theirs, x), DoubleEncoding(c, mine, theirs, y))
  }

  /** Which of my keys match. */
  ghost function Matches(c: Curve, me: Party, you: Party): (r: seq<bool>)
    ensures |r| == |me.input|
    ensures forall i :: 0 <= i < |r| ==> r[i] == IsMatch(c, me.key, you.key, me.input[i], you.input)
  {
    Map(x => IsMatch(c, me.key, you.key, x, you.input), me.input)
  }

  lemma CommonKeyMatches(c: Curve, mine: int, theirs: int, x: string, yours: seq<string>)
    requires CurveOk(c) && x in yours
    ensures IsMatch(c, mine, theirs, x, yours)
  {
    TagIsTail(c, mine, theirs, x);
  }

  lemma MatchIsTag(c: Curve, mine: int, theirs: int, x: string, yours: seq<string>)
    requires CurveOk(c)
    ensures IsMatch(c, mine, theirs, x, yours) <==>
      exists y :: y in yours && Tag(c, mine, theirs, x) == Tag(c, mine, theirs, y)
  {
    if y :| y in yours && Tag(c, mine, theirs, x) == Tag(c, mine, theirs, y) {
      SameTagIff(c, mine, theirs, x, y);
    }
    if y :| y in yours && LastBytesAgree(DoubleEncoding(c, mine, theirs, x), DoubleEncoding(c, mine, theirs, y)) {
      SameTagIff(c, mine, theirs, x, y);
    }
  }

  lemma TwiceMembers(c: Curve, me: Party, you: Party, t: Record)
    requires CurveOk(c)
    ensures t in Sort(ReencryptAll(c, me.key, EncryptAll(c, you.key, Shuffled(you))))
      <==> exists y :: y in you.input && t == Tag(c, me.key, you.key, y)
  {
    var twice := ReencryptAll(c, me.key, EncryptAll(c, you.key, Shuffled(you)));
    SortMembers(twice);
    PermuteKeepsMembers(you.perm, you.input);
    if t in twice {
      var i :| 0 <= i < |twice| && twice[i] == t;
      TagSymmetric(c, me.key, you.key, Shuffled(you)[i]);
      assert Shuffled(you)[i] in you.input;
    }
    if exists y :: y in you.input && t == Tag(c, me.key, you.key, y) {
      var y :| y in you.input && t == Tag(c, me.key, you.key, y);
      TagSymmetric(c, me.key, you.key, y);
      assert y in Shuffled(you);
      var i :| 0 <= i < |twice| && Shuffled(you)[i] == y;
      assert twice[i] == t;
    }
  }

  lemma BackUndone(c: Curve, me: Party, you: Party)
    requires CurveOk(c)
    ensures Undone(me.perm, ReencryptAll(c, you.key, EncryptAll(c, me.key, Shuffled(me))))
         == ReencryptAll(c, you.key, EncryptAll(c, me.key, me.input))
  {
    var f := x => Reencrypted(c, you.key, Encrypted(c, me.key, x));
    var back := ReencryptAll(c, you.key, EncryptAll(c, me.key, Shuffled(me)));
    assert back == Map(f, Shuffled(me));
    UndoRestoresMapped(me.perm, f, me.input, Undone(me.perm, back));
    assert ReencryptAll(c, you.key, EncryptAll(c, me.key, me.input)) == Map(f, me.input);
  }

  lemma FlagIsMatch(c: Curve, me: Party, you: Party, x: string)
    requires CurveOk(c)
    ensures Tag(c, me.key, you.key, x) in Sort(ReencryptAll(c, me.key, EncryptAll(c, you.key, Shuffled(you))))
      <==> IsMatch(c, me.key, you.key, x, you.input)
  {
    TwiceMembers(c, me, you, Tag(c, me.key, you.key, x));
    MatchIsTag(c, me.key, you.key, x, you.input);
  }

  lemma FlagsAreMatches(c: Curve, me: Party, you: Party)
    requires CurveOk(c)
    ensures Flags(Sort(ReencryptAll(c, me.key, EncryptAll(c, you.key, Shuffled(you)))),
                  ReencryptAll(c, you.key, EncryptAll(c, me.key, me.input)))
         == Matches(c, me, you)
  {
    var remote := Sort(ReencryptAll(c, me.key, EncryptAll(c, you.key, Shuffled(you))));
    var mine := ReencryptAll(c, you.key, EncryptAll(c, me.key, me.input));
    forall i | 0 <= i < |me.input| ensures Flags(remote, mine)[i] == Matches(c, me, you)[i] {
      FlagIsMatch(c, me, you, me.input[i]);
      assert mine[i] == Tag(c, me.key, you.key, me.input[i]);
    }
  }

  /** With no assumption on collisions: the shuffles cancel, and a party that obtains the result
      keeps exactly its keys whose tag matches one of the other party's, unless the other list is
      empty and its own is not. */
  lemma FinalKeys(c: Curve, me: Party, you: Party)
    requires CurveOk(c) && me.obtain
    ensures Final(c, me, you, false) == Keys(
      if you.input == [] && me.input != [] then Shuffled(me) else Select(me.input, Matches(c, me, you)))
  {
    BackUndone(c, me, you);
    FlagsAreMatches(c, me, you);
    SortMembers(ReencryptAll(c, me.key, EncryptAll(c, you.key, Shuffled(you))));
  }

  /** A party that does not obtain the result outputs nothing. */
  lemma NotObtained(c: Curve, me: Party, you: Party)
    requires CurveOk(c) && !me.obtain
    ensures Final(c, me, you, false) == Keys([]) && Final(c, me, you, true) == Count(0)
  {
  }

  /** Completeness needs no assumption on collisions: a party that obtains the result outputs every key
      that the other party holds as well, as often as its own input holds it. */
  lemma NothingMissed(c: Curve, me: Party, you: Party, x: string)
    requires CurveOk(c) && me.obtain && x in you.input
    ensures Final(c, me, you, false).Keys?
    ensures multiset(Final(c, me, you, false).keys)[x] == multiset(me.input)[x]
  {
    FinalKeys(c, me, you);
    CommonKeyMatches(c, me.key, you.key, x, you.input);
    SelectKeepsAll(me.input, Matches(c, me, you), x);
  }

  lemma NoCollisionMeansMembers(c: Curve, me: Party, you: Party)
    requires CurveOk(c) && NoCollision(c, me.key, you.key, me.input, you.input)
    ensures CountTrue(Matches(c, me, you)) == |Intersect(me.input, you.input)|
    ensures Select(me.input, Matches(c, me, you)) == Intersect(me.input, you.input)
  {
    var matches := Matches(c, me, you);
    assert matches[..|me.input|] == matches;
    SelectIsIntersect(me.input, you.input, matches);
  }

  lemma MatchesAreMembers(c: Curve, me: Party, you: Party)
    requires CurveOk(c)
    ensures NoCollision(c, me.key, you.key, me.input, you.input) ==>
      CountTrue(Matches(c, me, you)) == |Intersect(me.input, you.input)|
    ensures Select(me.input, Matches(c, me, you)) == Intersect(me.input, you.input) <==>
      NoCollision(c, me.key, you.key, me.input, you.input)
  {
    var matches := Matches(c, me, you);
    if NoCollision(c, me.key, you.key, me.input, you.input) {
      NoCollisionMeansMembers(c, me, you);
    } else {
      var x, y :| x in me.input && x !in you.input && y in you.input
        && LastBytesAgree(DoubleEncoding(c, me.key, you.key, x), DoubleEncoding(c, me.key, you.key, y));
      var i :| 0 <= i < |me.input| && me.input[i] == x;
      SelectMembers(me.input, matches);
      assert FlaggedWith(me.input, matches, x);
    }
  }

  lemma {:induction false} IntersectEmpty(s: seq<string>)
    ensures Intersect(s, []) == []
  {
    if s != [] {
      IntersectEmpty(s[..|s| - 1]);
    }
  }

  /** Exactness: the output is the intersection, in input order and with duplicates kept, if and only
      if no tag collides for a key that the other party lacks, and the other list is not empty while
      one's own holds a key. */
  lemma OutputIsIntersectionIff(c: Curve, me: Party, you: Party)
    requires CurveOk(c) && me.obtain
    ensures Final(c, me, you, false) == Keys(Intersect(me.input, you.input))
      <==> NoCollision(c, me.key, you.key, me.input, you.input) && (you.input == [] ==> me.input == [])
  {
    FinalKeys(c, me, you);
    MatchesAreMembers(c, me, you);
    IntersectEmpty(me.input);
    assert |Shuffled(me)| == |me.input|;
  }

  lemma {:induction false} CountTrueMultiset(flags: seq<bool>)
    ensures CountTrue(flags) == multiset(flags)[true]
  {
    if flags != [] {
      CountTrueMultiset(flags[..|flags| - 1]);
      assert flags == flags[..|flags| - 1] + [flags[|flags| - 1]];
    }
  }

  /** The cardinality run never undoes its shuffle, and need not: counting is invariant under it. With
      no assumption on collisions it counts the keys whose tag matches. */
  lemma CardinalityCountsMatches(c: Curve, me: Party, you: Party)
    requires CurveOk(c) && me.obtain
    ensures Final(c, me, you, true) == Count(CountTrue(Matches(c, me, you)))
  {
    var remote := Sort(ReencryptAll(c, me.key, EncryptAll(c, you.key, Shuffled(you))));
    var back := ReencryptAll(c, you.key, EncryptAll(c, me.key, Shuffled(me)));
    var straight := ReencryptAll(c, you.key, EncryptAll(c, me.key, me.input));
    SortMembers(ReencryptAll(c, me.key, EncryptAll(c, you.key, Shuffled(you))));
    assert back == Permuted(me.perm, straight);
    assert Flags(remote, back) == Permuted(me.perm, Flags(remote, straight));
    PermuteKeepsMultiset(me.perm, Flags(remote, straight));
    CountTrueMultiset(Flags(remote, back));
    CountTrueMultiset(Flags(remote, straight));
    FlagsAreMatches(c, me, you);
    if remote == [] {
      NothingToMatch(c, me, you);
    }
  }

  lemma NothingToMatch(c: Curve, me: Party, you: Party)
    requires CurveOk(c) && you.input == []
    ensures CountTrue(Matches(c, me, you)) == 0
  {
    NoneTrue(Matches(c, me, you));
  }

  lemma {:induction false} NoneTrue(flags: seq<bool>)
    requires forall i :: 0 <= i < |flags| ==> !flags[i]
    ensures CountTrue(flags) == 0
  {
    if flags != [] {
      NoneTrue(flags[..|flags| - 1]);
    }
  }

  lemma SelectedCount(s: seq<string>, flags: seq<bool>)
    requires |s| == |flags|
    ensures |Select(s, flags)| == CountTrue(flags)
  {
    assert flags[..|s|] == flags;
  }

  /** The same party in another call: only the shuffle is drawn anew. */
  ghost predicate Reshuffled(p: Party, q: Party) {
    p.obtain == q.obtain && p.key == q.key && p.input == q.input
  }

  /** The two kinds of run agree, whatever the shuffles of either: against a list that is not empty, the
      cardinality run returns the length of the full run's output, whether tags collide or not. */
  lemma CardinalityIsLength(c: Curve, me: Party, you: Party, me': Party, you': Party)
    requires CurveOk(c) && me.obtain && you.input != [] && Reshuffled(me, me') && Reshuffled(you, you')
    ensures Final(c, me, you, false).Keys?
    ensures Final(c, me', you', true) == Count(|Final(c, me, you, false).keys|)
  {
    CardinalityCountsMatches(c, me', you');
    FinalKeys(c, me, you);
    SelectedCount(me.input, Matches(c, me, you));
    assert Matches(c, me', you') == Matches(c, me, you);
  }

  /** Some schedule of a run cannot go on from `g`. */
  ghost predicate RanTo(c: Curve, ideal: Ideal<(), ()>, s: Party, r: Party, only: bool, g: Net) {
    Stuck(g) && exists m: nat :: Reaches(ideal, Start(Role(c, true, s, only), Role(c, false, r, only)), m, g)
  }

  lemma RanToFinal(c: Curve, ideal: Ideal<(), ()>, s: Party, r: Party, only: bool, g: Net)
    requires CurveOk(c) && RanTo(c, ideal, s, r, only, g)
    ensures g == Config(Ret(Final(c, s, r, only)), Ret(Final(c, r, s, only)), [], [], 0)
  {
    EveryRun(c, ideal, s, r, only);
    var start := Start(Role(c, true, s, only), Role(c, false, r, only));
    var m: nat :| Reaches(ideal, start, m, g);
    StuckAtEnd(ideal, start, Config(Ret(Final(c, s, r, only)), Ret(Final(c, r, s, only)), [], [], 0), m, g);
  }

  /** A full run and a cardinality run of the same two parties, each with its own shuffles and each by any
      schedule: a party that obtains the result, against a list that is not empty, ends the second with the
      length of the list that it ends the first with. */
  lemma CardinalityRunMatches(
      c: Curve, ideal: Ideal<(), ()>, s: Party, r: Party, g: Net, s': Party, r': Party, h: Net)
    requires CurveOk(c) && Reshuffled(s, s') && Reshuffled(r, r')
    requires RanTo(c, ideal, s, r, false, g) && RanTo(c, ideal, s', r', true, h)
    ensures g.a.Ret? && g.a.result.Keys? && g.b.Ret? && g.b.result.Keys? && h.a.Ret? && h.b.Ret?
    ensures s.obtain && r.input != [] ==> h.a.result == Count(|g.a.result.keys|)
    ensures r.obtain && s.input != [] ==> h.b.result == Count(|g.b.result.keys|)
  {
    RanToFinal(c, ideal, s, r, false, g);
    RanToFinal(c, ideal, s', r', true, h);
    FinalIsKeys(c, s, r);
    FinalIsKeys(c, r, s);
    if s.obtain && r.input != [] {
      CardinalityIsLength(c, s, r, s', r');
    }
    if r.obtain && s.input != [] {
      CardinalityIsLength(c, r, s, r', s');
    }
  }

  lemma FinalIsKeys(c: Curve, me: Party, you: Party)
    requires CurveOk(c)
    ensures Final(c, me, you, false).Keys?
  {
    if me.obtain {
      FinalKeys(c, me, you);
    }
  }

  /** Exactness of the number, for empty lists as well. */
  lemma CardinalityIsSizeIff(c: Curve, me: Party, you: Party)
    requires CurveOk(c) && me.obtain
    ensures Final(c, me, you, true) == Count(|Intersect(me.input, you.input)|)
      <==> NoCollision(c, me.key, you.key, me.input, you.input)
  {
    CardinalityCountsMatches(c, me, you);
    if NoCollision(c, me.key, you.key, me.input, you.input) {
      NoCollisionMeansMembers(c, me, you);
    } else {
      CollisionCounts(c, me, you);
    }
  }

  lemma CollisionCounts(c: Curve, me: Party, you: Party)
    requires CurveOk(c) && !NoCollision(c, me.key, you.key, me.input, you.input)
    ensures CountTrue(Matches(c, me, you)) > |Intersect(me.input, you.input)|
  {
    var x, y :| x in me.input && x !in you.input && y in you.input
      && LastBytesAgree(DoubleEncoding(c, me.key, you.key, x), DoubleEncoding(c, me.key, you.key, y));
    var i :| 0 <= i < |me.input| && me.input[i] == x;
    SelectsMore(me.input, you.input, Matches(c, me, you), i);
    SelectedCount(me.input, Matches(c, me, you));
  }

  /** On duplicate-free inputs both parties count the same number. */
  lemma CardinalitiesAgree(c: Curve, s: Party, r: Party)
    requires CurveOk(c) && s.obtain && r.obtain && Distinct(s.input) && Distinct(r.input)
    requires NoCollision(c, s.key, r.key, s.input, r.input) && NoCollision(c, r.key, s.key, r.input, s.input)
    ensures Final(c, s, r, true) == Final(c, r, s, true)
  {
    CardinalityIsSizeIff(c, s, r);
    CardinalityIsSizeIff(c, r, s);
    IntersectSizeSymmetric(s.input, r.input);
  }

  /** End to end, over every schedule and every pair of shuffles: when neither list is empty and no
      tag collides, each party that asked for it ends with its own keys that the other party holds,
      in its own order and with duplicates kept, and the other ends with nothing. */
  lemma EndToEnd(c: Curve, ideal: Ideal<(), ()>, s: Party, r: Party, g: Net)
    requires CurveOk(c) && s.input != [] && r.input != []
    requires NoCollision(c, s.key, r.key, s.input, r.input) && NoCollision(c, r.key, s.key, r.input, s.input)
    requires RanTo(c, ideal, s, r, false, g)
    ensures g == Config(
      Ret(Keys(if s.obtain then Intersect(s.input, r.input) else [])),
      Ret(Keys(if r.obtain then Intersect(r.input, s.input) else [])), [], [], 0)
  {
    RanToFinal(c, ideal, s, r, false, g);
    if s.obtain {
      OutputIsIntersectionIff(c, s, r);
    }
    if r.obtain {
      OutputIsIntersectionIff(c, r, s);
    }
  }

  /** The same for a cardinality run, where empty lists are no exception. */
  lemma CardinalityEndToEnd(c: Curve, ideal: Ideal<(), ()>, s: Party, r: Party, g: Net)
    requires CurveOk(c)
    requires NoCollision(c, s.key, r.key, s.input, r.input) && NoCollision(c, r.key, s.key, r.input, s.input)
    requires RanTo(c, ideal, s, r, true, g)
    ensures g == Config(
      Ret(Count(if s.obtain then |Intersect(s.input, r.input)| else 0)),
      Ret(Count(if r.obtain then |Intersect(r.input, s.input)| else 0)), [], [], 0)
  {
    RanToFinal(c, ideal, s, r, true, g);
    if s.obtain {
      CardinalityIsSizeIff(c, s, r);
    }
    if r.obtain {
      CardinalityIsSizeIff(c, r, s);
    }
  }

  /** The failing family has members: one key against an empty list is reported as common. */
  lemma EmptyRemoteReportsOwnKeys(c: Curve)
    requires CurveOk(c)
    ensures Final(c, Party(true, 1, ["a"], [0]), Party(true, 2, [], []), false) == Keys(["a"])
    ensures Intersect<string>(["a"], []) == []
  {
    FinalKeys(c, Party(true, 1, ["a"], [0]), Party(true, 2, [], []));
    IntersectEmpty(["a"]);
  }
}
