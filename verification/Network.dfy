/**
 Two parties joined by two FIFO channels.

 A party is a deterministic program that returns, sends, receives, or calls an
 ideal functionality together with the other party. The library sub-protocols
 whose code lies outside the repository enter as such calls: both parties hand
 in an input, and each gets its own output.

 The main result is that the scheduler does not matter: once one schedule ends,
 every schedule ends, after the same number of moves and in the same state.
 */
module Network {

  datatype Prog<!M, X, !Y, R> =
    | Ret(result: R)
    | Send(msg: M, next: Prog<M, X, Y, R>)
    | Recv(onMsg: M -> Prog<M, X, Y, R>)
    | Call(input: X, onOutput: Y -> Prog<M, X, Y, R>)

  /** `ab` carries what `a` sent and `b` has not yet read; `calls` numbers the joint calls. */
  datatype Config<!M, X, !Y, R> =
    Config(a: Prog<M, X, Y, R>, b: Prog<M, X, Y, R>, ab: seq<M>, ba: seq<M>, calls: nat)

  type Ideal<!X, Y> = (nat, X, X) -> (Y, Y)

  datatype Move = MoveA | MoveB | Joint

  ghost function Start<M, X, Y, R>(a: Prog<M, X, Y, R>, b: Prog<M, X, Y, R>): Config<M, X, Y, R> {
    Config(a, b, [], [], 0)
  }

  ghost predicate Enabled<M, X, Y, R>(c: Config<M, X, Y, R>, mv: Move) {
    match mv
    case MoveA => c.a.Send? || (c.a.Recv? && c.ba != [])
    case MoveB => c.b.Send? || (c.b.Recv? && c.ab != [])
    case Joint => c.a.Call? && c.b.Call?
  }

  ghost predicate Stuck<M, X, Y, R>(c: Config<M, X, Y, R>) {
    forall mv :: !Enabled(c, mv)
  }

  ghost function Step<M, X, Y, R>(ideal: Ideal<X, Y>, c: Config<M, X, Y, R>, mv: Move): Config<M, X, Y, R>
    requires Enabled(c, mv)
  {
    match mv
    case MoveA =>
      if c.a.Send? then c.(a := c.a.next, ab := c.ab + [c.a.msg])
      else c.(a := c.a.onMsg(c.ba[0]), ba := c.ba[1..])
    case MoveB =>
      if c.b.Send? then c.(b := c.b.next, ba := c.ba + [c.b.msg])
      else c.(b := c.b.onMsg(c.ab[0]), ab := c.ab[1..])
    case Joint =>
      var (ya, yb) := ideal(c.calls, c.a.input, c.b.input);
      c.(a := c.a.onOutput(ya), b := c.b.onOutput(yb), calls := c.calls + 1)
  }

  /** Some schedule of exactly `n` moves leads from `c` to `d`. */
  ghost predicate Reaches<M, X, Y, R>(ideal: Ideal<X, Y>, c: Config<M, X, Y, R>, n: nat, d: Config<M, X, Y, R>)
    decreases n
  {
    if n == 0 then c == d
    else exists mv :: Enabled(c, mv) && Reaches(ideal, Step(ideal, c, mv), n - 1, d)
  }

  /** Two different enabled moves can be made in either order, to the same effect. */
  lemma Diamond<M, X, Y, R>(ideal: Ideal<X, Y>, c: Config<M, X, Y, R>, m1: Move, m2: Move)
    requires Enabled(c, m1) && Enabled(c, m2) && m1 != m2
    ensures Enabled(Step(ideal, c, m1), m2) && Enabled(Step(ideal, c, m2), m1)
    ensures Step(ideal, Step(ideal, c, m1), m2) == Step(ideal, Step(ideal, c, m2), m1)
  {
    if c.a.Send? && c.b.Recv? {
      assert (c.ab + [c.a.msg])[1..] == c.ab[1..] + [c.a.msg];
    }
    if c.b.Send? && c.a.Recv? {
      assert (c.ba + [c.b.msg])[1..] == c.ba[1..] + [c.b.msg];
    }
  }

  /** A move can always be brought to the front of a run that ends in a stuck state. */
  lemma {:induction false} MoveFirst<M, X, Y, R>(
      ideal: Ideal<X, Y>, c: Config<M, X, Y, R>, n: nat, f: Config<M, X, Y, R>, mv: Move)
    requires Reaches(ideal, c, n, f) && Stuck(f) && Enabled(c, mv)
    ensures n > 0 && Reaches(ideal, Step(ideal, c, mv), n - 1, f)
    decreases n
  {
    assert n > 0;
    var first :| Enabled(c, first) && Reaches(ideal, Step(ideal, c, first), n - 1, f);
    if first != mv {
      Diamond(ideal, c, first, mv);
      MoveFirst(ideal, Step(ideal, c, first), n - 1, f, mv);
    }
  }

  /** Once one schedule gets stuck after `n` moves, every other run is a prefix of a run to that
      state: no run is longer, and every run that gets stuck does so there, after `n` moves. */
  lemma {:induction false} EveryScheduleAgrees<M, X, Y, R>(
      ideal: Ideal<X, Y>, c: Config<M, X, Y, R>, n: nat, f: Config<M, X, Y, R>, m: nat, g: Config<M, X, Y, R>)
    requires Reaches(ideal, c, n, f) && Stuck(f) && Reaches(ideal, c, m, g)
    ensures m <= n && Reaches(ideal, g, n - m, f)
    ensures Stuck(g) ==> g == f && m == n
    decreases m
  {
    if m > 0 {
      var mv :| Enabled(c, mv) && Reaches(ideal, Step(ideal, c, mv), m - 1, g);
      MoveFirst(ideal, c, n, f, mv);
      EveryScheduleAgrees(ideal, Step(ideal, c, mv), n - 1, f, m - 1, g);
    }
  }

  /** Some schedule leads from `c` to the stuck state `f`. */
  ghost predicate Ends<M, X, Y, R>(ideal: Ideal<X, Y>, c: Config<M, X, Y, R>, f: Config<M, X, Y, R>) {
    Stuck(f) && exists n: nat :: Reaches(ideal, c, n, f)
  }

  lemma EndsHere<M, X, Y, R>(ideal: Ideal<X, Y>, f: Config<M, X, Y, R>)
    requires Stuck(f)
    ensures Ends(ideal, f, f)
  {
    assert Reaches(ideal, f, 0, f);
  }

  lemma EndsBefore<M, X, Y, R>(ideal: Ideal<X, Y>, c: Config<M, X, Y, R>, mv: Move, f: Config<M, X, Y, R>)
    requires Enabled(c, mv) && Ends(ideal, Step(ideal, c, mv), f)
    ensures Ends(ideal, c, f)
  {
    var n: nat :| Reaches(ideal, Step(ideal, c, mv), n, f);
    assert Reaches(ideal, c, n + 1, f);
  }

  /** `goal` holds before a move whenever it holds after it. Protocol proofs work backwards with an
      arbitrary goal of this kind. */
  ghost predicate Backward<M(!new), X(!new), Y(!new), R(!new)>(ideal: Ideal<X, Y>, goal: Config<M, X, Y, R> -> bool) {
    forall c, mv {:trigger Step(ideal, c, mv)} :: Enabled(c, mv) && goal(Step(ideal, c, mv)) ==> goal(c)
  }

  ghost function ToEnd<M, X, Y, R>(ideal: Ideal<X, Y>, f: Config<M, X, Y, R>): Config<M, X, Y, R> -> bool {
    c => Ends(ideal, c, f)
  }

  lemma ToEndBackward<M(!new), X(!new), Y(!new), R(!new)>(ideal: Ideal<X, Y>, f: Config<M, X, Y, R>)
    requires Stuck(f)
    ensures Backward(ideal, ToEnd(ideal, f)) && ToEnd(ideal, f)(f)
  {
    EndsHere(ideal, f);
    forall c, mv | Enabled(c, mv) && ToEnd(ideal, f)(Step(ideal, c, mv)) ensures ToEnd(ideal, f)(c) {
      EndsBefore(ideal, c, mv, f);
    }
  }

  /** One message passes from `a`, which sends it next, to `b`, which receives it next. */
  lemma PassAtoB<M(!new), X(!new), Y(!new), R(!new)>(
      ideal: Ideal<X, Y>, msg: M, next: Prog<M, X, Y, R>, onMsg: M -> Prog<M, X, Y, R>, calls: nat,
      goal: Config<M, X, Y, R> -> bool)
    requires Backward(ideal, goal) && goal(Config(next, onMsg(msg), [], [], calls))
    ensures goal(Config(Send(msg, next), Recv(onMsg), [], [], calls))
  {
    var sent := Config(next, Recv(onMsg), [msg], [], calls);
    assert Step(ideal, sent, MoveB) == Config(next, onMsg(msg), [], [], calls);
    assert Step(ideal, Config(Send(msg, next), Recv(onMsg), [], [], calls), MoveA) == sent;
  }

  lemma PassBtoA<M(!new), X(!new), Y(!new), R(!new)>(
      ideal: Ideal<X, Y>, msg: M, next: Prog<M, X, Y, R>, onMsg: M -> Prog<M, X, Y, R>, calls: nat,
      goal: Config<M, X, Y, R> -> bool)
    requires Backward(ideal, goal) && goal(Config(onMsg(msg), next, [], [], calls))
    ensures goal(Config(Recv(onMsg), Send(msg, next), [], [], calls))
  {
    var sent := Config(Recv(onMsg), next, [], [msg], calls);
    assert Step(ideal, sent, MoveA) == Config(onMsg(msg), next, [], [], calls);
    assert Step(ideal, Config(Recv(onMsg), Send(msg, next), [], [], calls), MoveB) == sent;
  }

  /** Both parties are at a call of the ideal functionality. */
  lemma Meet<M(!new), X(!new), Y(!new), R(!new)>(
      ideal: Ideal<X, Y>, xa: X, onA: Y -> Prog<M, X, Y, R>, xb: X, onB: Y -> Prog<M, X, Y, R>, calls: nat,
      goal: Config<M, X, Y, R> -> bool)
    requires Backward(ideal, goal)
    requires goal(Config(onA(ideal(calls, xa, xb).0), onB(ideal(calls, xa, xb).1), [], [], calls + 1))
    ensures goal(Config(Call(xa, onA), Call(xb, onB), [], [], calls))
  {
    var c := Config(Call(xa, onA), Call(xb, onB), [], [], calls);
    assert Step(ideal, c, Joint) == Config(onA(ideal(calls, xa, xb).0), onB(ideal(calls, xa, xb).1), [], [], calls + 1);
  }

  /** Every run from `c` has at most `n` moves, and can be continued to `f`, which takes the rest of them. */
  ghost predicate EndsWithin<M(!new), X(!new), Y(!new), R(!new)>(
      ideal: Ideal<X, Y>, c: Config<M, X, Y, R>, n: nat, f: Config<M, X, Y, R>)
  {
    Stuck(f) && forall m: nat, g :: Reaches(ideal, c, m, g) ==> m <= n && Reaches(ideal, g, n - m, f)
  }

  /** All schedules terminate, after equally many moves, in the same state. */
  ghost predicate AlwaysEnds<M(!new), X(!new), Y(!new), R(!new)>(
      ideal: Ideal<X, Y>, c: Config<M, X, Y, R>, f: Config<M, X, Y, R>)
  {
    exists n: nat :: EndsWithin(ideal, c, n, f)
  }

  /** Where one schedule ends, all do. */
  lemma OneEndsAllEnd<M(!new), X(!new), Y(!new), R(!new)>(
      ideal: Ideal<X, Y>, c: Config<M, X, Y, R>, f: Config<M, X, Y, R>)
    requires Ends(ideal, c, f)
    ensures AlwaysEnds(ideal, c, f)
  {
    var n: nat :| Reaches(ideal, c, n, f);
    forall m: nat, g | Reaches(ideal, c, m, g) ensures m <= n && Reaches(ideal, g, n - m, f) {
      EveryScheduleAgrees(ideal, c, n, f, m, g);
    }
    assert EndsWithin(ideal, c, n, f);
  }

  /** A state that cannot go on is the end. */
  lemma StuckAtEnd<M(!new), X(!new), Y(!new), R(!new)>(
      ideal: Ideal<X, Y>, c: Config<M, X, Y, R>, f: Config<M, X, Y, R>, m: nat, g: Config<M, X, Y, R>)
    requires AlwaysEnds(ideal, c, f) && Reaches(ideal, c, m, g) && Stuck(g)
    ensures g == f
  {
    var n: nat :| EndsWithin(ideal, c, n, f);
    assert m <= n && Reaches(ideal, g, n - m, f);
  }

  /** Some schedule leads from the configuration to a stuck state with the property `good`. */
  ghost function ToSome<M(!new), X(!new), Y(!new), R(!new)>(
      ideal: Ideal<X, Y>, good: Config<M, X, Y, R> -> bool): Config<M, X, Y, R> -> bool
  {
    c => exists f :: good(f) && Ends(ideal, c, f)
  }

  lemma ToSomeBackward<M(!new), X(!new), Y(!new), R(!new)>(ideal: Ideal<X, Y>, good: Config<M, X, Y, R> -> bool)
    ensures Backward(ideal, ToSome(ideal, good))
    ensures forall f :: good(f) && Stuck(f) ==> ToSome(ideal, good)(f)
  {
    forall c, mv | Enabled(c, mv) && ToSome(ideal, good)(Step(ideal, c, mv)) ensures ToSome(ideal, good)(c) {
      var f :| good(f) && Ends(ideal, Step(ideal, c, mv), f);
      EndsBefore(ideal, c, mv, f);
    }
    forall f | good(f) && Stuck(f) ensures ToSome(ideal, good)(f) {
      EndsHere(ideal, f);
    }
  }
}
