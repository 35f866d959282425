/** What structured exception handling and scope guards mean, without jumps. */
module JumpMeaning {
  import opened JumpMachine

  datatype Outcome = Done | Raised(code: nat)

  /** The events of a piece of code, in order, and how it ends. */
  datatype Result = Result(log: seq<int>, out: Outcome)

  function Before(log: seq<int>, r: Result): Result {
    Result(log + r.log, r.out)
  }

  function Eval(isA: IsA, s: Stmt): Result {
    match s
    case Skip => Result([], Done)
    case Act(e) => Result([e], Done)
    case Seq(a, b) => Both(Eval(isA, a), Eval(isA, b))
    case Throw(x) => Result([], Raised(x))
    case Try(b, cl) => var r := Eval(isA, b); if r.out.Done? then r else Before(r.log, Handle(isA, cl, r.out.code))
    case Call(fn, _) => EvalFn(isA, fn)
  }

  /** The first clause that catches the code; what its handler raises is not offered to
      the other clauses. */
  function Handle(isA: IsA, cl: Clauses, code: nat): Result {
    match cl
    case NoMore => Result([], Raised(code))
    case Clause(c, h, rest) => if isA(code, c) then Eval(isA, h) else Handle(isA, rest, code)
  }

  function Both(r: Result, next: Result): Result {
    if r.out.Done? then Before(r.log, next) else r
  }

  function EvalFn(isA: IsA, fn: Fn): Result {
    match fn
    case Leave => Result([], Done)
    case Plain(s, rest) => Both(Eval(isA, s), EvalFn(isA, rest))
    case Scope(b, rest) => Both(EvalBody(isA, b), EvalFn(isA, rest))
  }

  function Status(out: Outcome): bv2 {
    if out.Done? then SUCCESS_EXIT else FAILURE_EXIT
  }

  /** A guard that was reached runs after all that follows it in the function, if its
      mask fits the way the function is left. */
  function EvalBody(isA: IsA, b: Body): Result {
    match b
    case End => Result([], Done)
    case Item(s, rest) => Both(Eval(isA, s), EvalBody(isA, rest))
    case Guard(mask, action, rest) =>
      var r := EvalBody(isA, rest);
      if Fires(mask, Status(r.out)) then Result(r.log + Eval(isA, action).log, r.out) else r
  }

  // ------------------------------------------------- guards run once, in reverse

  datatype Registered = Registered(mask: bv2, action: Stmt)

  /** The guards that control reaches, in order. */
  function Reached(isA: IsA, b: Body): seq<Registered> {
    match b
    case End => []
    case Item(s, rest) => if Eval(isA, s).out.Done? then Reached(isA, rest) else []
    case Guard(mask, action, rest) => [Registered(mask, action)] + Reached(isA, rest)
  }

  /** The statements of the block without its guards. */
  function Unguarded(isA: IsA, b: Body): Result {
    match b
    case End => Result([], Done)
    case Item(s, rest) => Both(Eval(isA, s), Unguarded(isA, rest))
    case Guard(_, _, rest) => Unguarded(isA, rest)
  }

  /** The events of the guards that fit the status, from the last to the first. */
  function Backwards(isA: IsA, gs: seq<Registered>, status: bv2): seq<int>
    decreases |gs|
  {
    if |gs| == 0 then []
    else Backwards(isA, gs[1..], status) +
         (if Fires(gs[0].mask, status) then Eval(isA, gs[0].action).log else [])
  }

  /** On any exit from a block, each guard that was reached and whose mask fits the
      way out runs exactly once, in reverse order, after the statements. */
  lemma {:induction false} GuardsRunOnce(isA: IsA, b: Body)
    ensures var r := Unguarded(isA, b);
            EvalBody(isA, b) == Result(r.log + Backwards(isA, Reached(isA, b), Status(r.out)), r.out)
    decreases b
  {
    var r := Unguarded(isA, b);
    var st := Status(r.out);
    match b
    case End =>
    case Item(s, rest) =>
      GuardsRunOnce(isA, rest);
      var l := Eval(isA, s).log;
      var u := Unguarded(isA, rest);
      assert l + u.log + Backwards(isA, Reached(isA, rest), st) == l + (u.log + Backwards(isA, Reached(isA, rest), st));
      assert Backwards(isA, [], st) == [];
      assert l + [] == l;
    case Guard(mask, action, rest) =>
      GuardsRunOnce(isA, rest);
      var gs := Reached(isA, b);
      assert gs[1..] == Reached(isA, rest);
      var x := if Fires(mask, st) then Eval(isA, action).log else [];
      var y := Backwards(isA, gs[1..], st);
      assert r.log + y + x == r.log + (y + x);
  }

  /** Which guard runs on which exit: a guard for success if what follows it ends normally, a
      guard for failure if it raises, and any other always. */
  lemma GuardFits(isA: IsA, action: Stmt, rest: Body)
    ensures var r, x := EvalBody(isA, rest), Eval(isA, action).log;
            var r1 := Result(r.log + x, r.out);
            && EvalBody(isA, Guard(SUCCESS_EXIT, action, rest)) == (if r.out.Done? then r1 else r)
            && EvalBody(isA, Guard(FAILURE_EXIT, action, rest)) == (if r.out.Raised? then r1 else r)
            && EvalBody(isA, Guard(ANY_EXIT, action, rest)) == r1
  {
  }

  /** A function whose guards run on failure, traced, in a block whose second clause catches
      and throws again. */
  const BLOCK := Guard(ANY_EXIT, Act(1), Guard(FAILURE_EXIT, Act(2), Guard(SUCCESS_EXIT, Act(3),
                   Item(Seq(Act(4), Throw(7)), Item(Act(5), Guard(ANY_EXIT, Act(6), End))))))
  const CLAUSES := Clause(8, Act(10), Clause(7, Seq(Act(11), Throw(12)), Clause(12, Act(13), NoMore)))
  const STORY := Try(Seq(Act(0), Seq(Call(Scope(BLOCK, Plain(Act(8), Leave)), true), Act(9))), CLAUSES)

  lemma StoryMeans(isA: IsA)
    requires isA(7, 7) && !isA(7, 8)
    ensures Eval(isA, STORY) == Result([0, 4, 2, 1, 11], Raised(12)) && Careful(isA, STORY)
  {
    BlockMeans(isA);
    var fn := Scope(BLOCK, Plain(Act(8), Leave));
    assert EvalFn(isA, fn) == Result([4, 2, 1], Raised(7));
    assert CarefulParts(isA, fn) && !Breaks(isA, fn, false);
    var rest := Seq(Call(fn, true), Act(9));
    assert Eval(isA, rest) == Result([4, 2, 1], Raised(7));
    assert Careful(isA, rest);
    assert Eval(isA, STORY.body) == Result([0, 4, 2, 1], Raised(7));
    ClausesMean(isA);
  }

  /** Blocks and functions that end normally, and an exception that no clause catches. */
  const CALM := Try(Call(Scope(Guard(SUCCESS_EXIT, Act(1), Guard(FAILURE_EXIT, Act(2), Item(Skip, Item(Act(3), End)))),
                  Plain(Act(4), Leave)), false), NoMore)
  const LOST := Seq(CALM, Try(Throw(7), Clause(8, Skip, NoMore)))

  lemma LostMeans(isA: IsA)
    requires !isA(7, 8)
    ensures Eval(isA, LOST) == Result([3, 1, 4], Raised(7)) && Careful(isA, LOST) && Own(isA, LOST)
  {
    var item := Item(Skip, Item(Act(3), End));
    assert EvalBody(isA, item.rest) == Result([3], Done) && CarefulBody(isA, item.rest);
    assert EvalBody(isA, item) == Result([3], Done) && CarefulBody(isA, item);
    var g2 := Guard(FAILURE_EXIT, Act(2), item);
    GuardFits(isA, Act(2), item);
    GuardFits(isA, Act(1), g2);
    var b := Guard(SUCCESS_EXIT, Act(1), g2);
    assert EvalBody(isA, b) == Result([3, 1], Done) && CarefulBody(isA, g2) && CarefulBody(isA, b);
    var fn := Scope(b, Plain(Act(4), Leave));
    assert EvalFn(isA, fn.rest) == Result([4], Done) && CarefulParts(isA, fn.rest);
    assert EvalFn(isA, fn) == Result([3, 1, 4], Done) && CarefulParts(isA, fn) && !Breaks(isA, fn, false);
    assert Eval(isA, CALM) == Result([3, 1, 4], Done) && Careful(isA, CALM);
    assert Handle(isA, LOST.second.clauses, 7) == Result([], Raised(7));
    assert CarefulClauses(isA, LOST.second.clauses, 7);
  }

  lemma BlockMeans(isA: IsA)
    ensures EvalBody(isA, BLOCK) == Result([4, 2, 1], Raised(7)) && CarefulBody(isA, BLOCK)
  {
    var item := Item(Seq(Act(4), Throw(7)), Item(Act(5), Guard(ANY_EXIT, Act(6), End)));
    assert EvalBody(isA, item) == Result([4], Raised(7)) && CarefulBody(isA, item);
    var g3 := Guard(SUCCESS_EXIT, Act(3), item);
    GuardFits(isA, Act(3), item);
    var g2 := Guard(FAILURE_EXIT, Act(2), g3);
    GuardFits(isA, Act(2), g3);
    GuardFits(isA, Act(1), g2);
    assert CarefulBody(isA, g3) && CarefulBody(isA, g2);
  }

  lemma ClausesMean(isA: IsA)
    requires isA(7, 7) && !isA(7, 8)
    ensures Handle(isA, CLAUSES, 7) == Result([11], Raised(12)) && CarefulClauses(isA, CLAUSES, 7)
  {
    var h := Seq(Act(11), Throw(12));
    assert Eval(isA, h) == Result([11], Raised(12)) && Careful(isA, h);
    assert Handle(isA, CLAUSES.rest, 7) == Eval(isA, h);
  }

  // ------------------------------------------------------------------- exclusions

  /** The exception of a statement that raises one is propagated by this function, and
      not by a function that it called without sTRACE. */
  predicate Own(isA: IsA, s: Stmt) {
    match s
    case Seq(a, b) => if Eval(isA, a).out.Done? then Own(isA, b) else Own(isA, a)
    case Call(_, traced) => traced
    case _ => true
  }

  /** The exception that leaves an sSCOPE block is propagated by this function. */
  predicate OwnBody(isA: IsA, b: Body) {
    match b
    case End => true
    case Item(s, rest) => if Eval(isA, s).out.Done? then OwnBody(isA, rest) else Own(isA, s)
    case Guard(_, _, rest) => OwnBody(isA, rest)
  }

  /** The function comes to a guard, to the end of a block, to an sRETURN or to an
      exception of its own after an earlier block in which it reached a guard; spent says
      whether such a block has already ended. */
  predicate Breaks(isA: IsA, fn: Fn, spent: bool) {
    match fn
    case Leave => false
    case Plain(s, rest) => if Eval(isA, s).out.Done? then Breaks(isA, rest, spent) else spent && Own(isA, s)
    case Scope(b, rest) =>
      if spent then BodyBreaks(isA, b)
      else EvalBody(isA, b).out.Done? && Breaks(isA, rest, |Reached(isA, b)| > 0)
  }

  /** The same for a block, after an earlier one in which a guard was reached: all that
      does not break is an exception that comes before a guard from a callee without
      sTRACE. */
  predicate BodyBreaks(isA: IsA, b: Body) {
    match b
    case End => true
    case Item(s, rest) => if Eval(isA, s).out.Done? then BodyBreaks(isA, rest) else Own(isA, s)
    case Guard(_, _, _) => true
  }

  /** No guard that runs is left by an exception, which is forbidden and ends the process,
      and no function that runs breaks. */
  predicate Careful(isA: IsA, s: Stmt)
    decreases s, 0
  {
    match s
    case Skip => true
    case Act(_) => true
    case Throw(_) => true
    case Seq(a, b) => Careful(isA, a) && (Eval(isA, a).out.Done? ==> Careful(isA, b))
    case Try(b, cl) =>
      Careful(isA, b) && (Eval(isA, b).out.Raised? ==> CarefulClauses(isA, cl, Eval(isA, b).out.code))
    case Call(fn, _) => CarefulParts(isA, fn) && !Breaks(isA, fn, false)
  }

  predicate CarefulClauses(isA: IsA, cl: Clauses, code: nat)
    decreases cl, 0
  {
    match cl
    case NoMore => true
    case Clause(c, h, rest) => if isA(code, c) then Careful(isA, h) else CarefulClauses(isA, rest, code)
  }

  predicate CarefulParts(isA: IsA, fn: Fn)
    decreases fn, 0
  {
    match fn
    case Leave => true
    case Plain(s, rest) => Careful(isA, s) && (Eval(isA, s).out.Done? ==> CarefulParts(isA, rest))
    case Scope(b, rest) => CarefulBody(isA, b) && (EvalBody(isA, b).out.Done? ==> CarefulParts(isA, rest))
  }

  predicate CarefulBody(isA: IsA, b: Body)
    decreases b, 0
  {
    match b
    case End => true
    case Item(s, rest) => Careful(isA, s) && (Eval(isA, s).out.Done? ==> CarefulBody(isA, rest))
    case Guard(mask, action, rest) =>
      && CarefulBody(isA, rest)
      && (Fires(mask, Status(EvalBody(isA, rest).out)) ==> Eval(isA, action).out.Done? && Careful(isA, action))
  }
}
