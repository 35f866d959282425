/** The jump machine does what structured exception handling means. */
module JumpProof {
  import opened JumpMachine
  import opened JumpMeaning

  lemma {:induction false} StepsMore(isA: IsA, n: nat, m: nat, c: Machine)
    ensures Steps(isA, n + m, c) == Steps(isA, m, Steps(isA, n, c))
    decreases n
  {
    if n > 0 { StepsMore(isA, n - 1, m, Step(isA, c)); }
  }

  lemma Trans(isA: IsA, a: Machine, b: Machine, c: Machine)
    requires Reaches(isA, a, b) && Reaches(isA, b, c)
    ensures Reaches(isA, a, c)
  {
    var n: nat :| Steps(isA, n, a) == b;
    var m: nat :| Steps(isA, m, b) == c;
    StepsMore(isA, n, m, a);
  }

  lemma After1(isA: IsA, a: Machine, b: Machine)
    requires Reaches(isA, Step(isA, a), b)
    ensures Reaches(isA, a, b)
  {
    var n: nat :| Steps(isA, n, Step(isA, a)) == b;
    assert Steps(isA, n + 1, a) == b;
  }

  lemma Here(isA: IsA, a: Machine)
    ensures Reaches(isA, a, a)
  {
    assert Steps(isA, 0, a) == a;
  }

  /** The innermost exc jump point belongs to the current function or a caller. */
  ghost predicate Ready(c: Machine) {
    && !c.dead && c.frames.Push? && c.frames.top.nesting >= 0
    && c.exc.Push? && c.exc.top.depth <= Height(c.frames)
  }

  function Doing(c: Machine, s: Stmt, k: Cont): Machine {
    c.(cont := Then(Do(s), k))
  }

  function Finished(c: Machine, k: Cont, log: seq<int>): Machine {
    c.(cont := k, log := c.log + log)
  }

  /** About to scan the guards of the current function and then to propagate. */
  function Failing(c: Machine, x: nat, log: seq<int>): Machine {
    c.(cont := FAIL, inst := Push(x, c.inst), log := c.log + log)
  }

  /** Just arrived at the innermost exc jump point. */
  function Jumped(c: Machine, x: nat, log: seq<int>): Machine {
    JumpFront(Failing(c, x, log), Code(x))
  }

  /** From machine a, the code around c ends as r says: either control goes on at k with
      every jump stack, every local and every exception instance as before, or the
      exception instance is on its stack and is about to be propagated. */
  ghost predicate Ends(isA: IsA, a: Machine, c: Machine, k: Cont, r: Result, own: bool) {
    match r.out
    case Done => Reaches(isA, a, Finished(c, k, r.log))
    case Raised(x) => Reaches(isA, a, if own then Failing(c, x, r.log) else Jumped(c, x, r.log))
  }

  lemma EndsAfter(isA: IsA, a: Machine, b: Machine, c: Machine, k: Cont, log: seq<int>, r: Result, own: bool)
    requires Reaches(isA, a, b) && Ends(isA, b, c.(log := c.log + log), k, r, own)
    ensures Ends(isA, a, c, k, Before(log, r), own)
  {
    assert c.log + log + r.log == c.log + (log + r.log);
    match r.out
    case Done => Trans(isA, a, b, Finished(c, k, log + r.log));
    case Raised(x) => Trans(isA, a, b, if own then Failing(c, x, log + r.log) else Jumped(c, x, log + r.log));
  }

  // ---------------------------------------------------------------- sTRY blocks

  /** Inside the sTRY portion of a block. */
  function Inside(c: Machine, cl: Clauses, k: Cont): Machine {
    PushExc(Nest(c.(tries := Push(Slot(AtTryExit(k), Height(c.frames)), c.tries)), 1), AtSwitch(cl, k))
  }

  /** Inside an sTRY block a throw does not scan the guards. */
  lemma NoScan(isA: IsA, c: Machine, x: nat, log: seq<int>)
    requires Ready(c) && (c.frames.top.nesting > 0 || !c.frames.top.used)
    ensures Reaches(isA, Failing(c, x, log), Jumped(c, x, log))
  {
    var a := Failing(c, x, log);
    var b := a.(cont := Then(Propagate, Halt));
    assert Step(isA, a) == b && Step(isA, b) == Jumped(c, x, log);
    Here(isA, Jumped(c, x, log));
    After1(isA, b, Jumped(c, x, log));
    After1(isA, a, Jumped(c, x, log));
  }

  /** The clean way out of a block, from its exc jump point. */
  lemma CleanExit(isA: IsA, c: Machine, cl: Clauses, k: Cont, log: seq<int>)
    requires Ready(c)
    ensures Reaches(isA, JumpFront(Inside(c, cl, k).(log := c.log + log), Cleanup), Finished(c, k, log))
  {
    var a := JumpFront(Inside(c, cl, k).(log := c.log + log), Cleanup);
    var a1 := Step(isA, a);
    var a2 := Step(isA, a1);
    assert Step(isA, a2) == Finished(c, k, log);
    Here(isA, Finished(c, k, log));
    After1(isA, a2, Finished(c, k, log));
    After1(isA, a1, Finished(c, k, log));
    After1(isA, a, Finished(c, k, log));
  }

  /** The way out of a block that does not handle the exception x. */
  lemma FailedExit(isA: IsA, c: Machine, cl: Clauses, k: Cont, x: nat, log: seq<int>)
    requires Ready(c)
    ensures Reaches(isA, JumpFront(Failing(Inside(c, cl, k), x, log), Unhandled), Failing(c, x, log))
  {
    var a := JumpFront(Failing(Inside(c, cl, k), x, log), Unhandled);
    assert Step(isA, a) == Failing(c, x, log);
    Here(isA, Failing(c, x, log));
    After1(isA, a, Failing(c, x, log));
  }

  lemma ToJump(isA: IsA, a: Machine, c: Machine, k: Cont, r: Result, own: bool)
    requires Ready(c) && (c.frames.top.nesting > 0 || !c.frames.top.used)
    requires Ends(isA, a, c, k, r, own) && r.out.Raised?
    ensures Reaches(isA, a, Jumped(c, r.out.code, r.log))
  {
    if own {
      NoScan(isA, c, r.out.code, r.log);
      Trans(isA, a, Failing(c, r.out.code, r.log), Jumped(c, r.out.code, r.log));
    }
  }

  /** The handler of the first matching clause, in block cl0. */
  lemma RunHandler(isA: IsA, h: Stmt, cl0: Clauses, k: Cont, c: Machine)
    requires Ready(c)
    requires var c2 := PushExc(Inside(c, cl0, k), AtCatchElse);
             Ends(isA, Doing(c2, h, Then(EndOfCatch, Halt)), c2, Then(EndOfCatch, Halt), Eval(isA, h), Own(isA, h))
    ensures Ends(isA, Doing(PushExc(Inside(c, cl0, k), AtCatchElse), h, Then(EndOfCatch, Halt)), c, k, Eval(isA, h),
        true)
  {
    var c1 := Inside(c, cl0, k);
    var c2 := PushExc(c1, AtCatchElse);
    var a := Doing(c2, h, Then(EndOfCatch, Halt));
    var r := Eval(isA, h);
    match r.out
    case Done =>
      var e := Finished(c2, Then(EndOfCatch, Halt), r.log);
      CleanExit(isA, c, cl0, k, r.log);
      assert Step(isA, e) == JumpFront(c1.(log := c.log + r.log), Cleanup);
      After1(isA, e, Finished(c, k, r.log));
      Trans(isA, a, e, Finished(c, k, r.log));
    case Raised(y) =>
      ToJump(isA, a, c2, Then(EndOfCatch, Halt), r, Own(isA, h));
      var e := Jumped(c2, y, r.log);
      FailedExit(isA, c, cl0, k, y, r.log);
      assert Step(isA, e) == JumpFront(Failing(c1, y, r.log), Unhandled);
      After1(isA, e, Failing(c, y, r.log));
      Trans(isA, a, e, Failing(c, y, r.log));
  }

  /** At the chain of clauses with exception x. */
  lemma RunClauses(isA: IsA, cl: Clauses, cl0: Clauses, k: Cont, c: Machine, x: nat)
    requires Ready(c) && CarefulClauses(isA, cl, x)
    ensures Ends(isA, StepCatch(isA, Jumped(Inside(c, cl0, k), x, []), cl), c, k, Handle(isA, cl, x), true)
    decreases cl, 0
  {
    var c1 := Inside(c, cl0, k);
    match cl
    case NoMore => FailedExit(isA, c, cl0, k, x, []);
    case Clause(code, h, rest) =>
      if isA(x, code) {
        var c2 := PushExc(c1, AtCatchElse);
        RunStmt(isA, h, Then(EndOfCatch, Halt), c2);
        RunHandler(isA, h, cl0, k, c);
        assert c.log + [] == c.log;
        assert StepCatch(isA, Jumped(c1, x, []), cl) == Doing(c2, h, Then(EndOfCatch, Halt));
      } else {
        RunClauses(isA, rest, cl0, k, c, x);
      }
  }

  lemma TryStep(isA: IsA, c: Machine, s: Stmt, k: Cont)
    requires Ready(c) && s.Try?
    ensures Step(isA, Doing(c, s, k)) == Doing(Inside(c, s.clauses, k), s.body, Then(EndOfTry, Halt))
  {
  }

  lemma EndTryStep(isA: IsA, c: Machine, cl: Clauses, k: Cont, log: seq<int>)
    requires Ready(c)
    ensures Step(isA, Finished(Inside(c, cl, k), Then(EndOfTry, Halt), log)) ==
            JumpFront(Inside(c, cl, k).(log := c.log + log), Cleanup)
  {
  }

  /** An exception inside the block arrives at the clauses. */
  lemma CatchStep(isA: IsA, c: Machine, cl: Clauses, k: Cont, x: nat, log: seq<int>)
    requires Ready(c)
    ensures Step(isA, Jumped(Inside(c, cl, k), x, log)) ==
            StepCatch(isA, Jumped(Inside(c.(log := c.log + log), cl, k), x, []), cl)
  {
    assert c.log + log + [] == c.log + log;
  }

  lemma RunTry(isA: IsA, s: Stmt, k: Cont, c: Machine)
    requires Ready(c) && s.Try? && Careful(isA, s)
    ensures Ends(isA, Doing(c, s, k), c, k, Eval(isA, s), Own(isA, s))
    decreases s, 0
  {
    hide StepCatch, WithGuards, Step, JumpFront;
    var b, cl := s.body, s.clauses;
    var c1 := Inside(c, cl, k);
    var a := Doing(c, s, k);
    var a1 := Doing(c1, b, Then(EndOfTry, Halt));
    TryStep(isA, c, s, k);
    RunStmt(isA, b, Then(EndOfTry, Halt), c1);
    var r := Eval(isA, b);
    if r.out.Done? {
      var e := Finished(c1, Then(EndOfTry, Halt), r.log);
      CleanExit(isA, c, cl, k, r.log);
      EndTryStep(isA, c, cl, k, r.log);
      After1(isA, e, Finished(c, k, r.log));
      Trans(isA, a1, e, Finished(c, k, r.log));
      After1(isA, a, Finished(c, k, r.log));
    } else {
      var x := r.out.code;
      ToJump(isA, a1, c1, Then(EndOfTry, Halt), r, Own(isA, b));
      After1(isA, a, Jumped(c1, x, r.log));
      var d := c.(log := c.log + r.log);
      RunClauses(isA, cl, cl, k, d, x);
      var e := Jumped(c1, x, r.log);
      CatchStep(isA, c, cl, k, x, r.log);
      Here(isA, Step(isA, e));
      After1(isA, e, Step(isA, e));
      Trans(isA, a, e, Step(isA, e));
      EndsAfter(isA, a, Step(isA, e), c, k, r.log, Handle(isA, cl, x), true);
    }
  }

  lemma RunSeq(isA: IsA, st: Stmt, k: Cont, c: Machine)
    requires Ready(c) && st.Seq? && Careful(isA, st)
    ensures Ends(isA, Doing(c, st, k), c, k, Eval(isA, st), Own(isA, st))
    decreases st, 0
  {
    var s, t := st.first, st.second;
    var a := Doing(c, st, k);
    var k1 := Then(Do(t), k);
    RunStmt(isA, s, k1, c);
    var r := Eval(isA, s);
    match r.out
    case Done =>
      var d := c.(log := c.log + r.log);
      After1(isA, a, Doing(d, t, k));
      RunStmt(isA, t, k, d);
      EndsAfter(isA, a, Doing(d, t, k), c, k, r.log, Eval(isA, t), Own(isA, t));
    case Raised(x) =>
      After1(isA, a, if Own(isA, s) then Failing(c, x, r.log) else Jumped(c, x, r.log));
  }

  // ---------------------------------------------------------------- scope guards

  /** What guards gs do to code that ends as r: the newest runs first. */
  function WithGuards(isA: IsA, gs: seq<Registered>, r: Result): Result
    decreases |gs|
  {
    if |gs| == 0 then r else WithGuards(isA, gs[..|gs| - 1], WithGuard(isA, gs[|gs| - 1], r))
  }

  function WithGuard(isA: IsA, g: Registered, r: Result): Result {
    if Fires(g.mask, Status(r.out)) then Result(r.log + Eval(isA, g.action).log, r.out) else r
  }

  lemma {:induction false} WithGuardsBefore(isA: IsA, gs: seq<Registered>, log: seq<int>, r: Result)
    ensures WithGuards(isA, gs, Before(log, r)) == Before(log, WithGuards(isA, gs, r))
    ensures WithGuards(isA, gs, r).out == r.out
    decreases |gs|
  {
    if |gs| > 0 {
      var g := gs[|gs| - 1];
      assert log + r.log + Eval(isA, g.action).log == log + (r.log + Eval(isA, g.action).log);
      assert WithGuard(isA, g, Before(log, r)) == Before(log, WithGuard(isA, g, r));
      WithGuardsBefore(isA, gs[..|gs| - 1], log, WithGuard(isA, g, r));
    }
  }

  /** The scope jump stack with one slot per registered guard on top of s. */
  function Slots(s: Stack<Slot>, gs: seq<Registered>, d: nat): Stack<Slot>
    decreases |gs|
  {
    if |gs| == 0 then s
    else
      var g := gs[|gs| - 1];
      Push(Slot(AtGuard(g.mask, g.action), d), Slots(s, gs[..|gs| - 1], d))
  }

  /** A function that has reached guards gs; c is the machine before the first guard. */
  function Guarded(c: Machine, gs: seq<Registered>): Machine {
    if |gs| == 0 || c.frames.Empty? then c
    else
      var d := Height(c.frames);
      PushExc(SetLocals(c, c.frames.top.(used := true, fnExit := Height(c.scope))), AtFirstGuard).(
        scope := Slots(Push(Slot(Uninitialized, d), c.scope), gs, d))
  }

  /** Running the action from any machine brings control back with all stacks as before. */
  ghost predicate Runs(isA: IsA, action: Stmt) {
    forall c, k :: Ready(c) ==> Reaches(isA, Doing(c, action, k), Finished(c, k, Eval(isA, action).log))
  }

  /** The guards that fit the way out run. */
  ghost predicate AllRun(isA: IsA, gs: seq<Registered>, status: bv2) {
    forall i :: 0 <= i < |gs| && Fires(gs[i].mask, status) ==> Runs(isA, gs[i].action)
  }

  /** In a function, with no sTRY block open. */
  ghost predicate Alive(c: Machine) {
    !c.dead && c.frames.Push? && c.frames.top.nesting == 0
  }

  /** A function body about to enter its first guard, or without guards. */
  ghost predicate Fresh(c: Machine) {
    Ready(c) && c.frames.top.nesting == 0 && !c.frames.top.used && c.exc.top.depth < Height(c.frames)
  }

  /** The scan under way, with guards gs still to run and jump point e on top of the exc
      stack of c; it was started with continuation k. */
  function Scanning(c: Machine, e: Slot, gs: seq<Registered>, status: bv2, k: Cont): Machine {
    if c.frames.Empty? then c
    else
      var d := Height(c.frames);
      var f := c.frames.top.(used := true, fnExit := Height(c.scope), status := status);
      SetLocals(c, f).(exc := Push(e, c.exc),
        scope := Slots(Push(Slot(AtScan(k), d), c.scope), gs, d), cont := Then(NextGuard, Halt))
  }

  /** After the scan: every stack is as it was before the first guard. */
  function Scanned(c: Machine, status: bv2, k: Cont): Machine {
    if c.frames.Empty? then c
    else SetLocals(c, c.frames.top.(used := true, fnExit := Height(c.scope), status := status)).(cont := k)
  }

  lemma {:induction false} PutExit(s: Stack<Slot>, x: Slot, y: Slot, gs: seq<Registered>, d: nat)
    ensures Height(Slots(Push(x, s), gs, d)) == Height(s) + 1 + |gs|
    ensures Put(Slots(Push(x, s), gs, d), Height(s), y) == Slots(Push(y, s), gs, d)
    decreases |gs|
  {
    if |gs| > 0 { PutExit(s, x, y, gs[..|gs| - 1], d); }
  }

  /** The chain of jumps from guard to guard. */
  lemma {:induction false} RunGuards(isA: IsA, c: Machine, e: Slot, gs: seq<Registered>, k: Cont, r: Result)
    requires Alive(c) && AllRun(isA, gs, Status(r.out))
    ensures var st := Status(r.out);
            Reaches(isA, Scanning(c, e, gs, st, k).(log := c.log + r.log),
                    Scanned(c, st, k).(log := c.log + WithGuards(isA, gs, r).log))
    decreases |gs|
  {
    var st := Status(r.out);
    var a := Scanning(c, e, gs, st, k).(log := c.log + r.log);
    if |gs| == 0 {
      var b := Scanned(c, st, k).(log := c.log + r.log);
      assert Step(isA, Step(isA, Step(isA, a))) == b;
      Here(isA, b);
      After1(isA, Step(isA, Step(isA, a)), b);
      After1(isA, Step(isA, a), b);
      After1(isA, a, b);
    } else {
      var g := gs[|gs| - 1];
      var lo := gs[..|gs| - 1];
      var r1 := WithGuard(isA, g, r);
      RunGuards(isA, c, e, lo, k, r1);
      RunGuard(isA, c, e, gs, k, r);
      Trans(isA, a, Scanning(c, e, lo, st, k).(log := c.log + r1.log),
            Scanned(c, st, k).(log := c.log + WithGuards(isA, gs, r).log));
    }
  }

  lemma RunGuard(isA: IsA, c: Machine, e: Slot, gs: seq<Registered>, k: Cont, r: Result)
    requires Alive(c) && |gs| > 0 && AllRun(isA, gs[|gs| - 1..], Status(r.out))
    ensures var st := Status(r.out);
            Reaches(isA, Scanning(c, e, gs, st, k).(log := c.log + r.log),
                    Scanning(c, e, gs[..|gs| - 1], st, k).(log := c.log + WithGuard(isA, gs[|gs| - 1], r).log))
  {
    var st := Status(r.out);
    var g := gs[|gs| - 1];
    var a := Scanning(c, e, gs, st, k).(log := c.log + r.log);
    var b := Scanning(c, e, gs[..|gs| - 1], st, k).(log := c.log + WithGuard(isA, g, r).log);
    var a1 := Step(isA, a);
    var a2 := Step(isA, a1);
    if Fires(g.mask, st) {
      var inner := PushExc(Scanning(c, e, gs[..|gs| - 1], st, k).(log := c.log + r.log), AtGuardElse);
      var k1 := Then(EndGuard, Halt);
      assert a2 == Doing(inner, g.action, k1);
      assert gs[|gs| - 1..][0] == g && Runs(isA, g.action) && Ready(inner);
      var l := Eval(isA, g.action).log;
      assert c.log + r.log + l == c.log + (r.log + l);
      assert Step(isA, Finished(inner, k1, l)) == b;
      Here(isA, b);
      After1(isA, Finished(inner, k1, l), b);
      Trans(isA, a2, Finished(inner, k1, l), b);
    } else {
      assert a2 == b;
      Here(isA, b);
    }
    After1(isA, a1, b);
    After1(isA, a, b);
  }

  /** A scan of the guards of a function, on whichever way out. */
  lemma RunScan(isA: IsA, c: Machine, gs: seq<Registered>, k: Cont, r: Result) returns (f: Locals)
    requires Fresh(c) && AllRun(isA, gs, Status(r.out))
    ensures LeftBy(c, f, |gs| > 0)
    ensures Reaches(isA, Guarded(c, gs).(cont := Then(Scan(Status(r.out)), k), log := c.log + r.log),
                    SetLocals(c, f).(cont := k, log := c.log + WithGuards(isA, gs, r).log))
  {
    var st := Status(r.out);
    var a := Guarded(c, gs).(cont := Then(Scan(st), k), log := c.log + r.log);
    if |gs| == 0 {
      f := c.frames.top;
      Here(isA, Step(isA, a));
      After1(isA, a, Step(isA, a));
    } else {
      f := c.frames.top.(used := true, fnExit := Height(c.scope), status := st);
      PutExit(c.scope, Slot(Uninitialized, Height(c.frames)), Slot(AtScan(k), Height(c.frames)), gs, Height(c.frames));
      var e := Slot(AtFirstGuard, Height(c.frames));
      assert Step(isA, a) == Scanning(c, e, gs, st, k).(log := c.log + r.log);
      RunGuards(isA, c, e, gs, k, r);
      After1(isA, a, Scanned(c, st, k).(log := c.log + WithGuards(isA, gs, r).log));
    }
  }

  // ------------------------------------------------------------------- functions

  /** A function body ends at k with only its own locals changed, or has thrown past
      its guards to the innermost jump point of its callers. */
  ghost predicate BodyEnds(isA: IsA, a: Machine, c: Machine, k: Cont, r: Result, used: bool) {
    match r.out
    case Done =>
      exists f :: LeftBy(c, f, used) && Reaches(isA, a, SetLocals(c, f).(cont := k, log := c.log + r.log))
    case Raised(x) => Reaches(isA, a, Jumped(c, x, r.log))
  }

  /** The locals after a block: the mark that guards were used is still set. */
  ghost predicate LeftBy(c: Machine, f: Locals, used: bool) {
    f.nesting == 0 && f.used == used && (used ==> f.fnExit == Height(c.scope))
  }

  /** An exception that leaves a statement of a function runs the guards reached and
      goes on to the callers. */
  lemma RunFailure(isA: IsA, a: Machine, c: Machine, gs: seq<Registered>, k: Cont, r: Result, own: bool, used: bool)
    requires Fresh(c) && AllRun(isA, gs, Status(r.out)) && r.out.Raised?
    requires Ends(isA, a, Guarded(c, gs), k, r, own)
    ensures BodyEnds(isA, a, c, k, WithGuards(isA, gs, r), used)
  {
    hide AllRun;
    var x := r.out.code;
    WithGuardsBefore(isA, gs, [], r);
    if |gs| == 0 {
      ToJump(isA, a, c, k, r, own);
    } else {
      var e := Failing(Guarded(c, gs), x, r.log);
      if !own {
        var j := Jumped(Guarded(c, gs), x, r.log);
        assert Step(isA, j) == e;
        Here(isA, e);
        After1(isA, j, e);
        Trans(isA, a, j, e);
      }
      var c1 := c.(inst := Push(x, c.inst));
      var k1 := Then(Propagate, Halt);
      var f := RunScan(isA, c1, gs, k1, r);
      var e1 := SetLocals(c1, f).(cont := k1, log := c.log + WithGuards(isA, gs, r).log);
      assert e == Guarded(c1, gs).(cont := Then(Scan(Status(r.out)), k1), log := c1.log + r.log);
      Trans(isA, a, e, e1);
      var e2 := Jumped(c, x, WithGuards(isA, gs, r).log);
      assert Step(isA, e1) == e2;
      Here(isA, e2);
      After1(isA, e1, e2);
      Trans(isA, a, e1, e2);
    }
  }

  lemma RunBody(isA: IsA, b: Body, k: Cont, c: Machine, gs: seq<Registered>)
    requires Fresh(c) && CarefulBody(isA, b) && AllRun(isA, gs, Status(EvalBody(isA, b).out))
    ensures BodyEnds(isA, Guarded(c, gs).(cont := Then(Items(b), k)), c, k, WithGuards(isA, gs, EvalBody(isA, b)),
        |gs + Reached(isA, b)| > 0)
    decreases b, 1
  {
    var a := Guarded(c, gs).(cont := Then(Items(b), k));
    match b
    case End =>
      var r := Result([], Done);
      var f := RunScan(isA, c, gs, k, r);
      WithGuardsBefore(isA, gs, [], r);
      assert c.log + [] == c.log;
      After1(isA, a, SetLocals(c, f).(cont := k, log := c.log + WithGuards(isA, gs, r).log));
    case Item(s, rest) => RunItem(isA, b, k, c, gs);
    case Guard(mask, action, rest) => RunRegister(isA, b, k, c, gs);
  }

  /** Reaching one more guard. */
  lemma RunRegister(isA: IsA, b: Body, k: Cont, c: Machine, gs: seq<Registered>)
    requires Fresh(c) && b.Guard? && CarefulBody(isA, b) && AllRun(isA, gs, Status(EvalBody(isA, b).out))
    ensures BodyEnds(isA, Guarded(c, gs).(cont := Then(Items(b), k)), c, k, WithGuards(isA, gs, EvalBody(isA, b)),
        |gs + Reached(isA, b)| > 0)
    decreases b, 0
  {
    var a := Guarded(c, gs).(cont := Then(Items(b), k));
    forall c1, k1 | Ready(c1) && Fires(b.mask, Status(EvalBody(isA, b).out))
      ensures Reaches(isA, Doing(c1, b.action, k1), Finished(c1, k1, Eval(isA, b.action).log))
    {
      RunStmt(isA, b.action, k1, c1);
    }
    var gs1 := gs + [Registered(b.mask, b.action)];
    assert gs1[..|gs1| - 1] == gs;
    assert AllRun(isA, gs1, Status(EvalBody(isA, b.rest).out));
    RunBody(isA, b.rest, k, c, gs1);
    GuardStep(isA, b, k, c, gs);
    BodyAfter1(isA, a, c, k, WithGuards(isA, gs, EvalBody(isA, b)), true);
  }

  /** On the machine: which guard runs on which exit from its block. */
  lemma RunGuardFits(isA: IsA, b: Body, k: Cont, c: Machine)
    requires Fresh(c) && b.Guard? && CarefulBody(isA, b)
    ensures var r, x := EvalBody(isA, b.rest), Eval(isA, b.action).log;
            var a, r1 := c.(cont := Then(Items(b), k)), Result(r.log + x, r.out);
            && (b.mask == SUCCESS_EXIT ==> BodyEnds(isA, a, c, k, if r.out.Done? then r1 else r, true))
            && (b.mask == FAILURE_EXIT ==> BodyEnds(isA, a, c, k, if r.out.Raised? then r1 else r, true))
            && (b.mask == ANY_EXIT ==> BodyEnds(isA, a, c, k, r1, true))
  {
    hide BodyEnds, Careful, Eval, CarefulBody;
    RunBody(isA, b, k, c, []);
    GuardFits(isA, b.action, b.rest);
    assert [] + Reached(isA, b) == Reached(isA, b);
  }

  lemma GuardStep(isA: IsA, b: Body, k: Cont, c: Machine, gs: seq<Registered>)
    requires Fresh(c) && b.Guard?
    ensures Step(isA, Guarded(c, gs).(cont := Then(Items(b), k))) ==
            Guarded(c, gs + [Registered(b.mask, b.action)]).(cont := Then(Items(b.rest), k))
  {
    var gs1 := gs + [Registered(b.mask, b.action)];
    assert gs1[..|gs1| - 1] == gs;
  }

  lemma BodyAfter1(isA: IsA, a: Machine, c: Machine, k: Cont, r: Result, used: bool)
    requires BodyEnds(isA, Step(isA, a), c, k, r, used)
    ensures BodyEnds(isA, a, c, k, r, used)
  {
    match r.out
    case Done =>
      var f :| LeftBy(c, f, used) && Reaches(isA, Step(isA, a), SetLocals(c, f).(cont := k, log := c.log + r.log));
      After1(isA, a, SetLocals(c, f).(cont := k, log := c.log + r.log));
    case Raised(x) => After1(isA, a, Jumped(c, x, r.log));
  }

  lemma BodyAfter(isA: IsA, a: Machine, b: Machine, c: Machine, k: Cont, log: seq<int>, r: Result, used: bool)
    requires Reaches(isA, a, b) && BodyEnds(isA, b, c.(log := c.log + log), k, r, used)
    ensures BodyEnds(isA, a, c, k, Before(log, r), used)
  {
    assert c.log + log + r.log == c.log + (log + r.log);
    match r.out
    case Done =>
      var d := c.(log := c.log + log);
      var f :| LeftBy(d, f, used) && Reaches(isA, b, SetLocals(d, f).(cont := k, log := d.log + r.log));
      assert SetLocals(d, f).(cont := k, log := d.log + r.log) == SetLocals(c, f).(cont := k,
          log := c.log + (log + r.log));
      Trans(isA, a, b, SetLocals(c, f).(cont := k, log := c.log + (log + r.log)));
    case Raised(x) => Trans(isA, a, b, Jumped(c, x, log + r.log));
  }

  lemma RunItem(isA: IsA, b: Body, k: Cont, c: Machine, gs: seq<Registered>)
    requires Fresh(c) && b.Item? && CarefulBody(isA, b) && AllRun(isA, gs, Status(EvalBody(isA, b).out))
    ensures BodyEnds(isA, Guarded(c, gs).(cont := Then(Items(b), k)), c, k, WithGuards(isA, gs, EvalBody(isA, b)),
        |gs + Reached(isA, b)| > 0)
    decreases b, 0
  {
    var a := Guarded(c, gs).(cont := Then(Items(b), k));
    var k1 := Then(Items(b.rest), k);
    var r := Eval(isA, b.stmt);
    RunStmt(isA, b.stmt, k1, Guarded(c, gs));
    if r.out.Done? {
      var d := c.(log := c.log + r.log);
      RunBody(isA, b.rest, k, d, gs);
      After1(isA, a, Finished(Guarded(c, gs), k1, r.log));
      assert Finished(Guarded(c, gs), k1, r.log) == Guarded(d, gs).(cont := k1);
      WithGuardsBefore(isA, gs, r.log, EvalBody(isA, b.rest));
      BodyAfter(isA, a, Guarded(d, gs).(cont := k1), c, k, r.log, WithGuards(isA, gs, EvalBody(isA, b.rest)),
                |gs + Reached(isA, b)| > 0);
    } else {
      assert Step(isA, a) == Doing(Guarded(c, gs), b.stmt, k1);
      RunFailure(isA, Step(isA, a), c, gs, k1, r, Own(isA, b.stmt), |gs + Reached(isA, b)| > 0);
      WithGuardsBefore(isA, gs, [], r);
      BodyAfter1(isA, a, c, k, WithGuards(isA, gs, r), |gs + Reached(isA, b)| > 0);
    }
  }

  // ----------------------------------------------------------------------- calls

  /** The body of a function ends at k, or has thrown to the jump points of its callers. */
  ghost predicate FnEnds(isA: IsA, a: Machine, c: Machine, k: Cont, r: Result) {
    match r.out
    case Done => exists f :: Reaches(isA, a, SetLocals(c, f).(cont := k, log := c.log + r.log))
    case Raised(x) => Reaches(isA, a, Jumped(c, x, r.log))
  }

  /** In a function after an sSCOPE block in which it reached a guard: the mark that guards
      were used is still set. */
  ghost predicate Spent(c: Machine) {
    && Ready(c) && c.frames.top.nesting == 0 && c.exc.top.depth < Height(c.frames)
    && c.frames.top.used && c.frames.top.fnExit == Height(c.scope)
  }

  ghost predicate InFn(c: Machine, spent: bool) {
    if spent then Spent(c) else Fresh(c)
  }

  /** The rest of a function that does not break. */
  lemma RunFn(isA: IsA, fn: Fn, k: Cont, c: Machine, spent: bool)
    requires InFn(c, spent) && CarefulParts(isA, fn) && !Breaks(isA, fn, spent)
    ensures FnEnds(isA, c.(cont := FnCont(fn, k)), c, k, EvalFn(isA, fn))
    decreases fn, 0
  {
    var a := c.(cont := FnCont(fn, k));
    match fn
    case Leave =>
      assert a == SetLocals(c, c.frames.top).(cont := k, log := c.log + []);
      Here(isA, a);
    case Plain(s, rest) =>
      var k1 := FnCont(rest, k);
      RunStmt(isA, s, k1, c);
      var r := Eval(isA, s);
      if r.out.Done? {
        RunFn(isA, rest, k, c.(log := c.log + r.log), spent);
        FnAfter(isA, a, Finished(c, k1, r.log), c, k, r.log, EvalFn(isA, rest));
      } else if !spent {
        ToJump(isA, a, c, k1, r, Own(isA, s));
      }
    case Scope(b, rest) =>
      if spent {
        RunSpentBody(isA, b, FnCont(rest, k), c);
      } else {
        RunScope(isA, fn, k, c);
      }
  }

  lemma RunScope(isA: IsA, fn: Fn, k: Cont, c: Machine)
    requires Fresh(c) && fn.Scope? && CarefulParts(isA, fn) && !Breaks(isA, fn, false)
    ensures FnEnds(isA, c.(cont := FnCont(fn, k)), c, k, EvalFn(isA, fn))
    decreases fn, 0, 0
  {
    var b := fn.body;
    var k1 := FnCont(fn.rest, k);
    var a := c.(cont := FnCont(fn, k));
    RunBody(isA, b, k1, c, []);
    var r := EvalBody(isA, b);
    assert [] + Reached(isA, b) == Reached(isA, b);
    if r.out.Done? {
      var spent := |Reached(isA, b)| > 0;
      var f :| LeftBy(c, f, spent) && Reaches(isA, a, SetLocals(c, f).(cont := k1, log := c.log + r.log));
      var d := SetLocals(c, f).(log := c.log + r.log);
      RunFn(isA, fn.rest, k, d, spent);
      NewLocals(isA, d.(cont := k1), c.(log := c.log + r.log), f, k, EvalFn(isA, fn.rest));
      FnAfter(isA, a, d.(cont := k1), c, k, r.log, EvalFn(isA, fn.rest));
    }
  }

  lemma NewLocals(isA: IsA, a: Machine, c: Machine, f: Locals, k: Cont, r: Result)
    requires Ready(c) && c.exc.top.depth < Height(c.frames) && FnEnds(isA, a, SetLocals(c, f), k, r)
    ensures FnEnds(isA, a, c, k, r)
  {
    if r.out.Done? {
      var d := SetLocals(c, f);
      var g :| Reaches(isA, a, SetLocals(d, g).(cont := k, log := d.log + r.log));
      assert SetLocals(d, g).(cont := k, log := d.log + r.log) == SetLocals(c, g).(cont := k, log := c.log + r.log);
    }
  }

  /** A later block that ends in an exception of a callee without sTRACE before it comes to
      a guard. */
  lemma RunSpentBody(isA: IsA, b: Body, k: Cont, c: Machine)
    requires Spent(c) && CarefulBody(isA, b) && !BodyBreaks(isA, b)
    ensures var r := EvalBody(isA, b);
            r.out.Raised? && Reaches(isA, c.(cont := Then(Items(b), k)), Jumped(c, r.out.code, r.log))
    decreases b, 0
  {
    hide Step;
    var a := c.(cont := Then(Items(b), k));
    var k1 := Then(Items(b.rest), k);
    var r := Eval(isA, b.stmt);
    ItemStep(isA, c, b, k);
    RunStmt(isA, b.stmt, k1, c);
    if r.out.Done? {
      var d := c.(log := c.log + r.log);
      RunSpentBody(isA, b.rest, k, d);
      var x, l := EvalBody(isA, b).out.code, EvalBody(isA, b.rest).log;
      assert c.log + r.log + l == c.log + (r.log + l);
      After1(isA, a, d.(cont := k1));
      Trans(isA, a, d.(cont := k1), Jumped(c, x, r.log + l));
    } else {
      After1(isA, a, Jumped(c, r.out.code, r.log));
    }
  }

  lemma FnAfter(isA: IsA, a: Machine, b: Machine, c: Machine, k: Cont, log: seq<int>, r: Result)
    requires Reaches(isA, a, b) && FnEnds(isA, b, c.(log := c.log + log), k, r)
    ensures FnEnds(isA, a, c, k, Before(log, r))
  {
    assert c.log + log + r.log == c.log + (log + r.log);
    match r.out
    case Done =>
      var d := c.(log := c.log + log);
      var f :| Reaches(isA, b, SetLocals(d, f).(cont := k, log := d.log + r.log));
      assert SetLocals(d, f).(cont := k, log := d.log + r.log) == SetLocals(c, f).(cont := k,
          log := c.log + (log + r.log));
      Trans(isA, a, b, SetLocals(c, f).(cont := k, log := c.log + (log + r.log)));
    case Raised(x) => Trans(isA, a, b, Jumped(c, x, log + r.log));
  }

  function Positions(c: Machine): Position {
    Position(Height(c.tries), Height(c.exc), Height(c.scope))
  }

  /** The machine in a function that c calls. */
  function Called(c: Machine, traced: bool): Machine {
    (if traced then PushExc(c, AtTraceElse(Positions(c))) else c).(frames := Push(ENTRY, c.frames))
  }

  function BackAt(c: Machine, traced: bool, k: Cont): Cont {
    Then(Return, if traced then Then(Untrace(Positions(c)), k) else k)
  }

  lemma RunCall(isA: IsA, s: Stmt, k: Cont, c: Machine)
    requires Ready(c) && s.Call? && Careful(isA, s)
    ensures Ends(isA, Doing(c, s, k), c, k, Eval(isA, s), Own(isA, s))
    decreases s, 0
  {
    var a := Doing(c, s, k);
    var c2 := Called(c, s.traced);
    RunFn(isA, s.fn, BackAt(c, s.traced, k), c2, false);
    var r := EvalFn(isA, s.fn);
    var a1 := c2.(cont := FnCont(s.fn, BackAt(c, s.traced, k)));
    assert Step(isA, a) == a1;
    match r.out
    case Done =>
      RunReturn(isA, s, k, c);
      After1(isA, a, Finished(c, k, r.log));
    case Raised(x) =>
      RunThrow(isA, s, k, c);
      After1(isA, a, if s.traced then Failing(c, x, r.log) else Jumped(c, x, r.log));
  }

  lemma RunReturn(isA: IsA, s: Stmt, k: Cont, c: Machine)
    requires Ready(c) && s.Call? && EvalFn(isA, s.fn).out.Done?
    requires var k1 := BackAt(c, s.traced, k); var c2 := Called(c, s.traced);
             FnEnds(isA, c2.(cont := FnCont(s.fn, k1)), c2, k1, EvalFn(isA, s.fn))
    ensures Reaches(isA, Called(c, s.traced).(cont := FnCont(s.fn, BackAt(c, s.traced, k))),
                    Finished(c, k, EvalFn(isA, s.fn).log))
  {
    var k1 := BackAt(c, s.traced, k);
    var c2 := Called(c, s.traced);
    var a := c2.(cont := FnCont(s.fn, k1));
    var l := EvalFn(isA, s.fn).log;
    var f :| Reaches(isA, a, SetLocals(c2, f).(cont := k1, log := c2.log + l));
    var e := SetLocals(c2, f).(cont := k1, log := c2.log + l);
    var e1 := Step(isA, e);
    var z := Finished(c, k, l);
    if s.traced {
      assert Step(isA, e1) == z;
      Here(isA, z);
      After1(isA, e1, z);
    } else {
      Here(isA, z);
    }
    After1(isA, e, z);
    Trans(isA, a, e, z);
  }

  lemma RunThrow(isA: IsA, s: Stmt, k: Cont, c: Machine)
    requires Ready(c) && s.Call? && EvalFn(isA, s.fn).out.Raised?
    requires var k1 := BackAt(c, s.traced, k); var c2 := Called(c, s.traced);
             FnEnds(isA, c2.(cont := FnCont(s.fn, k1)), c2, k1, EvalFn(isA, s.fn))
    ensures Ends(isA, Called(c, s.traced).(cont := FnCont(s.fn, BackAt(c, s.traced, k))), c, k,
                 EvalFn(isA, s.fn), s.traced)
  {
    var a := Called(c, s.traced).(cont := FnCont(s.fn, BackAt(c, s.traced, k)));
    var r := EvalFn(isA, s.fn);
    var x := r.out.code;
    if s.traced {
      var e := Jumped(Called(c, true), x, r.log);
      assert Cut(Push(ENTRY, c.frames), Height(c.frames)) == Cut(c.frames, Height(c.frames)) == c.frames;
      assert Step(isA, e) == Failing(c, x, r.log);
      Here(isA, Failing(c, x, r.log));
      After1(isA, e, Failing(c, x, r.log));
      Trans(isA, a, e, Failing(c, x, r.log));
    } else {
      assert Jumped(Called(c, false), x, r.log) == Jumped(c, x, r.log);
    }
  }

  /** Every statement, at every depth of nesting. */
  lemma {:induction false} RunStmt(isA: IsA, s: Stmt, k: Cont, c: Machine)
    requires Ready(c) && Careful(isA, s)
    ensures Ends(isA, Doing(c, s, k), c, k, Eval(isA, s), Own(isA, s))
    decreases s, 1
  {
    var a := Doing(c, s, k);
    match s
    case Skip =>
      assert c.log + [] == c.log;
      Here(isA, Step(isA, a));
      After1(isA, a, Step(isA, a));
    case Act(e) =>
      Here(isA, Step(isA, a));
      After1(isA, a, Step(isA, a));
    case Throw(x) =>
      assert c.log + [] == c.log;
      Here(isA, Step(isA, a));
      After1(isA, a, Step(isA, a));
    case Seq(_, _) => RunSeq(isA, s, k, c);
    case Try(_, _) => RunTry(isA, s, k, c);
    case Call(_, _) => RunCall(isA, s, k, c);
  }

  /** The machine at the start of a thread: one exc jump point, which ends the process
      when no other is left. */
  const START := Machine(Halt, Push(ENTRY, Empty), Push(Slot(AtThreadStart, 0), Empty), Empty, Empty, Empty, [], false)

  /** Both stories on the machine, wherever they are told. */
  lemma StoriesRun(isA: IsA, k: Cont, c: Machine)
    requires Ready(c) && isA(7, 7) && !isA(7, 8)
    ensures Reaches(isA, Doing(c, STORY, k), Failing(c, 12, [0, 4, 2, 1, 11]))
    ensures Reaches(isA, Doing(c, LOST, k), Failing(c, 7, [3, 1, 4]))
  {
    hide Eval, Careful;
    StoryMeans(isA);
    LostMeans(isA);
    RunStmt(isA, STORY, k, c);
    RunStmt(isA, LOST, k, c);
  }

  // ------------------------------------------------- guards after an ended block

  /** A function in a later block, after it has come to guards gs there; c is the machine
      before the first of them.  No exit slot and no exc jump point have been added. */
  function Regarded(c: Machine, gs: seq<Registered>): Machine {
    c.(scope := Slots(c.scope, gs, Height(c.frames)))
  }

  /** After the scan of a later block: the exc jump point of a caller is gone. */
  function Stolen(c: Machine, status: bv2, k: Cont): Machine {
    if c.frames.Empty? || c.exc.Empty? then c
    else SetLocals(c, c.frames.top.(status := status)).(cont := k, exc := c.exc.below)
  }

  lemma {:induction false} PutFirst(s: Stack<Slot>, y: Slot, gs: seq<Registered>, d: nat)
    requires |gs| > 0
    ensures Height(Slots(s, gs, d)) == Height(s) + |gs|
    ensures Put(Slots(s, gs, d), Height(s), y) == Slots(Push(y, s), gs[1..], d)
    decreases |gs|
  {
    if |gs| == 1 {
      assert gs[..0] == [] == gs[1..];
    } else {
      var lo := gs[..|gs| - 1];
      PutFirst(s, y, lo, d);
      assert gs[1..][..|gs| - 2] == lo[1..];
    }
  }

  /** A scan in a later block overwrites the slot of the first guard reached there. */
  lemma ScanLater(isA: IsA, c: Machine, gs: seq<Registered>, k: Cont, r: Result)
    requires Spent(c) && |gs| > 0 && AllRun(isA, gs[1..], Status(r.out))
    ensures Reaches(isA, Regarded(c, gs).(cont := Then(Scan(Status(r.out)), k), log := c.log + r.log),
                    Stolen(c, Status(r.out), k).(log := c.log + WithGuards(isA, gs[1..], r).log))
  {
    var st, d := Status(r.out), Height(c.frames);
    var a := Regarded(c, gs).(cont := Then(Scan(st), k), log := c.log + r.log);
    var c1 := c.(exc := c.exc.below);
    PutFirst(c.scope, Slot(AtScan(k), d), gs, d);
    assert Step(isA, a) == Scanning(c1, c.exc.top, gs[1..], st, k).(log := c.log + r.log);
    RunGuards(isA, c1, c.exc.top, gs[1..], k, r);
    var z := Stolen(c, st, k).(log := c.log + WithGuards(isA, gs[1..], r).log);
    assert Scanned(c1, st, k).(log := c.log + WithGuards(isA, gs[1..], r).log) == z;
    After1(isA, a, z);
  }

  /** How a later block ends once guards gs have been reached in it. */
  function LaterEnd(isA: IsA, c: Machine, k: Cont, gs: seq<Registered>, b: Body): Machine
    requires |gs| > 0
  {
    var r := WithGuards(isA, gs[1..], EvalBody(isA, b));
    match EvalBody(isA, b).out
    case Done => Stolen(c, SUCCESS_EXIT, k).(log := c.log + r.log)
    case Raised(x) =>
      if OwnBody(isA, b) then
        Stolen(c, FAILURE_EXIT, Then(Propagate, Halt)).(inst := Push(x, c.inst), log := c.log + r.log)
      else Jumped(Regarded(c, gs + Reached(isA, b)), x, Unguarded(isA, b).log)
  }

  lemma {:induction false} RunLater(isA: IsA, b: Body, k: Cont, c: Machine, gs: seq<Registered>)
    requires Spent(c) && |gs| > 0 && CarefulBody(isA, b)
    requires AllRun(isA, gs[1..], Status(EvalBody(isA, b).out))
    ensures Reaches(isA, Regarded(c, gs).(cont := Then(Items(b), k)), LaterEnd(isA, c, k, gs, b))
    decreases b, 1
  {
    var a := Regarded(c, gs).(cont := Then(Items(b), k));
    match b
    case End =>
      assert c.log + [] == c.log;
      ScanLater(isA, c, gs, k, Result([], Done));
      After1(isA, a, LaterEnd(isA, c, k, gs, b));
    case Item(_, _) => RunLaterItem(isA, b, k, c, gs);
    case Guard(_, _, _) => RunLaterGuard(isA, b, k, c, gs);
  }

  lemma RunLaterGuard(isA: IsA, b: Body, k: Cont, c: Machine, gs: seq<Registered>)
    requires Spent(c) && |gs| > 0 && b.Guard? && CarefulBody(isA, b)
    requires AllRun(isA, gs[1..], Status(EvalBody(isA, b).out))
    ensures Reaches(isA, Regarded(c, gs).(cont := Then(Items(b), k)), LaterEnd(isA, c, k, gs, b))
    decreases b, 0
  {
    hide LaterEnd, Step, Slots;
    var a := Regarded(c, gs).(cont := Then(Items(b), k));
    forall c1, k1 | Ready(c1) && Fires(b.mask, Status(EvalBody(isA, b).out))
      ensures Reaches(isA, Doing(c1, b.action, k1), Finished(c1, k1, Eval(isA, b.action).log))
    {
      RunStmt(isA, b.action, k1, c1);
    }
    var gs1 := gs + [Registered(b.mask, b.action)];
    assert gs1[..|gs1| - 1] == gs;
    assert gs1[1..][..|gs| - 1] == gs[1..];
    RunLater(isA, b.rest, k, c, gs1);
    LaterSame(isA, c, k, gs, b);
    LaterGuardStep(isA, c, k, gs, b);
    After1(isA, a, LaterEnd(isA, c, k, gs, b));
  }

  lemma LaterSame(isA: IsA, c: Machine, k: Cont, gs: seq<Registered>, b: Body)
    requires |gs| > 0 && b.Guard?
    ensures LaterEnd(isA, c, k, gs + [Registered(b.mask, b.action)], b.rest) == LaterEnd(isA, c, k, gs, b)
  {
    var gs1 := gs + [Registered(b.mask, b.action)];
    assert gs1[1..][..|gs| - 1] == gs[1..];
    assert gs1 + Reached(isA, b.rest) == gs + Reached(isA, b);
  }

  lemma LaterGuardStep(isA: IsA, c: Machine, k: Cont, gs: seq<Registered>, b: Body)
    requires Spent(c) && |gs| > 0 && b.Guard?
    ensures Step(isA, Regarded(c, gs).(cont := Then(Items(b), k))) ==
            Regarded(c, gs + [Registered(b.mask, b.action)]).(cont := Then(Items(b.rest), k))
  {
    var gs1 := gs + [Registered(b.mask, b.action)];
    assert gs1[..|gs1| - 1] == gs;
  }

  lemma RunLaterItem(isA: IsA, b: Body, k: Cont, c: Machine, gs: seq<Registered>)
    requires Spent(c) && |gs| > 0 && b.Item? && CarefulBody(isA, b)
    requires AllRun(isA, gs[1..], Status(EvalBody(isA, b).out))
    ensures Reaches(isA, Regarded(c, gs).(cont := Then(Items(b), k)), LaterEnd(isA, c, k, gs, b))
    decreases b, 0
  {
    var a := Regarded(c, gs).(cont := Then(Items(b), k));
    var k1 := Then(Items(b.rest), k);
    var r := Eval(isA, b.stmt);
    var z := LaterEnd(isA, c, k, gs, b);
    RunStmt(isA, b.stmt, k1, Regarded(c, gs));
    if r.out.Done? {
      var d := c.(log := c.log + r.log);
      RunLater(isA, b.rest, k, d, gs);
      LaterLog(isA, c, k, gs, b);
      After1(isA, a, Finished(Regarded(c, gs), k1, r.log));
      Trans(isA, a, Finished(Regarded(c, gs), k1, r.log), z);
    } else {
      var x := r.out.code;
      WithGuardsBefore(isA, gs[1..], [], r);
      if Own(isA, b.stmt) {
        var c1 := c.(inst := Push(x, c.inst));
        var e := Failing(Regarded(c, gs), x, r.log);
        ScanLater(isA, c1, gs, Then(Propagate, Halt), r);
        After1(isA, a, e);
        assert e == Regarded(c1, gs).(cont := FAIL, log := c.log + r.log);
        Trans(isA, a, e, z);
      } else {
        assert gs + [] == gs;
        After1(isA, a, z);
      }
    }
  }

  lemma LaterLog(isA: IsA, c: Machine, k: Cont, gs: seq<Registered>, b: Body)
    requires |gs| > 0 && b.Item? && Eval(isA, b.stmt).out.Done?
    ensures LaterEnd(isA, c.(log := c.log + Eval(isA, b.stmt).log), k, gs, b.rest) == LaterEnd(isA, c, k, gs, b)
  {
    hide Slots, Eval, WithGuards;
    var l := Eval(isA, b.stmt).log;
    var r := EvalBody(isA, b.rest);
    WithGuardsBefore(isA, gs[1..], l, r);
    assert c.log + l + WithGuards(isA, gs[1..], r).log == c.log + (l + WithGuards(isA, gs[1..], r).log);
    assert c.log + l + Unguarded(isA, b.rest).log == c.log + (l + Unguarded(isA, b.rest).log);
  }

  /** A second block in which a guard is reached, in any context: when the block ends, its
      first guard has been skipped, all else has happened as it should, and the innermost
      exc jump point of the callers is gone. */
  lemma SecondBlock(isA: IsA, b: Body, k: Cont, c: Machine)
    requires Spent(c) && b.Guard? && CarefulBody(isA, b.rest) && EvalBody(isA, b.rest).out.Done?
    ensures Reaches(isA, c.(cont := Then(Items(b), k)),
                    Stolen(c, SUCCESS_EXIT, k).(log := c.log + EvalBody(isA, b.rest).log))
  {
    var gs := [Registered(b.mask, b.action)];
    assert gs[..0] == [] == gs[1..];
    RunLater(isA, b.rest, k, c, gs);
    var a := c.(cont := Then(Items(b), k));
    assert Slots(c.scope, gs[..0], Height(c.frames)) == c.scope;
    assert Step(isA, a) == Regarded(c, gs).(cont := Then(Items(b.rest), k));
    After1(isA, a, Stolen(c, SUCCESS_EXIT, k).(log := c.log + EvalBody(isA, b.rest).log));
  }

  /** Two blocks with one guard each: the second guard never runs and a jump point of the
      callers is lost, from wherever the function is called. */
  lemma SecondGuardSkipped(isA: IsA, k: Cont, c: Machine)
    requires Fresh(c)
    ensures var one, two := Guard(ANY_EXIT, Act(1), End), Guard(ANY_EXIT, Act(2), End);
            var fn := Scope(one, Scope(two, Leave));
            && EvalFn(isA, fn) == Result([1, 2], Done)
            && exists f :: Reaches(isA, c.(cont := FnCont(fn, k)),
                             SetLocals(c, f).(exc := c.exc.below, cont := k, log := c.log + [1]))
  {
    hide Steps;
    var one, two := Guard(ANY_EXIT, Act(1), End), Guard(ANY_EXIT, Act(2), End);
    var k1 := Then(Items(two), k);
    var a := c.(cont := Then(Items(one), k1));
    assert Fires(ANY_EXIT, SUCCESS_EXIT);
    RunBody(isA, one, k1, c, []);
    assert EvalBody(isA, one).log == [1] && EvalBody(isA, two).log == [2];
    var f :| LeftBy(c, f, true) && Reaches(isA, a, SetLocals(c, f).(cont := k1, log := c.log + [1]));
    var d := SetLocals(c, f).(log := c.log + [1]);
    SecondBlock(isA, two, k, d);
    assert c.log + [1] + [] == c.log + [1];
    var z := SetLocals(c, f.(status := SUCCESS_EXIT)).(exc := c.exc.below, cont := k, log := c.log + [1]);
    assert EvalBody(isA, two.rest).log == [] && d.log + [] == c.log + [1];
    assert SetLocals(d, f.(status := SUCCESS_EXIT)).frames == z.frames;
    var y := Stolen(d, SUCCESS_EXIT, k).(log := d.log + []);
    assert y == z;
    Trans(isA, a, d.(cont := k1), z);
    assert FnCont(Scope(two, Leave), k) == k1;
  }

  /** A call with sTRACE of a function with two such blocks: the jump point that the second
      block takes away is that of the call, and the stack lengths found on return end the
      process, although everything ended normally. */
  lemma StolenCallDies(isA: IsA, b1: Body, b2: Body, k: Cont, c: Machine) returns (z: Machine)
    requires Ready(c) && CarefulBody(isA, b1) && EvalBody(isA, b1).out.Done? && |Reached(isA, b1)| > 0
    requires b2.Guard? && CarefulBody(isA, b2.rest) && EvalBody(isA, b2.rest).out.Done?
    ensures z.dead && z.log == c.log + EvalBody(isA, b1).log + EvalBody(isA, b2.rest).log
    ensures Reaches(isA, Doing(c, Call(Scope(b1, Scope(b2, Leave)), true), k), z)
  {
    hide EvalBody, Reached, CarefulBody;
    var kb := BackAt(c, true, k);
    var c1 := Called(c, true);
    var k1 := Then(Items(b2), kb);
    var a := Doing(c, Call(Scope(b1, Scope(b2, Leave)), true), k);
    assert FnCont(Scope(b2, Leave), kb) == k1;
    assert Step(isA, a) == c1.(cont := Then(Items(b1), k1));
    RunBody(isA, b1, k1, c1, []);
    assert [] + Reached(isA, b1) == Reached(isA, b1);
    var l := EvalBody(isA, b1).log;
    var f :| LeftBy(c1, f, true) && Reaches(isA, Step(isA, a), SetLocals(c1, f).(cont := k1, log := c1.log + l));
    var d := SetLocals(c1, f).(log := c1.log + l);
    SecondBlock(isA, b2, kb, d);
    var e := Stolen(d, SUCCESS_EXIT, kb).(log := d.log + EvalBody(isA, b2.rest).log);
    z := StolenReturn(isA, c, d, k, e.log);
    Trans(isA, d.(cont := k1), e, z);
    Trans(isA, Step(isA, a), d.(cont := k1), z);
    After1(isA, a, z);
  }

  lemma StolenReturn(isA: IsA, c: Machine, d: Machine, k: Cont, log: seq<int>) returns (z: Machine)
    requires Ready(c) && !d.dead && d.exc == PushExc(c, AtTraceElse(Positions(c))).exc
    requires d.frames.Push? && d.frames.below == c.frames
    ensures z.dead && z.log == log
    ensures Reaches(isA, Stolen(d, SUCCESS_EXIT, BackAt(c, true, k)).(log := log), z)
  {
    var e := Stolen(d, SUCCESS_EXIT, BackAt(c, true, k)).(log := log);
    var e1 := Step(isA, e);
    z := Step(isA, e1);
    Here(isA, z);
    After1(isA, e1, z);
    After1(isA, e, z);
  }

  // ------------------------------------------------------- a second scan without guards

  /** No function on the C stack is in the middle of a scan: popping scope jump points
      passes guards that do not fire and ends at one that was never set. */
  ghost predicate Idle(frames: Stack<Locals>, scope: Stack<Slot>)
    decreases scope
  {
    scope.Empty? || (
      && scope.top.depth <= Height(frames)
      && (scope.top.at.Uninitialized? || (
          && scope.top.at.AtGuard?
          && Cut(frames, scope.top.depth).Push?
          && !Fires(scope.top.at.mask, Cut(frames, scope.top.depth).top.status)
          && Idle(Cut(frames, scope.top.depth), scope.below))))
  }

  lemma {:induction false} IdleDies(isA: IsA, c: Machine) returns (z: Machine)
    requires !c.dead && Idle(c.frames, c.scope) && c.cont == Then(NextGuard, Halt)
    ensures z.dead && z.log == c.log && Reaches(isA, c, z)
    decreases c.scope
  {
    var a := Step(isA, c);
    if c.scope.Empty? {
      z := a;
      Here(isA, z);
      After1(isA, c, z);
    } else {
      var b := Step(isA, a);
      if c.scope.top.at.Uninitialized? {
        z := b;
        Here(isA, z);
      } else {
        z := IdleDies(isA, b);
      }
      After1(isA, a, z);
      After1(isA, c, z);
    }
  }

  lemma {:induction false} PutPast<T>(s: Stack<T>, n: nat, x: T)
    requires Height(s) <= n
    ensures Put(s, n, x) == s
    decreases s
  {
    if s.Push? { PutPast(s.below, n, x); }
  }

  /** A function that scans once more, at the end of a later block or for an exception of
      its own, without having come to a guard there: the scan pops jump points of its
      callers, and unless a caller is itself running its guards the process dies, whoever
      would have caught the exception. */
  lemma ScanAgainDies(isA: IsA, c: Machine, status: bv2, k: Cont) returns (z: Machine)
    requires Alive(c) && c.frames.top.used && c.frames.top.fnExit == Height(c.scope)
    requires c.cont == Then(Scan(status), k) && Idle(c.frames.below, c.scope)
    requires c.scope.Push? ==> c.scope.top.depth <= Height(c.frames.below)
    ensures z.dead && z.log == c.log && Reaches(isA, c, z)
  {
    var e := Step(isA, c);
    PutPast(c.scope, c.frames.top.fnExit, Slot(AtScan(k), Height(c.frames)));
    if c.scope.Push? {
      assert Cut(e.frames, c.scope.top.depth) == Cut(c.frames.below, c.scope.top.depth);
    }
    z := IdleDies(isA, e);
    After1(isA, c, z);
  }

  // ---------------------------------------------------- a guard that is left by a throw

  /** The events of a scan whose guards may raise.  After an exception that the function itself
      propagates the guards before that one run as for a failure; after any other none does. */
  function ScanLog(isA: IsA, gs: seq<Registered>, status: bv2): seq<int>
    decreases |gs|
  {
    if |gs| == 0 then []
    else
      var g, lo := gs[|gs| - 1], gs[..|gs| - 1];
      var x := Eval(isA, g.action);
      if !Fires(g.mask, status) then ScanLog(isA, lo, status)
      else if x.out.Done? then x.log + ScanLog(isA, lo, status)
      else if Own(isA, g.action) then x.log + ScanLog(isA, lo, FAILURE_EXIT)
      else x.log
  }

  /** The guards that the scan comes to are careful. */
  predicate CarefulScan(isA: IsA, gs: seq<Registered>, status: bv2)
    decreases |gs|
  {
    |gs| == 0 ||
    var g, lo := gs[|gs| - 1], gs[..|gs| - 1];
    if !Fires(g.mask, status) then CarefulScan(isA, lo, status)
    else
      && Careful(isA, g.action)
      && if Eval(isA, g.action).out.Done? then CarefulScan(isA, lo, status)
         else Own(isA, g.action) ==> CarefulScan(isA, lo, FAILURE_EXIT)
  }

  /** A guard that fits the way out raises. */
  ghost predicate Raises(isA: IsA, gs: seq<Registered>, status: bv2) {
    exists i :: 0 <= i < |gs| && Fires(gs[i].mask, status) && Eval(isA, gs[i].action).out.Raised?
  }

  lemma CarefulRuns(isA: IsA, action: Stmt)
    requires Careful(isA, action) && Eval(isA, action).out.Done?
    ensures Runs(isA, action)
  {
    hide Careful;
    forall c, k | Ready(c) ensures Reaches(isA, Doing(c, action, k), Finished(c, k, Eval(isA, action).log)) {
      RunStmt(isA, action, k, c);
    }
  }

  /** A scan in which no guard raises. */
  lemma {:induction false} ScanQuiet(isA: IsA, gs: seq<Registered>, r: Result)
    requires CarefulScan(isA, gs, Status(r.out)) && !Raises(isA, gs, Status(r.out))
    ensures AllRun(isA, gs, Status(r.out))
    ensures WithGuards(isA, gs, r).log == r.log + ScanLog(isA, gs, Status(r.out))
    decreases |gs|
  {
    hide Careful, Eval, Runs;
    if |gs| > 0 {
      var n := |gs| - 1;
      var g, lo := gs[n], gs[..n];
      assert forall i :: 0 <= i < n ==> lo[i] == gs[i];
      ScanQuiet(isA, lo, WithGuard(isA, g, r));
      if Fires(g.mask, Status(r.out)) {
        CarefulRuns(isA, g.action);
        var l := Eval(isA, g.action).log;
        assert r.log + l + ScanLog(isA, lo, Status(r.out)) == r.log + (l + ScanLog(isA, lo, Status(r.out)));
      }
    } else {
      assert r.log + [] == r.log;
    }
  }

  /** The callers are not running guards of their own. */
  ghost predicate CallersIdle(c: Machine) {
    && c.frames.Push? && Idle(c.frames.below, c.scope)
    && (c.scope.Push? ==> c.scope.top.depth <= Height(c.frames.below))
  }

  /** The jump point on top during a scan: that behind the first guard or, in a scan within a
      scan, that of the guard that raised. */
  ghost predicate ScanTop(c: Machine, e: Slot) {
    e.depth == Height(c.frames) && (e.at.AtFirstGuard? || e.at.AtGuardElse?)
  }

  /** A guard that raises ends the process.  An exception of a callee without sTRACE does so at
      once; any other scans the guards before it, where more of them may raise, and then dies in
      a jump. */
  lemma {:induction false} ScanDies(isA: IsA, c: Machine, e: Slot, gs: seq<Registered>, k: Cont, r: Result)
    returns (z: Machine)
    requires Alive(c) && CallersIdle(c) && ScanTop(c, e)
    requires CarefulScan(isA, gs, Status(r.out)) && Raises(isA, gs, Status(r.out))
    ensures z.dead && z.log == c.log + (r.log + ScanLog(isA, gs, Status(r.out)))
    ensures Reaches(isA, Scanning(c, e, gs, Status(r.out), k).(log := c.log + r.log), z)
    decreases |gs|, 1
  {
    hide Careful, Eval, Own, Idle, Scanning, Step, Runs;
    var st := Status(r.out);
    var n := |gs| - 1;
    var g, lo := gs[n], gs[..n];
    if Fires(g.mask, st) && Eval(isA, g.action).out.Raised? {
      z := TopThrows(isA, c, e, gs, st, k, r.log);
    } else {
      if Fires(g.mask, st) { CarefulRuns(isA, g.action); }
      assert gs[n..][0] == g;
      RunGuard(isA, c, e, gs, k, r);
      var r1 := WithGuard(isA, g, r);
      assert r1.log + ScanLog(isA, lo, st) == r.log + ScanLog(isA, gs, st);
      RaisesBelow(isA, gs, st);
      z := ScanDies(isA, c, e, lo, k, r1);
      Trans(isA, Scanning(c, e, gs, st, k).(log := c.log + r.log),
            Scanning(c, e, lo, st, k).(log := c.log + r1.log), z);
    }
  }

  lemma RaisesBelow(isA: IsA, gs: seq<Registered>, st: bv2)
    requires Raises(isA, gs, st)
    requires var g := gs[|gs| - 1]; !(Fires(g.mask, st) && Eval(isA, g.action).out.Raised?)
    ensures Raises(isA, gs[..|gs| - 1], st)
  {
    hide Eval;
    var i :| 0 <= i < |gs| && Fires(gs[i].mask, st) && Eval(isA, gs[i].action).out.Raised?;
    assert gs[..|gs| - 1][i] == gs[i];
  }

  lemma TopThrows(isA: IsA, c: Machine, e: Slot, gs: seq<Registered>, st: bv2, k: Cont, log: seq<int>)
    returns (z: Machine)
    requires Alive(c) && CallersIdle(c) && ScanTop(c, e) && |gs| > 0 && CarefulScan(isA, gs, st)
    requires var g := gs[|gs| - 1]; Fires(g.mask, st) && Eval(isA, g.action).out.Raised?
    ensures z.dead && z.log == c.log + (log + ScanLog(isA, gs, st))
    ensures Reaches(isA, Scanning(c, e, gs, st, k).(log := c.log + log), z)
    decreases |gs|, 0
  {
    hide Idle, Step, Careful, Eval, Own;
    var g, lo := gs[|gs| - 1], gs[..|gs| - 1];
    var a := Scanning(c, e, gs, st, k).(log := c.log + log);
    var inner := PushExc(Scanning(c, e, lo, st, k).(log := c.log + log), AtGuardElse);
    var k1 := Then(EndGuard, Halt);
    EnterFiring(isA, c, e, gs, st, k, log);
    RunStmt(isA, g.action, k1, inner);
    var x := Eval(isA, g.action);
    var b: Machine;
    assert c.log + log + x.log == c.log + (log + x.log);
    if Own(isA, g.action) {
      b := Failing(inner, x.out.code, x.log);
      z := OwnThrows(isA, c, e, lo, st, k, x.out.code, log + x.log);
      assert log + x.log + ScanLog(isA, lo, FAILURE_EXIT) == log + ScanLog(isA, gs, st);
    } else {
      b := Jumped(inner, x.out.code, x.log);
      z := Step(isA, b);
      ElseDies(isA, Scanning(c, e, lo, st, k).(log := c.log + log), x.out.code, x.log);
      Here(isA, z);
      After1(isA, b, z);
    }
    Trans(isA, Doing(inner, g.action, k1), b, z);
    After1(isA, Step(isA, a), z);
    After1(isA, a, z);
  }

  /** An exception of a callee without sTRACE arrives at the jump point set for the guard. */
  lemma ElseDies(isA: IsA, c: Machine, x: nat, log: seq<int>)
    requires !c.dead
    ensures var z := Step(isA, Jumped(PushExc(c, AtGuardElse), x, log)); z.dead && z.log == c.log + log
  {
  }

  /** Two steps lead from the scan into a guard that fits. */
  lemma EnterFiring(isA: IsA, c: Machine, e: Slot, gs: seq<Registered>, st: bv2, k: Cont, log: seq<int>)
    requires Alive(c) && |gs| > 0 && Fires(gs[|gs| - 1].mask, st)
    ensures var inner := PushExc(Scanning(c, e, gs[..|gs| - 1], st, k).(log := c.log + log), AtGuardElse);
            Ready(inner) && Step(isA, Step(isA, Scanning(c, e, gs, st, k).(log := c.log + log))) ==
            Doing(inner, gs[|gs| - 1].action, Then(EndGuard, Halt))
  {
  }

  /** An exception that the function itself propagates out of one of its guards. */
  lemma OwnThrows(isA: IsA, c: Machine, e: Slot, lo: seq<Registered>, st: bv2, k: Cont, x: nat, log: seq<int>)
    returns (z: Machine)
    requires Alive(c) && CallersIdle(c) && ScanTop(c, e) && CarefulScan(isA, lo, FAILURE_EXIT)
    ensures z.dead && z.log == c.log + (log + ScanLog(isA, lo, FAILURE_EXIT))
    ensures Reaches(isA, Failing(PushExc(Scanning(c, e, lo, st, k).(log := c.log), AtGuardElse), x, log), z)
    decreases |lo|, 2
  {
    hide Idle, Step, Scanning, WithGuards, AllRun, Raises, CarefulScan;
    var a := Failing(PushExc(Scanning(c, e, lo, st, k).(log := c.log), AtGuardElse), x, log);
    var e2 := Slot(AtGuardElse, Height(c.frames));
    var c2 := c.(exc := Push(e, c.exc), inst := Push(x, c.inst));
    var k2 := Then(Propagate, Halt);
    var r := Result(log, Raised(x));
    ScanInScan(isA, c, e, lo, st, k, x, log);
    if Raises(isA, lo, FAILURE_EXIT) {
      z := ScanDies(isA, c2, e2, lo, k2, r);
    } else {
      ScanQuiet(isA, lo, r);
      RunGuards(isA, c2, e2, lo, k2, r);
      z := AfterThrow(isA, c, e, x, WithGuards(isA, lo, r).log);
      Trans(isA, Step(isA, a), Scanned(c2, FAILURE_EXIT, k2).(log := c.log + WithGuards(isA, lo, r).log), z);
    }
    After1(isA, a, z);
  }

  /** A throw inside of a guard starts the scan of the guards before it. */
  lemma ScanInScan(isA: IsA, c: Machine, e: Slot, lo: seq<Registered>, st: bv2, k: Cont, x: nat, log: seq<int>)
    requires Alive(c)
    ensures Step(isA, Failing(PushExc(Scanning(c, e, lo, st, k).(log := c.log), AtGuardElse), x, log)) ==
            Scanning(c.(exc := Push(e, c.exc), inst := Push(x, c.inst)), Slot(AtGuardElse, Height(c.frames)), lo,
                FAILURE_EXIT, Then(Propagate, Halt)).(log := c.log + log)
  {
    var d := Height(c.frames);
    PutExit(c.scope, Slot(AtScan(k), d), Slot(AtScan(Then(Propagate, Halt)), d), lo, d);
  }

  /** The exception then goes to the jump point on top: of a guard that raised, which ends the
      process, or behind the first guard, for a last scan. */
  lemma AfterThrow(isA: IsA, c: Machine, e: Slot, x: nat, log: seq<int>) returns (z: Machine)
    requires Alive(c) && CallersIdle(c) && ScanTop(c, e)
    ensures z.dead && z.log == c.log + log
    ensures var c2 := c.(exc := Push(e, c.exc), inst := Push(x, c.inst));
            Reaches(isA, Scanned(c2, FAILURE_EXIT, Then(Propagate, Halt)).(log := c.log + log), z)
  {
    hide Idle;
    var c2 := c.(exc := Push(e, c.exc), inst := Push(x, c.inst));
    var b := Scanned(c2, FAILURE_EXIT, Then(Propagate, Halt)).(log := c.log + log);
    var b2 := Step(isA, Step(isA, b));
    if e.at.AtFirstGuard? {
      z := ScanAgainDies(isA, b2, FAILURE_EXIT, Then(Propagate, Halt));
    } else {
      z := b2;
      Here(isA, z);
    }
    After1(isA, Step(isA, b), z);
    After1(isA, b, z);
  }

  /** The statements of a block that control comes to are careful. */
  predicate CarefulItems(isA: IsA, b: Body) {
    match b
    case End => true
    case Item(s, rest) => Careful(isA, s) && (Eval(isA, s).out.Done? ==> CarefulItems(isA, rest))
    case Guard(_, _, rest) => CarefulItems(isA, rest)
  }

  /** About to scan, on the way out that u says. */
  function ToScan(c: Machine, gs: seq<Registered>, k: Cont, u: Result): Machine {
    match u.out
    case Done => Guarded(c, gs).(cont := Then(Scan(SUCCESS_EXIT), k), log := c.log + u.log)
    case Raised(x) => Failing(Guarded(c, gs), x, u.log)
  }

  lemma ItemStep(isA: IsA, c: Machine, b: Body, k: Cont)
    requires !c.dead && b.Item?
    ensures Step(isA, c.(cont := Then(Items(b), k))) == Doing(c, b.stmt, Then(Items(b.rest), k))
  {
  }

  lemma EndStep(isA: IsA, c: Machine, k: Cont)
    requires !c.dead
    ensures Step(isA, c.(cont := Then(Items(End), k))) == c.(cont := Then(Scan(SUCCESS_EXIT), k))
  {
  }

  /** The jump point behind the first guard. */
  lemma BackToFirst(isA: IsA, c: Machine, gs: seq<Registered>, x: nat, log: seq<int>)
    requires Fresh(c) && |gs| > 0
    ensures Step(isA, Jumped(Guarded(c, gs), x, log)) == Failing(Guarded(c, gs), x, log)
  {
  }

  /** The step that starts the scan. */
  lemma StartScan(isA: IsA, c: Machine, gs: seq<Registered>, k: Cont, u: Result)
    requires Fresh(c) && |gs| > 0
    ensures var c1 := if u.out.Done? then c else c.(inst := Push(u.out.code, c.inst));
            var k1 := if u.out.Done? then k else Then(Propagate, Halt);
            Step(isA, ToScan(c, gs, k, u)) ==
            Scanning(c1, Slot(AtFirstGuard, Height(c.frames)), gs, Status(u.out), k1).(log := c.log + u.log)
  {
    var d := Height(c.frames);
    var k1 := if u.out.Done? then k else Then(Propagate, Halt);
    PutExit(c.scope, Slot(Uninitialized, d), Slot(AtScan(k1), d), gs, d);
  }

  /** An exception of a statement of the block. */
  lemma ItemRaises(isA: IsA, b: Body, k: Cont, c: Machine, gs: seq<Registered>)
    requires Fresh(c) && |gs| > 0 && b.Item? && Careful(isA, b.stmt) && Eval(isA, b.stmt).out.Raised?
    ensures var z := ToScan(c, gs + Reached(isA, b), k, Unguarded(isA, b));
            Reaches(isA, Doing(Guarded(c, gs), b.stmt, Then(Items(b.rest), k)), z)
  {
    hide Careful, Eval, Own, Slots, Jumped, Step;
    var r := Eval(isA, b.stmt);
    var a := Doing(Guarded(c, gs), b.stmt, Then(Items(b.rest), k));
    var z := ToScan(c, gs + Reached(isA, b), k, Unguarded(isA, b));
    RunStmt(isA, b.stmt, Then(Items(b.rest), k), Guarded(c, gs));
    assert gs + [] == gs;
    if !Own(isA, b.stmt) {
      var j := Jumped(Guarded(c, gs), r.out.code, r.log);
      BackToFirst(isA, c, gs, r.out.code, r.log);
      Here(isA, z);
      After1(isA, j, z);
      Trans(isA, a, j, z);
    }
  }

  /** A statement of the block that ends normally. */
  lemma ItemRuns(isA: IsA, b: Body, k: Cont, c: Machine, gs: seq<Registered>)
    requires Fresh(c) && b.Item? && Careful(isA, b.stmt) && Eval(isA, b.stmt).out.Done?
    ensures var k1 := Then(Items(b.rest), k); var d := c.(log := c.log + Eval(isA, b.stmt).log);
            && Reaches(isA, Doing(Guarded(c, gs), b.stmt, k1), Guarded(d, gs).(cont := k1))
            && ToScan(d, gs + Reached(isA, b.rest), k, Unguarded(isA, b.rest)) ==
               ToScan(c, gs + Reached(isA, b), k, Unguarded(isA, b))
  {
    hide Careful, Eval, Own, Slots, Jumped, Step;
    var r, k1 := Eval(isA, b.stmt), Then(Items(b.rest), k);
    var u := Unguarded(isA, b.rest);
    RunStmt(isA, b.stmt, k1, Guarded(c, gs));
    assert c.log + r.log + u.log == c.log + (r.log + u.log);
    assert Finished(Guarded(c, gs), k1, r.log) == Guarded(c.(log := c.log + r.log), gs).(cont := k1);
  }

  /** A block in which a guard is reached comes to its scan on whichever way out. */
  lemma {:induction false} RunItems(isA: IsA, b: Body, k: Cont, c: Machine, gs: seq<Registered>)
    requires Fresh(c) && CarefulItems(isA, b) && |gs + Reached(isA, b)| > 0
    ensures Reaches(isA, Guarded(c, gs).(cont := Then(Items(b), k)),
                    ToScan(c, gs + Reached(isA, b), k, Unguarded(isA, b)))
    decreases b
  {
    hide Careful, EvalBody, Slots, Jumped, Step, Eval, Own;
    var a := Guarded(c, gs).(cont := Then(Items(b), k));
    var z := ToScan(c, gs + Reached(isA, b), k, Unguarded(isA, b));
    match b
    case End =>
      assert gs + [] == gs && c.log + [] == c.log;
      EndStep(isA, Guarded(c, gs), k);
      Here(isA, z);
      After1(isA, a, z);
    case Guard(mask, action, rest) =>
      var gs1 := gs + [Registered(mask, action)];
      assert gs1 + Reached(isA, rest) == gs + Reached(isA, b);
      RunItems(isA, rest, k, c, gs1);
      GuardStep(isA, b, k, c, gs);
      After1(isA, a, z);
    case Item(s, rest) =>
      var r := Eval(isA, s);
      var k1 := Then(Items(rest), k);
      ItemStep(isA, Guarded(c, gs), b, k);
      if r.out.Done? {
        var d := c.(log := c.log + r.log);
        ItemRuns(isA, b, k, c, gs);
        RunItems(isA, rest, k, d, gs);
        Trans(isA, Step(isA, a), Guarded(d, gs).(cont := k1), z);
      } else {
        ItemRaises(isA, b, k, c, gs);
      }
      After1(isA, a, z);
  }

  /** A block in which a guard that was reached and fits the way out raises: the process ends,
      whoever would have caught the exception. */
  lemma GuardThrowDies(isA: IsA, b: Body, k: Cont, c: Machine) returns (z: Machine)
    requires Fresh(c) && CallersIdle(c) && CarefulItems(isA, b)
    requires var gs, st := Reached(isA, b), Status(Unguarded(isA, b).out);
             CarefulScan(isA, gs, st) && Raises(isA, gs, st)
    ensures var u := Unguarded(isA, b);
            z.dead && z.log == c.log + (u.log + ScanLog(isA, Reached(isA, b), Status(u.out)))
    ensures Reaches(isA, c.(cont := Then(Items(b), k)), z)
  {
    hide Careful, CarefulItems, CarefulScan, Eval, Own, Unguarded, Reached, ScanLog, Idle, Step, Scanning, Slots;
    hide ToScan;
    var gs, u := Reached(isA, b), Unguarded(isA, b);
    var a := c.(cont := Then(Items(b), k));
    assert [] + gs == gs;
    RunItems(isA, b, k, c, []);
    var c1 := if u.out.Done? then c else c.(inst := Push(u.out.code, c.inst));
    var k1 := if u.out.Done? then k else Then(Propagate, Halt);
    var b1 := ToScan(c, gs, k, u);
    StartScan(isA, c, gs, k, u);
    z := ScanDies(isA, c1, Slot(AtFirstGuard, Height(c.frames)), gs, k1, u);
    After1(isA, b1, z);
    Trans(isA, a, b1, z);
  }

  /** A function that throws behind a block with one guard, in any context of this kind. */
  lemma ThrowBehindBlock(isA: IsA, k: Cont, c: Machine) returns (z: Machine)
    requires Fresh(c) && Idle(c.frames.below, c.scope)
    requires c.scope.Push? ==> c.scope.top.depth <= Height(c.frames.below)
    ensures var b := Guard(ANY_EXIT, Act(1), End);
            z.dead && z.log == c.log + [1] && Reaches(isA, c.(cont := Then(Items(b), Then(Do(Throw(7)), k))), z)
  {
    var b := Guard(ANY_EXIT, Act(1), End);
    var k1 := Then(Do(Throw(7)), k);
    var a := c.(cont := Then(Items(b), k1));
    assert Fires(ANY_EXIT, SUCCESS_EXIT);
    assert EvalBody(isA, b).log == [1];
    RunBody(isA, b, k1, c, []);
    var f :| LeftBy(c, f, true) && Reaches(isA, a, SetLocals(c, f).(cont := k1, log := c.log + [1]));
    var d := SetLocals(c, f).(cont := k1, log := c.log + [1]);
    z := ScanAgainDies(isA, Step(isA, d), FAILURE_EXIT, Then(Propagate, Halt));
    After1(isA, d, z);
    Trans(isA, a, d, z);
  }

  /** An exception thrown behind a block with a guard kills the process, although the
      caller has a clause for it. */
  lemma ThrowBehindBlockDies(isA: IsA) returns (z: Machine)
    requires isA(7, 7)
    ensures var fn := Scope(Guard(ANY_EXIT, Act(1), End), Plain(Throw(7), Leave));
            var s := Try(Call(fn, true), Clause(7, Act(2), NoMore));
            && Eval(isA, s) == Result([1, 2], Done)
            && z.dead && z.log == [1] && Reaches(isA, Doing(START, s, Halt), z)
  {
    hide EvalFn, Careful, Eval, Handle, Step;
    var b := Guard(ANY_EXIT, Act(1), End);
    var fn := Scope(b, Plain(Throw(7), Leave));
    var cl := Clause(7, Act(2), NoMore);
    var s := Try(Call(fn, true), cl);
    var a := Doing(START, s, Halt);
    var c1 := Inside(START, cl, Halt);
    var a1 := Doing(c1, Call(fn, true), Then(EndOfTry, Halt));
    z := ThrowBehindBlock(isA, BackAt(c1, true, Then(EndOfTry, Halt)), Called(c1, true));
    ThrowMeans(isA, fn, cl);
    TryStep(isA, START, s, Halt);
    CallStep(isA, c1, fn, Then(EndOfTry, Halt));
    After1(isA, a1, z);
    After1(isA, a, z);
  }

  lemma CallStep(isA: IsA, c: Machine, fn: Fn, k: Cont)
    requires Ready(c)
    requires fn == Scope(Guard(ANY_EXIT, Act(1), End), Plain(Throw(7), Leave))
    ensures Step(isA, Doing(c, Call(fn, true), k)) ==
            Called(c, true).(cont := Then(Items(fn.body), Then(Do(Throw(7)), BackAt(c, true, k))))
  {
    var kb := BackAt(c, true, k);
    assert FnCont(Plain(Throw(7), Leave), kb) == Then(Do(Throw(7)), kb);
  }

  lemma ThrowMeans(isA: IsA, fn: Fn, cl: Clauses)
    requires fn == Scope(Guard(ANY_EXIT, Act(1), End), Plain(Throw(7), Leave))
    requires cl == Clause(7, Act(2), NoMore) && isA(7, 7)
    ensures Eval(isA, Try(Call(fn, true), cl)) == Result([1, 2], Done)
  {
    assert Fires(ANY_EXIT, SUCCESS_EXIT);
    assert EvalBody(isA, fn.body).log == [1];
    assert EvalFn(isA, fn.rest) == Result([], Raised(7));
    assert EvalFn(isA, fn) == Result([1], Raised(7));
    assert Handle(isA, cl, 7) == Result([2], Done);
  }

  // ------------------------------------------------------------- whole programs

  /** The first jump point of the thread is in place and no other stands on it, or the
      exception has arrived there; either way no scope guard is pending. */
  ghost predicate Settled(w: Machine) {
    && w.exc == START.exc && w.scope.Empty?
    && (w.cont.Halt? || (w.cont.instr.Land? && w.cont.instr.at.AtThreadStart?))
  }

  /** The machine never comes to such an end. */
  ghost predicate Astray(isA: IsA, z: Machine) {
    forall n: nat :: !Settled(Steps(isA, n, z))
  }

  lemma {:induction false} SettledStays(isA: IsA, n: nat, w: Machine)
    ensures Settled(w) ==> Settled(Steps(isA, n, w))
    decreases n
  {
    if n > 0 { SettledStays(isA, n - 1, Step(isA, w)); }
  }

  lemma NotBoth(isA: IsA, a: Machine, z: Machine, w: Machine)
    requires Reaches(isA, a, z) && Astray(isA, z) && Settled(w)
    ensures !Reaches(isA, a, w)
  {
    var n: nat :| Steps(isA, n, a) == z;
    forall m: nat ensures Steps(isA, m, a) != w {
      if m >= n {
        StepsMore(isA, n, m - n, a);
        assert !Settled(Steps(isA, m - n, z));
      } else {
        StepsMore(isA, m, n - m, a);
        SettledStays(isA, n - m, Steps(isA, m, a));
        assert !Settled(Steps(isA, 0, z));
      }
    }
  }

  lemma AstrayBefore(isA: IsA, a: Machine, z: Machine)
    requires z.dead && !Settled(z)
    ensures Astray(isA, z)
  {
    forall n: nat ensures Steps(isA, n, z) == z { DeadStays(isA, n, z); }
  }

  lemma {:induction false} DeadStays(isA: IsA, n: nat, z: Machine)
    requires z.dead
    ensures Steps(isA, n, z) == z
    decreases n
  {
    if n > 0 { DeadStays(isA, n - 1, z); }
  }

  /** The first jump point of the thread occurs nowhere in a continuation, a label, a stack. */
  predicate FreeCont(k: Cont) {
    k.Then? ==> (k.instr.Land? ==> FreeLabel(k.instr.at)) && FreeCont(k.next)
  }

  predicate FreeLabel(l: Label) {
    match l
    case AtSwitch(_, next) => FreeCont(next)
    case AtTryExit(next) => FreeCont(next)
    case AtScan(next) => FreeCont(next)
    case AtThreadStart => false
    case _ => true
  }

  predicate FreeSlots(s: Stack<Slot>) {
    s.Push? ==> FreeLabel(s.top.at) && FreeSlots(s.below)
  }

  predicate Free(c: Machine) {
    FreeCont(c.cont) && FreeSlots(c.exc) && FreeSlots(c.tries) && FreeSlots(c.scope)
  }

  lemma {:induction false} FreeCut(s: Stack<Slot>, n: nat)
    requires FreeSlots(s)
    ensures FreeSlots(Cut(s, n))
    decreases s
  {
    if Height(s) > n { FreeCut(s.below, n); }
  }

  lemma {:induction false} FreePut(s: Stack<Slot>, n: nat, x: Slot)
    requires FreeSlots(s) && FreeLabel(x.at)
    ensures FreeSlots(Put(s, n, x))
    decreases s
  {
    if s.Push? { FreePut(s.below, n, x); }
  }

  lemma {:induction false} FreeFn(fn: Fn, k: Cont)
    requires FreeCont(k)
    ensures FreeCont(FnCont(fn, k))
    decreases fn
  {
    if !fn.Leave? { FreeFn(fn.rest, k); }
  }

  lemma {:induction false} FreeCatch(isA: IsA, c: Machine, cl: Clauses)
    requires Free(c)
    ensures Free(StepCatch(isA, c, cl))
    decreases cl
  {
    if cl.Clause? && c.inst.Push? && !isA(c.inst.top, cl.code) { FreeCatch(isA, c, cl.rest); }
  }

  lemma FreeReconcile(c: Machine, pos: Position)
    requires Free(c)
    ensures Free(Reconcile(c, pos))
  {
    FreeCut(c.tries, pos.tries);
    FreeCut(c.exc, pos.excs);
    FreeCut(c.scope, pos.scopes);
  }

  lemma FreeLand(isA: IsA, c: Machine, l: Label, v: Value)
    requires Free(c) && FreeLabel(l)
    ensures Free(StepLand(isA, c, l, v))
  {
    match l
    case AtSwitch(cl, k) => if v != Cleanup && v != Unhandled { FreeCatch(isA, c, cl); }
    case AtTraceElse(pos) => FreeReconcile(PopExc(c), pos);
    case _ =>
  }

  lemma FreeStmt(c: Machine, s: Stmt, k: Cont)
    requires Free(c) && FreeCont(k)
    ensures Free(StepStmt(c, s, k))
  {
    match s
    case Call(fn, traced) =>
      var pos := Positions(c);
      FreeFn(fn, Then(Return, if traced then Then(Untrace(pos), k) else k));
    case _ =>
  }

  lemma FreeJump(c: Machine, v: Value)
    requires Free(c)
    ensures Free(JumpFront(c, v))
  {
    assert c.exc.Push? ==> FreeLabel(c.exc.top.at);
  }

  lemma FreeNext(c: Machine)
    requires Free(c)
    ensures c.scope.Push? ==> Free(LongJmp(c.(scope := c.scope.below), c.scope.top, One))
  {
  }

  lemma FreeBody(c: Machine, b: Body, k: Cont)
    requires Free(c) && FreeCont(k)
    ensures Free(StepBody(c, b, k))
  {
  }

  lemma FreeScan(c: Machine, status: bv2, k: Cont)
    requires Free(c) && FreeCont(k)
    ensures Free(StepScan(c, status, k))
  {
    if c.frames.Push? {
      FreePut(c.scope, c.frames.top.fnExit, Slot(AtScan(k), Height(c.frames)));
    }
  }

  /** Once that jump point is lost it never comes back. */
  lemma FreeStays(isA: IsA, c: Machine)
    requires Free(c)
    ensures Free(Step(isA, c))
  {
    hide StepStmt, StepBody, StepScan, StepLand, Reconcile, JumpFront;
    if !c.dead && c.cont.Then? {
      var k := c.cont.next;
      match c.cont.instr
      case Do(s) => FreeStmt(c, s, k);
      case Items(b) => FreeBody(c, b, k);
      case Untrace(pos) => FreeReconcile(PopExc(c), pos);
      case Scan(status) => FreeScan(c, status, k);
      case Land(l, v) => FreeLand(isA, c, l, v);
      case EndOfTry => FreeJump(c, Cleanup);
      case EndOfCatch => FreeJump(PopExc(c), Cleanup);
      case Propagate => if c.inst.Push? { FreeJump(c, Code(c.inst.top)); }
      case NextGuard => FreeNext(c);
      case _ =>
    }
  }

  lemma {:induction false} FreeAstray(isA: IsA, n: nat, z: Machine)
    requires Free(z)
    ensures !Settled(Steps(isA, n, z))
    decreases n
  {
    if n > 0 {
      FreeStays(isA, z);
      FreeAstray(isA, n - 1, Step(isA, z));
    }
  }

  /** The function runs at the bottom of a thread. */
  ghost predicate AtBottom(c: Machine, spent: bool) {
    && InFn(c, spent) && c.frames.below.Empty?
    && c == START.(cont := c.cont, frames := c.frames, log := c.log)
  }

  /** A function that breaks, at the bottom of a thread, goes astray. */
  lemma {:induction false} BreaksAstray(isA: IsA, fn: Fn, c: Machine, spent: bool) returns (z: Machine)
    requires AtBottom(c, spent) && CarefulParts(isA, fn) && Breaks(isA, fn, spent)
    ensures Reaches(isA, c.(cont := FnCont(fn, Halt)), z) && Astray(isA, z)
    decreases fn
  {
    var a := c.(cont := FnCont(fn, Halt));
    match fn
    case Leave =>
    case Plain(s, rest) =>
      var k1 := FnCont(rest, Halt);
      var r := Eval(isA, s);
      RunStmt(isA, s, k1, c);
      if r.out.Done? {
        z := BreaksAstray(isA, rest, c.(log := c.log + r.log), spent);
        Trans(isA, a, Finished(c, k1, r.log), z);
      } else {
        z := ThrownAstray(isA, c, r.out.code, r.log);
        Trans(isA, a, Failing(c, r.out.code, r.log), z);
      }
    case Scope(b, rest) =>
      var k1 := FnCont(rest, Halt);
      if spent {
        FreeFn(rest, Halt);
        z := BodyAstray(isA, b, k1, c);
      } else {
        var r := EvalBody(isA, b);
        RunBody(isA, b, k1, c, []);
        assert [] + Reached(isA, b) == Reached(isA, b);
        var now := |Reached(isA, b)| > 0;
        var f :| LeftBy(c, f, now) && Reaches(isA, a, SetLocals(c, f).(cont := k1, log := c.log + r.log));
        var d := SetLocals(c, f).(log := c.log + r.log);
        z := BreaksAstray(isA, rest, d, now);
        Trans(isA, a, d.(cont := k1), z);
      }
  }

  lemma ThrownAstray(isA: IsA, c: Machine, x: nat, log: seq<int>) returns (z: Machine)
    requires AtBottom(c, true)
    ensures Reaches(isA, Failing(c, x, log), z) && Astray(isA, z)
  {
    z := ScanAstray(isA, Failing(c, x, log), FAILURE_EXIT, Then(Propagate, Halt));
  }

  lemma ScanAstray(isA: IsA, c: Machine, status: bv2, k: Cont) returns (z: Machine)
    requires Spent(c) && c.scope.Empty? && c.cont == Then(Scan(status), k)
    ensures Reaches(isA, c, z) && Astray(isA, z)
  {
    var e := Step(isA, c);
    z := Step(isA, e);
    Here(isA, z);
    After1(isA, e, z);
    After1(isA, c, z);
    AstrayBefore(isA, c, z);
  }

  lemma {:induction false} BodyAstray(isA: IsA, b: Body, k: Cont, c: Machine) returns (z: Machine)
    requires AtBottom(c, true) && FreeCont(k) && CarefulBody(isA, b) && BodyBreaks(isA, b)
    ensures Reaches(isA, c.(cont := Then(Items(b), k)), z) && Astray(isA, z)
    decreases b
  {
    var a := c.(cont := Then(Items(b), k));
    match b
    case End =>
      z := ScanAstray(isA, Step(isA, a), SUCCESS_EXIT, k);
      After1(isA, a, z);
    case Item(s, rest) =>
      var k1 := Then(Items(rest), k);
      var r := Eval(isA, s);
      RunStmt(isA, s, k1, c);
      if r.out.Done? {
        z := BodyAstray(isA, rest, k, c.(log := c.log + r.log));
        Trans(isA, Step(isA, a), Finished(c, k1, r.log), z);
      } else {
        z := ThrownAstray(isA, c, r.out.code, r.log);
        Trans(isA, Step(isA, a), Failing(c, r.out.code, r.log), z);
      }
      After1(isA, a, z);
    case Guard(mask, action, rest) => z := GuardAstray(isA, b, k, c);
  }

  lemma GuardAstray(isA: IsA, b: Body, k: Cont, c: Machine) returns (z: Machine)
    requires AtBottom(c, true) && FreeCont(k) && b.Guard? && CarefulBody(isA, b)
    ensures Reaches(isA, c.(cont := Then(Items(b), k)), z) && Astray(isA, z)
  {
    var gs := [Registered(b.mask, b.action)];
    var a := c.(cont := Then(Items(b), k));
    assert gs[..0] == [] == gs[1..];
    assert Slots(c.scope, gs[..0], Height(c.frames)) == c.scope;
    RunLater(isA, b.rest, k, c, gs);
    assert Step(isA, a) == Regarded(c, gs).(cont := Then(Items(b.rest), k));
    z := LaterEnd(isA, c, k, gs, b.rest);
    var x := EvalBody(isA, b.rest).out;
    if x.Raised? && !OwnBody(isA, b.rest) {
      var y := z;
      z := Step(isA, y);
      PutFirst(c.scope, START.exc.top, gs + Reached(isA, b.rest), Height(c.frames));
      AstrayBefore(isA, c, z);
      Here(isA, z);
      After1(isA, y, z);
      Trans(isA, Step(isA, a), y, z);
    } else {
      assert Free(z);
      forall n: nat ensures !Settled(Steps(isA, n, z)) { FreeAstray(isA, n, z); }
    }
    After1(isA, a, z);
  }

  /** A program ends with exactly the events that structured exception handling and scope
      guards give it, and with every jump stack back at its starting length; an exception
      that nothing catches ends the process after all guards have run. */
  ghost predicate ProgramEnds(isA: IsA, fn: Fn) {
    var r := EvalFn(isA, fn);
    var a := START.(cont := FnCont(fn, Halt));
    match r.out
    case Done => exists f :: Reaches(isA, a, START.(frames := Push(f, Empty), log := r.log))
    case Raised(x) =>
      Reaches(isA, a, START.(cont := Then(Land(AtThreadStart, Code(x)), Halt), frames := Empty,
        inst := Push(x, Empty), log := r.log, dead := true))
  }

  /** A program ends so if and only if its main function does not break. */
  lemma ProgramMeaning(isA: IsA, fn: Fn)
    requires CarefulParts(isA, fn)
    ensures ProgramEnds(isA, fn) <==> !Breaks(isA, fn, false)
  {
    var r := EvalFn(isA, fn);
    var a := START.(cont := FnCont(fn, Halt));
    if Breaks(isA, fn, false) {
      var z := BreaksAstray(isA, fn, START, false);
      if ProgramEnds(isA, fn) {
        if r.out.Done? {
          var f :| Reaches(isA, a, START.(frames := Push(f, Empty), log := r.log));
          NotBoth(isA, a, z, START.(frames := Push(f, Empty), log := r.log));
        } else {
          NotBoth(isA, a, z, START.(cont := Then(Land(AtThreadStart, Code(r.out.code)), Halt), frames := Empty,
                                    inst := Push(r.out.code, Empty), log := r.log, dead := true));
        }
      }
    } else {
      RunFn(isA, fn, Halt, START, false);
      match r.out
      case Done =>
        var f :| Reaches(isA, a, SetLocals(START, f).(cont := Halt, log := START.log + r.log));
        assert SetLocals(START, f).(cont := Halt, log := START.log + r.log) ==
               START.(frames := Push(f, Empty), log := r.log);
      case Raised(x) =>
        var e := Jumped(START, x, r.log);
        var z := START.(cont := Then(Land(AtThreadStart, Code(x)), Halt), frames := Empty,
                        inst := Push(x, Empty), log := r.log, dead := true);
        assert Step(isA, e) == z;
        Here(isA, z);
        After1(isA, e, z);
        Trans(isA, a, e, z);
    }
  }

  /** From every place where it can be called, the function ends as it should, with the
      guards it reached run once and the jump stacks of its callers untouched. */
  ghost predicate Sound(isA: IsA, fn: Fn) {
    forall c, k :: Fresh(c) ==> FnEnds(isA, c.(cont := FnCont(fn, k)), c, k, EvalFn(isA, fn))
  }

  /** A function is sound if and only if it comes to no guard, end of a block, sRETURN or
      exception of its own after an earlier block in which it reached a guard. */
  lemma FunctionsSound(isA: IsA, fn: Fn)
    requires CarefulParts(isA, fn)
    ensures Sound(isA, fn) <==> !Breaks(isA, fn, false)
  {
    if Breaks(isA, fn, false) {
      if Sound(isA, fn) {
        assert Fresh(START);
        var r := EvalFn(isA, fn);
        var a := START.(cont := FnCont(fn, Halt));
        assert FnEnds(isA, a, START, Halt, r);
        var z := BreaksAstray(isA, fn, START, false);
        if r.out.Done? {
          var f :| Reaches(isA, a, SetLocals(START, f).(cont := Halt, log := START.log + r.log));
          NotBoth(isA, a, z, SetLocals(START, f).(cont := Halt, log := START.log + r.log));
        } else {
          NotBoth(isA, a, z, Jumped(START, r.out.code, r.log));
        }
      }
    } else {
      forall c, k | Fresh(c) ensures FnEnds(isA, c.(cont := FnCont(fn, k)), c, k, EvalFn(isA, fn)) {
        RunFn(isA, fn, k, c, false);
      }
    }
  }
}
