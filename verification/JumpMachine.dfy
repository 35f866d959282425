/** sTRY/sCATCH, scope guards, sTHROW, sRETURN and sTRACE as a machine that jumps between
    saved setjmp points.  A jump point is a label: the place in the macro text behind
    the setjmp, together with the C stack frame that holds it. */
module JumpMachine {

  // ------------------------------------------------------------ source programs

  /** Statements between SKIT_USE_FEATURE_EMULATION and the end of a function.  A loop
      or a branch stands for the statements that it runs. */
  datatype Stmt =
    | Skip
    | Act(event: int)
    | Seq(first: Stmt, second: Stmt)
    | Throw(code: nat)
    | Try(body: Stmt, clauses: Clauses)
    | Call(fn: Fn, traced: bool)

  datatype Clauses = NoMore | Clause(code: nat, handler: Stmt, rest: Clauses)

  /** The statements and scope guards of an sSCOPE block, up to the sEND_SCOPE or sRETURN
      that ends it.  Guards stand outside of sTRY blocks. */
  datatype Body =
    | End
    | Item(stmt: Stmt, rest: Body)
    | Guard(mask: bv2, action: Stmt, rest: Body)

  /** A function: statements and sSCOPE blocks in any number and order.  An sRETURN in a
      block ends the block and the function; an sRETURN outside of a block scans the guards
      as the end of a block without guards does, and stands as Scope(End, Leave). */
  datatype Fn = Leave | Plain(stmt: Stmt, rest: Fn) | Scope(body: Body, rest: Fn)

  const SUCCESS_EXIT: bv2 := 1
  const FAILURE_EXIT: bv2 := 2
  const ANY_EXIT: bv2 := 3

  predicate Fires(mask: bv2, status: bv2) {
    mask & status != 0
  }

  // ------------------------------------------------------------- machine states

  datatype Stack<T> = Empty | Push(top: T, below: Stack<T>)

  function Height<T>(s: Stack<T>): nat {
    if s.Empty? then 0 else 1 + Height(s.below)
  }

  /** Pop until at most n are left. */
  function Cut<T>(s: Stack<T>, n: nat): Stack<T> {
    if Height(s) <= n then s else Cut(s.below, n)
  }

  /** Overwrite the slot that has n slots below it. */
  function Put<T>(s: Stack<T>, n: nat, x: T): Stack<T> {
    if s.Empty? then s
    else if Height(s) == n + 1 then Push(x, s.below)
    else Push(s.top, Put(s.below, n, x))
  }

  /** What a setjmp returns. */
  datatype Value = One | Code(code: nat) | Cleanup | Unhandled

  /** Lengths of the try, exc and scope jump stacks saved by sTRACE. */
  datatype Position = Position(tries: nat, excs: nat, scopes: nat)

  /** The places at which execution goes on after a longjmp. */
  datatype Label =
    | Uninitialized
    | AtSwitch(clauses: Clauses, next: Cont)
    | AtCatchElse
    | AtTryExit(next: Cont)
    | AtTraceElse(pos: Position)
    | AtFirstGuard
    | AtGuard(mask: bv2, action: Stmt)
    | AtGuardElse
    | AtScan(next: Cont)
    | AtThreadStart

  datatype Slot = Slot(at: Label, depth: nat)

  /** The macro steps. */
  datatype Instr =
    | Do(stmt: Stmt)
    | Items(body: Body)
    | EndOfTry
    | EndOfCatch
    | LeaveTry
    | Return
    | Untrace(pos: Position)
    | EndGuard
    | NextGuard
    | AfterScan
    | Scan(status: bv2)
    | Propagate
    | Land(at: Label, value: Value)

  datatype Cont = Halt | Then(instr: Instr, next: Cont)

  /** The variables of one function: skit__try_catch_nesting_level and the scope context. */
  datatype Locals = Locals(nesting: int, used: bool, fnExit: nat, status: bv2)

  const ENTRY := Locals(0, false, 0, 0)

  /** The thread context with its jump stacks and its stack of exception instances. */
  datatype Machine = Machine(cont: Cont, frames: Stack<Locals>, exc: Stack<Slot>, tries: Stack<Slot>,
                             scope: Stack<Slot>, inst: Stack<nat>, log: seq<int>, dead: bool)

  /** Which codes a clause catches: the thrown code first. */
  type IsA = (nat, nat) -> bool

  const FAIL := Then(Scan(FAILURE_EXIT), Then(Propagate, Halt))

  // -------------------------------------------------------------- machine steps

  function Die(c: Machine): Machine {
    c.(dead := true)
  }

  function LongJmp(c: Machine, slot: Slot, v: Value): Machine {
    c.(cont := Then(Land(slot.at, v), Halt), frames := Cut(c.frames, slot.depth))
  }

  function PopExc(c: Machine): Machine {
    if c.exc.Empty? then Die(c) else c.(exc := c.exc.below)
  }

  /** longjmp to exc_jmp_stack.used.front without popping it. */
  function JumpFront(c: Machine, v: Value): Machine {
    if c.exc.Empty? then Die(c) else LongJmp(c, c.exc.top, v)
  }

  function SetLocals(c: Machine, f: Locals): Machine {
    if c.frames.Empty? then Die(c) else c.(frames := Push(f, c.frames.below))
  }

  function Nest(c: Machine, d: int): Machine {
    if c.frames.Empty? then Die(c) else SetLocals(c, c.frames.top.(nesting := c.frames.top.nesting + d))
  }

  function PushExc(c: Machine, l: Label): Machine {
    c.(exc := Push(Slot(l, Height(c.frames)), c.exc))
  }

  /** skit_reconcile_thread_context */
  function Reconcile(c: Machine, pos: Position): Machine {
    if Height(c.tries) < pos.tries || Height(c.exc) < pos.excs || Height(c.scope) < pos.scopes then Die(c)
    else c.(tries := Cut(c.tries, pos.tries), exc := Cut(c.exc, pos.excs), scope := Cut(c.scope, pos.scopes))
  }

  function FnCont(fn: Fn, k: Cont): Cont {
    match fn
    case Leave => k
    case Plain(s, rest) => Then(Do(s), FnCont(rest, k))
    case Scope(b, rest) => Then(Items(b), FnCont(rest, k))
  }

  function StepStmt(c: Machine, s: Stmt, k: Cont): Machine {
    match s
    case Skip => c.(cont := k)
    case Act(e) => c.(cont := k, log := c.log + [e])
    case Seq(a, b) => c.(cont := Then(Do(a), Then(Do(b), k)))
    case Throw(x) => c.(cont := FAIL, inst := Push(x, c.inst))
    case Try(b, cl) =>
      var c1 := Nest(c.(tries := Push(Slot(AtTryExit(k), Height(c.frames)), c.tries)), 1);
      PushExc(c1, AtSwitch(cl, k)).(cont := Then(Do(b), Then(EndOfTry, Halt)))
    case Call(fn, traced) =>
      var pos := Position(Height(c.tries), Height(c.exc), Height(c.scope));
      var c1 := if traced then PushExc(c, AtTraceElse(pos)) else c;
      c1.(frames := Push(ENTRY, c.frames),
          cont := FnCont(fn, Then(Return, if traced then Then(Untrace(pos), k) else k)))
  }

  /** sSCOPE_GUARD_BEGIN when it is reached, and the end of the body. */
  function StepBody(c: Machine, b: Body, k: Cont): Machine {
    match b
    case End => c.(cont := Then(Scan(SUCCESS_EXIT), k))
    case Item(s, rest) => c.(cont := Then(Do(s), Then(Items(rest), k)))
    case Guard(mask, action, rest) =>
      if c.frames.Empty? then Die(c)
      else
        var d := Height(c.frames);
        var c1 :=
          if c.frames.top.used then c
          else
            var f := c.frames.top.(used := true, fnExit := Height(c.scope));
            PushExc(SetLocals(c, f), AtFirstGuard).(scope := Push(Slot(Uninitialized, d), c.scope));
        c1.(cont := Then(Items(rest), k), scope := Push(Slot(AtGuard(mask, action), d), c1.scope))
  }

  /** SKIT__SCAN_SCOPE_GUARDS */
  function StepScan(c: Machine, status: bv2, k: Cont): Machine {
    if c.frames.Empty? then Die(c)
    else
      var f := c.frames.top;
      if f.nesting == 0 && f.used then
        SetLocals(c, f.(status := status)).(
          scope := Put(c.scope, f.fnExit, Slot(AtScan(k), Height(c.frames))), cont := Then(NextGuard, Halt))
      else c.(cont := k)
  }

  /** The chain of sCATCH clauses: the first that matches runs, with a jump point of its
      own; without a match the block is left as unhandled. */
  function StepCatch(isA: IsA, c: Machine, cl: Clauses): Machine {
    match cl
    case NoMore => JumpFront(c, Unhandled)
    case Clause(code, handler, rest) =>
      if c.inst.Empty? then Die(c)
      else if isA(c.inst.top, code) then
        PushExc(c, AtCatchElse).(inst := c.inst.below, cont := Then(Do(handler), Then(EndOfCatch, Halt)))
      else StepCatch(isA, c, rest)
  }

  function StepLand(isA: IsA, c: Machine, l: Label, v: Value): Machine {
    match l
    case Uninitialized => Die(c)
    case AtSwitch(cl, k) => (
      match v
      case Cleanup =>
        if c.exc.Empty? || c.tries.Empty? then Die(c)
        else LongJmp(c.(exc := c.exc.below, tries := c.tries.below), c.tries.top, One)
      case Unhandled =>
        if c.tries.Empty? then Die(c)
        else Nest(PopExc(c), -1).(tries := c.tries.below, cont := FAIL)
      case _ => StepCatch(isA, c, cl)
    )
    case AtCatchElse => JumpFront(PopExc(c), Unhandled)
    case AtTryExit(k) => c.(cont := Then(LeaveTry, k))
    case AtTraceElse(pos) => Reconcile(PopExc(c), pos).(cont := FAIL)
    case AtFirstGuard => c.(cont := FAIL)
    case AtGuard(mask, action) =>
      if c.frames.Empty? then Die(c)
      else if Fires(mask, c.frames.top.status) then
        PushExc(c, AtGuardElse).(cont := Then(Do(action), Then(EndGuard, Halt)))
      else c.(cont := Then(NextGuard, Halt))
    case AtGuardElse => Die(c)
    case AtScan(k) => c.(cont := Then(AfterScan, k))
    case AtThreadStart => Die(c)
  }

  function Step(isA: IsA, c: Machine): Machine {
    if c.dead || c.cont.Halt? then c
    else
      var k := c.cont.next;
      match c.cont.instr
      case Do(s) => StepStmt(c, s, k)
      case Items(b) => StepBody(c, b, k)
      case EndOfTry => JumpFront(c, Cleanup)
      case EndOfCatch => JumpFront(PopExc(c), Cleanup)
      case LeaveTry => Nest(c, -1).(cont := k)
      case Return => if c.frames.Empty? then Die(c) else c.(frames := c.frames.below, cont := k)
      case Untrace(pos) => Reconcile(PopExc(c), pos).(cont := k)
      case EndGuard => PopExc(c).(cont := Then(NextGuard, Halt))
      case NextGuard => if c.scope.Empty? then Die(c) else LongJmp(c.(scope := c.scope.below), c.scope.top, One)
      case AfterScan => PopExc(c).(cont := k)
      case Scan(status) => StepScan(c, status, k)
      case Propagate => if c.inst.Empty? then Die(c) else JumpFront(c, Code(c.inst.top))
      case Land(l, v) => StepLand(isA, c, l, v)
  }

  function Steps(isA: IsA, n: nat, c: Machine): Machine {
    if n == 0 then c else Steps(isA, n - 1, Step(isA, c))
  }

  ghost predicate Reaches(isA: IsA, c: Machine, c': Machine) {
    exists n :: Steps(isA, n, c) == c'
  }
}
