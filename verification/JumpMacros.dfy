/** The macros of try_catch.h, scope.h, throw.h and trace.h as code on the thread context:
    the jump stacks and the stack of exception instances are free-stacks of linked nodes, and
    a function keeps its exit slot as a pointer to a node. */
module JumpMacros {
  import F = FreeStack
  import M = JumpMachine
  import opened JumpMachine
  import opened JumpStacks

  type SlotNode = F.Node<Slot>

  /** The variables of one function on the C stack. */
  datatype Frame = Frame(nesting: int, used: bool, fnExit: F.Node?<Slot>, status: bv2)

  const NEW_FRAME := Frame(0, false, null, 0)

  function ViewFrame(f: Frame, all: seq<SlotNode>): Locals {
    Locals(f.nesting, f.used, Below(all, f.fnExit), f.status)
  }

  /** The locals, with the exit slot as the number of jump points below it. */
  function View(fs: Stack<Frame>, all: seq<SlotNode>): Stack<Locals> {
    if fs.Empty? then Empty else Push(ViewFrame(fs.top, all), View(fs.below, all))
  }

  /** Every exit slot is a node of the scope jump stack, in use or not, and a function that
      has come to a guard has one. */
  predicate Known(fs: Stack<Frame>, all: seq<SlotNode>) {
    fs.Push? ==>
      && (fs.top.fnExit == null || fs.top.fnExit in all) && (fs.top.used ==> fs.top.fnExit != null)
      && Known(fs.below, all)
  }

  /** No exit slot changes its place when the scope jump stack gets a new node. */
  lemma {:induction false} ViewGrows(fs: Stack<Frame>, all: seq<SlotNode>, x: SlotNode)
    requires Known(fs, all) && x !in all
    ensures Known(fs, [x] + all) && View(fs, [x] + all) == View(fs, all)
    decreases fs
  {
    if fs.Push? {
      ViewGrows(fs.below, all, x);
      assert ([x] + all)[1..] == all;
      NullBelow(all);
      NullBelow([x] + all);
    }
  }

  lemma {:induction false} NullBelow(all: seq<SlotNode>)
    ensures Below(all, null) == 0
    decreases |all|
  {
    if |all| > 0 { NullBelow(all[1..]); }
  }

  lemma {:induction false} ViewCut(fs: Stack<Frame>, all: seq<SlotNode>, n: nat)
    requires Known(fs, all)
    ensures Height(View(fs, all)) == Height(fs)
    ensures View(Cut(fs, n), all) == Cut(View(fs, all), n) && Known(Cut(fs, n), all)
    decreases fs
  {
    if fs.Push? { ViewCut(fs.below, all, n); }
  }

  class ThreadContext {
    const isA: IsA
    const exc: JmpFStack<Slot>
    const tries: JmpFStack<Slot>
    const scope: JmpFStack<Slot>
    const inst: JmpFStack<nat>
    var cont: Cont
    var frames: Stack<Frame>
    var log: seq<int>
    var dead: bool

    /** The objects behind the pointers, and the state of the machine they stand for. */
    ghost var repr: set<object>
    ghost var now: Machine

    ghost function Objects(): set<object>
      reads exc, tries, scope, inst
    {
      exc.Repr + tries.Repr + scope.Repr + inst.Repr
    }

    ghost predicate Sane()
      reads this`frames, exc, tries, scope, inst, Objects()
    {
      && this !in Objects()
      && exc.Valid() && tries.Valid() && scope.Valid() && inst.Valid()
      && exc.Repr !! tries.Repr && exc.Repr !! scope.Repr && exc.Repr !! inst.Repr
      && tries.Repr !! scope.Repr && tries.Repr !! inst.Repr && scope.Repr !! inst.Repr
      && Known(frames, scope.All())
    }

    ghost function Seen(): Machine
      requires Sane()
      reads this`cont, this`frames, this`log, this`dead, exc, tries, scope, inst, Objects()
    {
      Machine(cont, View(frames, scope.All()), exc.Slots(), tries.Slots(), scope.Slots(), inst.Slots(), log, dead)
    }

    ghost predicate Valid()
      reads this, repr, exc, tries, scope, inst, Objects()
    {
      Sane() && repr == Objects() && now == Seen()
    }

    /** A thread context before the first function, with empty stacks. */
    constructor (decides: IsA, e: JmpFStack<Slot>, t: JmpFStack<Slot>, s: JmpFStack<Slot>, i: JmpFStack<nat>)
      requires e.Valid() && t.Valid() && s.Valid() && i.Valid()
      requires e.Repr !! t.Repr && e.Repr !! s.Repr && e.Repr !! i.Repr
      requires t.Repr !! s.Repr && t.Repr !! i.Repr && s.Repr !! i.Repr
      requires e.Slots() == Empty && t.Slots() == Empty && s.Slots() == Empty && i.Slots() == Empty
      ensures Valid() && repr == e.Repr + t.Repr + s.Repr + i.Repr && isA == decides
      ensures now == Machine(Halt, Empty, Empty, Empty, Empty, Empty, [], false)
    {
      hide JmpFStack.Valid;
      isA, exc, tries, scope, inst := decides, e, t, s, i;
      cont, frames, log, dead := Halt, Empty, [], false;
      repr := e.Repr + t.Repr + s.Repr + i.Repr;
      now := Machine(Halt, Empty, Empty, Empty, Empty, Empty, [], false);
    }

    // --------------------------------------------------- one stack at a time

    twostate predicate Grown<T>(st: JmpFStack<T>)
      reads st
    {
      old(st.Repr) <= st.Repr && fresh(st.Repr - old(st.Repr))
    }

    twostate lemma OnlyExc()
      requires old(Sane()) && unchanged(`frames, `cont, `log, `dead) && exc.Valid() && Grown(exc)
      requires unchanged(old(Objects() - exc.Repr))
      ensures Sane() && fresh(Objects() - old(Objects())) && Seen() == old(Seen()).(exc := exc.Slots())
    {
      tries.Same();
      scope.Same();
      inst.Same();
    }

    twostate lemma OnlyTries()
      requires old(Sane()) && unchanged(`frames, `cont, `log, `dead) && tries.Valid() && Grown(tries)
      requires unchanged(old(Objects() - tries.Repr))
      ensures Sane() && fresh(Objects() - old(Objects())) && Seen() == old(Seen()).(tries := tries.Slots())
    {
      exc.Same();
      scope.Same();
      inst.Same();
    }

    twostate lemma OnlyInst()
      requires old(Sane()) && unchanged(`frames, `cont, `log, `dead) && inst.Valid() && Grown(inst)
      requires unchanged(old(Objects() - inst.Repr))
      ensures Sane() && fresh(Objects() - old(Objects())) && Seen() == old(Seen()).(inst := inst.Slots())
    {
      exc.Same();
      tries.Same();
      scope.Same();
    }

    twostate lemma OnlyScope()
      requires old(Sane()) && unchanged(`frames, `cont, `log, `dead) && scope.Valid() && Grown(scope)
      requires unchanged(old(Objects() - scope.Repr))
      requires scope.All() == old(scope.All()) ||
               (|scope.All()| > 0 && scope.All()[0] !in old(scope.All()) &&
                scope.All() == [scope.All()[0]] + old(scope.All()))
      ensures Sane() && fresh(Objects() - old(Objects())) && Seen() == old(Seen()).(scope := scope.Slots())
    {
      exc.Same();
      tries.Same();
      inst.Same();
      var all := old(scope.All());
      if scope.All() != all { ViewGrows(frames, all, scope.All()[0]); }
    }

    twostate lemma OnlySlots()
      requires old(Sane()) && unchanged(`frames, `cont, `log, `dead) && scope.Valid() && Grown(scope)
      requires unchanged(old(Objects() - scope.Repr)) && scope.All() == old(scope.All())
      ensures Sane() && fresh(Objects() - old(Objects())) && Seen() == old(Seen()).(scope := scope.Slots())
    {
      OnlyScope();
    }

    twostate lemma OnlyThis()
      requires old(Sane()) && Known(frames, old(scope.All()))
      requires unchanged(old(Objects()))
      ensures Sane() && scope.All() == old(scope.All())
      ensures Seen() == Machine(cont, View(frames, old(scope.All())), old(Seen()).exc, old(Seen()).tries,
          old(Seen()).scope, old(Seen()).inst, log, dead)
    {
      exc.Same();
      tries.Same();
      scope.Same();
      inst.Same();
    }

    ghost method Commit()
      requires Sane()
      modifies this`repr, this`now
      ensures Valid() && now == old(Seen()) && repr == Objects()
    {
      hide F.Stack.Valid;
      repr, now := Objects(), Seen();
      OnlyThis();
    }

    /** The depth of the C stack. */
    function Depth(): (d: nat)
      requires Valid()
      reads this, repr, exc, tries, scope, inst, Objects()
      ensures d == Height(now.frames)
    {
      ViewCut(frames, scope.All(), 0);
      Height(frames)
    }

    method Die()
      requires Valid()
      modifies this, repr
      ensures Valid() && fresh(repr - old(repr)) && frames == old(frames)
      ensures now == M.Die(old(now))
    {
      dead := true;
      OnlyThis();
      Commit();
    }

    method PushExc(x: Slot)
      requires Valid()
      modifies this, repr
      ensures Valid() && fresh(repr - old(repr)) && frames == old(frames)
      ensures now == old(now).(exc := Push(x, old(now).exc))
    {
      hide JmpFStack.Valid, Known, View;
      var node := exc.Set(x);
      OnlyExc();
      Commit();
    }

    /** setjmp(*skit_jmp_fstack_alloc(&exc_jmp_stack)) on its first return. */
    method SetExc(l: Label)
      requires Valid()
      modifies this, repr
      ensures Valid() && fresh(repr - old(repr)) && frames == old(frames)
      ensures now == M.PushExc(old(now), l)
    {
      hide ThreadContext.Valid;
      PushExc(Slot(l, Depth()));
    }

    method PushTries(x: Slot)
      requires Valid()
      modifies this, repr
      ensures Valid() && fresh(repr - old(repr)) && frames == old(frames)
      ensures now == old(now).(tries := Push(x, old(now).tries))
    {
      hide JmpFStack.Valid, Known, View;
      var node := tries.Set(x);
      OnlyTries();
      Commit();
    }

    method SetTry(l: Label)
      requires Valid()
      modifies this, repr
      ensures Valid() && fresh(repr - old(repr)) && frames == old(frames)
      ensures now == old(now).(tries := Push(Slot(l, Height(old(now).frames)), old(now).tries))
    {
      hide ThreadContext.Valid;
      PushTries(Slot(l, Depth()));
    }

    method PushScope(x: Slot) returns (node: SlotNode)
      requires Valid()
      modifies this, repr
      ensures Valid() && fresh(repr - old(repr)) && frames == old(frames)
      ensures now == old(now).(scope := Push(x, old(now).scope))
      ensures node in scope.All() && Below(scope.All(), node) == Height(old(now).scope)
    {
      hide JmpFStack.Valid, Known, View;
      node := scope.Set(x);
      OnlyScope();
      Commit();
    }

    /** setjmp(*skit_jmp_fstack_alloc(&scope_jmp_stack)); the node stays known by its address
        and by the number of jump points below it. */
    method SetScope(l: Label) returns (node: SlotNode)
      requires Valid()
      modifies this, repr
      ensures Valid() && fresh(repr - old(repr)) && frames == old(frames)
      ensures now == old(now).(scope := Push(Slot(l, Height(old(now).frames)), old(now).scope))
      ensures node in scope.All() && Below(scope.All(), node) == Height(old(now).scope)
    {
      hide ThreadContext.Valid;
      node := PushScope(Slot(l, Depth()));
    }

    /** setjmp(*skit__scope_ctx->scope_fn_exit) */
    method SetExit(node: SlotNode, x: Slot)
      requires Valid() && node in scope.All()
      modifies this, repr
      ensures Valid() && fresh(repr - old(repr)) && frames == old(frames)
      ensures now == old(now).(scope := Put(old(now).scope, Below(old(scope.All()), node), x))
    {
      scope.Write(node, x);
      OnlySlots();
      Commit();
    }

    method PushInst(x: nat)
      requires Valid()
      modifies this, repr
      ensures Valid() && fresh(repr - old(repr)) && frames == old(frames)
      ensures now == old(now).(inst := Push(x, old(now).inst))
    {
      hide JmpFStack.Valid, Known, View;
      var node := inst.Set(x);
      OnlyInst();
      Commit();
    }

    method TakeExc() returns (r: F.PopResult<Slot>)
      requires Valid()
      modifies this, repr
      ensures Valid() && fresh(repr - old(repr)) && frames == old(frames)
      ensures if old(now).exc.Empty? then r.OutOfBounds? && now == old(now)
              else r.Popped? && r.node.val == old(now).exc.top && now == old(now).(exc := old(now).exc.below)
    {
      hide JmpFStack.Valid, Known, View;
      r := exc.Pop();
      OnlyExc();
      Commit();
    }

    /** skit_jmp_fstack_pop, which ends the process on an empty stack. */
    method PopExc()
      requires Valid()
      modifies this, repr
      ensures Valid() && fresh(repr - old(repr)) && frames == old(frames)
      ensures now == M.PopExc(old(now))
    {
      hide ThreadContext.Valid;
      var r := TakeExc();
      if r.OutOfBounds? { Die(); }
    }

    method TakeTry() returns (r: F.PopResult<Slot>)
      requires Valid()
      modifies this, repr
      ensures Valid() && fresh(repr - old(repr)) && frames == old(frames)
      ensures if old(now).tries.Empty? then r.OutOfBounds? && now == old(now)
              else r.Popped? && r.node.val == old(now).tries.top && now == old(now).(tries := old(now).tries.below)
    {
      hide JmpFStack.Valid, Known, View;
      r := tries.Pop();
      OnlyTries();
      Commit();
    }

    method PopTry() returns (r: F.PopResult<Slot>)
      requires Valid()
      modifies this, repr
      ensures Valid() && fresh(repr - old(repr)) && frames == old(frames)
      ensures if old(now).tries.Empty? then r.OutOfBounds? && now == M.Die(old(now))
              else r.Popped? && r.node.val == old(now).tries.top && now == old(now).(tries := old(now).tries.below)
    {
      hide ThreadContext.Valid;
      r := TakeTry();
      if r.OutOfBounds? { Die(); }
    }

    method TakeScope() returns (r: F.PopResult<Slot>)
      requires Valid()
      modifies this, repr
      ensures Valid() && fresh(repr - old(repr)) && frames == old(frames)
      ensures if old(now).scope.Empty? then r.OutOfBounds? && now == old(now)
              else r.Popped? && r.node.val == old(now).scope.top && now == old(now).(scope := old(now).scope.below)
    {
      hide JmpFStack.Valid, Known, View;
      r := scope.Pop();
      OnlySlots();
      Commit();
    }

    method PopScope() returns (r: F.PopResult<Slot>)
      requires Valid()
      modifies this, repr
      ensures Valid() && fresh(repr - old(repr)) && frames == old(frames)
      ensures if old(now).scope.Empty? then r.OutOfBounds? && now == M.Die(old(now))
              else r.Popped? && r.node.val == old(now).scope.top && now == old(now).(scope := old(now).scope.below)
    {
      hide ThreadContext.Valid;
      r := TakeScope();
      if r.OutOfBounds? { Die(); }
    }

    method PopInst()
      requires Valid() && now.inst.Push?
      modifies this, repr
      ensures Valid() && fresh(repr - old(repr)) && frames == old(frames)
      ensures now == old(now).(inst := old(now).inst.below)
    {
      hide JmpFStack.Valid, Known, View;
      var r := inst.Pop();
      OnlyInst();
      Commit();
    }

    /** Control goes on at k. */
    method Go(k: Cont)
      requires Valid()
      modifies this, repr
      ensures Valid() && fresh(repr - old(repr)) && frames == old(frames)
      ensures now == old(now).(cont := k)
    {
      cont := k;
      OnlyThis();
      Commit();
    }

    method Note(e: int)
      requires Valid()
      modifies this, repr
      ensures Valid() && fresh(repr - old(repr)) && frames == old(frames)
      ensures now == old(now).(log := old(now).log + [e])
    {
      log := log + [e];
      OnlyThis();
      Commit();
    }

    /** A function gets its variables on the C stack. */
    method Enter()
      requires Valid()
      modifies this, repr
      ensures Valid() && fresh(repr - old(repr))
      ensures now == old(now).(frames := Push(ENTRY, old(now).frames))
    {
      NullBelow(scope.All());
      frames := Push(NEW_FRAME, frames);
      OnlyThis();
      Commit();
    }

    method Leave()
      requires Valid() && now.frames.Push?
      modifies this, repr
      ensures Valid() && fresh(repr - old(repr))
      ensures now == old(now).(frames := old(now).frames.below)
    {
      frames := frames.below;
      OnlyThis();
      Commit();
    }

    /** The running function changes its variables. */
    method SetFrame(f: Frame)
      requires Valid() && frames.Push? && (if f.fnExit == null then !f.used else f.fnExit in scope.All())
      modifies this, repr
      ensures Valid() && fresh(repr - old(repr))
      ensures now == SetLocals(old(now), ViewFrame(f, old(scope.All())))
      ensures frames == Push(f, old(frames).below) && scope.All() == old(scope.All())
    {
      frames := Push(f, frames.below);
      OnlyThis();
      Commit();
    }

    /** longjmp */
    method LongJmp(slot: Slot, v: Value)
      requires Valid()
      modifies this, repr
      ensures Valid() && fresh(repr - old(repr))
      ensures now == M.LongJmp(old(now), slot, v)
    {
      ViewCut(frames, scope.All(), slot.depth);
      cont := Then(Land(slot.at, v), Halt);
      frames := Cut(frames, slot.depth);
      OnlyThis();
      Commit();
    }

    /** The variables of the running function as the machine sees them. */
    lemma TopKnown()
      requires Valid()
      ensures frames.Empty? <==> now.frames.Empty?
      ensures frames.Push? ==>
                && now.frames.top == ViewFrame(frames.top, scope.All())
                && (if frames.top.fnExit == null then !frames.top.used else frames.top.fnExit in scope.All())
    {
    }

    /** skit_save_thread_context_pos */
    function Positions(): (pos: Position)
      requires Valid()
      reads this, repr, exc, tries, scope, inst, Objects()
      ensures pos == Position(Height(now.tries), Height(now.exc), Height(now.scope))
    {
      Position(tries.Length(), exc.Length(), scope.Length())
    }

    function Instances(): (n: nat)
      requires Valid()
      reads this, repr, exc, tries, scope, inst, Objects()
      ensures n == Height(now.inst)
    {
      inst.Length()
    }

    function FrontExc(): (slot: Slot)
      requires Valid() && now.exc.Push?
      reads this, repr, exc, tries, scope, inst, Objects()
      ensures slot == now.exc.top
    {
      exc.Front()
    }

    function FrontInst(): (code: nat)
      requires Valid() && now.inst.Push?
      reads this, repr, exc, tries, scope, inst, Objects()
      ensures code == now.inst.top
    {
      inst.Front()
    }

    method CutTries(n: nat)
      requires Valid()
      modifies this, repr
      ensures Valid() && fresh(repr - old(repr)) && now == old(now).(tries := Cut(old(now).tries, n))
    {
      hide JmpFStack.Valid, Known, View;
      tries.CutTo(n);
      OnlyTries();
      Commit();
    }

    method CutExc(n: nat)
      requires Valid()
      modifies this, repr
      ensures Valid() && fresh(repr - old(repr)) && now == old(now).(exc := Cut(old(now).exc, n))
    {
      hide JmpFStack.Valid, Known, View;
      exc.CutTo(n);
      OnlyExc();
      Commit();
    }

    method CutScope(n: nat)
      requires Valid()
      modifies this, repr
      ensures Valid() && fresh(repr - old(repr)) && now == old(now).(scope := Cut(old(now).scope, n))
    {
      hide JmpFStack.Valid, Known, View;
      scope.CutTo(n);
      OnlySlots();
      Commit();
    }

    // ------------------------------------------------------------------ macros

    /** longjmp(exc_jmp_stack.used.front->val, v) */
    method JumpFront(v: Value)
      requires Valid()
      modifies this, repr
      ensures Valid() && fresh(repr - old(repr)) && now == M.JumpFront(old(now), v)
    {
      hide ThreadContext.Valid;
      var got := Positions();
      if got.excs == 0 {
        Die();
      } else {
        var slot := FrontExc();
        LongJmp(slot, v);
      }
    }

    /** skit__try_catch_nesting_level += d */
    method Nest(d: int)
      requires Valid()
      modifies this, repr
      ensures Valid() && fresh(repr - old(repr)) && now == M.Nest(old(now), d)
    {
      hide ThreadContext.Valid;
      TopKnown();
      if frames.Empty? {
        Die();
      } else {
        SetFrame(frames.top.(nesting := frames.top.nesting + d));
      }
    }

    /** sTRY, up to the statements of the caller. */
    method BeginTry(b: Stmt, cl: Clauses, k: Cont)
      requires Valid()
      modifies this, repr
      ensures Valid() && fresh(repr - old(repr)) && now == StepStmt(old(now), Try(b, cl), k)
    {
      hide ThreadContext.Valid;
      SetTry(AtTryExit(k));
      Nest(1);
      SetExc(AtSwitch(cl, k));
      Go(Then(Do(b), Then(EndOfTry, Halt)));
    }

    /** The chain of sCATCH tests. */
    method Catch(cl: Clauses)
      requires Valid()
      modifies this, repr
      ensures Valid() && fresh(repr - old(repr)) && now == StepCatch(isA, old(now), cl)
    {
      hide ThreadContext.Valid;
      var n := Instances();
      var rest := cl;
      if n > 0 {
        var code := FrontInst();
        while rest.Clause? && !isA(code, rest.code)
          invariant StepCatch(isA, now, cl) == StepCatch(isA, now, rest)
          decreases rest
        {
          rest := rest.rest;
        }
      }
      match rest
      case NoMore => JumpFront(Unhandled);
      case Clause(_, handler, _) =>
        if n == 0 {
          Die();
        } else {
          PopInst();
          SetExc(AtCatchElse);
          Go(Then(Do(handler), Then(EndOfCatch, Halt)));
        }
    }

    /** switch( skit__try_setjmp_code ) in sTRY, after a longjmp to it. */
    method Switch(cl: Clauses, k: Cont, v: Value)
      requires Valid()
      modifies this, repr
      ensures Valid() && fresh(repr - old(repr)) && now == StepLand(isA, old(now), AtSwitch(cl, k), v)
    {
      hide ThreadContext.Valid, ThreadContext.Positions;
      var got := Positions();
      match v
      case Cleanup =>
        if got.excs == 0 || got.tries == 0 {
          Die();
        } else {
          PopExc();
          var r := PopTry();
          LongJmp(r.node.val, One);
        }
      case Unhandled =>
        if got.tries == 0 {
          Die();
        } else {
          PopExc();
          Nest(-1);
          var r := PopTry();
          Go(FAIL);
        }
      case One => Catch(cl);
      case Code(_) => Catch(cl);
    }

    /** skit_reconcile_thread_context: surplus jump points are popped, and a stack that is
        too short ends the process. */
    method ReconcileStacks(pos: Position)
      requires Valid()
      modifies this, repr
      ensures Valid() && fresh(repr - old(repr)) && now == Reconcile(old(now), pos)
    {
      hide ThreadContext.Valid;
      var got := Positions();
      if got.tries < pos.tries || got.excs < pos.excs || got.scopes < pos.scopes {
        Die();
      } else {
        CutTries(pos.tries);
        CutExc(pos.excs);
        CutScope(pos.scopes);
      }
    }

    /** A call of a function, with sTRACE or without. */
    method BeginCall(fn: Fn, traced: bool, k: Cont)
      requires Valid()
      modifies this, repr
      ensures Valid() && fresh(repr - old(repr)) && now == StepStmt(old(now), Call(fn, traced), k)
    {
      hide ThreadContext.Valid;
      var pos := Positions();
      if traced {
        SetExc(AtTraceElse(pos));
      }
      Enter();
      Go(FnCont(fn, Then(Return, if traced then Then(Untrace(pos), k) else k)));
    }

    /** sTHROW: a new exception instance, then SKIT__PROPOGATE_THROWN_EXCEPTIONS. */
    method Throw(x: nat, ghost k: Cont)
      requires Valid()
      modifies this, repr
      ensures Valid() && fresh(repr - old(repr)) && now == StepStmt(old(now), Stmt.Throw(x), k)
    {
      hide ThreadContext.Valid;
      PushInst(x);
      Go(FAIL);
    }

    /** The first guard of a function: the exit slot is taken from the scope jump stack, and
        from then on the function finds it by its address. */
    method FirstGuard()
      requires Valid() && frames.Push?
      modifies this, repr
      ensures Valid() && fresh(repr - old(repr))
      ensures var c := old(now); var d := Height(c.frames);
              now == M.PushExc(SetLocals(c, c.frames.top.(used := true, fnExit := Height(c.scope))), AtFirstGuard).(
                  scope := Push(Slot(Uninitialized, d), c.scope))
    {
      hide ThreadContext.Valid;
      TopKnown();
      var node := SetScope(Uninitialized);
      SetFrame(frames.top.(used := true, fnExit := node));
      SetExc(AtFirstGuard);
    }

    /** sSCOPE_GUARD_BEGIN when control reaches it. */
    method BeginGuard(mask: bv2, action: Stmt, rest: Body, k: Cont)
      requires Valid()
      modifies this, repr
      ensures Valid() && fresh(repr - old(repr)) && now == StepBody(old(now), Guard(mask, action, rest), k)
    {
      hide ThreadContext.Valid, JmpFStack.All;
      TopKnown();
      if frames.Empty? {
        Die();
      } else {
        if !frames.top.used {
          FirstGuard();
        }
        var node := SetScope(AtGuard(mask, action));
        Go(Then(Items(rest), k));
      }
    }

    /** SKIT__SCAN_SCOPE_GUARDS up to the first jump: the way back is written through the
        pointer to the exit slot, whatever has become of that node. */
    method ScanGuards(status: bv2, k: Cont)
      requires Valid()
      modifies this, repr
      ensures Valid() && fresh(repr - old(repr)) && now == StepScan(old(now), status, k)
    {
      hide ThreadContext.Valid;
      TopKnown();
      if frames.Empty? {
        Die();
      } else if frames.top.nesting == 0 && frames.top.used {
        SetFrame(frames.top.(status := status));
        SetExit(frames.top.fnExit, Slot(AtScan(k), Depth()));
        Go(Then(NextGuard, Halt));
      } else {
        Go(k);
      }
    }

    /** A guard that a scan has jumped to. */
    method EnterGuard(mask: bv2, action: Stmt, ghost v: Value)
      requires Valid()
      modifies this, repr
      ensures Valid() && fresh(repr - old(repr)) && now == StepLand(isA, old(now), AtGuard(mask, action), v)
    {
      hide ThreadContext.Valid;
      TopKnown();
      if frames.Empty? {
        Die();
      } else if Fires(mask, frames.top.status) {
        SetExc(AtGuardElse);
        Go(Then(Do(action), Then(EndGuard, Halt)));
      } else {
        Go(Then(NextGuard, Halt));
      }
    }

    /** longjmp(*skit_jmp_fstack_pop(&scope_jmp_stack),1) */
    method JumpNextGuard()
      requires Valid()
      modifies this, repr
      ensures Valid() && fresh(repr - old(repr)) && now == if old(now).scope.Empty? then
          M.Die(old(now)) else M.LongJmp(old(now).(scope := old(now).scope.below), old(now).scope.top, One)
    {
      hide ThreadContext.Valid;
      var r := PopScope();
      if r.Popped? { LongJmp(r.node.val, One); }
    }

    /** skit_propogate_exceptions */
    method PropagateExceptions()
      requires Valid()
      modifies this, repr
      ensures Valid() && fresh(repr - old(repr)) && now == if old(now).inst.Empty? then
          M.Die(old(now)) else M.JumpFront(old(now), Code(old(now).inst.top))
    {
      hide ThreadContext.Valid;
      var n := Instances();
      if n == 0 {
        Die();
      } else {
        var code := FrontInst();
        JumpFront(Code(code));
      }
    }

    method StepStatement(s: Stmt, k: Cont)
      requires Valid()
      modifies this, repr
      ensures Valid() && fresh(repr - old(repr)) && now == StepStmt(old(now), s, k)
    {
      hide ThreadContext.Valid;
      match s
      case Skip => Go(k);
      case Act(e) => Note(e); Go(k);
      case Seq(a, b) => Go(Then(Do(a), Then(Do(b), k)));
      case Throw(x) => Throw(x, k);
      case Try(b, cl) => BeginTry(b, cl, k);
      case Call(fn, traced) => BeginCall(fn, traced, k);
    }

    method StepItem(b: Body, k: Cont)
      requires Valid()
      modifies this, repr
      ensures Valid() && fresh(repr - old(repr)) && now == StepBody(old(now), b, k)
    {
      hide ThreadContext.Valid;
      match b
      case End => Go(Then(Scan(SUCCESS_EXIT), k));
      case Item(s, rest) => Go(Then(Do(s), Then(Items(rest), k)));
      case Guard(mask, action, rest) => BeginGuard(mask, action, rest, k);
    }

    /** What stands behind the setjmp that a longjmp has returned to. */
    method StepLabel(l: Label, v: Value)
      requires Valid()
      modifies this, repr
      ensures Valid() && fresh(repr - old(repr)) && now == StepLand(isA, old(now), l, v)
    {
      hide ThreadContext.Valid;
      match l
      case Uninitialized => Die();
      case AtSwitch(cl, k) => Switch(cl, k, v);
      case AtCatchElse => PopExc(); JumpFront(Unhandled);
      case AtTryExit(k) => Go(Then(LeaveTry, k));
      case AtTraceElse(pos) => PopExc(); ReconcileStacks(pos); Go(FAIL);
      case AtFirstGuard => Go(FAIL);
      case AtGuard(mask, action) => EnterGuard(mask, action, v);
      case AtGuardElse => Die();
      case AtScan(k) => Go(Then(AfterScan, k));
      case AtThreadStart => Die();
    }

    /** One macro step. */
    method Step()
      requires Valid()
      modifies this, repr
      ensures Valid() && fresh(repr - old(repr)) && now == M.Step(isA, old(now))
    {
      hide ThreadContext.Valid;
      LiveKnown();
      if dead || cont.Halt? { return; }
      var k := cont.next;
      match cont.instr
      case Do(s) => StepStatement(s, k);
      case Items(b) => StepItem(b, k);
      case EndOfTry => JumpFront(Cleanup);
      case EndOfCatch => PopExc(); JumpFront(Cleanup);
      case LeaveTry => Nest(-1); Go(k);
      case Return => EndCall(k);
      case Untrace(pos) => PopExc(); ReconcileStacks(pos); Go(k);
      case EndGuard => PopExc(); Go(Then(NextGuard, Halt));
      case NextGuard => JumpNextGuard();
      case AfterScan => PopExc(); Go(k);
      case Scan(status) => ScanGuards(status, k);
      case Propagate => PropagateExceptions();
      case Land(l, v) => StepLabel(l, v);
    }

    lemma LiveKnown()
      requires Valid()
      ensures dead == now.dead && cont == now.cont
    {
    }

    method EndCall(k: Cont)
      requires Valid()
      modifies this, repr
      ensures Valid() && fresh(repr - old(repr)) && now ==
          if old(now).frames.Empty? then M.Die(old(now)) else old(now).(frames := old(now).frames.below, cont := k)
    {
      hide ThreadContext.Valid;
      TopKnown();
      if frames.Empty? {
        Die();
      } else {
        Leave();
        Go(k);
      }
    }

    /** The start of a thread: the jump point of last resort comes before the first function. */
    method Start(k: Cont)
      requires Valid() && now == Machine(Halt, Empty, Empty, Empty, Empty, Empty, [], false)
      modifies this, repr
      ensures Valid() && fresh(repr - old(repr))
      ensures now == Machine(k, Push(ENTRY, Empty), Push(Slot(AtThreadStart, 0), Empty), Empty, Empty, Empty, [], false)
    {
      hide ThreadContext.Valid;
      SetExc(AtThreadStart);
      Enter();
      Go(k);
    }

    /** Execution for n steps: the linked nodes and pointers stand for the state that n steps
        of the machine lead to. */
    method Execute(n: nat)
      requires Valid()
      modifies this, repr
      ensures Valid() && fresh(repr - old(repr)) && now == Steps(isA, n, old(now))
    {
      hide ThreadContext.Valid;
      var i := 0;
      while i < n
        invariant i <= n && Valid() && fresh(repr - old(repr))
        invariant Steps(isA, n, old(now)) == Steps(isA, n - i, now)
      {
        Step();
        i := i + 1;
      }
    }
  }
}
