/** Which sCATCH clause of a block runs, in terms of the inheritance table. */
module CatchOrder {
  import opened JumpMachine
  import opened JumpMeaning
  import opened Inheritance

  /** skit_exception_is_a: the thrown code first, the code of the clause second. */
  function TableIsA(t: seq<int>, rank: seq<nat>): IsA
    requires Ranked(t, rank)
  {
    (x: nat, y: nat) => x < |t| && Climb(t, rank, x, 0, y)
  }

  function Codes(cl: Clauses): seq<nat> {
    match cl
    case NoMore => []
    case Clause(code, _, rest) => [code] + Codes(rest)
  }

  function Handlers(cl: Clauses): (hs: seq<Stmt>)
    ensures |hs| == |Codes(cl)|
  {
    match cl
    case NoMore => []
    case Clause(_, h, rest) => [h] + Handlers(rest)
  }

  /** Clause i is the first whose code is an ancestor of x. */
  ghost predicate First(t: seq<int>, cl: Clauses, x: nat, i: int)
    requires InTable(t) && x < |t|
  {
    && 0 <= i < |Codes(cl)| && Ancestor(t, x, Codes(cl)[i])
    && forall j :: 0 <= j < i ==> !Ancestor(t, x, Codes(cl)[j])
  }

  /** With a root at index 0, the first clause whose code is an ancestor of the thrown
      code handles it, and the exception leaves the block if there is none. */
  lemma {:induction false} FirstAncestorCatches(t: seq<int>, rank: seq<nat>, cl: Clauses, x: nat)
    requires Ranked(t, rank) && x < |t| && t[0] == 0
    ensures forall i :: First(t, cl, x, i) ==> Handle(TableIsA(t, rank), cl, x) == Eval(TableIsA(t, rank),
        Handlers(cl)[i])
    ensures (forall i :: !First(t, cl, x, i)) ==> Handle(TableIsA(t, rank), cl, x) == Result([], Raised(x))
    decreases cl
  {
    match cl
    case NoMore =>
    case Clause(code, h, rest) =>
      ClimbDecides(t, rank, x, 0, code);
      FirstAncestorCatches(t, rank, rest, x);
      var isA := TableIsA(t, rank);
      if isA(x, code) {
        assert Ancestor(t, x, Codes(cl)[0]);
        assert First(t, cl, x, 0);
        forall i | First(t, cl, x, i) ensures i == 0 { }
      } else {
        forall i | First(t, cl, x, i) ensures First(t, rest, x, i - 1) {
          assert !Ancestor(t, x, code) && i > 0;
          assert forall j :: 0 <= j < i - 1 ==> Codes(rest)[j] == Codes(cl)[j + 1];
        }
        forall i | First(t, rest, x, i) ensures First(t, cl, x, i + 1) {
          assert forall j :: 0 < j < i + 1 ==> Codes(cl)[j] == Codes(rest)[j - 1];
        }
      }
  }
}
