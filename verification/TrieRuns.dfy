/** Whole runs of gets and sets, case-sensitive against a finite map and
    case-insensitive against keys compared up to case. */
module TrieRuns {
  import opened Bytes
  import opened TrieShape
  import opened TrieLookup
  import opened TrieOps

  datatype Op =
    | SetOp(key: Key, v: Ptr, fl: Flags)
    | GetOp(key: Key, fl: Flags)

  datatype Answer =
    | SetAnswer(r: SetResult)
    | GetAnswer(v: Option<Ptr>)

  function Step(s: State, op: Op): (State, Answer)
    requires Inv(s)
  {
    match op
    case SetOp(key, v, fl) => var (s', r) := Set(s, key, v, fl); (s', SetAnswer(r))
    case GetOp(key, fl) => (s, GetAnswer(Get(s, key, fl)))
  }

  function MapStep(m: map<Key, Ptr>, iters: nat, op: Op): (map<Key, Ptr>, Answer) {
    match op
    case SetOp(key, v, fl) => var (m', r) := MapSet(m, iters, key, v, fl); (m', SetAnswer(r))
    case GetOp(key, fl) => (m, GetAnswer(MapGet(m, key)))
  }

  /** What an observer sees: after each call the answer and the pairs stored. */
  type Trace = seq<(map<Key, Ptr>, Answer)>

  function Run(s: State, ops: seq<Op>): Trace
    requires Inv(s)
    decreases |ops|
  {
    if |ops| == 0 then []
    else
      StepInv(s, ops[0]);
      var (s', a) := Step(s, ops[0]);
      [(Denote(s'.G), a)] + Run(s', ops[1..])
  }

  function MapRun(m: map<Key, Ptr>, iters: nat, ops: seq<Op>): Trace
    decreases |ops|
  {
    if |ops| == 0 then []
    else
      var (m', a) := MapStep(m, iters, ops[0]);
      [(m', a)] + MapRun(m', iters, ops[1..])
  }

  /** Each call of a run meets the pairs that the call before it left. */
  lemma {:induction false} MapRunThreads(m: map<Key, Ptr>, iters: nat, ops: seq<Op>, i: nat)
    requires i < |ops|
    ensures var t := MapRun(m, iters, ops);
            |t| == |ops| && t[i] == MapStep(if i == 0 then m else t[i - 1].0, iters, ops[i])
    decreases |ops|
  {
    var (m', a) := MapStep(m, iters, ops[0]);
    if |ops| > 1 { MapRunThreads(m', iters, ops[1..], if i == 0 then 0 else i - 1); }
  }

  lemma StepInv(s: State, op: Op)
    requires Inv(s)
    ensures Inv(Step(s, op).0) && Step(s, op).0.iters == s.iters
  {
    if op.SetOp? { SetInv(s, op.key, op.v, op.fl); }
  }

  /** The operation with the key it really acts on. */
  function Aimed(G: Shape, op: Op): Op
    requires Ok(G)
  {
    op.(key := Target(G, op.key))
  }

  function AimedRun(s: State, ops: seq<Op>): seq<Op>
    requires Inv(s)
    decreases |ops|
  {
    if |ops| == 0 then []
    else
      StepInv(s, ops[0]);
      [Aimed(s.G, ops[0])] + AimedRun(Step(s, ops[0]).0, ops[1..])
  }

  predicate CaseSensitive(ops: seq<Op>) {
    forall i :: 0 <= i < |ops| ==> !ops[i].fl.icase
  }

  lemma StepRefines(s: State, op: Op)
    requires Inv(s) && !op.fl.icase
    ensures var (s', a) := Step(s, op);
            (Denote(s'.G), a) == MapStep(Denote(s.G), s.iters, Aimed(s.G, op))
  {
    match op
    case SetOp(key, v, fl) => SetRefines(s, key, v, fl);
    case GetOp(key, fl) => GetRefines(s, key, fl);
  }

  /** Every run of case-sensitive calls is, call by call, a run of a finite map. */
  lemma {:induction false} RunRefines(s: State, ops: seq<Op>)
    requires Inv(s) && CaseSensitive(ops)
    decreases |ops|
    ensures Run(s, ops) == MapRun(Denote(s.G), s.iters, AimedRun(s, ops))
  {
    if |ops| == 0 {
    } else {
      StepRefines(s, ops[0]);
      StepInv(s, ops[0]);
      var s' := Step(s, ops[0]).0;
      RunRefines(s', ops[1..]);
      var aimed := AimedRun(s, ops);
      assert aimed[1..] == AimedRun(s', ops[1..]);
    }
  }

  /** A call on which the unguarded match test cannot go wrong. */
  predicate Clear(s: State, op: Op)
    requires Inv(s)
  {
    || !InsideValueEdge(s.G, op.key)
    || (op.SetOp? && (s.iters > 0 || (!op.fl.create && !op.fl.overwrite)))
  }

  /** A call on a key that has no stored key as a proper prefix is clear. */
  lemma NoPrefixIsClear(s: State, op: Op)
    requires Inv(s) && forall k :: k in Denote(s.G) ==> !(k < op.key)
    ensures Clear(s, op)
  {
    forall p | p in s.G && s.G[p].val.Some? ensures !(p < op.key) { assert p in Denote(s.G); }
  }

  predicate AllClear(s: State, ops: seq<Op>)
    requires Inv(s)
    decreases |ops|
  {
    |ops| == 0 || (Clear(s, ops[0]) && (StepInv(s, ops[0]); AllClear(Step(s, ops[0]).0, ops[1..])))
  }

  lemma StepMeets(s: State, op: Op)
    requires Inv(s) && !op.fl.icase
    ensures var (s', a) := Step(s, op);
            (Denote(s'.G), a) == MapStep(Denote(s.G), s.iters, op) <==> Clear(s, op)
  {
    match op
    case SetOp(key, v, fl) => SetMeetsMap(s, key, v, fl);
    case GetOp(key, fl) => GetMeetsMap(s, key, fl);
  }

  /** A run shows exactly what the finite map given the same calls would show, if
      and only if every call of the run is clear in the state that it meets. */
  lemma {:induction false} RunMeetsMap(s: State, ops: seq<Op>)
    requires Inv(s) && CaseSensitive(ops)
    decreases |ops|
    ensures Run(s, ops) == MapRun(Denote(s.G), s.iters, ops) <==> AllClear(s, ops)
  {
    if |ops| == 0 {
    } else {
      StepMeets(s, ops[0]);
      StepInv(s, ops[0]);
      var (s', a) := Step(s, ops[0]);
      var (m', b) := MapStep(Denote(s.G), s.iters, ops[0]);
      RunMeetsMap(s', ops[1..]);
      var R, M := Run(s, ops), MapRun(Denote(s.G), s.iters, ops);
      assert R[0] == (Denote(s'.G), a) && R[1..] == Run(s', ops[1..]);
      assert M[0] == (m', b) && M[1..] == MapRun(m', s.iters, ops[1..]);
      assert R == [R[0]] + R[1..] && M == [M[0]] + M[1..];
    }
  }

  // -------------------------------------------------- the failing family exists

  const C: Flags := Flags(false, true, false)

  /** Store "abc" and then "": the root holds a value and one edge of three bytes. */
  const ROOT_ONLY := State(map[[] := Cell(Line([97, 98, 99]), None), [97, 98, 99] := Cell(Leaf, Some(2))], 1, 3, 0)
  const ROOT_VALUE := State(map[[] := Cell(Line([97, 98, 99]), Some(1)), [97, 98, 99] := Cell(Leaf, Some(2))], 2, 3, 0)

  /** Asking that trie for "ab" gives the value of "". */
  lemma GetDiffers()
    ensures Inv(EMPTY) && Set(EMPTY, [97, 98, 99], 2, C) == (ROOT_ONLY, Stored)
    ensures Inv(ROOT_ONLY) && Set(ROOT_ONLY, [], 1, C) == (ROOT_VALUE, Stored)
    ensures Inv(ROOT_VALUE) && Get(ROOT_VALUE, [97, 98], C) == Some(1)
    ensures [97, 98] !in Denote(ROOT_VALUE.G)
  {
    FirstSet();
    SetInv(EMPTY, [97, 98, 99], 2, C);
    SecondSet();
    SetInv(ROOT_ONLY, [], 1, C);
    ThirdGet();
  }

  lemma FirstSet()
    ensures Inv(EMPTY) && Set(EMPTY, [97, 98, 99], 2, C) == (ROOT_ONLY, Stored)
  {
    hide Find;
    var k: Key := [97, 98, 99];
    assert ChunkLen(k) == 3 && k[..3] == k && k[3..] == [] && [] + k == k;
    assert Chain(k, [], 2) == map[k := Cell(Leaf, Some(2))];
    assert Chain([], k, 2) == ROOT_ONLY.G;
  }

  lemma SecondSet()
    requires Inv(ROOT_ONLY)
    ensures Set(ROOT_ONLY, [], 1, C) == (ROOT_VALUE, Stored)
  {
    hide Lcp, Elems, WF;
    var c := Next(ROOT_ONLY.G, [], [], Sensitive);
    var none: Key := [];
    assert none[0..] == [];
    assert c == Coords([], 0, 0, true);
    assert Find(ROOT_ONLY.G, [], true) == c;
    assert SetVal(ROOT_ONLY.G, [], 1) == ROOT_VALUE.G;
  }

  lemma ThirdGet()
    requires Inv(ROOT_VALUE)
    ensures Get(ROOT_VALUE, [97, 98], C) == Some(1)
  {
    var k: Key := [97, 98];
    assert k[0..] == k;
    LcpWhole([97, 98, 99], k, true);
    assert Next(ROOT_VALUE.G, [], k, Sensitive) == Coords([], 2, 2, true);
    assert Find(ROOT_VALUE.G, k, true) == Coords([], 2, 2, true);
  }

  lemma LcpWhole(x: Key, key: Key, cs: bool)
    requires key <= x
    ensures Lcp(x, key, cs) == |key|
  {
    if Lcp(x, key, cs) < |key| { assert false; }
  }
}
