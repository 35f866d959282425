/** Whole runs of case-insensitive gets and sets beside a finite map on keys in lower case. */
module TrieFoldRuns {
  import opened Bytes
  import opened TrieShape
  import opened TrieLookup
  import opened TrieOps
  import opened TrieFold
  import opened TrieRuns

  /** The map on keys in lower case that a map without twins stands for. */
  ghost function Folded(m: map<Key, Ptr>): map<Key, Ptr>
    requires NoTwins(m)
  {
    LowerDistinct(m);
    map k | k in m :: Lower(k) := m[k]
  }

  lemma LowerDistinct(m: map<Key, Ptr>)
    requires NoTwins(m)
    ensures forall x, y :: x in m && y in m && Lower(x) == Lower(y) ==> x == y
  {
    forall x, y | x in m && y in m && Lower(x) == Lower(y) ensures x == y { LowerSame(x, y); }
  }

  lemma FoldedAt(m: map<Key, Ptr>, key: Key, x: Key)
    requires NoTwins(m) && x in m && SameKey(key, x)
    ensures Lower(key) in Folded(m) && Folded(m)[Lower(key)] == m[x]
  {
    LowerSame(key, x);
  }

  lemma FoldedWithout(m: map<Key, Ptr>, key: Key)
    requires NoTwins(m) && forall x :: x in m ==> !SameKey(key, x)
    ensures Lower(key) !in Folded(m)
  {
    forall x | x in m ensures Lower(x) != Lower(key) { LowerSame(key, x); }
  }

  lemma FoldedHas(m: map<Key, Ptr>, x: Key)
    requires NoTwins(m) && x in m
    ensures Lower(x) in Folded(m) && Folded(m)[Lower(x)] == m[x]
  {
    LowerDistinct(m);
  }

  lemma FoldedFrom(m: map<Key, Ptr>, l: Key) returns (x: Key)
    requires NoTwins(m) && l in Folded(m)
    ensures x in m && Lower(x) == l && Folded(m)[l] == m[x]
  {
    x :| x in m && Lower(x) == l;
    FoldedHas(m, x);
  }

  lemma FoldedUpdate(m: map<Key, Ptr>, key: Key, k: Key, v: Ptr)
    requires NoTwins(m) && NoTwins(m[k := v]) && SameKey(key, k)
    ensures Folded(m[k := v]) == Folded(m)[Lower(key) := v]
  {
    hide SameKey, NoTwins, Lower, Folded;
    LowerSame(key, k);
    var m' := m[k := v];
    FoldedHas(m', k);
    var f, g := Folded(m'), Folded(m)[Lower(key) := v];
    forall l | l in g ensures l in f && f[l] == g[l] {
      if l != Lower(key) {
        var x := FoldedFrom(m, l);
        FoldedHas(m', x);
      }
    }
    forall l | l in f ensures l in g {
      var x := FoldedFrom(m', l);
      if x != k { FoldedHas(m, x); }
    }
  }

  predicate WithI(ops: seq<Op>) {
    forall i :: 0 <= i < |ops| ==> ops[i].fl.icase
  }

  /** The call that the map on keys in lower case is given. */
  function Lowered(op: Op): Op {
    op.(key := Lower(op.key))
  }

  function LoweredAll(ops: seq<Op>): seq<Op>
    decreases |ops|
  {
    if |ops| == 0 then [] else [Lowered(ops[0])] + LoweredAll(ops[1..])
  }

  /** A call on which the unguarded match test cannot go wrong. */
  ghost predicate FoldClear(s: State, op: Op) {
    !InsideFold(s.G, op.key) || (op.SetOp? && (s.iters > 0 || (!op.fl.create && !op.fl.overwrite)))
  }

  ghost predicate AllFoldClear(s: State, ops: seq<Op>)
    requires Inv(s)
    decreases |ops|
  {
    |ops| == 0 || (FoldClear(s, ops[0]) && (StepInv(s, ops[0]); AllFoldClear(Step(s, ops[0]).0, ops[1..])))
  }

  ghost predicate Spelled(s: State) {
    Inv(s) && OneSpelling(Denote(s.G)) && NoTwins(Denote(s.G))
  }

  lemma StepSpelled(s: State, op: Op)
    requires Spelled(s) && op.fl.icase
    ensures Spelled(Step(s, op).0)
  {
    StepInv(s, op);
    if op.SetOp? { FoldSetSpelling(s, op.key, op.v, op.fl); }
    OneSpellingNoTwins(Denote(Step(s, op).0.G));
  }

  /** Whether a key equal to the query up to case is stored, and what a search then finds. */
  lemma FoundFolded(s: State, key: Key)
    requires Spelled(s)
    ensures var m := Denote(s.G); var f := FoundKey(s.G, key);
            if InsideFold(s.G, key) then f.Some? && f.value in m && Lower(key) !in Folded(m)
            else match f
              case Some(x) => x in m && SameKey(key, x) && Lower(key) in Folded(m) && Folded(m)[Lower(key)] == m[x]
              case None => Lower(key) !in Folded(m)
  {
    var m := Denote(s.G);
    var fl := Flags(true, false, false);
    FoldReports(s, key, fl);
    FoldAnswers(s, key, fl);
    FoldAnswersExactly(s, key);
    var f := FoundKey(s.G, key);
    if InsideFold(s.G, key) {
      var p :| p in s.G && InsideAt(s.G, key, p);
      forall x | x in m ensures !SameKey(key, x) { InsideMeansAbsent(s, key, p, x); }
      FoldedWithout(m, key);
    } else if f.Some? {
      FoldedAt(m, key, f.value);
    } else {
      FoldedWithout(m, key);
    }
  }

  lemma GetFolds(s: State, key: Key, fl: Flags)
    requires Spelled(s) && fl.icase
    ensures Get(s, key, fl) == MapGet(Folded(Denote(s.G)), Lower(key)) <==> !InsideFold(s.G, key)
  {
    FoundFolded(s, key);
    FoldAnswers(s, key, fl);
  }

  /** A set that takes a shorter key for this one does not store this one. */
  lemma InsideUpdate(m: map<Key, Ptr>, key: Key, x: Key, v: Ptr)
    requires NoTwins(m) && x in m && Lower(key) !in Folded(m) && NoTwins(m[x := v])
    ensures Lower(key) !in Folded(m[x := v])
  {
    SameKeyTrans(x, x, x);
    FoldedUpdate(m, x, x, v);
    FoldedAt(m, x, x);
  }

  lemma UpdateFolds(s: State, key: Key, v: Ptr, fl: Flags, m': map<Key, Ptr>, r: SetResult)
    requires Spelled(s) && NoTwins(m') && FoldUpdate(s, key, v, fl, m', r)
    ensures (Folded(m'), r) == MapSet(Folded(Denote(s.G)), s.iters, Lower(key), v, fl)
            <==> FoldClear(s, SetOp(key, v, fl))
  {
    hide Folded, Lower, InsideFold, NoTwins, Spelled, FoldKey, FoundKey, Denote;
    var m := Denote(s.G);
    FoundFolded(s, key);
    TwinFree(s);
    if s.iters == 0 && (fl.create || fl.overwrite) {
      match FoundKey(s.G, key)
      case Some(x) =>
        if InsideFold(s.G, key) {
          if fl.overwrite { InsideUpdate(m, key, x, v); }
        } else if fl.overwrite {
          FoldedUpdate(m, key, x, v);
        }
      case None =>
        if fl.create { FoldedUpdate(m, key, FoldKey(s.G, key), v); }
    }
  }

  lemma TwinFree(s: State)
    requires Spelled(s)
    ensures Inv(s) && NoTwins(Denote(s.G))
  {
  }

  lemma SetFolds(s: State, key: Key, v: Ptr, fl: Flags)
    requires Spelled(s) && fl.icase && Spelled(Set(s, key, v, fl).0)
    ensures var (s', r) := Set(s, key, v, fl);
            (Folded(Denote(s'.G)), r) == MapSet(Folded(Denote(s.G)), s.iters, Lower(key), v, fl)
            <==> FoldClear(s, SetOp(key, v, fl))
  {
    FoldSet(s, key, v, fl);
    var x := Set(s, key, v, fl);
    UpdateFolds(s, key, v, fl, Denote(x.0.G), x.1);
  }

  lemma StepFolds(s: State, op: Op)
    requires Spelled(s) && op.fl.icase && Spelled(Step(s, op).0)
    ensures var (s', a) := Step(s, op);
            (Folded(Denote(s'.G)), a) == MapStep(Folded(Denote(s.G)), s.iters, Lowered(op)) <==> FoldClear(s, op)
  {
    match op
    case SetOp(key, v, fl) => SetFolds(s, key, v, fl);
    case GetOp(key, fl) => GetFolds(s, key, fl);
  }

  /** What an observer sees who writes every key in lower case. */
  ghost function FoldedRun(s: State, ops: seq<Op>): Trace
    requires Spelled(s) && WithI(ops)
    decreases |ops|
  {
    if |ops| == 0 then []
    else
      StepSpelled(s, ops[0]);
      var (s', a) := Step(s, ops[0]);
      [(Folded(Denote(s'.G)), a)] + FoldedRun(s', ops[1..])
  }

  /** A run of gets and sets with 'i' shows what a finite map on keys in lower case would
      show, if and only if every call of the run is clear in the state that it meets. */
  lemma {:induction false} FoldRunMeetsMap(s: State, ops: seq<Op>)
    requires Spelled(s) && WithI(ops)
    ensures FoldedRun(s, ops) == MapRun(Folded(Denote(s.G)), s.iters, LoweredAll(ops)) <==> AllFoldClear(s, ops)
    decreases |ops|
  {
    if |ops| > 0 {
      StepSpelled(s, ops[0]);
      StepFolds(s, ops[0]);
      StepInv(s, ops[0]);
      var (s', a) := Step(s, ops[0]);
      var (m', b) := MapStep(Folded(Denote(s.G)), s.iters, Lowered(ops[0]));
      FoldRunMeetsMap(s', ops[1..]);
      var R, M := FoldedRun(s, ops), MapRun(Folded(Denote(s.G)), s.iters, LoweredAll(ops));
      assert LoweredAll(ops)[1..] == LoweredAll(ops[1..]);
      assert R[0] == (Folded(Denote(s'.G)), a) && R[1..] == FoldedRun(s', ops[1..]);
      assert M[0] == (m', b) && M[1..] == MapRun(m', s.iters, LoweredAll(ops[1..]));
      assert R == [R[0]] + R[1..] && M == [M[0]] + M[1..];
    }
  }

  /** So does every run that starts from the empty trie. */
  lemma FoldRunFromEmpty(ops: seq<Op>)
    requires WithI(ops)
    ensures Spelled(EMPTY) && (FoldedRun(EMPTY, ops) == MapRun(map[], 0, LoweredAll(ops)) <==> AllFoldClear(EMPTY, ops))
  {
    assert Folded(Denote(EMPTY.G)) == map[];
    FoldRunMeetsMap(EMPTY, ops);
  }

  // -------------------------------------------------- the failing family exists

  /** With "abc" and then "" stored, asking for "ab" with 'i' gives the value of "", although
      no stored key equals "ab" up to case. */
  lemma FoldGetDiffers()
    ensures Inv(ROOT_VALUE) && Get(ROOT_VALUE, [97, 98], Flags(true, false, false)) == Some(1)
    ensures InsideFold(ROOT_VALUE.G, [97, 98]) && forall x :: x in Denote(ROOT_VALUE.G) ==> !SameKey([97, 98], x)
  {
    hide WF, Inv, FirstInside, InsideAt, FirstTaken, RightAnswer;
    GetDiffers();
    RootInside();
    var fl := Flags(true, false, false);
    FoldReports(ROOT_VALUE, [97, 98], fl);
    FoldAnswers(ROOT_VALUE, [97, 98], fl);
    RootFound();
  }

  lemma RootInside()
    ensures InsideFold(ROOT_VALUE.G, [97, 98]) && InsideAt(ROOT_VALUE.G, [97, 98], [])
  {
    var root: Key := [];
    var str: Key := [97, 98, 99];
    assert root in ROOT_VALUE.G && ROOT_VALUE.G[root] == Cell(Line(str), Some(1));
    assert (root + str)[..2] == [97, 98];
  }

  lemma RootFound()
    requires Inv(ROOT_VALUE) && FoundKey(ROOT_VALUE.G, [97, 98]).Some?
    ensures FoundKey(ROOT_VALUE.G, [97, 98]) == Some([])
  {
    hide Find, WF;
    assert [] in ROOT_VALUE.G;
    FoundTakes(ROOT_VALUE.G, [97, 98]);
  }
}
