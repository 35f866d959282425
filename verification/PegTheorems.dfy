/** What the macros compute is what a parsing expression grammar means; expansions of
    sequences and choices in any shape are the flat ones; when parsing ends. */
module PegTheorems {
  import opened Bytes
  import opened Peg

  // ------------------------------------------------------------------- meaning

  /** The outcome o matches exactly what m says. */
  ghost predicate Agrees(o: Option<Out>, m: Meaning) {
    match m
    case Endless => o == None
    case NoMatch => o.Some? && o.value.found.Fail?
    case Match(end) => o.Some? && o.value.found.Ok? && o.value.found.end == end
  }

  /** Whatever the macros leave in their variables on the way, success and end position
      are those of the parsing expression grammar. */
  lemma {:induction false} RunMeans(g: Grammar, depth: nat, auto: bool, e: Expr, cursor: nat, pos: nat)
    ensures Agrees(Run(g, depth, auto, e, cursor, pos), Means(g, depth, auto, e, pos))
    decreases depth, e, g.ubound + 2
  {
    match e
    case Rule(n) =>
      if depth > 0 { RunMeans(g, depth - 1, g.rules(n).autoWhitespace, g.rules(n).body, pos, pos); }
    case Primitive(id) =>
    case Action(id) =>
    case Seq(a, b) =>
      RunMeans(g, depth, auto, a, cursor, pos);
      var r := Means(g, depth, auto, a, pos);
      if r.Match? { RunMeans(g, depth, auto, b, cursor, Skip(g, auto, r.end)); }
    case Choose(a, b) =>
      RunMeans(g, depth, auto, a, cursor, pos);
      RunMeans(g, depth, auto, b, cursor, pos);
    case ZeroOrMore(a) => ManyMeans(g, depth, auto, e, cursor, pos);
    case Optional(a) => RunMeans(g, depth, auto, a, cursor, pos);
    case NegLookahead(a) => RunMeans(g, depth, auto, a, cursor, pos);
  }

  lemma {:induction false} ManyMeans(g: Grammar, depth: nat, auto: bool, e: Expr, cursor: nat, pos: nat)
    requires e.ZeroOrMore?
    ensures Agrees(RunMany(g, depth, auto, e, cursor, pos), Repeats(g, depth, auto, e, pos))
    decreases depth, e, if pos <= g.ubound then g.ubound - pos + 1 else 0
  {
    RunMeans(g, depth, auto, e.body, cursor, pos);
    var r := Means(g, depth, auto, e.body, pos);
    if r.Match? {
      var p := Skip(g, auto, r.end);
      if pos < p <= g.ubound { ManyMeans(g, depth, auto, e, cursor, p); }
    }
  }

  /** ONE_OR_MORE is ZERO_OR_MORE, except that it fails where the body does not match. */
  lemma {:induction false} OneOrMoreMeans(g: Grammar, depth: nat, auto: bool, a: Expr, pos: nat)
    requires var r := Means(g, depth, auto, a, pos); r.Match? ==> pos <= Skip(g, auto, r.end) <= g.ubound
    ensures Means(g, depth, auto, OneOrMore(a), pos) ==
            if Means(g, depth, auto, a, pos).NoMatch? then NoMatch else Means(g, depth, auto, ZeroOrMore(a), pos)
  {
    var r := Means(g, depth, auto, a, pos);
    if r.Match? {
      var p := Skip(g, auto, r.end);
      assert Means(g, depth, auto, ZeroOrMore(a), p) == Repeats(g, depth, auto, ZeroOrMore(a), p);
    }
  }

  // ------------------------------------------------------- balanced expansions

  /** How a macro with n arguments is expanded into macros with two. */
  datatype Shape = Leaf(e: Expr) | Node(left: Shape, right: Shape)

  function Leaves(t: Shape): (es: seq<Expr>)
    ensures |es| > 0
  {
    match t
    case Leaf(e) => [e]
    case Node(l, r) => Leaves(l) + Leaves(r)
  }

  function SeqOf(t: Shape): Expr {
    match t
    case Leaf(e) => e
    case Node(l, r) => Seq(SeqOf(l), SeqOf(r))
  }

  function ChooseOf(t: Shape): Expr {
    match t
    case Leaf(e) => e
    case Node(l, r) => Choose(ChooseOf(l), ChooseOf(r))
  }

  /** The tree that SEQn and CHOOSEn build from n arguments, 2 <= n <= 10. */
  function Balanced(es: seq<Expr>): Shape
    requires |es| > 0
    decreases |es|
  {
    if |es| == 1 then Leaf(es[0])
    else Node(Balanced(es[..Half(|es|)]), Balanced(es[Half(|es|)..]))
  }

  /** How many arguments go to the left. */
  function Half(n: nat): (h: nat)
    requires n > 1
    ensures 0 < h < n
  {
    if n == 3 then 1 else (n + 1) / 2
  }

  lemma {:induction false} BalancedLeaves(es: seq<Expr>)
    requires |es| > 0
    ensures Leaves(Balanced(es)) == es
    decreases |es|
  {
    if |es| > 1 {
      var l, r := es[..Half(|es|)], es[Half(|es|)..];
      assert es == l + r;
      BalancedLeaves(l);
      BalancedLeaves(r);
      assert Balanced(es) == Node(Balanced(l), Balanced(r));
    }
  }

  /** Where the macros cut their arguments: in the middle, an odd one to the left, except for
      three, of which one is on the left. */
  lemma MacroTrees(es: seq<Expr>)
    requires |es| > 1
    ensures var n := if |es| == 3 then 1 else |es| - |es| / 2;
            var t := Balanced(es);
            t.Node? && Leaves(t.left) == es[..n] && Leaves(t.right) == es[n..]
  {
    hide Half, Leaves;
    HalfIs(|es|);
    var l, r := es[..Half(|es|)], es[Half(|es|)..];
    assert Balanced(es) == Node(Balanced(l), Balanced(r));
    BalancedLeaves(l);
    BalancedLeaves(r);
  }

  lemma HalfIs(n: nat)
    requires n > 1
    ensures Half(n) == if n == 3 then 1 else n - n / 2
  {
  }

  /** Elements one after another, whitespace between them, up to the first failure. */
  function FlatSeq(g: Grammar, depth: nat, auto: bool, es: seq<Expr>, cursor: nat, pos: nat): Option<Out>
    requires |es| > 0
    decreases |es|
  {
    if |es| == 1 then Run(g, depth, auto, es[0], cursor, pos)
    else Then(g, auto, Run(g, depth, auto, es[0], cursor, pos), cursor,
              (p: nat) => FlatSeq(g, depth, auto, es[1..], cursor, p))
  }

  lemma ThenAgain(g: Grammar, auto: bool, r: Option<Out>, cursor: nat, f: nat -> Option<Out>, h: nat -> Option<Out>)
    ensures Then(g, auto, Then(g, auto, r, cursor, f), cursor, h) ==
            Then(g, auto, r, cursor, (p: nat) => Then(g, auto, f(p), cursor, h))
  {
    if r.Some? && r.value.found.Ok? {
      var s := f(Skip(g, auto, r.value.found.end));
      if s.Some? && s.value.found.Ok? {
        var u := h(Skip(g, auto, s.value.found.end));
        if u.Some? {
          assert r.value.trace + s.value.trace + u.value.trace == r.value.trace + (s.value.trace + u.value.trace);
        }
      }
    }
  }

  lemma ThenSame(g: Grammar, auto: bool, r: Option<Out>, cursor: nat, f: nat -> Option<Out>, h: nat -> Option<Out>)
    requires forall p: nat :: f(p) == h(p)
    ensures Then(g, auto, r, cursor, f) == Then(g, auto, r, cursor, h)
  {
  }

  lemma {:induction false} FlatSeqSplit(g: Grammar, depth: nat, auto: bool, xs: seq<Expr>, ys: seq<Expr>,
          cursor: nat, pos: nat)
    requires |xs| > 0 && |ys| > 0
    ensures FlatSeq(g, depth, auto, xs + ys, cursor, pos) ==
            Then(g, auto, FlatSeq(g, depth, auto, xs, cursor, pos), cursor, (p: nat) => FlatSeq(g, depth, auto, ys,
                cursor, p))
    decreases |xs|
  {
    var h := (p: nat) => FlatSeq(g, depth, auto, ys, cursor, p);
    var r := Run(g, depth, auto, xs[0], cursor, pos);
    var f := (p: nat) => FlatSeq(g, depth, auto, xs[1..] + ys, cursor, p);
    assert (xs + ys)[1..] == xs[1..] + ys;
    ThenSame(g, auto, r, cursor, (p: nat) => FlatSeq(g, depth, auto, (xs + ys)[1..], cursor, p), f);
    if |xs| == 1 {
      assert xs[1..] + ys == ys;
      ThenSame(g, auto, r, cursor, f, h);
    } else {
      var k := (p: nat) => FlatSeq(g, depth, auto, xs[1..], cursor, p);
      forall p: nat ensures f(p) == Then(g, auto, k(p), cursor, h) {
        FlatSeqSplit(g, depth, auto, xs[1..], ys, cursor, p);
        ThenSame(g, auto, k(p), cursor, (q: nat) => FlatSeq(g, depth, auto, ys, cursor, q), h);
      }
      ThenSame(g, auto, r, cursor, f, (p: nat) => Then(g, auto, k(p), cursor, h));
      ThenAgain(g, auto, r, cursor, k, h);
    }
  }

  /** Any expansion of a sequence matches the same text, makes the same calls and reports
      the same error as the flat sequence. */
  lemma {:induction false} SeqShape(g: Grammar, depth: nat, auto: bool, t: Shape, cursor: nat, pos: nat)
    ensures Run(g, depth, auto, SeqOf(t), cursor, pos) == FlatSeq(g, depth, auto, Leaves(t), cursor, pos)
    decreases t
  {
    match t
    case Leaf(e) =>
    case Node(l, r) =>
      SeqShape(g, depth, auto, l, cursor, pos);
      var f, h := (p: nat) => Run(g, depth, auto, SeqOf(r), cursor, p), (p: nat) => FlatSeq(g, depth, auto,
          Leaves(r), cursor, p);
      forall p: nat ensures f(p) == h(p) { SeqShape(g, depth, auto, r, cursor, p); }
      var a := Run(g, depth, auto, SeqOf(l), cursor, pos);
      ThenSame(g, auto, a, cursor, f, h);
      FlatSeqSplit(g, depth, auto, Leaves(l), Leaves(r), cursor, pos);
      SeqUnfold(g, depth, auto, l, r, cursor, pos);
  }

  lemma SeqUnfold(g: Grammar, depth: nat, auto: bool, l: Shape, r: Shape, cursor: nat, pos: nat)
    ensures Run(g, depth, auto, SeqOf(Node(l, r)), cursor, pos) ==
            Then(g, auto, Run(g, depth, auto, SeqOf(l), cursor, pos), cursor, (p: nat) => Run(g, depth, auto,
                SeqOf(r), cursor, p))
  {
    assert SeqOf(Node(l, r)) == Seq(SeqOf(l), SeqOf(r));
  }

  /** Alternatives in order, each failed one discarded before the next is tried. */
  function FlatChoose(g: Grammar, depth: nat, auto: bool, es: seq<Expr>, cursor: nat, pos: nat): Option<Out>
    requires |es| > 0
    decreases |es|
  {
    var r := Run(g, depth, auto, es[0], cursor, pos);
    if |es| == 1 then r else Else(r, pos, FlatChoose(g, depth, auto, es[1..], cursor, pos))
  }

  lemma ElseAgain(a: Option<Out>, b: Option<Out>, c: Option<Out>, pos: nat)
    ensures Else(Else(a, pos, b), pos, c) == Else(a, pos, Else(b, pos, c))
  {
    if a.Some? && b.Some? && c.Some? {
      var d := [Discard(pos)];
      var x, y, z := a.value.trace, b.value.trace, c.value.trace;
      assert x + d + y + d + z == x + d + (y + d + z);
    }
  }

  lemma {:induction false} FlatChooseSplit(g: Grammar, depth: nat, auto: bool, xs: seq<Expr>, ys: seq<Expr>,
          cursor: nat, pos: nat)
    requires |xs| > 0 && |ys| > 0
    ensures FlatChoose(g, depth, auto, xs + ys, cursor, pos) ==
            Else(FlatChoose(g, depth, auto, xs, cursor, pos), pos, FlatChoose(g, depth, auto, ys, cursor, pos))
    decreases |xs|
  {
    assert (xs + ys)[1..] == xs[1..] + ys;
    if |xs| == 1 {
      assert xs[1..] + ys == ys;
    } else {
      FlatChooseSplit(g, depth, auto, xs[1..], ys, cursor, pos);
      ElseAgain(Run(g, depth, auto, xs[0], cursor, pos), FlatChoose(g, depth, auto, xs[1..], cursor, pos),
                FlatChoose(g, depth, auto, ys, cursor, pos), pos);
    }
  }

  /** Any expansion of a choice is the flat ordered choice. */
  lemma {:induction false} ChooseShape(g: Grammar, depth: nat, auto: bool, t: Shape, cursor: nat, pos: nat)
    ensures Run(g, depth, auto, ChooseOf(t), cursor, pos) == FlatChoose(g, depth, auto, Leaves(t), cursor, pos)
    decreases t
  {
    match t
    case Leaf(e) =>
    case Node(l, r) =>
      ChooseShape(g, depth, auto, l, cursor, pos);
      ChooseShape(g, depth, auto, r, cursor, pos);
      FlatChooseSplit(g, depth, auto, Leaves(l), Leaves(r), cursor, pos);
  }

  /** SEQ2 to SEQ10 and CHOOSE2 to CHOOSE10. */
  lemma MacrosAreFlat(g: Grammar, depth: nat, auto: bool, es: seq<Expr>, cursor: nat, pos: nat)
    requires 2 <= |es| <= 10
    ensures Run(g, depth, auto, SeqOf(Balanced(es)), cursor, pos) == FlatSeq(g, depth, auto, es, cursor, pos)
    ensures Run(g, depth, auto, ChooseOf(Balanced(es)), cursor, pos) == FlatChoose(g, depth, auto, es, cursor, pos)
  {
    BalancedLeaves(es);
    SeqShape(g, depth, auto, Balanced(es), cursor, pos);
    ChooseShape(g, depth, auto, Balanced(es), cursor, pos);
  }

  // ----------------------------------------------------- what a choice reports

  /** The calls made while the first n alternatives are tried: one discard after each
      alternative but the last. */
  function Tried(g: Grammar, depth: nat, auto: bool, es: seq<Expr>, n: nat, cursor: nat, pos: nat): seq<Event>
    requires 0 < n <= |es|
    decreases |es|
  {
    var r := Run(g, depth, auto, es[0], cursor, pos);
    var t := if r.Some? then r.value.trace else [];
    if n == 1 then t else t + [Discard(pos)] + Tried(g, depth, auto, es[1..], n - 1, cursor, pos)
  }

  /** A choice that succeeds gives the outcome of the first alternative that matches. */
  lemma {:induction false} FirstMatch(g: Grammar, depth: nat, auto: bool, es: seq<Expr>, cursor: nat, pos: nat, i: nat)
    requires i < |es|
    requires forall j :: 0 <= j < i ==> var r := Run(g, depth, auto, es[j], cursor, pos); r.Some? && r.value.found.Fail?
    requires var r := Run(g, depth, auto, es[i], cursor, pos); r.Some? && r.value.found.Ok?
    ensures FlatChoose(g, depth, auto, es, cursor, pos) ==
            Some(Out(Run(g, depth, auto, es[i], cursor, pos).value.found, Tried(g, depth, auto, es, i + 1, cursor,
                pos)))
    decreases |es|
  {
    if i > 0 {
      var r0 := Run(g, depth, auto, es[0], cursor, pos);
      assert r0.Some? && r0.value.found.Fail?;
      forall j | 0 <= j < i - 1
        ensures var r := Run(g, depth, auto, es[1..][j], cursor, pos); r.Some? && r.value.found.Fail?
      {
        assert es[1..][j] == es[j + 1];
      }
      assert es[1..][i - 1] == es[i];
      FirstMatch(g, depth, auto, es[1..], cursor, pos, i - 1);
    }
  }

  /** A choice of which every alternative fails reports the failure that reached
      farthest into the text, the latest of those that reached equally far. */
  lemma {:induction false} FarthestFailure(g: Grammar, depth: nat, auto: bool, es: seq<Expr>, cursor: nat,
          pos: nat) returns (i: nat)
    requires |es| > 0
    requires forall j :: 0 <= j < |es| ==>
               var r := Run(g, depth, auto, es[j], cursor, pos); r.Some? && r.value.found.Fail?
    ensures i < |es|
    ensures FlatChoose(g, depth, auto, es, cursor, pos) ==
            Some(Out(Run(g, depth, auto, es[i], cursor, pos).value.found, Tried(g, depth, auto, es, |es|, cursor, pos)))
    ensures forall j :: 0 <= j < |es| ==>
              var f, h := Run(g, depth, auto, es[j], cursor, pos).value.found, Run(g, depth, auto, es[i], cursor,
                  pos).value.found;
              f.at <= h.at && (i < j ==> f.at < h.at)
    decreases |es|
  {
    i := 0;
    var r0 := Run(g, depth, auto, es[0], cursor, pos);
    assert r0.Some? && r0.value.found.Fail?;
    if |es| > 1 {
      forall j | 0 <= j < |es| - 1
        ensures var r := Run(g, depth, auto, es[1..][j], cursor, pos); r.Some? && r.value.found.Fail?
      {
        assert es[1..][j] == es[j + 1];
      }
      var k := FarthestFailure(g, depth, auto, es[1..], cursor, pos);
      i := if r0.value.found.at > Run(g, depth, auto, es[1..][k], cursor, pos).value.found.at then 0 else k + 1;
      forall j | 0 <= j < |es|
        ensures var f, h := Run(g, depth, auto, es[j], cursor, pos).value.found, Run(g, depth, auto, es[i], cursor,
            pos).value.found;
                f.at <= h.at && (i < j ==> f.at < h.at)
      {
        if j > 0 { assert es[j] == es[1..][j - 1]; }
      }
    }
  }

  // ------------------------------------------------------------------- endings

  /** A repeated body always moves on when it matches. */
  ghost predicate Advancing(g: Grammar, depth: nat, auto: bool, e: Expr) {
    match e
    case Rule(_) => true
    case Primitive(_) => true
    case Action(_) => true
    case Seq(a, b) => Advancing(g, depth, auto, a) && Advancing(g, depth, auto, b)
    case Choose(a, b) => Advancing(g, depth, auto, a) && Advancing(g, depth, auto, b)
    case ZeroOrMore(a) =>
      && Advancing(g, depth, auto, a)
      && forall p: nat :: p <= g.ubound && Means(g, depth, auto, a, p).Match? ==>
           p < Skip(g, auto, Means(g, depth, auto, a, p).end)
    case Optional(a) => Advancing(g, depth, auto, a)
    case NegLookahead(a) => Advancing(g, depth, auto, a)
  }

  /** Whatever e matches, the next element of a sequence starts farther on. */
  ghost predicate Consumes(g: Grammar, auto: bool, e: Expr) {
    forall d: nat, p: nat :: p <= g.ubound && Means(g, d, auto, e, p).Match? ==> p < Skip(g, auto, Means(g, d, auto,
        e, p).end)
  }

  /** The rules that e can call before anything has been consumed have a rank below n;
      no rule has a rank above top. */
  ghost predicate LeftBelow(g: Grammar, auto: bool, e: Expr, rank: nat -> nat, top: nat, n: nat) {
    match e
    case Rule(r) => rank(r) < n
    case Primitive(_) => true
    case Action(_) => true
    case Seq(a, b) =>
      && LeftBelow(g, auto, a, rank, top, n)
      && LeftBelow(g, auto, b, rank, top, if Consumes(g, auto, a) then top + 1 else n)
    case Choose(a, b) => LeftBelow(g, auto, a, rank, top, n) && LeftBelow(g, auto, b, rank, top, n)
    case ZeroOrMore(a) => LeftBelow(g, auto, a, rank, top, n)
    case Optional(a) => LeftBelow(g, auto, a, rank, top, n)
    case NegLookahead(a) => LeftBelow(g, auto, a, rank, top, n)
  }

  ghost predicate SoundRule(g: Grammar, rank: nat -> nat, top: nat, r: nat) {
    var def := g.rules(r);
    && rank(r) <= top && LeftBelow(g, def.autoWhitespace, def.body, rank, top, rank(r))
    && forall d: nat :: Advancing(g, d, def.autoWhitespace, def.body)
  }

  /** No rule can come back to itself without consuming text, and every repeated body in
      a rule advances. */
  ghost predicate Sound(g: Grammar, rank: nat -> nat, top: nat) {
    Forward(g) && forall r: nat :: SoundRule(g, rank, top, r)
  }

  lemma SkipForward(g: Grammar, auto: bool, p: nat)
    requires Forward(g) && p <= g.ubound
    ensures p <= Skip(g, auto, p) <= g.ubound
  {
  }

  /** (top + 1) * k */
  function Room(top: nat, k: nat): nat {
    if k == 0 then 0 else Room(top, k - 1) + top + 1
  }

  /** The depth of rule calls that is needed at a position. */
  function Depth(g: Grammar, top: nat, pos: nat, n: nat): nat
    requires pos <= g.ubound
  {
    Room(top, g.ubound - pos) + n
  }

  lemma {:induction false} RoomMore(top: nat, j: nat, k: nat)
    requires j <= k
    ensures Room(top, j) <= Room(top, k) && (j < k ==> Room(top, j) + top + 1 <= Room(top, k))
    decreases k
  {
    if j < k { RoomMore(top, j, k - 1); }
  }

  lemma DepthLater(g: Grammar, top: nat, pos: nat, n: nat, later: nat)
    requires pos <= later <= g.ubound
    ensures Depth(g, top, later, n) <= Depth(g, top, pos, n)
    ensures pos < later ==> Depth(g, top, later, top + 1) <= Depth(g, top, pos, n)
  {
    RoomMore(top, g.ubound - later, g.ubound - pos);
  }

  /** Parsing ends, within the text, when every repeated body advances, no rule comes
      back to itself without consuming text, and the C stack has room for a number of
      nested rule calls that is linear in the rest of the text. */
  lemma {:induction false} ParsingEnds(g: Grammar, rank: nat -> nat, top: nat, depth: nat, auto: bool, e: Expr,
          n: nat, pos: nat)
    requires Sound(g, rank, top) && Advancing(g, depth, auto, e) && LeftBelow(g, auto, e, rank, top, n)
    requires pos <= g.ubound && depth >= Depth(g, top, pos, n)
    ensures var m := Means(g, depth, auto, e, pos); !m.Endless? && (m.Match? ==> pos <= m.end <= g.ubound)
    decreases depth, e, g.ubound + 2
  {
    match e
    case Rule(r) =>
      assert SoundRule(g, rank, top, r);
      var def := g.rules(r);
      ParsingEnds(g, rank, top, depth - 1, def.autoWhitespace, def.body, rank(r), pos);
    case Primitive(id) =>
    case Action(id) =>
    case Seq(a, b) => SequenceEnds(g, rank, top, depth, auto, e, n, pos);
    case Choose(a, b) =>
      ParsingEnds(g, rank, top, depth, auto, a, n, pos);
      ParsingEnds(g, rank, top, depth, auto, b, n, pos);
    case ZeroOrMore(a) => RepetitionEnds(g, rank, top, depth, auto, e, n, pos);
    case Optional(a) => ParsingEnds(g, rank, top, depth, auto, a, n, pos);
    case NegLookahead(a) => ParsingEnds(g, rank, top, depth, auto, a, n, pos);
  }

  lemma {:induction false} SequenceEnds(g: Grammar, rank: nat -> nat, top: nat, depth: nat, auto: bool, e: Expr,
          n: nat, pos: nat)
    requires e.Seq?
    requires Sound(g, rank, top) && Advancing(g, depth, auto, e) && LeftBelow(g, auto, e, rank, top, n)
    requires pos <= g.ubound && depth >= Depth(g, top, pos, n)
    ensures var m := Means(g, depth, auto, e, pos); !m.Endless? && (m.Match? ==> pos <= m.end <= g.ubound)
    decreases depth, e, 0
  {
    ParsingEnds(g, rank, top, depth, auto, e.first, n, pos);
    var r := Means(g, depth, auto, e.first, pos);
    if r.Match? {
      SkipForward(g, auto, r.end);
      var p := Skip(g, auto, r.end);
      DepthLater(g, top, pos, n, p);
      ParsingEnds(g, rank, top, depth, auto, e.second, if Consumes(g, auto, e.first) then top + 1 else n, p);
    }
  }

  lemma {:induction false} RepetitionEnds(g: Grammar, rank: nat -> nat, top: nat, depth: nat, auto: bool, e: Expr,
          n: nat, pos: nat)
    requires e.ZeroOrMore?
    requires Sound(g, rank, top) && Advancing(g, depth, auto, e) && LeftBelow(g, auto, e, rank, top, n)
    requires pos <= g.ubound && depth >= Depth(g, top, pos, n)
    ensures var m := Repeats(g, depth, auto, e, pos); m.Match? && pos <= m.end <= g.ubound
    decreases depth, e, g.ubound - pos + 1
  {
    ParsingEnds(g, rank, top, depth, auto, e.body, n, pos);
    var r := Means(g, depth, auto, e.body, pos);
    if r.Match? {
      SkipForward(g, auto, r.end);
      var p := Skip(g, auto, r.end);
      DepthLater(g, top, pos, n, p);
      RepetitionEnds(g, rank, top, depth, auto, e, n, p);
    }
  }
}
