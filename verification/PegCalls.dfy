/** What each macro matches and which calls it makes, one macro at a time and in its own
    terms. */
module PegCalls {
  import opened Bytes
  import opened Peg
  import opened PegTheorems

  // ------------------------------------------------------------------- matches

  /** After an element of a sequence whitespace is consumed where the rule says so, and
      nothing otherwise. */
  lemma SequenceMatches(g: Grammar, depth: nat, auto: bool, a: Expr, b: Expr, pos: nat)
    ensures match Means(g, depth, auto, a, pos)
            case Match(e) => Means(g, depth, auto, Seq(a, b), pos) ==
                             Means(g, depth, auto, b, if auto then g.skip(e) else e)
            case m => Means(g, depth, auto, Seq(a, b), pos) == m
  {
  }

  /** One round of a repetition. */
  lemma RoundMatches(g: Grammar, depth: nat, auto: bool, a: Expr, pos: nat)
    ensures match Means(g, depth, auto, a, pos)
            case Match(e) =>
              var p := if auto then g.skip(e) else e;
              Means(g, depth, auto, ZeroOrMore(a), pos) ==
              if pos < p <= g.ubound then Means(g, depth, auto, ZeroOrMore(a), p) else Endless
            case NoMatch => Means(g, depth, auto, ZeroOrMore(a), pos) == Match(pos)
            case Endless => Means(g, depth, auto, ZeroOrMore(a), pos) == Endless
  {
    var m := Means(g, depth, auto, a, pos);
    if m.Match? {
      var p := if auto then g.skip(m.end) else m.end;
      assert Means(g, depth, auto, ZeroOrMore(a), p) == Repeats(g, depth, auto, ZeroOrMore(a), p);
    }
  }

  /** Two tokens with whitespace between them are a sequence in a rule that consumes
      whitespace, and none in a rule that does not. */
  lemma TokensApart(g: Grammar, depth: nat, x: nat, y: nat, cursor: nat, pos: nat, b: nat, e: nat, c: nat, z: nat)
    requires g.primitive(x, pos) == Ok(b, e) && g.skip(e) > e
    requires g.primitive(y, e).Fail? && g.primitive(y, g.skip(e)) == Ok(c, z)
    ensures var s := Seq(Primitive(x), Primitive(y));
            && Means(g, depth, true, s, pos) == Match(z)
            && Means(g, depth, false, s, pos) == NoMatch
            && Run(g, depth, true, s, cursor, pos) == Some(Out(Ok(cursor, z), []))
            && Run(g, depth, false, s, cursor, pos) == Some(Out(g.primitive(y, e), []))
  {
    var none: seq<Event> := [];
    assert none + none == none;
    SequenceCalls(g, depth, true, Primitive(x), Primitive(y), cursor, pos, b, e, []);
    SequenceCalls(g, depth, false, Primitive(x), Primitive(y), cursor, pos, b, e, []);
  }

  /** Tokens next to each other are a sequence in either rule if there is no whitespace. */
  lemma TokensTogether(g: Grammar, depth: nat, auto: bool, x: nat, y: nat, pos: nat, b: nat, e: nat, c: nat, z: nat)
    requires g.primitive(x, pos) == Ok(b, e) && g.skip(e) == e && g.primitive(y, e) == Ok(c, z)
    ensures Means(g, depth, auto, Seq(Primitive(x), Primitive(y)), pos) == Match(z)
  {
  }

  // --------------------------------------------------------------------- calls

  /** SEQ2: the calls of the first element, then those of the second, which starts behind the
      whitespace; a match begins at the cursor of the rule. */
  lemma SequenceCalls(g: Grammar, depth: nat, auto: bool, a: Expr, b: Expr, cursor: nat, pos: nat, begin: nat, e: nat,
                      t: seq<Event>)
    requires Run(g, depth, auto, a, cursor, pos) == Some(Out(Ok(begin, e), t))
    ensures match Run(g, depth, auto, b, cursor, if auto then g.skip(e) else e)
            case None => Run(g, depth, auto, Seq(a, b), cursor, pos) == None
            case Some(Out(Ok(_, z), u)) =>
              Run(g, depth, auto, Seq(a, b), cursor, pos) == Some(Out(Ok(cursor, z), t + u))
            case Some(Out(f, u)) => Run(g, depth, auto, Seq(a, b), cursor, pos) == Some(Out(f, t + u))
  {
  }

  /** ACTION tells the user the text from the start of the rule to the position. */
  lemma ActionCalls(g: Grammar, depth: nat, auto: bool, id: nat, cursor: nat, pos: nat)
    ensures Run(g, depth, auto, Action(id), cursor, pos) == Some(Out(Ok(cursor, pos), [Did(id, cursor, pos)]))
  {
  }

  /** RULE starts at the position, which becomes its cursor, with its own whitespace. */
  lemma RuleCalls(g: Grammar, depth: nat, auto: bool, n: nat, cursor: nat, pos: nat)
    requires depth > 0
    ensures var d := g.rules(n);
            Run(g, depth, auto, Rule(n), cursor, pos) == Run(g, depth - 1, d.autoWhitespace, d.body, pos, pos)
  {
  }

  /** OPTIONAL: an element that does not match is discarded, and nothing is matched. */
  lemma OptionalCalls(g: Grammar, depth: nat, auto: bool, a: Expr, cursor: nat, pos: nat)
    ensures match Run(g, depth, auto, a, cursor, pos)
            case Some(Out(Fail(_, _), t)) =>
              Run(g, depth, auto, Optional(a), cursor, pos) == Some(Out(Ok(pos, pos), t + [Discard(pos)]))
            case o => Run(g, depth, auto, Optional(a), cursor, pos) == o
  {
  }

  /** NEG_LOOKAHEAD: what the element did is always discarded, nothing is matched, and an
      element that matches is the error. */
  lemma LookaheadCalls(g: Grammar, depth: nat, auto: bool, a: Expr, cursor: nat, pos: nat)
    ensures match Run(g, depth, auto, a, cursor, pos)
            case Some(Out(Fail(_, _), t)) =>
              Run(g, depth, auto, NegLookahead(a), cursor, pos) == Some(Out(Ok(pos, pos), t + [Discard(pos)]))
            case Some(Out(Ok(b, e), t)) => Run(g, depth, auto, NegLookahead(a), cursor, pos) ==
                                           Some(Out(Fail(pos, InvalidElement(b, e)), t + [Discard(pos)]))
            case None => Run(g, depth, auto, NegLookahead(a), cursor, pos) == None
  {
  }

  /** A round of a repetition: it starts at the position, makes these calls and ends at the
      next one. */
  datatype Round = Round(start: nat, calls: seq<Event>, next: nat)

  ghost predicate IsRound(g: Grammar, depth: nat, auto: bool, a: Expr, cursor: nat, r: Round) {
    && r.start < r.next <= g.ubound
    && exists b, e :: Run(g, depth, auto, a, cursor, r.start) == Some(Out(Ok(b, e), r.calls)) &&
                      r.next == if auto then g.skip(e) else e
  }

  /** Rounds of the body a that lead from start to end, each moving on. */
  ghost predicate Rounds(g: Grammar, depth: nat, auto: bool, a: Expr, cursor: nat, rs: seq<Round>, start: nat, end: nat)
  {
    if |rs| == 0 then start == end
    else
      && rs[0].start == start && IsRound(g, depth, auto, a, cursor, rs[0])
      && Rounds(g, depth, auto, a, cursor, rs[1..], rs[0].next, end)
  }

  function AllCalls(rs: seq<Round>): seq<Event> {
    if |rs| == 0 then [] else rs[0].calls + AllCalls(rs[1..])
  }

  /** A repetition that comes to an end begins with a body that fails or with one round. */
  lemma FirstRound(g: Grammar, depth: nat, auto: bool, a: Expr, cursor: nat, pos: nat) returns (r: Round)
    requires Run(g, depth, auto, ZeroOrMore(a), cursor, pos).Some?
    ensures var o := Run(g, depth, auto, a, cursor, pos);
            && o.Some?
            && (o.value.found.Fail? ==> Run(g, depth, auto, ZeroOrMore(a), cursor, pos) ==
                                        Some(Out(Ok(cursor, pos), o.value.trace + [Discard(pos)])))
            && (o.value.found.Ok? ==>
                  && IsRound(g, depth, auto, a, cursor, r) && r.start == pos
                  && Run(g, depth, auto, ZeroOrMore(a), cursor, pos) ==
                     Before(r.calls, Run(g, depth, auto, ZeroOrMore(a), cursor, r.next)))
  {
    var o := Run(g, depth, auto, a, cursor, pos).value;
    var p := if o.found.Ok? then if auto then g.skip(o.found.end) else o.found.end else pos;
    assert Run(g, depth, auto, ZeroOrMore(a), cursor, p) == RunMany(g, depth, auto, ZeroOrMore(a), cursor, p);
    r := Round(pos, o.trace, p);
  }

  /** ZERO_OR_MORE: a repetition that comes to an end has made rounds up to a position where
      the body fails; its calls are those of the rounds in order, those of the body that
      failed, and one discard at that position. */
  lemma {:induction false} RepetitionCalls(g: Grammar, depth: nat, auto: bool, a: Expr, cursor: nat, pos: nat)
    returns (rs: seq<Round>, end: nat)
    requires Run(g, depth, auto, ZeroOrMore(a), cursor, pos).Some?
    ensures Rounds(g, depth, auto, a, cursor, rs, pos, end)
    ensures var o := Run(g, depth, auto, a, cursor, end);
            && o.Some? && o.value.found.Fail?
            && Run(g, depth, auto, ZeroOrMore(a), cursor, pos) ==
               Some(Out(Ok(cursor, end), AllCalls(rs) + o.value.trace + [Discard(end)]))
    decreases if pos <= g.ubound then g.ubound - pos + 1 else 0
  {
    hide Run, IsRound;
    var r := FirstRound(g, depth, auto, a, cursor, pos);
    var o := Run(g, depth, auto, a, cursor, pos).value;
    if o.found.Fail? {
      rs, end := [], pos;
      assert [] + o.trace == o.trace;
    } else {
      Moves(g, depth, auto, a, cursor, r);
      var more;
      more, end := RepetitionCalls(g, depth, auto, a, cursor, r.next);
      rs := [r] + more;
      assert rs[1..] == more;
      var t := Run(g, depth, auto, a, cursor, end).value.trace;
      assert r.calls + (AllCalls(more) + t + [Discard(end)]) == AllCalls(rs) + t + [Discard(end)];
    }
  }

  lemma Moves(g: Grammar, depth: nat, auto: bool, a: Expr, cursor: nat, r: Round)
    requires IsRound(g, depth, auto, a, cursor, r)
    ensures r.start < r.next <= g.ubound
  {
  }
}
