/** Parsing expressions and what the macros of survival_kit/parsing/peg_macros.h do with
    them: which text they match, which callbacks they make and what error they report. */
module Peg {
  import opened Bytes

  /** A grammar written with the macros. */
  datatype Expr =
    | Rule(name: nat)
    | Primitive(id: nat)
    | Action(id: nat)
    | Seq(first: Expr, second: Expr)
    | Choose(first: Expr, second: Expr)
    | ZeroOrMore(body: Expr)
    | Optional(body: Expr)
    | NegLookahead(body: Expr)

  /** SKIT_PEG_ONE_OR_MORE1 */
  function OneOrMore(a: Expr): Expr {
    Seq(a, ZeroOrMore(a))
  }

  /** The text of an error message. */
  datatype Message = Given(text: int) | InvalidElement(begin: nat, end: nat)

  /** skit_peg_parse_match, with the error message that goes with a failure. */
  datatype Found = Ok(begin: nat, end: nat) | Fail(at: nat, msg: Message)

  /** Calls back into the code of the user. */
  datatype Event = Discard(pos: nat) | Did(id: nat, begin: nat, end: nat)

  datatype Definition = Definition(body: Expr, autoWhitespace: bool)

  /** The rules; the rules written without the macros, as functions of the position;
      parse_whitespace, and the length of the text. */
  datatype Grammar = Grammar(rules: nat -> Definition, primitive: (nat, nat) -> Found, skip: nat -> nat, ubound: nat)

  /** Hand-written rules and the whitespace parser move forward within the text. */
  ghost predicate Forward(g: Grammar) {
    && (forall p: nat :: p <= g.ubound ==> p <= g.skip(p) <= g.ubound)
    && (forall id: nat, p: nat :: p <= g.ubound && g.primitive(id, p).Ok? ==> p <= g.primitive(id, p).end <= g.ubound)
  }

  /** The position after a matched element of a sequence. */
  function Skip(g: Grammar, auto: bool, pos: nat): nat {
    if auto then g.skip(pos) else pos
  }

  // ----------------------------------------------- parsing expression grammars

  /** What an expression matches at a position: up to where, not at all, or without an
      end (a body that matches without moving on is repeated, or the rules call each
      other deeper than the C stack allows). */
  datatype Meaning = Match(end: nat) | NoMatch | Endless

  function Means(g: Grammar, depth: nat, auto: bool, e: Expr, pos: nat): Meaning
    decreases depth, e, g.ubound + 2
  {
    match e
    case Rule(n) =>
      if depth == 0 then Endless
      else Means(g, depth - 1, g.rules(n).autoWhitespace, g.rules(n).body, pos)
    case Primitive(id) => if g.primitive(id, pos).Ok? then Match(g.primitive(id, pos).end) else NoMatch
    case Action(_) => Match(pos)
    case Seq(a, b) =>
      var r := Means(g, depth, auto, a, pos);
      if r.Match? then Means(g, depth, auto, b, Skip(g, auto, r.end)) else r
    case Choose(a, b) =>
      var r := Means(g, depth, auto, a, pos);
      if r.NoMatch? then Means(g, depth, auto, b, pos) else r
    case ZeroOrMore(_) => Repeats(g, depth, auto, e, pos)
    case Optional(a) =>
      var r := Means(g, depth, auto, a, pos);
      if r.NoMatch? then Match(pos) else r
    case NegLookahead(a) =>
      var r := Means(g, depth, auto, a, pos);
      if r.Endless? then r else if r.Match? then NoMatch else Match(pos)
  }

  /** As many repetitions as match, greedily. */
  function Repeats(g: Grammar, depth: nat, auto: bool, e: Expr, pos: nat): Meaning
    requires e.ZeroOrMore?
    decreases depth, e, if pos <= g.ubound then g.ubound - pos + 1 else 0
  {
    var r := Means(g, depth, auto, e.body, pos);
    if r.NoMatch? then Match(pos)
    else if r.Endless? then r
    else
      var p := Skip(g, auto, r.end);
      if pos < p <= g.ubound then Repeats(g, depth, auto, e, p) else Endless
  }

  // ----------------------------------------------------- what the macros produce

  datatype Out = Out(found: Found, trace: seq<Event>)

  function Before(t: seq<Event>, o: Option<Out>): Option<Out> {
    if o.Some? then Some(Out(o.value.found, t + o.value.trace)) else None
  }

  /** The failure that reached farther into the text; of two equally far, the later. */
  function Farther(f: Found, later: Found): Found
    requires f.Fail? && later.Fail?
  {
    if f.at > later.at then f else later
  }

  /** What an expression of a rule that was entered at cursor finds at a position, and
      the calls it makes; None when it does not come to an end. */
  function Run(g: Grammar, depth: nat, auto: bool, e: Expr, cursor: nat, pos: nat): Option<Out>
    decreases depth, e, g.ubound + 2
  {
    match e
    case Rule(n) =>
      if depth == 0 then None
      else Run(g, depth - 1, g.rules(n).autoWhitespace, g.rules(n).body, pos, pos)
    case Primitive(id) => Some(Out(g.primitive(id, pos), []))
    case Action(id) => Some(Out(Ok(cursor, pos), [Did(id, cursor, pos)]))
    case Seq(a, b) => Then(g, auto, Run(g, depth, auto, a, cursor, pos), cursor,
                           (p: nat) => Run(g, depth, auto, b, cursor, p))
    case Choose(a, b) => Else(Run(g, depth, auto, a, cursor, pos), pos, Run(g, depth, auto, b, cursor, pos))
    case ZeroOrMore(_) => RunMany(g, depth, auto, e, cursor, pos)
    case Optional(a) =>
      var r := Run(g, depth, auto, a, cursor, pos);
      if r.None? || r.value.found.Ok? then r else Some(Out(Ok(pos, pos), r.value.trace + [Discard(pos)]))
    case NegLookahead(a) =>
      var r := Run(g, depth, auto, a, cursor, pos);
      if r.None? then None
      else
        var f := if r.value.found.Ok? then Fail(pos, InvalidElement(r.value.found.begin,
            r.value.found.end)) else Ok(pos, pos);
        Some(Out(f, r.value.trace + [Discard(pos)]))
  }

  /** SEQ2 once its first element is done. */
  function Then(g: Grammar, auto: bool, r: Option<Out>, cursor: nat, rest: nat -> Option<Out>): Option<Out> {
    if r.None? || r.value.found.Fail? then r
    else
      var s := rest(Skip(g, auto, r.value.found.end));
      if s.Some? && s.value.found.Ok? then Some(Out(Ok(cursor, s.value.found.end), r.value.trace + s.value.trace))
      else Before(r.value.trace, s)
  }

  /** CHOOSE2 of two alternatives with the given outcomes. */
  function Else(r: Option<Out>, pos: nat, s: Option<Out>): Option<Out> {
    if r.None? || r.value.found.Ok? then r
    else if s.None? then None
    else
      var t := r.value.trace + [Discard(pos)] + s.value.trace;
      if s.value.found.Ok? then Some(Out(s.value.found, t)) else Some(Out(Farther(r.value.found, s.value.found), t))
  }

  function RunMany(g: Grammar, depth: nat, auto: bool, e: Expr, cursor: nat, pos: nat): Option<Out>
    requires e.ZeroOrMore?
    decreases depth, e, if pos <= g.ubound then g.ubound - pos + 1 else 0
  {
    var r := Run(g, depth, auto, e.body, cursor, pos);
    if r.None? then None
    else if r.value.found.Fail? then Some(Out(Ok(cursor, pos), r.value.trace + [Discard(pos)]))
    else
      var p := Skip(g, auto, r.value.found.end);
      if pos < p <= g.ubound then Before(r.value.trace, RunMany(g, depth, auto, e, cursor, p)) else None
  }
}
