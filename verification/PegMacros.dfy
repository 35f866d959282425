/** The macros themselves: they assign new_cursor and match, loop, restore stored
    cursors, write the error message of the parser and call its hooks. */
module PegMacros {
  import opened Bytes
  import opened Peg

  /** skit_peg_parse_match */
  datatype ParseMatch = ParseMatch(successful: bool, begin: nat, end: int)

  class Parser {
    const g: Grammar
    var lastError: Message
    /** The calls made to branch_discard and to the code in ACTION. */
    var trace: seq<Event>

    constructor (grammar: Grammar)
      ensures g == grammar && trace == []
    {
      g, lastError, trace := grammar, Given(0), [];
    }

    /** skit_peg_match_success */
    function Success(begin: nat, end: nat): ParseMatch {
      ParseMatch(true, begin, end)
    }

    /** skit_peg_match_failure */
    method Failure(position: nat, msg: Message) returns (m: ParseMatch)
      modifies this`lastError
      ensures m == ParseMatch(false, position, -1) && lastError == msg
    {
      lastError := msg;
      m := ParseMatch(false, position, -1);
    }

    /** SKIT_PEG__BRANCH_DISCARD */
    method BranchDiscard(pos: nat)
      modifies this`trace
      ensures trace == old(trace) + [Discard(pos)]
    {
      trace := trace + [Discard(pos)];
    }

    /** match and the error message of the parser are what f says. */
    ghost predicate Shows(m: ParseMatch, f: Found)
      reads this
    {
      match f
      case Ok(begin, end) => m == ParseMatch(true, begin, end)
      case Fail(at, msg) => m == ParseMatch(false, at, -1) && lastError == msg
    }

    /** The code came to an end exactly if o says so, with this match, and made these
        calls after those in t. */
    ghost predicate Gives(o: Option<Out>, ended: bool, m: ParseMatch, t: seq<Event>)
      reads this
    {
      match o
      case None => !ended
      case Some(r) => ended && trace == t + r.trace && Shows(m, r.found)
    }

    /** Any expression in a rule that was entered at cursor; new_cursor on entry is
        start.  The value of new_cursor on exit is returned but means nothing after a
        failure. */
    method Exec(depth: nat, auto: bool, e: Expr, cursor: nat, start: nat)
      returns (ended: bool, m: ParseMatch, newCursor: nat)
      modifies this`lastError, this`trace
      ensures Gives(Run(g, depth, auto, e, cursor, start), ended, m, old(trace))
      decreases depth, e, 3
    {
      newCursor := start;
      match e
      case Rule(n) => ended, m := CallRule(depth, n, start);
      case Primitive(id) =>
        ended := true;
        m := CallPrimitive(id, start);
      case Action(id) =>
        ended, m := true, Success(cursor, newCursor);
        trace := trace + [Did(id, cursor, newCursor)];
      case Seq(a, b) => ended, m, newCursor := ExecSeq(depth, auto, e, cursor, start);
      case Choose(a, b) => ended, m, newCursor := ExecChoose(depth, auto, e, cursor, start);
      case ZeroOrMore(a) => ended, m, newCursor := ExecMany(depth, auto, e, cursor, start);
      case Optional(a) => ended, m, newCursor := ExecOptional(depth, auto, e, cursor, start);
      case NegLookahead(a) => ended, m, newCursor := ExecNot(depth, auto, e, cursor, start);
    }

    /** SKIT_PEG_RULE: a C function with variables of its own. */
    method CallRule(depth: nat, n: nat, pos: nat) returns (ended: bool, m: ParseMatch)
      modifies this`lastError, this`trace
      ensures Gives(Run(g, depth, true, Rule(n), pos, pos), ended, m, old(trace))
      decreases depth, Rule(n), 0
    {
      if depth == 0 {
        ended, m := false, Success(pos, pos);
      } else {
        var newCursor;
        ended, m, newCursor := Exec(depth - 1, g.rules(n).autoWhitespace, g.rules(n).body, pos, pos);
      }
    }

    /** A rule written without the macros. */
    method CallPrimitive(id: nat, pos: nat) returns (m: ParseMatch)
      modifies this`lastError
      ensures Shows(m, g.primitive(id, pos))
    {
      match g.primitive(id, pos)
      case Ok(begin, end) => m := Success(begin, end);
      case Fail(at, msg) => m := Failure(at, msg);
    }

    /** if ( auto_consume_whitespace && parser->parse_whitespace != NULL ) ... */
    function SkipWhitespace(auto: bool, newCursor: nat): nat {
      if auto then g.skip(newCursor) else newCursor
    }

    /** SKIT_PEG_SEQ2 */
    method ExecSeq(depth: nat, auto: bool, e: Expr, cursor: nat, start: nat)
      returns (ended: bool, m: ParseMatch, newCursor: nat)
      requires e.Seq?
      modifies this`lastError, this`trace
      ensures Gives(Run(g, depth, auto, e, cursor, start), ended, m, old(trace))
      decreases depth, e, 0
    {
      ghost var r := Run(g, depth, auto, e.first, cursor, start);
      assert Run(g, depth, auto, e, cursor, start) ==
             Then(g, auto, r, cursor, (p: nat) => Run(g, depth, auto, e.second, cursor, p));
      ended, m, newCursor := Exec(depth, auto, e.first, cursor, start);
      if !ended || !m.successful { return; }
      newCursor := SkipWhitespace(auto, m.end as nat);
      ghost var t := trace;
      ended, m, newCursor := Exec(depth, auto, e.second, cursor, newCursor);
      if !ended || !m.successful { return; }
      newCursor := m.end as nat;
      m := Success(cursor, newCursor);
    }

    /** SKIT_PEG_CHOOSE2 */
    method ExecChoose(depth: nat, auto: bool, e: Expr, cursor: nat, start: nat)
      returns (ended: bool, m: ParseMatch, newCursor: nat)
      requires e.Choose?
      modifies this`lastError, this`trace
      ensures Gives(Run(g, depth, auto, e, cursor, start), ended, m, old(trace))
      decreases depth, e, 0
    {
      ghost var r, s := Run(g, depth, auto, e.first, cursor, start), Run(g, depth, auto, e.second, cursor, start);
      assert Run(g, depth, auto, e, cursor, start) == Else(r, start, s);
      var storedCursor := start;
      ended, m, newCursor := Exec(depth, auto, e.first, cursor, start);
      if !ended { return; }
      if m.successful {
        newCursor := m.end as nat;
        return;
      }
      var prevMatch, prevError := m, lastError;
      newCursor := storedCursor;
      BranchDiscard(newCursor);
      ended, m, newCursor := Exec(depth, auto, e.second, cursor, newCursor);
      if !ended { return; }
      if m.successful {
        newCursor := m.end as nat;
        return;
      }
      if prevMatch.begin > m.begin {
        lastError := prevError;
        m := prevMatch;
      }
      newCursor := storedCursor;
    }

    /** SKIT_PEG_OPTIONAL1 */
    method ExecOptional(depth: nat, auto: bool, e: Expr, cursor: nat, start: nat)
      returns (ended: bool, m: ParseMatch, newCursor: nat)
      requires e.Optional?
      modifies this`lastError, this`trace
      ensures Gives(Run(g, depth, auto, e, cursor, start), ended, m, old(trace))
      decreases depth, e, 0
    {
      var storedCursor := start;
      ended, m, newCursor := Exec(depth, auto, e.body, cursor, start);
      if !ended { return; }
      if m.successful {
        newCursor := m.end as nat;
      } else {
        newCursor := storedCursor;
        BranchDiscard(newCursor);
        m := Success(newCursor, newCursor);
      }
    }

    /** SKIT_PEG_NEG_LOOKAHEAD */
    method ExecNot(depth: nat, auto: bool, e: Expr, cursor: nat, start: nat)
      returns (ended: bool, m: ParseMatch, newCursor: nat)
      requires e.NegLookahead?
      modifies this`lastError, this`trace
      ensures Gives(Run(g, depth, auto, e, cursor, start), ended, m, old(trace))
      decreases depth, e, 0
    {
      var storedCursor := start;
      ended, m, newCursor := Exec(depth, auto, e.body, cursor, start);
      if !ended { return; }
      newCursor := storedCursor;
      BranchDiscard(newCursor);
      if m.successful {
        m := Failure(newCursor, InvalidElement(m.begin, m.end as nat));
      } else {
        m := Success(newCursor, newCursor);
      }
    }

    /** One round of the loop in SKIT_PEG_ZERO_OR_MORE1: again tells that the body matched
        and that the next round starts at next. */
    method Repeat(depth: nat, auto: bool, e: Expr, cursor: nat, pos: nat)
      returns (ended: bool, again: bool, next: nat, ghost t: seq<Event>, ghost o: Option<Out>)
      requires e.ZeroOrMore?
      modifies this`lastError, this`trace
      ensures !ended ==> RunMany(g, depth, auto, e, cursor, pos) == None
      ensures ended ==> trace == old(trace) + t
      ensures ended && again ==>
                pos < next <= g.ubound &&
                o == RunMany(g, depth, auto, e, cursor, next) && RunMany(g, depth, auto, e, cursor, pos) == Before(t, o)
      ensures ended && !again ==>
                RunMany(g, depth, auto, e, cursor, pos) == Some(Out(Ok(cursor, pos), t + [Discard(pos)]))
      decreases depth, e, 0
    {
      ghost var r := Run(g, depth, auto, e.body, cursor, pos);
      var m;
      ended, m, next := Exec(depth, auto, e.body, cursor, pos);
      again := false;
      t := if r.Some? then r.value.trace else [];
      if ended && m.successful {
        again := true;
        next := SkipWhitespace(auto, m.end as nat);
        if !(pos < next <= g.ubound) {
          ended := false;
        }
      }
      o := if pos < next <= g.ubound then RunMany(g, depth, auto, e, cursor, next) else None;
    }

    /** The loop of SKIT_PEG_ZERO_OR_MORE1.  A body that matches without moving on would
        be repeated for ever; here the loop is left with the answer that it has no end. */
    method RepeatAll(depth: nat, auto: bool, e: Expr, cursor: nat, start: nat)
      returns (ended: bool, storedCursor: nat, ghost sofar: seq<Event>)
      requires e.ZeroOrMore?
      modifies this`lastError, this`trace
      ensures ended ==> trace == old(trace) + sofar
      ensures Along(RunMany(g, depth, auto, e, cursor, start), sofar, None, cursor, storedCursor, ended, false)
      decreases depth, e, 1
    {
      ghost var all := RunMany(g, depth, auto, e, cursor, start);
      ghost var o := all;
      storedCursor, sofar := start, [];
      BeforeNothing(all);
      ended := true;
      var again := true;
      while again && ended
        invariant ended ==> trace == old(trace) + sofar
        invariant ended && again ==> o == RunMany(g, depth, auto, e, cursor, storedCursor)
        invariant Along(all, sofar, o, cursor, storedCursor, ended, again)
        decreases ended && again, if storedCursor <= g.ubound then g.ubound - storedCursor + 1 else 0
      {
        ghost var t;
        ghost var o';
        var next;
        ended, again, next, t, o' := Repeat(depth, auto, e, cursor, storedCursor);
        Along1(all, sofar, o, o', cursor, storedCursor, next, ended, again, t);
        sofar := sofar + t;
        if ended && again {
          storedCursor, o := next, o';
        }
      }
    }

    /** SKIT_PEG_ZERO_OR_MORE1 */
    method ExecMany(depth: nat, auto: bool, e: Expr, cursor: nat, start: nat)
      returns (ended: bool, m: ParseMatch, newCursor: nat)
      requires e.ZeroOrMore?
      modifies this`lastError, this`trace
      ensures Gives(RunMany(g, depth, auto, e, cursor, start), ended, m, old(trace))
      decreases depth, e, 2
    {
      var storedCursor;
      ghost var sofar;
      ended, storedCursor, sofar := RepeatAll(depth, auto, e, cursor, start);
      newCursor := storedCursor;
      m := Success(cursor, newCursor);
      if ended {
        BranchDiscard(newCursor);
      }
    }
  }

  /** In the loop of ZERO_OR_MORE: what the whole loop gives, after the calls sofar, when
      o is what the rest of it gives from position pos. */
  ghost predicate Along(all: Option<Out>, sofar: seq<Event>, o: Option<Out>, cursor: nat, pos: nat, ended: bool,
      again: bool) {
    if !ended then all == None
    else if again then all == Before(sofar, o)
    else all == Some(Out(Ok(cursor, pos), sofar + [Discard(pos)]))
  }

  lemma Along1(all: Option<Out>, sofar: seq<Event>, o: Option<Out>, o': Option<Out>, cursor: nat, pos: nat, next: nat,
               ended: bool, again: bool, t: seq<Event>)
    requires Along(all, sofar, o, cursor, pos, true, true)
    requires !ended ==> o == None
    requires ended && again ==> o == Before(t, o')
    requires ended && !again ==> o == Some(Out(Ok(cursor, pos), t + [Discard(pos)]))
    ensures Along(all, sofar + t, if ended && again then o' else o, cursor, if ended && again then next else pos,
        ended, again)
  {
    BeforeTwice(sofar, t, o');
    assert sofar + (t + [Discard(pos)]) == sofar + t + [Discard(pos)];
  }

  lemma BeforeNothing(o: Option<Out>)
    ensures Before([], o) == o
  {
    if o.Some? { assert [] + o.value.trace == o.value.trace; }
  }

  lemma BeforeTwice(s: seq<Event>, t: seq<Event>, o: Option<Out>)
    ensures Before(s, Before(t, o)) == Before(s + t, o)
  {
    if o.Some? { assert s + (t + o.value.trace) == s + t + o.value.trace; }
  }
}
