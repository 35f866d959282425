/** survival_kit/inheritance_table.c: parents of densely numbered identifiers, and the
    loop that decides which sCATCH clause matches. */
module Inheritance {

  /** Parent indices, each within the table. */
  predicate InTable(t: seq<int>) {
    forall i :: 0 <= i < |t| ==> 0 <= t[i] < |t|
  }

  /** Every step to a parent lowers the rank, except at a root. */
  predicate Ranked(t: seq<int>, rank: seq<nat>) {
    && InTable(t) && |rank| == |t|
    && forall i :: 0 <= i < |t| ==> t[i] == i || rank[t[i]] < rank[i]
  }

  /** The n-th ancestor. */
  function Up(t: seq<int>, x: int, n: nat): (y: int)
    requires InTable(t) && 0 <= x < |t|
    ensures 0 <= y < |t|
    decreases n
  {
    if n == 0 then x else Up(t, t[x], n - 1)
  }

  /** x is an a. */
  ghost predicate Ancestor(t: seq<int>, x: int, a: int)
    requires InTable(t) && 0 <= x < |t|
  {
    exists n: nat :: Up(t, x, n) == a
  }

  lemma AncestorStep(t: seq<int>, x: int, a: int)
    requires InTable(t) && 0 <= x < |t|
    ensures Ancestor(t, x, a) <==> x == a || Ancestor(t, t[x], a)
  {
    if Ancestor(t, x, a) {
      var n: nat :| Up(t, x, n) == a;
      if n > 0 { assert Up(t, t[x], n - 1) == a; }
    }
    if x == a { assert Up(t, x, 0) == a; }
    if Ancestor(t, t[x], a) {
      var n: nat :| Up(t, t[x], n) == a;
      assert Up(t, x, n + 1) == a;
    }
  }

  lemma {:induction false} RootAlone(t: seq<int>, x: int, n: nat)
    requires InTable(t) && 0 <= x < |t| && t[x] == x
    ensures Up(t, x, n) == x
    decreases n
  {
    if n > 0 { RootAlone(t, x, n - 1); }
  }

  lemma RootAncestor(t: seq<int>, x: int, a: int)
    requires InTable(t) && 0 <= x < |t| && t[x] == x
    ensures Ancestor(t, x, a) <==> x == a
  {
    if Ancestor(t, x, a) {
      var n: nat :| Up(t, x, n) == a;
      RootAlone(t, x, n);
    }
    if x == a { assert Up(t, x, 0) == a; }
  }

  // --------------------------------------------------------------- the is-a loop

  /** What the loop of skit_is_a answers from the given values of parent_index and
      last_parent. */
  function Climb(t: seq<int>, rank: seq<nat>, parent: int, last: int, child: int): bool
    requires Ranked(t, rank) && 0 <= parent < |t|
    decreases rank[parent], if last == parent then 0 else 1
  {
    if child == parent then true
    else if last == parent then false
    else Climb(t, rank, t[parent], parent, child)
  }

  lemma {:induction false} ClimbDecides(t: seq<int>, rank: seq<nat>, parent: int, last: int, child: int)
    requires Ranked(t, rank) && 0 <= parent < |t| && (last == parent ==> t[parent] == parent)
    ensures Climb(t, rank, parent, last, child) <==> Ancestor(t, parent, child)
    decreases rank[parent], if last == parent then 0 else 1
  {
    AncestorStep(t, parent, child);
    if child == parent {
    } else if last == parent {
      RootAncestor(t, parent, child);
    } else {
      ClimbDecides(t, rank, t[parent], parent, child);
    }
  }

  /** skit_is_a starts as if index 0 had been passed already.  It decides the ancestor
      relation of a table exactly when index 0 is a root. */
  lemma IsADecides(t: seq<int>, rank: seq<nat>)
    requires Ranked(t, rank) && |t| > 0
    ensures (forall x, a :: 0 <= x < |t| ==> (Climb(t, rank, x, 0, a) <==> Ancestor(t, x, a))) <==> t[0] == 0
  {
    if t[0] == 0 {
      forall x, a | 0 <= x < |t| ensures Climb(t, rank, x, 0, a) <==> Ancestor(t, x, a) {
        ClimbDecides(t, rank, x, 0, a);
      }
    } else {
      assert Up(t, 0, 1) == t[0];
      assert Ancestor(t, 0, t[0]) && !Climb(t, rank, 0, 0, t[0]);
    }
  }

  // ---------------------------------------------------------------- registration

  /** A variable that holds an identifier, known to the table by its address. */
  class Id {
    var value: int

    constructor (garbage: int)
      ensures value == garbage
    {
      value := garbage;
    }
  }

  /** Giving c the parent p makes no cycle when p is not below c. */
  lemma ReparentRanked(t: seq<int>, rank: seq<nat>, c: int, p: int) returns (rank': seq<nat>)
    requires Ranked(t, rank) && 0 <= c < |t| && 0 <= p < |t| && !Ancestor(t, p, c)
    ensures Ranked(t[c := p], rank')
  {
    var t' := t[c := p];
    rank' := seq(|t|, i requires 0 <= i < |t| => if Ancestor(t, i, c) then rank[i] + rank[p] + 1 else rank[i]);
    forall i | 0 <= i < |t'| ensures t'[i] == i || rank'[t'[i]] < rank'[i] {
      AncestorStep(t, i, c);
      if i == c { assert Up(t, c, 0) == c; }
    }
  }

  /** Making c a root makes no cycle. */
  lemma UprootRanked(t: seq<int>, rank: seq<nat>, c: int)
    requires Ranked(t, rank) && 0 <= c < |t|
    ensures Ranked(t[c := c], rank)
  {
  }

  /** A new identifier below p, or a new root when p is its own index. */
  lemma AppendRanked(t: seq<int>, rank: seq<nat>, p: int) returns (rank': seq<nat>)
    requires Ranked(t, rank) && 0 <= p <= |t|
    ensures Ranked(t + [p], rank')
  {
    rank' := rank + [if p < |t| then rank[p] + 1 else 0];
  }

  /** The table has no cycles other than its roots. */
  ghost predicate Forest(t: seq<int>) {
    exists rank :: Ranked(t, rank)
  }

  /** Along the old parents the new ranks do not rise until c is reached. */
  lemma {:induction false} RankFalls(t: seq<int>, c: int, p: int, rank: seq<nat>, x: int, n: nat)
    requires InTable(t) && 0 <= c < |t| && 0 <= p < |t| && Ranked(t[c := p], rank)
    requires 0 <= x < |t| && Up(t, x, n) == c
    ensures rank[c] <= rank[x]
    decreases n
  {
    if x != c {
      RankFalls(t, c, p, rank, t[x], n - 1);
      assert t[c := p][x] == t[x];
    }
  }

  /** Giving c another parent p keeps a forest if and only if p is not below c. */
  lemma ReparentForest(t: seq<int>, c: int, p: int)
    requires Forest(t) && InTable(t) && 0 <= c < |t| && 0 <= p < |t| && p != c
    ensures Forest(t[c := p]) <==> !Ancestor(t, p, c)
  {
    if Ancestor(t, p, c) {
      var n: nat :| Up(t, p, n) == c;
      assert t[c := p][c] == p;
      if Forest(t[c := p]) {
        var rank :| Ranked(t[c := p], rank);
        RankFalls(t, c, p, rank, p, n);
      }
    } else {
      var rank :| Ranked(t, rank);
      var rank' := ReparentRanked(t, rank, c, p);
    }
  }

  class Table {
    var table: seq<int>
    var initialized: seq<Id>

    ghost predicate Valid()
      reads this, initialized
    {
      && InTable(table) && |initialized| == |table|
      && forall i :: 0 <= i < |initialized| ==> initialized[i].value == i
    }

    /** skit_inheritance_table_ctor */
    constructor ()
      ensures Valid() && table == [] && Forest(table)
    {
      table, initialized := [], [];
      new;
      assert Ranked([], []);
    }

    /** skit_inher_id_is_initialized */
    predicate Known(id: Id)
      reads this, id
    {
      0 <= id.value < |initialized| && initialized[id.value] == id
    }

    lemma KnownIs(id: Id)
      requires Valid()
      ensures Known(id) <==> id in initialized
    {
    }

    /** A new entry at the end of the table. */
    method Append(child: Id, parent: Id)
      requires Valid() && !Known(child) && (parent == child || Known(parent))
      modifies this, child
      ensures Valid() && initialized == old(initialized) + [child]
      ensures table == old(table) + [parent.value] && (old(Forest(table)) ==> Forest(table))
    {
      KnownIs(child);
      child.value := |table|;
      if Forest(table) {
        ghost var rank :| Ranked(table, rank);
        ghost var rank' := AppendRanked(table, rank, parent.value);
      }
      table, initialized := table + [parent.value], initialized + [child];
    }

    /** What skit_register_parent_child_rel leaves: the parent is registered, as a root
        if it was not before; the child has that parent, and nothing else moves. */
    ghost predicate Registers(t0: seq<int>, ids0: seq<Id>, child: Id, parent: Id)
      reads this, child, parent
    {
      && Known(child) && Known(parent)
      && var ids1 := if parent == child || parent in ids0 then ids0 else ids0 + [parent];
         var t1 := if parent == child || parent in ids0 then t0 else t0 + [|t0|];
      && initialized == (if child in ids0 then ids1 else ids1 + [child])
      && (if child in ids0 then 0 <= child.value < |t1| && table == t1[child.value := parent.value]
          else table == t1 + [parent.value])
    }

    /** The child and the parent are registered, and the parent is below the child. */
    ghost predicate Loops(child: Id, parent: Id)
      requires Valid()
      reads this, initialized, child, parent
    {
      child != parent && Known(child) && Known(parent) && Ancestor(table, parent.value, child.value)
    }

    /** skit_register_parent_child_rel: a forest stays one exactly when the parent is not
        below the child. */
    method Register(child: Id, parent: Id)
      requires Valid()
      modifies this, child, parent
      ensures Valid() && Registers(old(table), old(initialized), child, parent)
      ensures child in initialized && parent in initialized && old(initialized) <= initialized
      ensures table[child.value] == parent.value
      ensures parent !in old(initialized) && parent != child ==> table[parent.value] == parent.value
      ensures forall i :: 0 <= i < old(|table|) && i != child.value ==> table[i] == old(table)[i]
      ensures old(Forest(table)) ==> (Forest(table) <==> !old(Loops(child, parent)))
    {
      KnownIs(child);
      KnownIs(parent);
      if child != parent && !Known(parent) {
        Append(parent, parent);
        KnownIs(child);
        KnownIs(parent);
        RootAncestor(table, parent.value, child.value);
      }
      if Known(child) {
        Assign(child, parent);
      } else {
        Append(child, parent);
      }
      KnownIs(child);
      KnownIs(parent);
    }

    method Assign(child: Id, parent: Id)
      requires Valid() && Known(child) && Known(parent)
      modifies this`table
      ensures Valid() && table == old(table)[child.value := parent.value]
      ensures old(Forest(table)) ==> (Forest(table) <==> !old(Loops(child, parent)))
    {
      if Forest(table) {
        if child == parent {
          ghost var rank :| Ranked(table, rank);
          UprootRanked(table, rank, child.value);
        } else {
          ReparentForest(table, child.value, parent.value);
        }
      }
      table := table[child.value := parent.value];
    }

    /** skit_is_a */
    method IsA(index1: int, index2: int) returns (r: bool)
      requires Valid() && Forest(table) && 0 <= index1 < |table|
      ensures exists rank :: Ranked(table, rank) && r == Climb(table, rank, index1, 0, index2)
      ensures table[0] == 0 ==> (r <==> Ancestor(table, index1, index2))
    {
      ghost var rank :| Ranked(table, rank);
      var child, parent, last := index2, index1, 0;
      if table[0] == 0 { ClimbDecides(table, rank, index1, 0, index2); }
      while child != parent && last != parent
        invariant 0 <= parent < |table|
        invariant Climb(table, rank, index1, 0, index2) == Climb(table, rank, parent, last, child)
        decreases rank[parent], if last == parent then 0 else 1
      {
        last := parent;
        parent := table[parent];
      }
      r := child == parent;
    }
  }
}
