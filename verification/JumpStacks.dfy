/** survival_kit/setjmp/jmp_fstack.h: the jump stacks are free-stacks whose nodes hold jump
    points, and a pointer to a node stays good after the node was popped. */
module JumpStacks {
  import F = FreeStack
  import opened JumpMachine

  /** The values that the nodes hold, top first. */
  ghost function Values<T>(ns: seq<F.Node<T>>): Stack<T>
    reads ns
  {
    if |ns| == 0 then Empty else Push(ns[0].val, Values(ns[1..]))
  }

  lemma {:induction false} ValuesHeight<T>(ns: seq<F.Node<T>>)
    ensures Height(Values(ns)) == |ns|
    decreases |ns|
  {
    if |ns| > 0 { ValuesHeight(ns[1..]); }
  }

  /** How many nodes stand below a node in the order of all nodes, used or not.  New nodes
      come first in that order, so the number never changes. */
  function Below<T>(all: seq<F.Node<T>>, n: F.Node?<T>): nat {
    if |all| == 0 then 0 else if all[0] == n then |all| - 1 else Below(all[1..], n)
  }

  lemma {:induction false} BelowAt<T>(all: seq<F.Node<T>>, i: nat)
    requires i < |all| && F.Distinct(all)
    ensures Below(all, all[i]) == |all| - 1 - i
    decreases i
  {
    if i > 0 {
      assert all[1..][i - 1] == all[i];
      BelowAt(all[1..], i - 1);
    }
  }

  lemma AllDistinct<T>(unused: seq<F.Node<T>>, used: seq<F.Node<T>>)
    requires F.Distinct(unused) && F.Distinct(used)
    requires forall i, j :: 0 <= i < |unused| && 0 <= j < |used| ==> unused[i] != used[j]
    ensures F.Distinct(F.Rev(unused) + used)
  {
  }

  lemma TopBelow<T>(unused: seq<F.Node<T>>, used: seq<F.Node<T>>)
    requires F.Distinct(unused) && F.Distinct(used) && |used| > 0
    requires forall i, j :: 0 <= i < |unused| && 0 <= j < |used| ==> unused[i] != used[j]
    ensures var all := F.Rev(unused) + used; used[0] in all && Below(all, used[0]) == |used| - 1
  {
    AllDistinct(unused, used);
    var all := F.Rev(unused) + used;
    assert all[|unused|] == used[0];
    BelowAt(all, |unused|);
  }

  twostate lemma {:induction false} ValuesPut<T>(ns: seq<F.Node<T>>, new i: nat, new x: T)
    requires F.Distinct(ns) && i < |ns| && ns[i].val == x
    requires forall j :: 0 <= j < |ns| && j != i ==> ns[j].val == old(ns[j].val)
    ensures Values(ns) == Put(old(Values(ns)), |ns| - 1 - i, x)
    decreases |ns|
  {
    HeightThen(ns);
    if i == 0 {
      ValuesSame(ns[1..]);
    } else {
      assert forall j :: 0 <= j < |ns| - 1 ==> ns[1..][j] == ns[j + 1];
      ValuesPut(ns[1..], i - 1, x);
    }
  }

  twostate lemma {:induction false} HeightThen<T>(ns: seq<F.Node<T>>)
    ensures Height(old(Values(ns))) == |ns|
    decreases |ns|
  {
    if |ns| > 0 { HeightThen(ns[1..]); }
  }

  twostate lemma {:induction false} ValuesSame<T>(ns: seq<F.Node<T>>)
    requires forall j :: 0 <= j < |ns| ==> ns[j].val == old(ns[j].val)
    ensures Values(ns) == old(Values(ns))
    decreases |ns|
  {
    if |ns| > 0 { ValuesSame(ns[1..]); }
  }

  lemma {:induction false} PutHigh<T>(s: Stack<T>, n: nat, x: T)
    requires Height(s) <= n
    ensures Put(s, n, x) == s
    decreases s
  {
    if s.Push? { PutHigh(s.below, n, x); }
  }

  /** A node has been overwritten, wherever it is. */
  twostate lemma Written<T>(new us: seq<F.Node<T>>, ns: seq<F.Node<T>>, new node: F.Node<T>, new x: T)
    requires F.Distinct(us) && F.Distinct(ns) && node in F.Rev(us) + ns && node.val == x
    requires forall i, j :: 0 <= i < |us| && 0 <= j < |ns| ==> us[i] != ns[j]
    requires forall n :: n in ns && n != node ==> n.val == old(n.val)
    ensures Values(ns) == Put(old(Values(ns)), Below(F.Rev(us) + ns, node), x)
  {
    if node in ns {
      WrittenUsed(us, ns, node, x);
    } else {
      ValuesSame(ns);
      HeightThen(ns);
      FreeIsHigh(us, ns, node);
      PutHigh(old(Values(ns)), Below(F.Rev(us) + ns, node), x);
    }
  }

  lemma FreeIsHigh<T>(us: seq<F.Node<T>>, ns: seq<F.Node<T>>, node: F.Node<T>)
    requires F.Distinct(us) && F.Distinct(ns) && node in F.Rev(us) + ns && node !in ns
    requires forall i, j :: 0 <= i < |us| && 0 <= j < |ns| ==> us[i] != ns[j]
    ensures Below(F.Rev(us) + ns, node) >= |ns|
  {
    var all := F.Rev(us) + ns;
    AllDistinct(us, ns);
    var i :| 0 <= i < |all| && all[i] == node;
    assert forall j :: 0 <= j < |ns| ==> all[|us| + j] == ns[j];
    BelowAt(all, i);
  }

  twostate lemma WrittenUsed<T>(new us: seq<F.Node<T>>, ns: seq<F.Node<T>>, new node: F.Node<T>, new x: T)
    requires F.Distinct(us) && F.Distinct(ns) && node in ns && node.val == x
    requires forall i, j :: 0 <= i < |us| && 0 <= j < |ns| ==> us[i] != ns[j]
    requires forall n :: n in ns && n != node ==> n.val == old(n.val)
    ensures Values(ns) == Put(old(Values(ns)), Below(F.Rev(us) + ns, node), x)
  {
    var i :| 0 <= i < |ns| && ns[i] == node;
    AllDistinct(us, ns);
    assert (F.Rev(us) + ns)[|us| + i] == node;
    BelowAt(F.Rev(us) + ns, |us| + i);
    ValuesPut(ns, i, x);
  }

  class JmpFStack<T> {
    const st: F.FStack<T>
    ghost var Repr: set<object>

    ghost predicate Valid()
      reads this, Repr
    {
      && {this, st, st.unused, st.used} <= Repr
      && (forall n :: n in st.unused.nodes ==> n in Repr) && (forall n :: n in st.used.nodes ==> n in Repr)
      && st.Valid()
    }

    ghost function Slots(): Stack<T>
      requires Valid()
      reads this, Repr
    {
      Values(st.used.nodes)
    }

    /** All nodes, the used ones last. */
    ghost function All(): seq<F.Node<T>>
      requires Valid()
      reads this, Repr
    {
      st.All()
    }

    /** A stack that nothing touched. */
    twostate lemma Same()
      requires old(Valid()) && unchanged(this) && unchanged(old(Repr))
      ensures Valid() && Slots() == old(Slots()) && All() == old(All())
    {
      assert forall n :: n in st.unused.nodes ==> unchanged(n);
      assert forall n :: n in st.used.nodes ==> unchanged(n);
      ValuesSame(st.used.nodes);
    }

    /** fstack_ctor */
    constructor ()
      ensures Valid() && fresh(Repr) && Slots() == Empty && All() == []
    {
      st := new F.FStack<T>();
      new;
      Repr := {this, st, st.unused, st.used};
    }

    /** stack.used.length */
    function Length(): (n: nat)
      requires Valid()
      reads this, Repr
      ensures n == Height(Slots())
    {
      ValuesHeight(st.used.nodes);
      st.used.length
    }

    /** skit_jmp_fstack_alloc; junk is what new memory holds. */
    method Alloc(junk: T) returns (node: F.Node<T>)
      requires Valid()
      modifies Repr
      ensures Valid() && fresh(Repr - old(Repr)) && old(Repr) <= Repr && node in Repr
      ensures st.used.nodes == [node] + old(st.used.nodes)
      ensures Values(st.used.nodes[1..]) == old(Slots())
      ensures All() == old(All()) || (fresh(node) && All() == [node] + old(All()))
    {
      hide F.Linked, F.Rev, Values;
      ghost var was := st.used.nodes;
      var spare := new F.Node<T>(junk);
      node := st.Alloc(spare);
      Repr := Repr + {node};
      assert st.used.nodes[1..] == was;
    }

    /** setjmp(*skit_jmp_fstack_alloc(stack)): a node on top of the stack takes the value. */
    method Set(x: T) returns (node: F.Node<T>)
      requires Valid()
      modifies Repr
      ensures Valid() && fresh(Repr - old(Repr)) && old(Repr) <= Repr
      ensures Slots() == Push(x, old(Slots()))
      ensures All() == old(All()) || (fresh(node) && All() == [node] + old(All()))
      ensures node in All() && Below(All(), node) == Height(old(Slots()))
    {
      hide Below, F.Rev, F.After;
      node := Alloc(x);
      ghost var rest := st.used.nodes[1..];
      ValuesHeight(rest);
      TopBelow(st.unused.nodes, st.used.nodes);
      assert node !in rest;
      node.val := x;
    }

    /** skit_jmp_fstack_pop */
    method Pop() returns (r: F.PopResult<T>)
      requires Valid()
      modifies Repr
      ensures Valid() && Repr == old(Repr) && All() == old(All())
      ensures if old(Slots()).Empty? then r == F.OutOfBounds && Slots() == Empty
              else r.Popped? && r.node.val == old(Slots()).top && Slots() == old(Slots()).below
    {
      ghost var was := st.used.nodes;
      r := st.Pop();
      if r.Popped? { assert st.used.nodes == was[1..]; }
    }

    /** stack.used.front->val */
    function Front(): (x: T)
      requires Valid() && Slots().Push?
      reads this, Repr
      ensures x == Slots().top
    {
      var n: F.Node<T> := st.used.front;
      n.val
    }

    /** A jmp_buf is overwritten through a pointer to its node, which may have been popped
        since. */
    method Write(node: F.Node<T>, x: T)
      requires Valid() && node in All()
      modifies Repr
      ensures Valid() && Repr == old(Repr) && All() == old(All())
      ensures Slots() == Put(old(Slots()), Below(All(), node), x)
    {
      node.val := x;
      Written(st.unused.nodes, st.used.nodes, node, x);
    }

    /** Pop until no more than n are left. */
    method CutTo(n: nat)
      requires Valid()
      modifies Repr
      ensures Valid() && Repr == old(Repr) && All() == old(All()) && Slots() == Cut(old(Slots()), n)
    {
      var length := Length();
      while length > n
        invariant Valid() && Repr == old(Repr) && All() == old(All())
        invariant length == Height(Slots()) && Cut(Slots(), n) == Cut(old(Slots()), n)
        decreases length
      {
        var r := Pop();
        length := length - 1;
      }
    }
  }
}
