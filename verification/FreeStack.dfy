/** survival_kit/templates/stack.c and fstack.c: linked stacks, and free-stacks that keep
    popped nodes for later pushes. */
module FreeStack {

  class Node<T> {
    var next: Node?<T>
    var val: T

    constructor (v: T)
      ensures next == null && val == v
    {
      next, val := null, v;
    }
  }

  datatype PopResult<T> = Popped(node: Node<T>) | OutOfBounds

  function Rev<T>(s: seq<T>): (r: seq<T>)
    ensures |r| == |s|
    ensures forall i :: 0 <= i < |s| ==> r[i] == s[|s| - 1 - i]
  {
    if |s| == 0 then [] else Rev(s[1..]) + [s[0]]
  }

  lemma RevPush<T>(x: T, s: seq<T>)
    ensures Rev([x] + s) == Rev(s) + [x]
  {
    assert ([x] + s)[1..] == s;
  }

  /** The nodes are linked in this order, the last to nothing, and are all different. */
  ghost predicate Linked<T>(ns: seq<Node<T>>)
    reads ns`next
  {
    (forall i :: 0 <= i < |ns| ==> ns[i].next == After(ns, i)) && Distinct(ns)
  }

  function After<T>(ns: seq<Node<T>>, i: nat): Node?<T> {
    if i + 1 < |ns| then ns[i + 1] else null
  }

  ghost predicate Distinct<T>(ns: seq<Node<T>>) {
    forall i, j :: 0 <= i < j < |ns| ==> ns[i] != ns[j]
  }

  /** The nodes that a walk hands to its callback: from the first node that is start, or
      from the front if start is NULL, up to the first for which the callback asks to
      stop or that is end. */
  function Walked<T>(ns: seq<Node<T>>, stop: Node<T> -> bool, reached: bool, start: Node?<T>, end: Node?<T>):
    seq<Node<T>>
  {
    if |ns| == 0 then []
    else
      var now := reached || ns[0] == start;
      if (now && stop(ns[0])) || ns[0] == end then (if now then [ns[0]] else [])
      else (if now then [ns[0]] else []) + Walked(ns[1..], stop, now, start, end)
  }

  lemma {:induction false} WalkedAll<T>(ns: seq<Node<T>>, stop: Node<T> -> bool, end: Node?<T>)
    requires forall i :: 0 <= i < |ns| ==> !stop(ns[i]) && ns[i] != end
    ensures Walked(ns, stop, true, null, end) == ns
    decreases |ns|
  {
    if |ns| > 0 { WalkedAll(ns[1..], stop, end); }
  }

  class Stack<T> {
    var front: Node?<T>
    var back: Node?<T>
    var length: nat
    ghost var nodes: seq<Node<T>>

    ghost predicate Valid()
      reads this, nodes`next
    {
      && Linked(nodes) && length == |nodes|
      && front == (if |nodes| > 0 then nodes[0] else null)
      && back == (if |nodes| > 0 then nodes[|nodes| - 1] else null)
    }

    /** stack_ctor */
    constructor ()
      ensures Valid() && nodes == []
    {
      front, back, length, nodes := null, null, 0, [];
    }

    /** stack_push */
    method Push(node: Node<T>)
      requires Valid() && node !in nodes
      modifies this, node`next
      ensures Valid() && nodes == [node] + old(nodes)
    {
      if front == null {
        node.next := null;
        front, back := node, node;
      } else {
        node.next := front;
        front := node;
      }
      length := length + 1;
      ghost var was := nodes;
      nodes := [node] + was;
      forall i | 0 <= i < |nodes| ensures nodes[i].next == After(nodes, i) {
        if i > 0 { assert nodes[i] == was[i - 1] && was[i - 1].next == After(was, i - 1); }
      }
    }

    /** stack_append */
    method Append(node: Node<T>)
      requires Valid() && node !in nodes
      modifies this, node`next, back
      ensures Valid() && nodes == old(nodes) + [node]
      ensures forall n :: n in old(nodes) ==> n.val == old(n.val)
    {
      node.next := null;
      if back == null {
        front, back := node, node;
      } else {
        back.next := node;
        back := node;
      }
      length := length + 1;
      nodes := nodes + [node];
    }

    /** stack_pop */
    method Pop() returns (r: PopResult<T>)
      requires Valid()
      modifies this, front
      ensures Valid()
      ensures old(nodes) == [] ==> r == OutOfBounds && nodes == []
      ensures old(nodes) != [] ==>
                r == Popped(old(nodes)[0]) && nodes == old(nodes)[1..] &&
                r.node.next == null && r.node.val == old(nodes[0].val)
    {
      if front == null {
        return OutOfBounds;
      }
      var result := front;
      front := result.next;
      result.next := null;
      length := length - 1;
      ghost var was := nodes;
      nodes := was[1..];
      forall i | 0 <= i < |nodes| ensures nodes[i].next == After(nodes, i) {
        assert nodes[i] == was[i + 1] && was[i + 1] != result;
      }
      if front == null {
        back := null;
      }
      return Popped(result);
    }

    /** stack_walk; the nodes handed to the callback are returned. */
    method Walk(stop: Node<T> -> bool, start: Node?<T>, end: Node?<T>) returns (visited: seq<Node<T>>, ended: bool)
      requires Valid()
      ensures visited == Walked(nodes, stop, start == null, start, end)
    {
      var reached := start == null;
      var cur := front;
      ghost var rest := nodes;
      ghost var all := Walked(nodes, stop, reached, start, end);
      ghost var todo := all;
      visited, ended := [], false;
      while cur != null && !ended
        invariant Linked(rest) && cur == if |rest| > 0 then rest[0] else null
        invariant todo == if ended then [] else Walked(rest, stop, reached, start, end)
        invariant all == visited + todo
        decreases |rest|, !ended
      {
        if cur == start {
          reached := true;
        }
        ghost var here := if reached then [cur] else [];
        ghost var more := if (reached && stop(cur)) || cur == end then [] else Walked(rest[1..], stop, reached,
            start, end);
        assert todo == here + more;
        AppendAgain(visited, here, more);
        todo := more;
        if reached {
          visited := visited + [cur];
        } else {
          assert visited + [] == visited;
        }
        if (reached && stop(cur)) || cur == end {
          ended := true;
        } else {
          cur := cur.next;
          rest := Tail(rest);
        }
      }
    }

    static lemma AppendAgain(a: seq<Node<T>>, b: seq<Node<T>>, c: seq<Node<T>>)
      ensures a + (b + c) == a + b + c
    {
    }

    lemma Tail(ns: seq<Node<T>>) returns (t: seq<Node<T>>)
      requires Linked(ns) && |ns| > 0
      ensures t == ns[1..] && Linked(t) && ns[0].next == if |t| > 0 then t[0] else null
    {
      t := ns[1..];
      forall i | 0 <= i < |t| ensures t[i].next == After(t, i) {
        assert t[i] == ns[i + 1] && ns[i + 1].next == After(ns, i + 1);
      }
      assert ns[0].next == After(ns, 0);
    }

    /** stack_reverse */
    method Reverse()
      requires Valid()
      modifies this, nodes
      ensures Valid() && nodes == Rev(old(nodes))
    {
      if front == null { return; }
      var origFront: Node<T> := front;
      ghost var k := 0;
      ghost var was := nodes;
      MovedNone(was);
      while origFront.next != null
        invariant 0 <= k < |was| && origFront == was[0]
        invariant nodes == Moved(was, k) && Linked(nodes) && front == nodes[0]
        invariant length == |was| && Elements(nodes) == Elements(was)
        decreases |was| - k
      {
        MovedAt(was, k);
        MoveToFront(origFront, origFront.next, k);
        MovedStep(was, k);
        k := k + 1;
      }
      MovedAt(was, k);
      back := origFront;
    }

    /** One round of the loop of stack_reverse: the node after node number k goes to the
        front. */
    method MoveToFront(origFront: Node<T>, tmp: Node<T>, ghost k: nat)
      requires Linked(nodes) && k + 1 < |nodes| && nodes[k] == origFront && nodes[k + 1] == tmp && front == nodes[0]
      modifies this`front, this`nodes, origFront`next, tmp`next
      ensures nodes == [tmp] + old(nodes)[..k + 1] + old(nodes)[k + 2..]
      ensures Linked(nodes) && front == nodes[0] && Elements(nodes) == Elements(old(nodes))
    {
      ghost var was := nodes;
      origFront.next := tmp.next;
      tmp.next := front;
      front := tmp;
      nodes := [tmp] + was[..k + 1] + was[k + 2..];
      forall i | 0 <= i < |nodes| ensures nodes[i].next == After(nodes, i) {
        var j := if i == 0 then k + 1 else if i <= k + 1 then i - 1 else i;
        assert nodes[i] == was[j] && old(was[j].next == After(was, j));
        assert i == 0 ==> front == tmp && nodes[1] == was[0];
      }
      SameElements(was, nodes, k);
    }
  }

  lemma SameElements<T>(was: seq<Node<T>>, ns: seq<Node<T>>, k: nat)
    requires k + 1 < |was| && ns == [was[k + 1]] + was[..k + 1] + was[k + 2..] && Distinct(was)
    ensures Elements(ns) == Elements(was) && Distinct(ns)
  {
    forall n | n in was ensures n in ns {
      var i :| 0 <= i < |was| && was[i] == n;
      assert ns[if i <= k then i + 1 else if i == k + 1 then 0 else i] == n;
    }
    forall i, j | 0 <= i < j < |ns| ensures ns[i] != ns[j] {
      assert ns[i] == was[if i == 0 then k + 1 else if i <= k + 1 then i - 1 else i];
      assert ns[j] == was[if j == 0 then k + 1 else if j <= k + 1 then j - 1 else j];
    }
  }

  ghost function Elements<T>(ns: seq<Node<T>>): set<Node<T>> {
    set n | n in ns
  }

  /** The list after the nodes 1 to k have been moved to the front, one by one. */
  function Moved<T>(was: seq<Node<T>>, k: nat): seq<Node<T>>
    requires k < |was|
  {
    Rev(was[..k + 1]) + was[k + 1..]
  }

  lemma MovedNone<T>(was: seq<Node<T>>)
    requires |was| > 0
    ensures Moved(was, 0) == was
  {
    assert was[..1] == [was[0]];
    assert Rev([was[0]]) == [was[0]];
  }

  lemma MovedAt<T>(was: seq<Node<T>>, k: nat)
    requires k < |was|
    ensures |Moved(was, k)| == |was| && Moved(was, k)[k] == was[0]
    ensures k + 1 == |was| ==> Moved(was, k) == Rev(was)
  {
    if k + 1 == |was| { assert was[..k + 1] == was; }
  }

  lemma MovedStep<T>(was: seq<Node<T>>, k: nat)
    requires k + 1 < |was|
    ensures var m := Moved(was, k);
            Moved(was, k + 1) == [m[k + 1]] + m[..k + 1] + m[k + 2..]
  {
    var m := Moved(was, k);
    assert m[k + 1] == was[k + 1] && m[..k + 1] == Rev(was[..k + 1]) && m[k + 2..] == was[k + 2..];
    assert Rev(was[..k + 2]) == [was[k + 1]] + Rev(was[..k + 1]);
  }

  // ------------------------------------------------------------------ free-stacks

  class FStack<T> {
    const unused: Stack<T>
    const used: Stack<T>

    ghost predicate Valid()
      reads this, unused, used, unused.nodes`next, used.nodes`next
    {
      && unused != used && unused.Valid() && used.Valid()
      && forall i, j :: 0 <= i < |unused.nodes| && 0 <= j < |used.nodes| ==> unused.nodes[i] != used.nodes[j]
    }

    /** All nodes in stack order, the unused ones first: the used nodes are the tail. */
    ghost function All(): seq<Node<T>>
      reads unused, used
    {
      Rev(unused.nodes) + used.nodes
    }

    /** fstack_ctor */
    constructor ()
      ensures Valid() && unused.nodes == [] && used.nodes == [] && fresh(unused) && fresh(used)
    {
      var s := new Stack<T>();
      var t := new Stack<T>();
      unused, used := s, t;
    }

    /** fstack_grow */
    method Grow(node: Node<T>)
      requires Valid() && node !in unused.nodes && node !in used.nodes
      modifies unused, node`next
      ensures Valid() && unused.nodes == [node] + old(unused.nodes) && used.nodes == old(used.nodes)
      ensures All() == Rev(old(unused.nodes)) + [node] + old(used.nodes)
    {
      unused.Push(node);
      RevPush(node, old(unused.nodes));
    }

    /** The top unused node becomes the top used node, or the other way round. */
    lemma Crossed(x: Node<T>, s: seq<Node<T>>, t: seq<Node<T>>)
      ensures Rev([x] + s) + t == Rev(s) + ([x] + t)
    {
      RevPush(x, s);
    }

    /** fstack_push */
    method Push() returns (r: PopResult<T>)
      requires Valid()
      modifies unused, used, unused.front
      ensures Valid() && All() == old(All())
      ensures old(unused.nodes) == [] ==> r == OutOfBounds && used.nodes == old(used.nodes)
      ensures old(unused.nodes) != [] ==>
                r == Popped(old(unused.nodes)[0]) && r.node.val == old(unused.nodes[0].val) &&
                used.nodes == [r.node] + old(used.nodes) &&
                unused.nodes == old(unused.nodes)[1..]
    {
      hide Rev;
      if unused.length == 0 { return OutOfBounds; }
      ghost var s, t := unused.nodes, used.nodes;
      assert s == [s[0]] + s[1..];
      Crossed(s[0], s[1..], t);
      r := unused.Pop();
      used.Push(r.node);
    }

    /** fstack_alloc, with a new node for the case that no free node is left. */
    method Alloc(newNode: Node<T>) returns (node: Node<T>)
      requires Valid() && newNode !in unused.nodes && newNode !in used.nodes
      modifies unused, used, unused.front, newNode`next
      ensures Valid() && used.nodes == [node] + old(used.nodes)
      ensures if old(unused.nodes) == [] then node == newNode && All() == [newNode] + old(All()) && unused.nodes == []
              else node == old(unused.nodes)[0] && All() == old(All()) && unused.nodes == old(unused.nodes)[1..]
    {
      if unused.length == 0 {
        used.Push(newNode);
        node := newNode;
      } else {
        var r := Push();
        node := r.node;
      }
    }

    /** fstack_pop */
    method Pop() returns (r: PopResult<T>)
      requires Valid()
      modifies unused, used, used.front
      ensures Valid() && All() == old(All())
      ensures old(used.nodes) == [] ==> r == OutOfBounds && unused.nodes == old(unused.nodes)
      ensures old(used.nodes) != [] ==>
                r == Popped(old(used.nodes)[0]) && r.node.val == old(used.nodes[0].val) &&
                unused.nodes == [r.node] + old(unused.nodes) &&
                used.nodes == old(used.nodes)[1..]
    {
      ghost var s, t := unused.nodes, used.nodes;
      r := used.Pop();
      if r.Popped? {
        assert t == [t[0]] + t[1..];
        Crossed(t[0], s, t[1..]);
        unused.Push(r.node);
      }
    }

    /** The first loop of fstack_walk: the unused nodes from the front of their stack down
        to start, in a buffer with one place for each unused node. */
    method Collect(start: Node?<T>) returns (buffer: array<Node?<T>>, count: nat, reached: bool)
      requires Valid()
      ensures fresh(buffer) && count <= buffer.Length == |unused.nodes|
      ensures forall i :: 0 <= i < count ==> buffer[i] == unused.nodes[i]
      ensures reached ==> count > 0 && unused.nodes[count - 1] == start
      ensures !reached ==> count == |unused.nodes| && start !in unused.nodes
    {
      buffer := new Node?<T>[unused.length];
      var cur := unused.front;
      count, reached := 0, false;
      while cur != null && !reached
        invariant count <= |unused.nodes|
        invariant !reached ==> cur == if count < |unused.nodes| then unused.nodes[count] else null
        invariant forall i :: 0 <= i < count ==> buffer[i] == unused.nodes[i]
        invariant reached ==> count > 0 && unused.nodes[count - 1] == start
        invariant !reached ==> start !in unused.nodes[..count]
        decreases |unused.nodes| - count, !reached
      {
        buffer[count] := cur;
        count := count + 1;
        if cur == start {
          reached := true;
        } else {
          assert unused.nodes[count - 1].next == After(unused.nodes, count - 1);
          cur := cur.next;
        }
      }
    }

    /** The second loop: the collected nodes backwards. */
    method WalkUnused(buffer: array<Node?<T>>, count: nat, stop: Node<T> -> bool, end: Node?<T>)
            returns (visited: seq<Node<T>>, ended: bool)
      requires Valid() && count <= buffer.Length && count <= |unused.nodes|
      requires forall i :: 0 <= i < count ==> buffer[i] == unused.nodes[i]
      ensures visited == Walked(Rev(unused.nodes[..count]), stop, true, null, end)
      ensures !ended ==> visited == Rev(unused.nodes[..count]) && forall n :: n in visited ==> !stop(n) && n != end
      ensures ended ==> Stops(Rev(unused.nodes[..count]), stop, end)
    {
      hide Stack.Valid;
      var index: nat := count;
      ghost var all := Rev(unused.nodes[..count]);
      visited, ended := [], false;
      while index > 0 && !ended
        invariant index <= count == |all| && visited == all[..count - index]
        invariant !ended ==> forall n :: n in visited ==> !stop(n) && n != end
        invariant ended ==> index < count && (stop(all[count - index - 1]) || all[count - index - 1] == end)
        invariant ended ==> forall n :: n in all[..count - index - 1] ==> !stop(n) && n != end
        decreases index, !ended
      {
        index := index - 1;
        var cur: Node<T> := buffer[index];
        ghost var k := count - index - 1;
        assert cur == all[k] && visited == all[..k] && all[..k + 1] == all[..k] + [all[k]];
        visited := visited + [cur];
        if stop(cur) || cur == end {
          ended := true;
        }
      }
      if ended {
        ghost var k := count - index - 1;
        assert k < |all| && (stop(all[k]) || all[k] == end);
        WalkedUpTo(all, k, stop, end);
      } else {
        assert index == 0 && count - index == |all|;
        WalkedWhole(all, visited, stop, end);
      }
    }

    /** fstack_walk */
    method Walk(stop: Node<T> -> bool, start: Node?<T>, end: Node?<T>) returns (visited: seq<Node<T>>)
      requires Valid()
      ensures visited == Walked(Begin(unused.nodes, used.nodes, start), stop, true, null, end)
    {
      var buffer, count, reached := Collect(start);
      ghost var first := if reached || start == null then Rev(unused.nodes[..count]) else [];
      BeginIs(unused.nodes, used.nodes, start, count, reached);
      var ended := false;
      visited := [];
      if reached || start == null {
        visited, ended := WalkUnused(buffer, count, stop, end);
      }
      if !ended {
        var more, e := used.Walk(stop, used.front, end);
        WalkedFront(used.nodes, stop, end);
        WalkedOn(first, used.nodes, stop, end);
        visited := visited + more;
      } else {
        WalkedEnds(first, used.nodes, stop, end);
      }
    }
  }

  /** The nodes that a walk from start goes along: all of them for NULL, those from start
      on when start is unused, and otherwise all used nodes, wherever start is. */
  function Begin<T>(us: seq<Node<T>>, ns: seq<Node<T>>, start: Node?<T>): seq<Node<T>> {
    if start == null then Rev(us) + ns else Rev(DownTo(us, start)) + ns
  }

  /** The nodes down to start, or none when start is not among them. */
  function DownTo<T>(us: seq<Node<T>>, start: Node?<T>): seq<Node<T>> {
    if |us| == 0 then []
    else if us[0] == start then [us[0]]
    else
      var t := DownTo(us[1..], start);
      if |t| == 0 then [] else [us[0]] + t
  }

  lemma {:induction false} DownToIs<T>(us: seq<Node<T>>, start: Node?<T>, count: nat)
    requires count <= |us|
    ensures count > 0 && us[count - 1] == start && start !in us[..count - 1] ==> DownTo(us, start) == us[..count]
    ensures start !in us ==> DownTo(us, start) == []
    decreases |us|
  {
    if |us| > 0 && count > 0 {
      DownToIs(us[1..], start, count - 1);
      if count > 1 {
        assert us[..count - 1] == [us[0]] + us[1..][..count - 2];
        assert us[..count] == [us[0]] + us[1..][..count - 1];
      }
    } else if |us| > 0 {
      DownToIs(us[1..], start, 0);
    }
  }

  lemma BeginIs<T>(us: seq<Node<T>>, ns: seq<Node<T>>, start: Node?<T>, count: nat, reached: bool)
    requires Distinct(us) && count <= |us|
    requires reached ==> count > 0 && us[count - 1] == start
    requires !reached ==> count == |us| && start !in us
    ensures Begin(us, ns, start) == (if reached || start == null then Rev(us[..count]) else []) + ns
  {
    if start == null {
      assert us[..count] == us;
    } else {
      DownToIs(us, start, count);
    }
  }

  lemma {:induction false} WalkedUpTo<T>(ns: seq<Node<T>>, k: nat, stop: Node<T> -> bool, end: Node?<T>)
    requires k < |ns| && (stop(ns[k]) || ns[k] == end)
    requires forall n :: n in ns[..k] ==> !stop(n) && n != end
    ensures Walked(ns, stop, true, null, end) == ns[..k + 1]
    decreases k
  {
    if k > 0 {
      assert ns[0] in ns[..k];
      assert forall n :: n in ns[1..][..k - 1] ==> n in ns[..k];
      WalkedUpTo(ns[1..], k - 1, stop, end);
      assert ns[..k + 1] == [ns[0]] + ns[1..][..k];
    }
  }

  lemma WalkedWhole<T>(ns: seq<Node<T>>, visited: seq<Node<T>>, stop: Node<T> -> bool, end: Node?<T>)
    requires visited == ns[..|ns|] && forall n :: n in visited ==> !stop(n) && n != end
    ensures visited == ns && Walked(ns, stop, true, null, end) == ns
  {
    assert ns[..|ns|] == ns;
    forall i | 0 <= i < |ns| ensures !stop(ns[i]) && ns[i] != end { assert ns[i] in visited; }
    WalkedAll(ns, stop, end);
  }

  lemma {:induction false} WalkedOn<T>(a: seq<Node<T>>, b: seq<Node<T>>, stop: Node<T> -> bool, end: Node?<T>)
    requires forall n :: n in a ==> !stop(n) && n != end
    ensures Walked(a + b, stop, true, null, end) == a + Walked(b, stop, true, null, end)
    decreases |a|
  {
    if |a| == 0 {
      assert a + b == b;
    } else {
      assert (a + b)[0] == a[0] && a[0] in a;
      assert forall n :: n in a[1..] ==> n in a;
      WalkedOn(a[1..], b, stop, end);
      assert (a + b)[1..] == a[1..] + b;
      assert a == [a[0]] + a[1..];
    }
  }

  ghost predicate Stops<T>(a: seq<Node<T>>, stop: Node<T> -> bool, end: Node?<T>) {
    exists i :: 0 <= i < |a| && (stop(a[i]) || a[i] == end)
  }

  lemma {:induction false} WalkedEnds<T>(a: seq<Node<T>>, b: seq<Node<T>>, stop: Node<T> -> bool, end: Node?<T>)
    requires Stops(a, stop, end)
    ensures Walked(a + b, stop, true, null, end) == Walked(a, stop, true, null, end)
    decreases |a|
  {
    assert (a + b)[0] == a[0];
    if !(stop(a[0]) || a[0] == end) {
      var i :| 0 <= i < |a| && (stop(a[i]) || a[i] == end);
      assert a[1..][i - 1] == a[i];
      WalkedEnds(a[1..], b, stop, end);
      assert (a + b)[1..] == a[1..] + b;
    }
  }

  /** A walk from a node that comes before the end goes along the nodes from there on; a walk
      that meets the end first visits nothing. */
  lemma {:induction false} WalkedFrom<T>(ns: seq<Node<T>>, stop: Node<T> -> bool, k: nat, end: Node?<T>)
    requires k < |ns| && ns[k] !in ns[..k]
    ensures end !in ns[..k] ==> Walked(ns, stop, false, ns[k], end) == Walked(ns[k..], stop, true, null, end)
    ensures end in ns[..k] ==> Walked(ns, stop, false, ns[k], end) == []
    decreases k
  {
    if k == 0 {
      assert ns[0..] == ns;
      WalkedReached(ns[1..], stop, ns[0], end);
    } else {
      assert ns[0] in ns[..k] && ns[..k] == [ns[0]] + ns[1..][..k - 1];
      WalkedFrom(ns[1..], stop, k - 1, end);
      assert ns[1..][k - 1..] == ns[k..];
    }
  }

  lemma WalkedFront<T>(ns: seq<Node<T>>, stop: Node<T> -> bool, end: Node?<T>)
    ensures var front := if |ns| > 0 then ns[0] else null;
            Walked(ns, stop, front == null, front, end) == Walked(ns, stop, true, null, end)
  {
    if |ns| > 0 { WalkedReached(ns[1..], stop, ns[0], end); }
  }

  lemma {:induction false} WalkedReached<T>(ns: seq<Node<T>>, stop: Node<T> -> bool, start: Node?<T>, end: Node?<T>)
    ensures Walked(ns, stop, true, start, end) == Walked(ns, stop, true, null, end)
    decreases |ns|
  {
    if |ns| > 0 { WalkedReached(ns[1..], stop, start, end); }
  }

  /** A walk from NULL that nothing stops visits every node once, unused nodes first. */
  lemma FullWalk<T>(us: seq<Node<T>>, ns: seq<Node<T>>, stop: Node<T> -> bool)
    requires forall n :: n in us + ns ==> !stop(n)
    ensures Walked(Begin(us, ns, null), stop, true, null, null) == Rev(us) + ns
  {
    var all := Rev(us) + ns;
    forall i | 0 <= i < |all| ensures !stop(all[i]) {
      assert all[i] in us + ns;
    }
    WalkedAll(all, stop, null);
  }

  /** A walk from a used node goes along the nodes from that node on exactly when the
      node is the top one. */
  lemma UsedStart<T>(us: seq<Node<T>>, ns: seq<Node<T>>, k: nat)
    requires k < |ns| && ns[k] !in us
    ensures Begin(us, ns, ns[k]) == ns[k..] <==> k == 0
  {
    DownToIs(us, ns[k], |us|);
    assert [] + ns == ns;
  }
}
