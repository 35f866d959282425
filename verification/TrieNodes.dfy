/** The nodes of a trie as objects updated in place, and the five ways
    skit_trie_split_node makes room for a key. */
module TrieNodes {
  import opened Bytes
  import opened TrieShape
  import opened TrieLookup
  import opened TrieOps

  /** skit_trie_node.  The union nodes.array / nodes.table is the two fields kids and table, of which
      the one not in use is empty. */
  class Node {
    var kids: seq<Node>
    var table: seq<Node?>
    var value: Ptr
    var nodes_len: nat
    var have_value: bool
    var chars_len: nat
    var chars: seq<byte>

    /** skit_trie_node_new; the chars of a new node are whatever was in memory. */
    constructor (garbage: seq<byte>)
      requires |garbage| == PREALLOC
      ensures kids == [] && table == [] && value == 0 && !have_value
      ensures nodes_len == 0 && chars_len == 0 && chars == garbage
    {
      kids, table, value, nodes_len, have_value, chars_len, chars := [], [], 0, 0, false, 0, garbage;
    }
  }

  /** Any contents for the chars of a new node would do. */
  const GARBAGE: seq<byte> := seq(PREALLOC, i => 0)

  ghost predicate ValueMatches(n: Node, val: Option<Ptr>)
    reads n
  {
    n.have_value == val.Some? && (val.Some? ==> n.value == val.value)
  }

  /** The fields of a node represent edges e leaving path p, when node objects stand
      at the paths given by at. */
  ghost predicate EdgesRep(kids: seq<Node>, table: seq<Node?>, nodesLen: nat, charsLen: nat, chars: seq<byte>,
                           e: Edges, p: Key, at: map<Key, Node>)
  {
    && |chars| == PREALLOC
    && match e
       case Leaf => nodesLen == 0 && charsLen == 0 && kids == []
       case Line(s) =>
         && nodesLen == 1 && charsLen == |s| <= PREALLOC && chars[..|s|] == s
         && p + s in at && kids == [at[p + s]]
       case Fan(cs) =>
         && nodesLen == charsLen == |cs| == |kids| <= PREALLOC && chars[..|cs|] == cs
         && forall i :: 0 <= i < |cs| ==> p + [cs[i]] in at && kids[i] == at[p + [cs[i]]]
       case Table(used) =>
         && nodesLen == |used| && charsLen == 0xFF && TableRep(table, used, p, at)
  }

  ghost predicate TableRep(table: seq<Node?>, used: set<byte>, p: Key, at: map<Key, Node>) {
    && |table| == 256
    && forall c: byte :: if c in used then p + [c] in at && table[c] == at[p + [c]] else table[c] == null
  }

  ghost predicate EdgesMatch(n: Node, e: Edges, p: Key, at: map<Key, Node>)
    reads n
  {
    EdgesRep(n.kids, n.table, n.nodes_len, n.chars_len, n.chars, e, p, at)
  }

  ghost predicate Matches(n: Node, cell: Cell, p: Key, at: map<Key, Node>)
    reads n
  {
    ValueMatches(n, cell.val) && EdgesMatch(n, cell.edges, p, at)
  }

  ghost predicate Injective(at: map<Key, Node>) {
    forall p, q :: p in at && q in at && at[p] == at[q] ==> p == q
  }

  /** The node objects at represent exactly the trie value G. */
  ghost predicate HeapOk(at: map<Key, Node>, G: Shape)
    reads at.Values
  {
    && at.Keys == G.Keys
    && Injective(at)
    && forall p :: p in G ==> Matches(at[p], G[p], p, at)
  }

  lemma {:induction false} FewBytes(used: set<byte>, n: nat)
    requires n <= 256 && forall c :: c in used ==> c < n
    ensures |used| <= n
    decreases n
  {
    if n > 0 {
      var last := n - 1;
      var less := set c | c in used && c < last;
      FewBytes(less, last);
      assert used <= less + {last as byte} by { assert forall c :: c in used ==> c < last || c == last; }
      MoreSet(used, less + {last as byte});
    } else {
      assert used == {};
    }
  }

  lemma MoreSet(a: set<byte>, b: set<byte>)
    requires a <= b
    ensures |a| <= |b|
  {
    assert b == a + (b - a);
  }

  /** The counters of a node fit their C types, an uint16_t and an uint8_t, and a node
      never holds more than 12 bytes. */
  lemma FieldsFit(at: map<Key, Node>, G: Shape, p: Key)
    requires WF(G) && HeapOk(at, G) && p in G
    ensures at[p].nodes_len <= 256 && at[p].chars_len <= 0xFF && |at[p].chars| == 12
    ensures at[p].nodes_len <= 12 ==> at[p].chars_len <= 12
  {
    assert CellOk(G[p]) && Matches(at[p], G[p], p, at);
    if G[p].edges.Table? { FewBytes(G[p].edges.used, 256); }
  }

  /** Two sets of node objects agree on the children of p. */
  ghost predicate SameKids(p: Key, e: Edges, at: map<Key, Node>, at': map<Key, Node>) {
    forall q :: IsKid(p, e, q) && q in at ==> q in at' && at'[q] == at[q]
  }

  lemma MatchesElsewhere(n: Node, cell: Cell, p: Key, at: map<Key, Node>, at': map<Key, Node>)
    requires Matches(n, cell, p, at) && SameKids(p, cell.edges, at, at')
    ensures Matches(n, cell, p, at')
  {
    var e := cell.edges;
    match e
    case Leaf =>
    case Line(s) => assert IsKid(p, e, p + s);
    case Fan(cs) =>
      forall i | 0 <= i < |cs| ensures p + [cs[i]] in at' && n.kids[i] == at'[p + [cs[i]]] {
        assert IsKid(p, e, p + [cs[i]]);
      }
    case Table(used) =>
      forall c: byte ensures if c in used then p + [c] in at' && n.table[c] == at'[p + [c]] else n.table[c] == null {
        if c in used { assert IsKid(p, e, p + [c]); }
      }
  }

  /** The objects m stand at the nodes of the chain that spells str from p on, except
      the last one, for which tail stands. */
  ghost predicate Spine(m: map<Key, Node>, tail: Node, p: Key, str: Key)
    reads m.Values
  {
    && m.Keys == Chain(p, str, 0).Keys - {p + str}
    && Injective(m)
    && (forall x :: x in m ==> x in Chain(p, str, 0) && m[x] != tail)
    && forall x :: x in m ==> Matches(m[x], Chain(p, str, 0)[x], x, m[p + str := tail])
  }

  lemma ChainStep(p: Key, str: Key)
    requires |str| > 0
    ensures var n := ChunkLen(str);
            var D := Chain(p + str[..n], str[n..], 0);
            && p + str[..n] + str[n..] == p + str
            && Chain(p, str, 0) == D[p := Cell(Line(str[..n]), None)]
            && p !in D && p != p + str && p + str in D && p + str[..n] in D
            && (n == |str| ==> D.Keys == {p + str})
  {
    var n := ChunkLen(str);
    assert p + str[..n] + str[n..] == p + str;
    ChainShape(p + str[..n], str[n..], 0);
    ChainVals(p + str[..n], str[n..], 0);
  }

  lemma SpineGrowsBelow(m: map<Key, Node>, node: Node, tail: Node, p: Key, str: Key, x: Key)
    requires |str| > 0
    requires var n := ChunkLen(str); Spine(m, tail, p + str[..n], str[n..])
    requires x in m
    ensures x in Chain(p, str, 0)
    ensures Matches(m[x], Chain(p, str, 0)[x], x, m[p := node][p + str := tail])
  {
    ChainStep(p, str);
    var n := ChunkLen(str);
    var D := Chain(p + str[..n], str[n..], 0);
    ChainOk(p + str[..n], str[n..], 0);
    assert KidsIn(D, x);
    MatchesElsewhere(m[x], D[x], x, m[p + str := tail], m[p := node][p + str := tail]);
  }

  lemma SpineGrows(m: map<Key, Node>, node: Node, tail: Node, p: Key, str: Key)
    requires |str| > 0 && node != tail && node !in m.Values
    requires var n := ChunkLen(str); Spine(m, tail, p + str[..n], str[n..])
    requires var n := ChunkLen(str);
             Matches(node, Cell(Line(str[..n]), None), p, m[p := node][p + str := tail])
    ensures Spine(m[p := node], tail, p, str)
  {
    hide Matches;
    ChainStep(p, str);
    var m' := m[p := node];
    forall x | x in m' ensures Matches(m'[x], Chain(p, str, 0)[x], x, m'[p + str := tail]) {
      if x != p { SpineGrowsBelow(m, node, tail, p, str, x); }
    }
    InjectiveMore(m, p, node);
  }

  lemma InjectiveMore(m: map<Key, Node>, p: Key, node: Node)
    requires Injective(m) && node !in m.Values
    ensures Injective(m[p := node])
  {
    var m' := m[p := node];
    forall x, y | x in m' && y in m' && m'[x] == m'[y] ensures x == y {
      assert x != p ==> m'[x] in m.Values;
      assert y != p ==> m'[y] in m.Values;
    }
  }

  /** The edge of a linear node. */
  method WriteEdge(node: Node, next: Node, s: Key, ghost p: Key, ghost at: map<Key, Node>)
    requires |node.chars| == PREALLOC && node.chars_len == |s| <= PREALLOC && !node.have_value
    requires p + s in at && at[p + s] == next
    modifies node
    ensures Matches(node, Cell(Line(s), None), p, at)
  {
    node.chars := s + node.chars[node.chars_len..];
    node.nodes_len := 1;
    node.kids := [next];
  }

  lemma SpineBase(tail: Node, p: Key, str: Key)
    requires 0 < |str| <= PREALLOC
    ensures Spine(map[], tail, p + str[..ChunkLen(str)], str[ChunkLen(str)..])
    ensures p + str[..ChunkLen(str)] == p + str
  {
    var q := p + str[..ChunkLen(str)];
    assert str[ChunkLen(str)..] == [] && q + [] == q;
    assert Chain(q, [], 0).Keys == {q};
  }

  /** skit_trie_node_insert_non0_str */
  method InsertNon0Str(node: Node, tail: Node, str: Key, ghost p: Key) returns (ghost m: map<Key, Node>)
    requires node != tail && |str| > 0 && |node.chars| == PREALLOC
    modifies node
    ensures Spine(m, tail, p, str)
    ensures p in m && m[p] == node
    ensures forall x :: x in m && x != p ==> fresh(m[x])
    decreases |str|
  {
    hide HeapOk, Spine, Matches, Chain;
    node.kids, node.table, node.value, node.nodes_len, node.have_value, node.chars_len := [], [], 0, 0, false, 0;
    var next;
    ghost var n := ChunkLen(str);
    if |str| > PREALLOC {
      next := new Node(GARBAGE);
      m := InsertNon0Str(next, tail, str[PREALLOC..], p + str[..PREALLOC]);
      node.chars_len := PREALLOC;
    } else {
      next := tail;
      m := map[];
      node.chars_len := |str|;
      SpineBase(tail, p, str);
    }
    WriteEdge(node, next, str[..node.chars_len], p, m[p := node][p + str := tail]);
    SpineGrows(m, node, tail, p, str);
    m := m[p := node];
  }

  lemma {:induction false} ChainValue(p: Key, str: Key, v: Ptr)
    ensures Chain(p, str, v) == Chain(p, str, 0)[p + str := Cell(Leaf, Some(v))]
    decreases |str|
  {
    if |str| == 0 {
      assert p + str == p;
    } else {
      var n := ChunkLen(str);
      ChainStep(p, str);
      ChainValue(p + str[..n], str[n..], v);
    }
  }

  lemma SpineToChain(m: map<Key, Node>, tail: Node, p: Key, str: Key, v: Ptr)
    requires Spine(m, tail, p, str) && Matches(tail, Cell(Leaf, Some(v)), p + str, map[])
    ensures HeapOk(m[p + str := tail], Chain(p, str, v))
  {
    hide Chain;
    ChainValue(p, str, v);
    ChainVals(p, str, 0);
    var m' := m[p + str := tail];
    forall x | x in m' ensures Matches(m'[x], Chain(p, str, v)[x], x, m') {
    }
  }

  /** skit_trie_finish_tail and skit_trie_append_str: make node the start of a chain
      that spells str and ends in a node holding v. */
  method FinishTail(node: Node, str: Key, v: Ptr, ghost p: Key) returns (ghost m: map<Key, Node>)
    requires |node.chars| == PREALLOC
    modifies node
    ensures HeapOk(m, Chain(p, str, v))
    ensures p in m && m[p] == node
    ensures forall x :: x in m && x != p ==> fresh(m[x])
  {
    hide HeapOk, ChunkLen;
    node.kids, node.table, node.value, node.nodes_len, node.have_value, node.chars_len := [], [], 0, 0, false, 0;
    var tail;
    if |str| == 0 {
      tail := node;
      m := map[];
      assert p + str == p;
    } else {
      tail := new Node(GARBAGE);
      m := InsertNon0Str(node, tail, str, p);
      ChainStep(p, str);
    }
    tail.value := v;
    tail.have_value := true;
    SpineToChain(m, tail, p, str, v);
    m := m[p + str := tail];
  }

  // ------------------------------------------------------ adding one more child

  lemma NotBetween(p: Key, e: Edges, q: Key, k: Key)
    requires IsKid(p, e, k) && p < q < k
    ensures !Covers(p, e, q)
  {
  }

  /** A path has only one parent. */
  lemma OneParent(G: Shape, p: Key, q: Key, k: Key)
    requires WF(G) && p in G && q in G && IsKid(p, G[p].edges, k) && IsKid(q, G[q].edges, k)
    ensures p == q
  {
    assert CellOk(G[p]) && CellOk(G[q]);
    assert p < k && q < k;
    if p < q {
      NotBetween(p, G[p].edges, q, k);
    } else if q < p {
      NotBetween(q, G[q].edges, p, k);
    } else {
      assert |p| == |q| && p == k[..|p|] && q == k[..|q|];
    }
  }

  /** After node q got a child that starts the chain of nodes m, all objects together
      represent the trie with the chain added.  The old children of q may have moved
      from the objects of at to those of at'. */
  lemma GraftOk(G: Shape, at': map<Key, Node>, q: Key, str: Key, v: Ptr, m: map<Key, Node>)
    requires WF(G) && q in G && |str| > 0 && NoneBelow(G, q + [str[0]])
    requires at'.Keys == G.Keys && Injective(at')
    requires HeapOk(m, Chain(q + [str[0]], str[1..], v)) && m.Values !! at'.Values
    requires forall p :: p in G && p != q ==> Matches(at'[p], G[p], p, at')
    requires ValueMatches(at'[q], G[q].val) && EdgesMatch(at'[q], AddEdge(G[q].edges, str[0]), q, at' + m)
    ensures HeapOk(at' + m, AddKid(G, q, str, v))
  {
    hide EdgesMatch, KidsIn, Covered;
    var k := q + [str[0]];
    ChainShape(k, str[1..], v);
    var A := at' + m;
    var H := AddKid(G, q, str, v);
    forall p | p in H ensures Matches(A[p], H[p], p, A) {
      if p in m {
        GraftChain(at', k, str[1..], v, m, p);
      } else if p != q {
        GraftOld(G, at', m, p);
      }
    }
    InjectiveUnion(at', m);
  }

  lemma GraftChain(at: map<Key, Node>, k: Key, str: Key, v: Ptr, m: map<Key, Node>, p: Key)
    requires HeapOk(m, Chain(k, str, v)) && p in m
    ensures Matches(m[p], Chain(k, str, v)[p], p, at + m)
  {
    ChainOk(k, str, v);
    assert KidsIn(Chain(k, str, v), p);
    MatchesElsewhere(m[p], Chain(k, str, v)[p], p, m, at + m);
  }

  lemma GraftOld(G: Shape, at: map<Key, Node>, m: map<Key, Node>, p: Key)
    requires WF(G) && at.Keys == G.Keys && m.Keys !! at.Keys && p in G && Matches(at[p], G[p], p, at)
    ensures Matches(at[p], G[p], p, at + m)
  {
    assert KidsIn(G, p);
    MatchesElsewhere(at[p], G[p], p, at, at + m);
  }

  lemma InjectiveUnion(a: map<Key, Node>, b: map<Key, Node>)
    requires Injective(a) && Injective(b) && a.Keys !! b.Keys && a.Values !! b.Values
    ensures Injective(a + b)
  {
    forall p, q | p in a + b && q in a + b && (a + b)[p] == (a + b)[q] ensures p == q {
      assert p in a ==> a[p] in a.Values;
      assert q in a ==> a[q] in a.Values;
      assert p in b ==> b[p] in b.Values;
      assert q in b ==> b[q] in b.Values;
    }
  }

  lemma TableGrows(kids: seq<Node>, table: seq<Node?>, nodesLen: nat, charsLen: nat, chars: seq<byte>,
                   used: set<byte>, c: byte, start: Node, q: Key, at: map<Key, Node>, m: map<Key, Node>)
    requires EdgesRep(kids, table, nodesLen, charsLen, chars, Table(used), q, at) && m.Keys !! at.Keys && c !in used
    requires q + [c] in m && m[q + [c]] == start
    ensures EdgesRep(kids, table[c := start], nodesLen + 1, charsLen, chars, AddEdge(Table(used), c), q, at + m)
  {
    assert |used + {c}| == |used| + 1;
    var table' := table[c := start];
    forall d: byte ensures if d in used + {c} then q + [d] in at + m && table'[d] ==
        (at + m)[q + [d]] else table'[d] == null {
      assert q + [d] == q + [c] <==> c == d by { if q + [d] == q + [c] { assert (q + [d])[|q|] == (q + [c])[|q|]; } }
    }
  }

  twostate predicate Unchanged(nodes: set<Node>)
    reads nodes
  {
    forall n :: n in nodes ==> unchanged(n)
  }

  /** Writing one node leaves the others as they were. */
  twostate lemma OthersUntouched(new G: Shape, at: map<Key, Node>, new q: Key, new n: Node)
    requires old(HeapOk(at, G)) && q in G && at[q] == n
    requires Unchanged(at.Values - {n})
    ensures forall p :: p in G && p != q ==> Matches(at[p], G[p], p, at)
  {
    forall p | p in G && p != q ensures Matches(at[p], G[p], p, at) {
      assert at[p] in at.Values - {n};
      assert old(Matches(at[p], G[p], p, at));
    }
  }

  lemma ChainApart(G: Shape, q: Key, c: byte, str: Key, v: Ptr)
    requires NoneBelow(G, q + [c])
    ensures Chain(q + [c], str, v).Keys !! G.Keys && [] !in Chain(q + [c], str, v)
    ensures q + [c] in Chain(q + [c], str, v)
  {
    ChainShape(q + [c], str, v);
  }

  /** Node q alone was rewritten, and got the chain of new nodes m as a child. */
  twostate lemma Grafted(new G: Shape, at: map<Key, Node>, new q: Key, new str: Key, new v: Ptr, new m: map<Key, Node>)
    requires WF(G) && q in G && |str| > 0 && NoneBelow(G, q + [str[0]])
    requires old(HeapOk(at, G)) && Unchanged(at.Values - {at[q]})
    requires HeapOk(m, Chain(q + [str[0]], str[1..], v)) && forall x :: x in m ==> fresh(m[x])
    requires ValueMatches(at[q], G[q].val) && EdgesMatch(at[q], AddEdge(G[q].edges, str[0]), q, at + m)
    ensures HeapOk(at + m, AddKid(G, q, str, v))
  {
    forall p | p in G && p != q ensures Matches(at[p], G[p], p, at) {
      assert at[p] in at.Values - {at[q]} && old(Matches(at[p], G[p], p, at));
    }
    GraftOk(G, at, q, str, v, m);
  }

  /** The objects of at' are those of at or new, and the root has not moved. */
  twostate predicate Grown(at: map<Key, Node>, new at': map<Key, Node>)
  {
    && (forall x :: x in at' ==> at'[x] in at.Values || fresh(at'[x]))
    && (forall x :: x in at && x == [] ==> x in at' && at'[x] == at[x])
  }

  twostate lemma GrownUnion(at: map<Key, Node>, new m: map<Key, Node>)
    requires (forall x :: x in m ==> fresh(m[x])) && [] !in m
    ensures Grown(at, at + m)
  {
    forall x | x in at + m ensures (at + m)[x] in at.Values || fresh((at + m)[x]) {
      if x in m { assert (at + m)[x] == m[x]; } else { assert (at + m)[x] == at[x]; }
    }
  }

  /** A new node starting a chain that spells str. */
  method NewTail(str: Key, v: Ptr, ghost p: Key) returns (start: Node, ghost m: map<Key, Node>)
    ensures HeapOk(m, Chain(p, str, v)) && p in m && m[p] == start
    ensures forall x :: x in m ==> fresh(m[x])
  {
    start := new Node(GARBAGE);
    m := FinishTail(start, str, v, p);
  }

  /** The writes of skit_trie_split_table_node; rest is the key from coords.pos on. */
  method WriteTable(node: Node, rest: Key, v: Ptr, ghost q: Key) returns (ghost m: map<Key, Node>)
    requires |rest| > 0 && |node.table| == 256
    modifies node
    ensures HeapOk(m, Chain(q + [rest[0]], rest[1..], v)) && q + [rest[0]] in m
    ensures forall x :: x in m ==> fresh(m[x])
    ensures node.kids == old(node.kids) && node.chars_len == old(node.chars_len) && node.chars == old(node.chars)
    ensures node.value == old(node.value) && node.have_value == old(node.have_value)
    ensures node.table == old(node.table)[rest[0] := m[q + [rest[0]]]] && node.nodes_len == old(node.nodes_len) + 1
  {
    var newChar := rest[0];
    var start;
    start, m := NewTail(rest[1..], v, q + [rest[0]]);
    node.table := node.table[newChar := start];
    node.nodes_len := node.nodes_len + 1;
  }

  twostate lemma TableGrafted(new n: Node, new G: Shape, at: map<Key, Node>, new q: Key, new str: Key, new v: Ptr,
          new m: map<Key, Node>)
    requires WF(G) && q in G && G[q].edges.Table? && |str| > 0 && NoneBelow(G, q + [str[0]])
    requires old(HeapOk(at, G)) && Unchanged(at.Values - {n})
    requires HeapOk(m, Chain(q + [str[0]], str[1..], v)) && forall x :: x in m ==> fresh(m[x])
    requires q + [str[0]] in m
    requires at[q] == n
    requires n.kids == old(n.kids) && n.chars_len == old(n.chars_len) && n.chars == old(n.chars)
    requires n.value == old(n.value) && n.have_value == old(n.have_value)
    requires |old(n.table)| == 256
    requires n.table == old(n.table)[str[0] := m[q + [str[0]]]] && n.nodes_len == old(n.nodes_len) + 1
    ensures HeapOk(at + m, AddKid(G, q, str, v)) && Grown(at, at + m)
  {
    EdgeUnused(G, q, str[0]);
    ChainApart(G, q, str[0], str[1..], v);
    assert old(Matches(at[q], G[q], q, at));
    TableGrows(old(n.kids), old(n.table), old(n.nodes_len), old(n.chars_len), old(n.chars),
      G[q].edges.used, str[0], m[q + [str[0]]], q, at, m);
    Grafted(G, at, q, str, v, m);
    GrownUnion(at, m);
  }

  /** skit_trie_split_table_node: one more entry in the table. */
  method SplitTableNode(node: Node, rest: Key, v: Ptr, ghost G: Shape, ghost at: map<Key, Node>, ghost q: Key)
    returns (ghost at': map<Key, Node>)
    requires WF(G) && HeapOk(at, G) && q in G && at[q] == node && G[q].edges.Table?
    requires |rest| > 0 && NoneBelow(G, q + [rest[0]])
    modifies node
    ensures HeapOk(at', AddKid(G, q, rest, v))
    ensures Grown(at, at')
  {
    assert Matches(node, G[q], q, at);
    ghost var m := WriteTable(node, rest, v, q);
    TableGrafted(node, G, at, q, rest, v, m);
    at' := at + m;
  }

  // -------------------------------------------------- appending to a multi node

  predicate HasRoom(e: Edges) {
    match e
    case Leaf => true
    case Line(s) => |s| == 1
    case Fan(cs) => |cs| < PREALLOC
    case Table(used) => false
  }

  lemma FanGrows(kids: seq<Node>, table: seq<Node?>, nodesLen: nat, charsLen: nat, chars: seq<byte>,
                 e: Edges, c: byte, start: Node, q: Key, at: map<Key, Node>, m: map<Key, Node>)
    requires EdgesRep(kids, table, nodesLen, charsLen, chars, e, q, at) && m.Keys !! at.Keys && HasRoom(e)
    requires q + [c] in m && m[q + [c]] == start
    ensures charsLen < PREALLOC
    ensures EdgesRep(kids + [start], table, nodesLen + 1, charsLen + 1, chars[charsLen := c], AddEdge(e, c), q, at + m)
  {
    var chars' := chars[charsLen := c];
    match e
    case Leaf =>
      assert chars'[..1] == [c];
    case Line(s) =>
      assert s == [s[0]] && chars'[..2] == s + [c];
    case Fan(cs) =>
      assert chars'[..|cs| + 1] == cs + [c];
      forall i | 0 <= i < |cs| + 1
        ensures q + [(cs + [c])[i]] in at + m && (kids + [start])[i] == (at + m)[q + [(cs + [c])[i]]] {
      }
  }

  /** The writes of skit_trie_split_multi_node; rest is the key from coords.pos on. */
  method WriteMulti(node: Node, rest: Key, v: Ptr, ghost q: Key) returns (ghost m: map<Key, Node>)
    requires |rest| > 0 && node.chars_len < |node.chars|
    modifies node
    ensures HeapOk(m, Chain(q + [rest[0]], rest[1..], v)) && q + [rest[0]] in m
    ensures forall x :: x in m ==> fresh(m[x])
    ensures node.value == old(node.value) && node.have_value == old(node.have_value) && node.table == old(node.table)
    ensures node.nodes_len == old(node.nodes_len) + 1 && node.kids == old(node.kids) + [m[q + [rest[0]]]]
    ensures node.chars_len == old(node.chars_len) + 1 && node.chars == old(node.chars)[old(node.chars_len) := rest[0]]
  {
    hide HeapOk;
    var newNode;
    newNode, m := NewTail(rest[1..], v, q + [rest[0]]);
    node.nodes_len := node.nodes_len + 1;
    node.kids := node.kids + [newNode];
    node.chars_len := node.chars_len + 1;
    node.chars := node.chars[node.chars_len - 1 := rest[0]];
  }

  twostate lemma MultiGrafted(new n: Node, new G: Shape, at: map<Key, Node>, new q: Key, new str: Key, new v: Ptr,
          new m: map<Key, Node>)
    requires WF(G) && q in G && HasRoom(G[q].edges) && |str| > 0 && NoneBelow(G, q + [str[0]])
    requires at.Keys == G.Keys && at[q] == n && old(HeapOk(at, G)) && Unchanged(at.Values - {n})
    requires HeapOk(m, Chain(q + [str[0]], str[1..], v)) && forall x :: x in m ==> fresh(m[x])
    requires q + [str[0]] in m && old(n.chars_len) < |old(n.chars)|
    requires n.value == old(n.value) && n.have_value == old(n.have_value) && n.table == old(n.table)
    requires n.nodes_len == old(n.nodes_len) + 1 && n.kids == old(n.kids) + [m[q + [str[0]]]]
    requires n.chars_len == old(n.chars_len) + 1 && n.chars == old(n.chars)[old(n.chars_len) := str[0]]
    ensures HeapOk(at + m, AddKid(G, q, str, v)) && Grown(at, at + m)
  {
    hide WF;
    ChainApart(G, q, str[0], str[1..], v);
    assert old(Matches(at[q], G[q], q, at));
    FanGrows(old(n.kids), old(n.table), old(n.nodes_len), old(n.chars_len), old(n.chars),
      G[q].edges, str[0], m[q + [str[0]]], q, at, m);
    Grafted(G, at, q, str, v, m);
    GrownUnion(at, m);
  }

  /** skit_trie_split_multi_node: one more entry in the array. */
  method SplitMultiNode(node: Node, rest: Key, v: Ptr, ghost G: Shape, ghost at: map<Key, Node>, ghost q: Key)
    returns (ghost at': map<Key, Node>)
    requires WF(G) && HeapOk(at, G) && q in G && at[q] == node && HasRoom(G[q].edges)
    requires |rest| > 0 && NoneBelow(G, q + [rest[0]])
    modifies node
    ensures HeapOk(at', AddKid(G, q, rest, v))
    ensures Grown(at, at')
  {
    assert Matches(node, G[q], q, at);
    ghost var m := WriteMulti(node, rest, v, q);
    MultiGrafted(node, G, at, q, rest, v, m);
    at' := at + m;
  }

  // ------------------------------------------------------ cutting a linear edge

  /** One more node k between q and its only child leaves the other nodes alone. */
  lemma CutOther(G: Shape, at: map<Key, Node>, q: Key, i: nat, node0: Node, p: Key)
    requires WF(G) && q in G && G[q].edges.Line? && 0 < i < |G[q].edges.str|
    requires at.Keys == G.Keys && p in G && p != q && Matches(at[p], G[p], p, at)
    ensures var at1 := at[q + G[q].edges.str[..i] := node0];
            p in at1 && at1[p] == at[p] && Matches(at1[p], G[p], p, at1)
  {
    SplitPointFree(G, q, i);
    assert KidsIn(G, p);
    MatchesElsewhere(at[p], G[p], p, at, at[q + G[q].edges.str[..i] := node0]);
  }

  /** The objects after a cut represent the trie after the cut, but for node q. */
  ghost predicate CutOk(G: Shape, at1: map<Key, Node>, q: Key, i: nat)
    requires q in G && G[q].edges.Line? && i < |G[q].edges.str|
    reads at1.Values
  {
    var G1 := SplitLine(G, q, i);
    && at1.Keys == G1.Keys && Injective(at1)
    && forall p :: p in G1 && p != q ==> Matches(at1[p], G1[p], p, at1)
  }

  lemma CutAll(G: Shape, at: map<Key, Node>, q: Key, i: nat, node0: Node)
    requires WF(G) && q in G && G[q].edges.Line? && 0 < i < |G[q].edges.str| && at.Keys == G.Keys
    requires forall p :: p in G && p != q ==> Matches(at[p], G[p], p, at)
    requires var s := G[q].edges.str; Matches(node0, Cell(Line(s[i..]), None), q + s[..i], at[q + s[..i] := node0])
    requires Injective(at[q + G[q].edges.str[..i] := node0])
    ensures CutOk(G, at[q + G[q].edges.str[..i] := node0], q, i)
  {
    var k := q + G[q].edges.str[..i];
    var at1 := at[k := node0];
    var G1 := SplitLine(G, q, i);
    forall p | p in G1 && p != q ensures Matches(at1[p], G1[p], p, at1) {
      if p == k {
        assert G1[p] == Cell(Line(G[q].edges.str[i..]), None);
      } else {
        CutOther(G, at, q, i, node0, p);
      }
    }
  }

  twostate lemma LineCut(new n: Node, new G: Shape, at: map<Key, Node>, new q: Key, new i: nat, new node0: Node)
    requires WF(G) && q in G && G[q].edges.Line? && 0 < i < |G[q].edges.str|
    requires at.Keys == G.Keys && at[q] == n && old(HeapOk(at, G)) && Unchanged(at.Values - {n}) && fresh(node0)
    requires var s := G[q].edges.str; Matches(node0, Cell(Line(s[i..]), None), q + s[..i], at[q + s[..i] := node0])
    ensures CutOk(G, at[q + G[q].edges.str[..i] := node0], q, i)
    ensures Grown(at, at[q + G[q].edges.str[..i] := node0])
  {
    OthersUntouched(G, at, q, at[q]);
    CutGrown(at, q + G[q].edges.str[..i], node0);
    CutAll(G, at, q, i, node0);
  }

  twostate lemma CutGrown(at: map<Key, Node>, new k: Key, new node0: Node)
    requires Injective(at) && fresh(node0) && k != []
    ensures Injective(at[k := node0]) && Grown(at, at[k := node0])
  {
    var m := map[k := node0];
    assert at[k := node0] == at + m;
    GrownUnion(at, m);
    forall x, y | x in at + m && y in at + m && (at + m)[x] == (at + m)[y] ensures x == y {
      assert x != k ==> (at + m)[x] == at[x];
      assert y != k ==> (at + m)[y] == at[y];
    }
  }

  lemma LineHalves(q: Key, s: Key, i: nat)
    requires i <= |s|
    ensures q + s[..i] + s[i..] == q + s
  {
  }

  /** The writes of the common-prefix case of skit_trie_split_linear_node: the first
      i bytes stay, a new node takes over the rest of the edge. */
  method WriteCut(node: Node, i: nat) returns (node0: Node)
    requires i <= node.chars_len <= |node.chars| == PREALLOC
    modifies node
    ensures fresh(node0) && node0.nodes_len == 1 && node0.chars_len == old(node.chars_len) - i && !node0.have_value
    ensures |node0.chars| == PREALLOC && node0.chars[..node0.chars_len] == old(node.chars[i..node.chars_len])
    ensures node0.kids == old(node.kids)
    ensures node.kids == [node0] && node.chars_len == i && node.chars == old(node.chars)
    ensures node.nodes_len == old(node.nodes_len) && node.value == old(node.value) && node.have_value ==
        old(node.have_value)
  {
    node0 := new Node(GARBAGE);
    var copyLen := node.chars_len - i;
    node0.chars := node.chars[i..node.chars_len] + node0.chars[copyLen..];
    node0.chars_len := copyLen;
    node0.kids := node.kids;
    node0.nodes_len := 1;
    node.kids := [node0];
    node.chars_len := i;
  }

  /** The first half of the common-prefix case of skit_trie_split_linear_node. */
  method CutLine(node: Node, i: nat, ghost G: Shape, ghost at: map<Key, Node>, ghost q: Key)
    returns (node0: Node, ghost at1: map<Key, Node>)
    requires WF(G) && HeapOk(at, G) && q in G && at[q] == node
    requires G[q].edges.Line? && 0 < i < |G[q].edges.str|
    modifies node
    ensures at1 == at[q + G[q].edges.str[..i] := node0] && fresh(node0)
    ensures HeapOk(at1, SplitLine(G, q, i)) && Grown(at, at1)
  {
    hide WF;
    assert Matches(node, G[q], q, at);
    node0 := WriteCut(node, i);
    LineHalves(q, G[q].edges.str, i);
    LineCut(node, G, at, q, i, node0);
    at1 := at[q + G[q].edges.str[..i] := node0];
    CutDone(node, G, at1, q, i);
  }

  lemma CutDone(n: Node, G: Shape, at1: map<Key, Node>, q: Key, i: nat)
    requires q in G && G[q].edges.Line? && 0 < i < |G[q].edges.str| && CutOk(G, at1, q, i)
    requires at1[q] == n && Matches(n, Cell(Line(G[q].edges.str[..i]), G[q].val), q, at1)
    ensures HeapOk(at1, SplitLine(G, q, i))
  {
    assert SplitLine(G, q, i)[q] == Cell(Line(G[q].edges.str[..i]), G[q].val);
  }

  /** A new node with an edge that spells str, at most 12 bytes, and leads to tail. */
  method NewLine(tail: Node, str: Key) returns (node0: Node)
    requires 0 < |str| <= PREALLOC
    ensures fresh(node0) && node0.nodes_len == 1 && node0.chars_len == |str| && !node0.have_value
    ensures |node0.chars| == PREALLOC && node0.chars[..|str|] == str && node0.kids == [tail]
  {
    node0 := new Node(GARBAGE);
    ghost var m0 := InsertNon0Str(node0, tail, str, []);
    ChainStep([], str);
    assert str[..|str|] == str;
    assert Matches(node0, Cell(Line(str), None), [], m0[[] + str := tail]);
  }

  /** The writes of the no-common-prefix case of skit_trie_split_linear_node. */
  method WriteThreeWay(node: Node, rest: Key, v: Ptr, ghost q: Key) returns (node0: Node, ghost m: map<Key, Node>)
    requires |rest| > 0 && |node.kids| == 1 && 2 <= node.chars_len <= |node.chars| == PREALLOC
    modifies node
    ensures HeapOk(m, Chain(q + [rest[0]], rest[1..], v)) && q + [rest[0]] in m
    ensures (forall x :: x in m ==> fresh(m[x])) && fresh(node0) && node0 !in m.Values
    ensures node0.nodes_len == 1 && node0.chars_len == old(node.chars_len) - 1 && !node0.have_value
    ensures |node0.chars| == PREALLOC && node0.chars[..node0.chars_len] == old(node.chars[1..node.chars_len])
    ensures node0.kids == old(node.kids)
    ensures node.kids == [node0, m[q + [rest[0]]]] && node.nodes_len == 2 && node.chars_len == 2
    ensures node.chars == old(node.chars)[1 := rest[0]]
    ensures node.value == old(node.value) && node.have_value == old(node.have_value)
  {
    hide HeapOk;
    var cnode0 := node.kids[0];
    node0 := NewLine(cnode0, node.chars[1..node.chars_len]);
    var node1;
    node1, m := NewTail(rest[1..], v, q + [rest[0]]);
    node.kids := [node0, node1];
    node.chars := node.chars[1 := rest[0]];
    node.chars_len := 2;
    node.nodes_len := 2;
  }

  lemma ThreeWayOk(G: Shape, at1: map<Key, Node>, q: Key, str: Key, v: Ptr, m: map<Key, Node>)
    requires WF(G) && q in G && G[q].edges.Line? && |G[q].edges.str| > 1
    requires |str| > 0 && NoneBelow(G, q + [str[0]])
    requires CutOk(G, at1, q, 1) && m.Values !! at1.Values
    requires HeapOk(m, Chain(q + [str[0]], str[1..], v))
    requires ValueMatches(at1[q], G[q].val)
    requires EdgesMatch(at1[q], Fan(G[q].edges.str[..1] + [str[0]]), q, at1 + m)
    ensures HeapOk(at1 + m, AddKid(SplitLine(G, q, 1), q, str, v)) && [] !in m
  {
    var G1 := SplitLine(G, q, 1);
    SplitLineWF(G, q, 1);
    SplitLineNoneBelow(G, q, 1, q + [str[0]]);
    ChainApart(G1, q, str[0], str[1..], v);
    assert G1[q] == Cell(Line(G[q].edges.str[..1]), G[q].val);
    GraftOk(G1, at1, q, str, v, m);
  }

  twostate lemma ThreeWayGrafted(new n: Node, new G: Shape, at: map<Key, Node>, new q: Key, new str: Key, new v: Ptr,
          new node0: Node, new m: map<Key, Node>)
    requires WF(G) && q in G && G[q].edges.Line? && |G[q].edges.str| > 1
    requires |str| > 0 && NoneBelow(G, q + [str[0]])
    requires at.Keys == G.Keys && at[q] == n && old(HeapOk(at, G)) && Unchanged(at.Values - {n})
    requires HeapOk(m, Chain(q + [str[0]], str[1..], v)) && q + [str[0]] in m
    requires (forall x :: x in m ==> fresh(m[x])) && fresh(node0) && node0 !in m.Values
    requires var s := G[q].edges.str; Matches(node0, Cell(Line(s[1..]), None), q + s[..1], at[q + s[..1] := node0])
    requires ValueMatches(n, G[q].val)
    requires EdgesMatch(n, Fan(G[q].edges.str[..1] + [str[0]]), q, at[q + G[q].edges.str[..1] := node0] + m)
    ensures var at' := at[q + G[q].edges.str[..1] := node0] + m;
            HeapOk(at', AddKid(SplitLine(G, q, 1), q, str, v)) && Grown(at, at')
  {
    hide WF, NoneBelow, HeapOk;
    var at1 := at[q + G[q].edges.str[..1] := node0];
    LineCut(n, G, at, q, 1, node0);
    DisjointFromOld(at, q + G[q].edges.str[..1], node0, m);
    ThreeWayOk(G, at1, q, str, v, m);
    GrownMore(at, at1, m);
  }

  twostate lemma GrownMore(at: map<Key, Node>, new at1: map<Key, Node>, new m: map<Key, Node>)
    requires Grown(at, at1) && (forall x :: x in m ==> fresh(m[x])) && [] !in m
    ensures Grown(at, at1 + m)
  {
    forall x | x in at1 + m ensures (at1 + m)[x] in at.Values || fresh((at1 + m)[x]) {
      if x in m { assert (at1 + m)[x] == m[x]; } else { assert (at1 + m)[x] == at1[x]; }
    }
  }

  lemma OtherByte(q: Key, c: byte, d: byte, str: Key, v: Ptr)
    requires c != d
    ensures q + [d] !in Chain(q + [c], str, v)
  {
    ChainShape(q + [c], str, v);
    assert (q + [d])[|q|] != (q + [c])[|q|];
  }

  twostate lemma DisjointFromOld(at: map<Key, Node>, new k: Key, new node0: Node, new m: map<Key, Node>)
    requires (forall x :: x in m ==> fresh(m[x])) && fresh(node0) && node0 !in m.Values
    ensures m.Values !! at[k := node0].Values
  {
  }

  /** The no-common-prefix case of skit_trie_split_linear_node. */
  method SplitThreeWay(node: Node, rest: Key, v: Ptr, ghost G: Shape, ghost at: map<Key, Node>, ghost q: Key)
    returns (ghost at': map<Key, Node>)
    requires WF(G) && HeapOk(at, G) && q in G && at[q] == node
    requires G[q].edges.Line? && |G[q].edges.str| > 1
    requires |rest| > 0 && NoneBelow(G, q + [rest[0]])
    modifies node
    ensures HeapOk(at', AddKid(SplitLine(G, q, 1), q, rest, v))
    ensures Grown(at, at')
  {
    assert Matches(node, G[q], q, at);
    ghost var m;
    var node0;
    node0, m := WriteThreeWay(node, rest, v, q);
    ThreeWayDone(node, G, at, q, rest, v, node0, m);
    at' := at[q + G[q].edges.str[..1] := node0] + m;
  }

  /** What the writes come to. */
  twostate lemma ThreeWayDone(new n: Node, new G: Shape, at: map<Key, Node>, new q: Key, new str: Key, new v: Ptr,
          new node0: Node, new m: map<Key, Node>)
    requires WF(G) && q in G && G[q].edges.Line? && |G[q].edges.str| > 1
    requires |str| > 0 && NoneBelow(G, q + [str[0]])
    requires at.Keys == G.Keys && at[q] == n && old(HeapOk(at, G)) && Unchanged(at.Values - {n})
    requires HeapOk(m, Chain(q + [str[0]], str[1..], v)) && q + [str[0]] in m
    requires (forall x :: x in m ==> fresh(m[x])) && fresh(node0) && node0 !in m.Values
    requires node0.nodes_len == 1 && node0.chars_len == old(n.chars_len) - 1 && !node0.have_value
    requires |node0.chars| == PREALLOC && node0.chars[..node0.chars_len] == old(n.chars[1..n.chars_len])
    requires node0.kids == old(n.kids)
    requires n.kids == [node0, m[q + [str[0]]]] && n.nodes_len == 2 && n.chars_len == 2
    requires n.chars == old(n.chars)[1 := str[0]]
    requires n.value == old(n.value) && n.have_value == old(n.have_value)
    ensures var at' := at[q + G[q].edges.str[..1] := node0] + m;
            HeapOk(at', AddKid(SplitLine(G, q, 1), q, str, v)) && Grown(at, at')
  {
    hide WF;
    var s := G[q].edges.str;
    assert old(Matches(n, G[q], q, at));
    EdgeUnused(G, q, str[0]);
    OtherByte(q, str[0], s[0], str[1..], v);
    assert q + [s[0]] == q + s[..1];
    ThreeWayFields(n, G, at, q, str[0], node0, m);
    ThreeWayGrafted(n, G, at, q, str, v, node0, m);
  }

  twostate lemma ThreeWayFields(new n: Node, new G: Shape, at: map<Key, Node>, new q: Key, new c: byte,
          new node0: Node, new m: map<Key, Node>)
    requires WF(G) && q in G && G[q].edges.Line? && |G[q].edges.str| > 1 && NoneBelow(G, q + [c])
    requires at.Keys == G.Keys && at[q] == n && old(Matches(n, G[q], q, at)) && q + [c] in m
    requires node0.nodes_len == 1 && node0.chars_len == old(n.chars_len) - 1 && !node0.have_value
    requires |old(n.chars)| == PREALLOC && 1 <= old(n.chars_len) <= PREALLOC
    requires |node0.chars| == PREALLOC && node0.chars[..node0.chars_len] == old(n.chars[1..n.chars_len])
    requires node0.kids == old(n.kids)
    requires n.kids == [node0, m[q + [c]]] && n.nodes_len == 2 && n.chars_len == 2
    requires n.chars == old(n.chars)[1 := c]
    requires n.value == old(n.value) && n.have_value == old(n.have_value)
    requires G[q].edges.str[0] != c && q + G[q].edges.str[..1] !in m
    ensures var s := G[q].edges.str; Matches(node0, Cell(Line(s[1..]), None), q + s[..1], at[q + s[..1] := node0])
    ensures ValueMatches(n, G[q].val)
    ensures EdgesMatch(n, Fan(G[q].edges.str[..1] + [c]), q, at[q + G[q].edges.str[..1] := node0] + m)
  {
    hide WF;
    var s := G[q].edges.str;
    LineHalves(q, s, 1);
    assert old(n.chars[1..n.chars_len]) == s[1..];
    assert n.chars[..2] == s[..1] + [c];
    assert q + [s[0]] == q + s[..1];
  }

  // ------------------------------------------- turning a multi node into a table

  ghost predicate SameFields(n: Node, c: Node)
    reads n, c
  {
    && c.kids == n.kids && c.table == n.table && c.value == n.value && c.nodes_len == n.nodes_len
    && c.have_value == n.have_value && c.chars_len == n.chars_len && c.chars == n.chars
  }

  /** memcpy of one node into newly allocated memory. */
  method CopyNode(n: Node) returns (c: Node)
    requires |n.chars| == PREALLOC
    ensures fresh(c) && SameFields(n, c)
  {
    c := new Node(n.chars);
    c.kids, c.table, c.value := n.kids, n.table, n.value;
    c.nodes_len, c.have_value, c.chars_len := n.nodes_len, n.have_value, n.chars_len;
  }

  ghost predicate Copies(kids: seq<Node>, copies: seq<Node>)
    reads kids, copies
  {
    && |copies| == |kids|
    && (forall i :: 0 <= i < |kids| ==> SameFields(kids[i], copies[i]))
    && (forall i, j :: 0 <= i < j < |copies| ==> copies[i] != copies[j])
  }

  /** The table holds the copies at the bytes chars and nothing elsewhere. */
  ghost predicate Indexed(table: seq<Node?>, chars: seq<byte>, copies: seq<Node>) {
    && |table| == 256 && |chars| == |copies|
    && (forall i :: 0 <= i < |chars| ==> table[chars[i]] == copies[i])
    && (forall c: byte :: c !in chars ==> table[c] == null)
  }

  lemma IndexedMore(table: seq<Node?>, chars: seq<byte>, copies: seq<Node>, c: byte, n: Node)
    requires Indexed(table, chars, copies) && c !in chars
    ensures Indexed(table[c := n], chars + [c], copies + [n])
  {
  }

  /** The loop of skit_trie_split_multi_to_table: every child is copied into its own
      block of memory, found through the table. */
  method MakeTable(node: Node) returns (table: seq<Node?>, ghost copies: seq<Node>)
    requires node.nodes_len == |node.kids| == |node.chars| == PREALLOC && Distinct(node.chars)
    requires forall i :: 0 <= i < |node.kids| ==> |node.kids[i].chars| == PREALLOC
    ensures Indexed(table, node.chars, copies) && Copies(node.kids, copies)
    ensures forall i :: 0 <= i < |copies| ==> fresh(copies[i])
  {
    table := seq(256, i => null);
    copies := [];
    for i := 0 to node.nodes_len
      invariant Indexed(table, node.chars[..i], copies) && Copies(node.kids[..i], copies)
      invariant forall j :: 0 <= j < i ==> fresh(copies[j])
    {
      var newNode := CopyNode(node.kids[i]);
      IndexedMore(table, node.chars[..i], copies, node.chars[i], newNode);
      assert node.chars[..i + 1] == node.chars[..i] + [node.chars[i]];
      assert node.kids[..i + 1] == node.kids[..i] + [node.kids[i]];
      table := table[node.chars[i] := newNode];
      copies := copies + [newNode];
    }
    assert node.chars[..PREALLOC] == node.chars && node.kids[..PREALLOC] == node.kids;
  }

  /** The last writes of skit_trie_split_multi_to_table. */
  method InstallTable(node: Node, newTable: seq<Node?>, rest: Key, v: Ptr, ghost q: Key)
          returns (ghost m: map<Key, Node>)
    requires |rest| > 0 && |newTable| == 256
    modifies node
    ensures HeapOk(m, Chain(q + [rest[0]], rest[1..], v)) && q + [rest[0]] in m
    ensures forall x :: x in m ==> fresh(m[x])
    ensures node.table == newTable[rest[0] := m[q + [rest[0]]]]
    ensures node.kids == [] && node.nodes_len == old(node.nodes_len) + 1 && node.chars_len == 0xFF
    ensures node.chars == old(node.chars) && node.value == old(node.value) && node.have_value == old(node.have_value)
  {
    hide HeapOk;
    var start;
    start, m := NewTail(rest[1..], v, q + [rest[0]]);
    node.kids, node.table := [], newTable[rest[0] := start];
    node.chars_len, node.nodes_len := 0xFF, node.nodes_len + 1;
  }

  ghost function IndexOf(cs: seq<byte>, c: byte): (i: nat)
    requires c in cs
    ensures i < |cs| && cs[i] == c
  {
    var i :| 0 <= i < |cs| && cs[i] == c; i
  }

  /** The objects after the children of q, behind the bytes cs, moved to copies. */
  ghost function Moved(at: map<Key, Node>, q: Key, cs: seq<byte>, copies: seq<Node>): map<Key, Node>
    requires |copies| == |cs|
  {
    map x | x in at :: if IsKid(q, Fan(cs), x) then copies[IndexOf(cs, x[|q|])] else at[x]
  }

  lemma MovedKid(at: map<Key, Node>, q: Key, cs: seq<byte>, copies: seq<Node>, i: nat)
    requires |copies| == |cs| && Distinct(cs) && i < |cs| && q + [cs[i]] in at
    ensures Moved(at, q, cs, copies)[q + [cs[i]]] == copies[i]
  {
    var x := q + [cs[i]];
    assert x[|q|] == cs[i] && IsKid(q, Fan(cs), x);
  }

  /** A node that is not a child of q looks the same after the move. */
  lemma MovedOther(G: Shape, at: map<Key, Node>, q: Key, cs: seq<byte>, copies: seq<Node>, p: Key, n: Node)
    requires WF(G) && q in G && G[q].edges == Fan(cs) && |copies| == |cs|
    requires at.Keys == G.Keys && p in G && p != q && Matches(n, G[p], p, at)
    ensures Matches(n, G[p], p, Moved(at, q, cs, copies))
  {
    var at1 := Moved(at, q, cs, copies);
    forall k | IsKid(p, G[p].edges, k) && k in at ensures k in at1 && at1[k] == at[k] {
      if IsKid(q, Fan(cs), k) { OneParent(G, p, q, k); }
    }
    MatchesElsewhere(n, G[p], p, at, at1);
  }

  lemma MovedInjective(at: map<Key, Node>, q: Key, cs: seq<byte>, copies: seq<Node>)
    requires Injective(at) && |copies| == |cs| && Distinct(cs)
    requires forall i, j :: 0 <= i < j < |copies| ==> copies[i] != copies[j]
    requires forall i :: 0 <= i < |copies| ==> copies[i] !in at.Values
    ensures Injective(Moved(at, q, cs, copies))
  {
    var at1 := Moved(at, q, cs, copies);
    forall x, y | x in at1 && y in at1 && at1[x] == at1[y] ensures x == y {
      assert at[x] in at.Values && at[y] in at.Values;
      if IsKid(q, Fan(cs), x) && IsKid(q, Fan(cs), y) {
        assert x == q + [x[|q|]] && y == q + [y[|q|]];
      }
    }
  }

  ghost predicate KidList(kids: seq<Node>, q: Key, cs: seq<byte>, at: map<Key, Node>) {
    |kids| == |cs| && forall i :: 0 <= i < |cs| ==> q + [cs[i]] in at && kids[i] == at[q + [cs[i]]]
  }

  lemma CopyMatches(n: Node, c: Node, cell: Cell, p: Key, at: map<Key, Node>)
    requires SameFields(n, c) && Matches(n, cell, p, at)
    ensures Matches(c, cell, p, at)
  {
  }

  lemma KidMoved(G: Shape, at: map<Key, Node>, q: Key, cs: seq<byte>, kids: seq<Node>, copies: seq<Node>, p: Key)
    requires WF(G) && q in G && G[q].edges == Fan(cs) && at.Keys == G.Keys
    requires KidList(kids, q, cs, at) && Copies(kids, copies)
    requires p in G && IsKid(q, Fan(cs), p) && Matches(at[p], G[p], p, at)
    ensures var at1 := Moved(at, q, cs, copies); Matches(at1[p], G[p], p, at1)
  {
    hide WF;
    var i := IndexOf(cs, p[|q|]);
    assert p == q + [cs[i]] by { assert p == p[..|q|] + [p[|q|]]; }
    CopyMatches(kids[i], copies[i], G[p], p, at);
    MovedOther(G, at, q, cs, copies, p, copies[i]);
  }

  /** All nodes but q, after the children of q were copied. */
  lemma AllMoved(G: Shape, at: map<Key, Node>, q: Key, cs: seq<byte>, kids: seq<Node>, copies: seq<Node>)
    requires WF(G) && q in G && G[q].edges == Fan(cs) && at.Keys == G.Keys
    requires KidList(kids, q, cs, at) && Copies(kids, copies)
    requires forall p :: p in G && p != q ==> Matches(at[p], G[p], p, at)
    ensures var at1 := Moved(at, q, cs, copies);
            forall p :: p in G && p != q ==> Matches(at1[p], G[p], p, at1)
  {
    forall p | p in G && p != q
      ensures var at1 := Moved(at, q, cs, copies); Matches(at1[p], G[p], p, at1)
    {
      if IsKid(q, Fan(cs), p) {
        KidMoved(G, at, q, cs, kids, copies, p);
      } else {
        MovedOther(G, at, q, cs, copies, p, at[p]);
      }
    }
  }

  lemma TableMade(t: seq<Node?>, cs: seq<byte>, copies: seq<Node>, c: byte, q: Key, at: map<Key, Node>, m: map<Key,
          Node>)
    requires Indexed(t, cs, copies) && Distinct(cs) && c !in cs && q + [c] in m
    requires (forall i :: 0 <= i < |cs| ==> q + [cs[i]] in at) && m.Keys !! at.Keys
    ensures TableRep(t[c := m[q + [c]]], Elems(cs) + {c}, q, Moved(at, q, cs, copies) + m)
  {
    var A := Moved(at, q, cs, copies) + m;
    var t' := t[c := m[q + [c]]];
    forall d: byte ensures if d in Elems(cs) + {c} then q + [d] in A && t'[d] == A[q + [d]] else t'[d] == null {
      if d == c {
      } else if d in cs {
        var i := IndexOf(cs, d);
        MovedKid(at, q, cs, copies, i);
      }
    }
  }

  /** The objects represent the trie after the array of q became a table. */
  lemma ToTableOk(G: Shape, at: map<Key, Node>, at1: map<Key, Node>, q: Key, str: Key, v: Ptr,
                  t: seq<Node?>, copies: seq<Node>, m: map<Key, Node>)
    requires WF(G) && q in G && G[q].edges.Fan? && |G[q].edges.chars| == PREALLOC
    requires |str| > 0 && NoneBelow(G, q + [str[0]])
    requires at.Keys == G.Keys && |copies| == PREALLOC
    requires at1 == Moved(at, q, G[q].edges.chars, copies) && Injective(at1) && m.Values !! at1.Values
    requires at1.Keys == G.Keys && at1[q] == at[q]
    requires forall p :: p in G && p != q ==> Matches(at1[p], G[p], p, at1)
    requires HeapOk(m, Chain(q + [str[0]], str[1..], v)) && q + [str[0]] in m
    requires Indexed(t, G[q].edges.chars, copies) && at[q].table == t[str[0] := m[q + [str[0]]]]
    requires at[q].nodes_len == PREALLOC + 1 && at[q].chars_len == 0xFF && |at[q].chars| == PREALLOC
    requires ValueMatches(at[q], G[q].val)
    ensures HeapOk(at1 + m, AddKid(G, q, str, v))
  {
    ChainShape(q + [str[0]], str[1..], v);
    TableEdges(at[q], G, at, q, str[0], t, copies, m, Chain(q + [str[0]], str[1..], v));
    GraftOk(G, at1, q, str, v, m);
  }

  lemma TableEdges(n: Node, G: Shape, at: map<Key, Node>, q: Key, c: byte, t: seq<Node?>, copies: seq<Node>,
                   m: map<Key, Node>, C: Shape)
    requires WF(G) && q in G && G[q].edges.Fan? && |G[q].edges.chars| == PREALLOC && NoneBelow(G, q + [c])
    requires at.Keys == G.Keys && |copies| == PREALLOC && q + [c] in m
    requires m.Keys == C.Keys && forall x :: x in C ==> q + [c] <= x
    requires Indexed(t, G[q].edges.chars, copies) && n.table == t[c := m[q + [c]]]
    requires n.nodes_len == PREALLOC + 1 && n.chars_len == 0xFF && |n.chars| == PREALLOC
    ensures EdgesMatch(n, AddEdge(G[q].edges, c), q, Moved(at, q, G[q].edges.chars, copies) + m)
  {
    var cs := G[q].edges.chars;
    assert CellOk(G[q]) && KidsIn(G, q);
    assert forall i :: 0 <= i < |cs| ==> IsKid(q, G[q].edges, q + [cs[i]]);
    EdgeUnused(G, q, c);
    FanToTableSize(cs, c);
    assert m.Keys !! at.Keys;
    TableMade(t, cs, copies, c, q, at, m);
  }

  twostate lemma ToTableGrafted(new n: Node, new G: Shape, at: map<Key, Node>, new q: Key, new str: Key, new v: Ptr,
                                new t: seq<Node?>, new copies: seq<Node>, new m: map<Key, Node>)
    requires WF(G) && q in G && G[q].edges.Fan? && |G[q].edges.chars| == PREALLOC
    requires |str| > 0 && NoneBelow(G, q + [str[0]])
    requires at.Keys == G.Keys && at[q] == n && old(HeapOk(at, G)) && Unchanged(at.Values - {n})
    requires Copies(old(n.kids), copies) && KidList(old(n.kids), q, G[q].edges.chars, at)
    requires forall i :: 0 <= i < |copies| ==> fresh(copies[i]) && copies[i] !in m.Values
    requires HeapOk(m, Chain(q + [str[0]], str[1..], v)) && q + [str[0]] in m && forall x :: x in m ==> fresh(m[x])
    requires Indexed(t, G[q].edges.chars, copies) && n.table == t[str[0] := m[q + [str[0]]]]
    requires n.nodes_len == PREALLOC + 1 && n.chars_len == 0xFF && |n.chars| == PREALLOC
    requires ValueMatches(n, G[q].val)
    ensures var at' := Moved(at, q, G[q].edges.chars, copies) + m;
            HeapOk(at', AddKid(G, q, str, v)) && Grown(at, at')
  {
    var cs := G[q].edges.chars;
    assert CellOk(G[q]);
    ChainApart(G, q, str[0], str[1..], v);
    OthersUntouched(G, at, q, at[q]);
    AllMoved(G, at, q, cs, old(n.kids), copies);
    MovedInjective(at, q, cs, copies);
    MovedGrown(at, q, cs, copies, m);
    ToTableOk(G, at, Moved(at, q, cs, copies), q, str, v, t, copies, m);
  }

  twostate lemma MovedGrown(at: map<Key, Node>, new q: Key, new cs: seq<byte>, new copies: seq<Node>, new m: map<Key,
          Node>)
    requires |copies| == |cs| && [] !in m && forall x :: x in m ==> fresh(m[x])
    requires forall i :: 0 <= i < |copies| ==> fresh(copies[i]) && copies[i] !in m.Values
    ensures Grown(at, Moved(at, q, cs, copies) + m)
    ensures m.Values !! Moved(at, q, cs, copies).Values
  {
    var at1 := Moved(at, q, cs, copies);
    forall x | x in at1 ensures (at1[x] in at.Values || fresh(at1[x])) && at1[x] !in m.Values {
      assert at[x] in at.Values;
    }
    GrownMore(at, at1, m);
  }

  /** skit_trie_split_multi_to_table: the thirteenth child turns the array of nodes
      into a table. */
  method SplitMultiToTable(node: Node, rest: Key, v: Ptr, ghost G: Shape, ghost at: map<Key, Node>, ghost q: Key)
    returns (ghost at': map<Key, Node>)
    requires WF(G) && HeapOk(at, G) && q in G && at[q] == node
    requires G[q].edges.Fan? && |G[q].edges.chars| == PREALLOC
    requires |rest| > 0 && NoneBelow(G, q + [rest[0]])
    modifies node
    ensures HeapOk(at', AddKid(G, q, rest, v))
    ensures Grown(at, at')
  {
    hide WF, Matches;
    FullFan(node, G, at, q, rest[0]);
    var newTable;
    ghost var copies;
    newTable, copies := MakeTable(node);
    ghost var m := InstallTable(node, newTable, rest, v, q);
    ToTableGrafted(node, G, at, q, rest, v, newTable, copies, m);
    at' := Moved(at, q, G[q].edges.chars, copies) + m;
  }

  lemma FullFan(node: Node, G: Shape, at: map<Key, Node>, q: Key, c: byte)
    requires WF(G) && HeapOk(at, G) && q in G && at[q] == node
    requires G[q].edges.Fan? && |G[q].edges.chars| == PREALLOC && NoneBelow(G, q + [c])
    ensures node.nodes_len == |node.kids| == |node.chars| == PREALLOC && node.chars == G[q].edges.chars
    ensures Distinct(node.chars) && c !in node.chars && ValueMatches(node, G[q].val)
    ensures KidList(node.kids, q, G[q].edges.chars, at)
    ensures forall i :: 0 <= i < |node.kids| ==> |node.kids[i].chars| == PREALLOC && node.kids[i] != node
  {
    var cs := G[q].edges.chars;
    assert Matches(node, G[q], q, at) && CellOk(G[q]);
    assert node.chars[..PREALLOC] == node.chars;
    EdgeUnused(G, q, c);
    forall i | 0 <= i < |node.kids| ensures |node.kids[i].chars| == PREALLOC && node.kids[i] != node {
      var k := q + [cs[i]];
      assert Matches(at[k], G[k], k, at) && k != q;
    }
  }

  // ------------------------------------------------------------ skit_trie_split_node

  lemma LeafOrOne(n: Node, G: Shape, at: map<Key, Node>, q: Key)
    requires WF(G) && HeapOk(at, G) && q in G && at[q] == n
    ensures n.nodes_len == 1 && n.chars_len > 1 <==> G[q].edges.Line? && |G[q].edges.str| > 1
    ensures n.nodes_len > PREALLOC <==> G[q].edges.Table?
    ensures n.nodes_len == PREALLOC <==> G[q].edges.Fan? && |G[q].edges.chars| == PREALLOC
    ensures G[q].edges.Line? ==> n.nodes_len == 1 && n.chars_len == |G[q].edges.str|
  {
    assert Matches(n, G[q], q, at) && CellOk(G[q]);
  }

  twostate lemma ValueSet(new n: Node, new G: Shape, at: map<Key, Node>, new q: Key, new v: Ptr)
    requires q in G && at.Keys == G.Keys && at[q] == n && old(HeapOk(at, G)) && Unchanged(at.Values - {n})
    requires n.have_value && n.value == v
    requires n.kids == old(n.kids) && n.table == old(n.table) && n.nodes_len == old(n.nodes_len)
    requires n.chars_len == old(n.chars_len) && n.chars == old(n.chars)
    ensures HeapOk(at, SetVal(G, q, v))
  {
    OthersUntouched(G, at, q, at[q]);
    assert old(Matches(n, G[q], q, at));
  }

  /** skit_trie_node_set_value */
  method SetNodeValue(node: Node, v: Ptr, ghost G: Shape, ghost at: map<Key, Node>, ghost q: Key)
    requires q in G && HeapOk(at, G) && at[q] == node
    modifies node
    ensures HeapOk(at, SetVal(G, q, v))
  {
    node.value := v;
    node.have_value := true;
    ValueSet(node, G, at, q, v);
  }

  /** skit_trie_split_node with coords.n_chars_into_node == 0. */
  method SplitHere(node: Node, rest: Key, v: Ptr, ghost G: Shape, ghost at: map<Key, Node>, ghost q: Key)
    returns (ghost at': map<Key, Node>)
    requires WF(G) && HeapOk(at, G) && q in G && at[q] == node
    requires |rest| > 0 ==> NoneBelow(G, q + [rest[0]])
    modifies node
    ensures HeapOk(at', InsertAt(G, q, rest, v))
    ensures Grown(at, at')
  {
    LeafOrOne(node, G, at, q);
    if |rest| == 0 {
      SetNodeValue(node, v, G, at, q);
      at' := at;
    } else if node.nodes_len == 1 && node.chars_len > 1 {
      at' := SplitThreeWay(node, rest, v, G, at, q);
    } else if node.nodes_len < PREALLOC {
      at' := SplitMultiNode(node, rest, v, G, at, q);
    } else if node.nodes_len == PREALLOC {
      at' := SplitMultiToTable(node, rest, v, G, at, q);
    } else {
      at' := SplitTableNode(node, rest, v, G, at, q);
    }
  }

  lemma ValuesUpdate(at: map<Key, Node>, k: Key, n: Node)
    ensures at[k := n].Values <= at.Values + {n}
  {
  }

  /** skit_trie_split_node with coords.n_chars_into_node > 0: the edge is cut first. */
  method SplitInside(node: Node, into: nat, rest: Key, v: Ptr,
      ghost G: Shape, ghost at: map<Key, Node>, ghost q: Key)
    returns (ghost at': map<Key, Node>)
    requires WF(G) && HeapOk(at, G) && q in G && at[q] == node
    requires G[q].edges.Line? && 0 < into < |G[q].edges.str|
    requires |rest| > 0 ==> NoneBelow(G, q + G[q].edges.str[..into] + [rest[0]])
    modifies node
    ensures HeapOk(at', InsertAt(SplitLine(G, q, into), q + G[q].edges.str[..into], rest, v))
    ensures Grown(at, at')
  {
    hide WF, HeapOk, InsertAt, NoneBelow;
    ghost var k := q + G[q].edges.str[..into];
    var node0;
    ghost var at1;
    node0, at1 := CutLine(node, into, G, at, q);
    SplitLineWF(G, q, into);
    if |rest| > 0 { SplitLineNoneBelow(G, q, into, k + [rest[0]]); }
    ValuesUpdate(at, k, node0);
    at' := SplitHere(node0, rest, v, SplitLine(G, q, into), at1, k);
  }

  /** skit_trie_split_node: make room at the coordinates (node, pos, into) and store
      the rest of the key. */
  method SplitNode(node: Node, into: nat, rest: Key, v: Ptr, ghost G: Shape, ghost at: map<Key, Node>, ghost q: Key)
    returns (ghost at': map<Key, Node>)
    requires WF(G) && HeapOk(at, G) && q in G && at[q] == node
    requires into > 0 ==> G[q].edges.Line? && into < |G[q].edges.str|
    requires |rest| > 0 ==> NoneBelow(G, (if into > 0 then q + G[q].edges.str[..into] else q) + [rest[0]])
    modifies node
    ensures into == 0 ==> HeapOk(at', InsertAt(G, q, rest, v))
    ensures into > 0 ==> HeapOk(at', InsertAt(SplitLine(G, q, into), q + G[q].edges.str[..into], rest, v))
    ensures Grown(at, at')
  {
    if into == 0 {
      at' := SplitHere(node, rest, v, G, at, q);
    } else {
      at' := SplitInside(node, into, rest, v, G, at, q);
    }
  }
}