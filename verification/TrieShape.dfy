/** The trie of survival_kit/trie.c as a value: a finite map from the path of
    each node to that node's contents. */
module TrieShape {
  import opened Bytes

  /** SKIT__TRIE_NODE_PREALLOC */
  const PREALLOC := 12

  /** A stored value is an opaque pointer; 0 is NULL. */
  type Ptr = int

  /** The four layouts of a node: no child, one child behind 1 to 12 bytes,
      2 to 12 children indexed by the chars array, a table of 256 children. */
  datatype Edges =
    | Leaf
    | Line(str: Key)
    | Fan(chars: seq<byte>)
    | Table(used: set<byte>)

  datatype Cell = Cell(edges: Edges, val: Option<Ptr>)

  type Shape = map<Key, Cell>

  ghost predicate Distinct(cs: seq<byte>) {
    forall i, j :: 0 <= i < j < |cs| ==> cs[i] != cs[j]
  }

  function Elems(cs: seq<byte>): set<byte> {
    set x | x in cs
  }

  ghost predicate CellOk(c: Cell) {
    match c.edges
    case Leaf => c.val.Some?
    case Line(s) => 1 <= |s| <= PREALLOC
    case Fan(cs) => 2 <= |cs| <= PREALLOC && Distinct(cs)
    case Table(used) => |used| > PREALLOC
  }

  /** The paths of the children of the node at p. */
  ghost predicate IsKid(p: Key, e: Edges, q: Key) {
    match e
    case Leaf => false
    case Line(s) => q == p + s
    case Fan(cs) => |q| == |p| + 1 && p <= q && q[|p|] in cs
    case Table(used) => |q| == |p| + 1 && p <= q && q[|p|] in used
  }

  ghost predicate KidsIn(G: Shape, p: Key)
    requires p in G
  {
    forall q :: IsKid(p, G[p].edges, q) ==> q in G
  }

  /** The key x, which is longer than p, leaves p through one of p's edges. */
  ghost predicate Covers(p: Key, e: Edges, x: Key)
    requires p < x
  {
    match e
    case Leaf => false
    case Line(s) => p + s <= x
    case Fan(cs) => x[|p|] in cs
    case Table(used) => x[|p|] in used
  }

  ghost predicate Covered(G: Shape) {
    forall p, x :: p in G && x in G && p < x ==> Covers(p, G[p].edges, x)
  }

  /** Well-formedness: the root exists, every node has one of the four layouts,
      every edge ends in a node, and every deeper node is below an edge. */
  ghost predicate WF(G: Shape) {
    && [] in G
    && (forall p :: p in G ==> CellOk(G[p]))
    && (forall p :: p in G ==> KidsIn(G, p))
    && Covered(G)
  }

  /** The finite map the trie stands for. */
  function Denote(G: Shape): map<Key, Ptr> {
    map p | p in G && G[p].val.Some? :: G[p].val.value
  }

  /** No node lies at or below q. */
  ghost predicate NoneBelow(G: Shape, q: Key) {
    forall x :: x in G ==> !(q <= x)
  }

  // ---------------------------------------------------------------- growth

  function ChunkLen(str: Key): nat {
    if |str| > PREALLOC then PREALLOC else |str|
  }

  /** skit_trie_finish_tail and skit_trie_append_str: a chain of edges of at most
      12 bytes that spells str below p and ends in a node holding v. */
  function Chain(p: Key, str: Key, v: Ptr): Shape
    decreases |str|
  {
    if |str| == 0 then
      map[p := Cell(Leaf, Some(v))]
    else
      var n := ChunkLen(str);
      Chain(p + str[..n], str[n..], v)[p := Cell(Line(str[..n]), None)]
  }

  /** One more child for the byte c. */
  function AddEdge(e: Edges, c: byte): Edges {
    match e
    case Leaf => Line([c])
    case Line(s) => Fan(s + [c])
    case Fan(cs) =>
      if |cs| < PREALLOC then Fan(cs + [c]) else Table(Elems(cs) + {c})
    case Table(used) => Table(used + {c})
  }

  /** Hang a chain that spells str below the node at q, through a new child. */
  function AddKid(G: Shape, q: Key, str: Key, v: Ptr): Shape
    requires q in G && |str| > 0
  {
    G[q := Cell(AddEdge(G[q].edges, str[0]), G[q].val)] + Chain(q + [str[0]], str[1..], v)
  }

  /** Cut the edge below p after its first i bytes. */
  function SplitLine(G: Shape, p: Key, i: nat): Shape
    requires p in G && G[p].edges.Line? && i < |G[p].edges.str|
  {
    var s := G[p].edges.str;
    G[p := Cell(Line(s[..i]), G[p].val)][p + s[..i] := Cell(Line(s[i..]), None)]
  }

  function SetVal(G: Shape, p: Key, v: Ptr): Shape
    requires p in G
  {
    G[p := Cell(G[p].edges, Some(v))]
  }

  /** skit_trie_split_node with coords.n_chars_into_node == 0. */
  function InsertAt(G: Shape, q: Key, str: Key, v: Ptr): Shape
    requires q in G
  {
    if |str| == 0 then SetVal(G, q, v)
    else if G[q].edges.Line? && |G[q].edges.str| > 1 then AddKid(SplitLine(G, q, 1), q, str, v)
    else AddKid(G, q, str, v)
  }

  // ------------------------------------------------------------- its proofs

  lemma {:induction false} ChainShape(p: Key, str: Key, v: Ptr)
    ensures p in Chain(p, str, v)
    ensures forall x :: x in Chain(p, str, v) ==> p <= x <= p + str
    decreases |str|
  {
    if |str| == 0 {
    } else {
      var n := ChunkLen(str);
      ChainShape(p + str[..n], str[n..], v);
      assert p + str[..n] + str[n..] == p + str;
    }
  }

  lemma {:induction false} ChainOk(p: Key, str: Key, v: Ptr)
    ensures var C := Chain(p, str, v);
            (forall x :: x in C ==> CellOk(C[x])) && (forall x :: x in C ==> KidsIn(C, x))
    decreases |str|
  {
    var C := Chain(p, str, v);
    if |str| == 0 {
    } else {
      var n := ChunkLen(str);
      var D := Chain(p + str[..n], str[n..], v);
      assert C == D[p := Cell(Line(str[..n]), None)];
      ChainOk(p + str[..n], str[n..], v);
      ChainShape(p + str[..n], str[n..], v);
      forall x | x in C ensures CellOk(C[x]) && KidsIn(C, x) {
        if x != p { assert KidsIn(D, x); }
      }
    }
  }

  lemma {:induction false} ChainCovered(p: Key, str: Key, v: Ptr)
    ensures Covered(Chain(p, str, v))
    decreases |str|
  {
    var C := Chain(p, str, v);
    if |str| == 0 {
    } else {
      var n := ChunkLen(str);
      var D := Chain(p + str[..n], str[n..], v);
      assert C == D[p := Cell(Line(str[..n]), None)];
      ChainCovered(p + str[..n], str[n..], v);
      ChainShape(p + str[..n], str[n..], v);
    }
  }

  lemma {:induction false} ChainVals(p: Key, str: Key, v: Ptr)
    ensures var C := Chain(p, str, v);
            forall x :: x in C ==> C[x].val == if x == p + str then Some(v) else None
    ensures p + str in Chain(p, str, v)
    decreases |str|
  {
    if |str| == 0 {
      assert p + str == p;
    } else {
      var n := ChunkLen(str);
      ChainVals(p + str[..n], str[n..], v);
      assert p + str[..n] + str[n..] == p + str;
    }
  }

  /** Where a chain is cut: edge number i holds the bytes from 12 * i on, 12 of them or as many
      as are left. */
  lemma {:induction false} ChainCuts(p: Key, str: Key, v: Ptr, i: nat)
    requires 12 * i < |str|
    ensures var n := if 12 * i + 12 < |str| then 12 * i + 12 else |str|;
            var x := p + str[..12 * i];
            x in Chain(p, str, v) && Chain(p, str, v)[x] == Cell(Line(str[12 * i..n]), None)
    decreases i
  {
    if i == 0 {
      assert p + str[..0] == p;
    } else {
      var x := p + str[..12 * i];
      var q, rest := p + str[..12], str[12..];
      ChainCuts(q, rest, v, i - 1);
      assert q + rest[..12 * (i - 1)] == x && x != p;
      var n := if 12 * i + 12 < |str| then 12 * i + 12 else |str|;
      assert rest[12 * (i - 1)..n - 12] == str[12 * i..n];
    }
  }

  /** How many bytes or children the four layouts hold. */
  lemma LayoutSizes(G: Shape, p: Key)
    requires WF(G) && p in G
    ensures match G[p].edges
            case Leaf => G[p].val.Some?
            case Line(str) => 1 <= |str| <= 12
            case Fan(chars) => 2 <= |Elems(chars)| == |chars| <= 12
            case Table(used) => |used| >= 13
  {
    assert CellOk(G[p]);
    if G[p].edges.Fan? { AllElems(G[p].edges.chars, |G[p].edges.chars|); }
  }

  lemma {:induction false} AllElems(cs: seq<byte>, n: nat)
    requires Distinct(cs) && n <= |cs|
    ensures |Elems(cs[..n])| == n && (n == |cs| ==> |Elems(cs)| == n)
    decreases n
  {
    if n == 0 {
      assert Elems(cs[..0]) == {};
    } else {
      AllElems(cs, n - 1);
      assert Elems(cs[..n]) == Elems(cs[..n - 1]) + {cs[n - 1]};
      assert cs[n - 1] !in cs[..n - 1];
    }
    if n == |cs| { assert cs[..n] == cs; }
  }

  /** A key that runs through q leaves every ancestor of q the way q does. */
  lemma CoversThrough(p: Key, e: Edges, q: Key, x: Key)
    requires p < q <= x && Covers(p, e, q)
    ensures Covers(p, e, x)
  {
  }

  lemma AddKidWF(G: Shape, q: Key, str: Key, v: Ptr)
    requires WF(G) && q in G && |str| > 0
    requires G[q].edges.Line? ==> |G[q].edges.str| == 1
    requires NoneBelow(G, q + [str[0]])
    ensures WF(AddKid(G, q, str, v))
  {
    AddKidCells(G, q, str, v);
    AddKidCovered(G, q, str, v);
  }

  lemma EdgeUnused(G: Shape, q: Key, c: byte)
    requires WF(G) && q in G && NoneBelow(G, q + [c])
    ensures match G[q].edges
            case Leaf => true
            case Line(s) => s[0] != c
            case Fan(cs) => c !in cs
            case Table(used) => c !in used
  {
    var e := G[q].edges;
    assert KidsIn(G, q) && CellOk(G[q]);
    match e
    case Leaf =>
    case Line(s) =>
      assert IsKid(q, e, q + s);
    case Fan(cs) =>
      assert c in cs ==> IsKid(q, e, q + [c]);
    case Table(used) =>
      assert c in used ==> IsKid(q, e, q + [c]);
  }

  lemma FanToTableSize(cs: seq<byte>, c: byte)
    requires Distinct(cs) && c !in cs
    ensures |Elems(cs) + {c}| == |cs| + 1
  {
    DistinctSize(cs);
  }

  lemma {:induction false} DistinctSize(cs: seq<byte>)
    requires Distinct(cs)
    ensures |Elems(cs)| == |cs|
  {
    if |cs| == 0 {
    } else {
      var r := cs[..|cs| - 1];
      DistinctSize(r);
      var last := cs[|cs| - 1];
      assert cs == r + [last];
      assert last !in Elems(r);
      assert Elems(cs) == Elems(r) + {last};
    }
  }

  lemma AddEdgeOk(G: Shape, q: Key, c: byte)
    requires WF(G) && q in G && NoneBelow(G, q + [c])
    requires G[q].edges.Line? ==> |G[q].edges.str| == 1
    ensures CellOk(Cell(AddEdge(G[q].edges, c), G[q].val))
    ensures forall x :: IsKid(q, AddEdge(G[q].edges, c), x) ==> IsKid(q, G[q].edges, x) || x == q + [c]
    ensures forall x :: q < x && (Covers(q, G[q].edges, x) || x[|q|] == c) ==> Covers(q, AddEdge(G[q].edges, c), x)
  {
    hide NoneBelow;
    EdgeUnused(G, q, c);
    assert CellOk(G[q]);
    var e := G[q].edges;
    if e.Fan? && |e.chars| == PREALLOC { FanToTableSize(e.chars, c); }
  }

  lemma AddKidCells(G: Shape, q: Key, str: Key, v: Ptr)
    requires WF(G) && q in G && |str| > 0
    requires G[q].edges.Line? ==> |G[q].edges.str| == 1
    requires NoneBelow(G, q + [str[0]])
    ensures var H := AddKid(G, q, str, v);
            [] in H && (forall p :: p in H ==> CellOk(H[p])) && (forall p :: p in H ==> KidsIn(H, p))
  {
    var H := AddKid(G, q, str, v);
    var k := q + [str[0]];
    var C := Chain(k, str[1..], v);
    ChainOk(k, str[1..], v);
    ChainShape(k, str[1..], v);
    AddEdgeOk(G, q, str[0]);
    forall p | p in H ensures CellOk(H[p]) && KidsIn(H, p) {
      if p in C {
        assert KidsIn(C, p);
      } else {
        assert KidsIn(G, p);
      }
    }
  }

  lemma AddKidCovered(G: Shape, q: Key, str: Key, v: Ptr)
    requires WF(G) && q in G && |str| > 0
    requires G[q].edges.Line? ==> |G[q].edges.str| == 1
    requires NoneBelow(G, q + [str[0]])
    ensures Covered(AddKid(G, q, str, v))
  {
    var H := AddKid(G, q, str, v);
    var k := q + [str[0]];
    var C := Chain(k, str[1..], v);
    ChainCovered(k, str[1..], v);
    ChainShape(k, str[1..], v);
    AddEdgeOk(G, q, str[0]);
    forall p, x | p in H && x in H && p < x ensures Covers(p, H[p].edges, x) {
      if p in C {
        assert k <= p <= x;
        assert x in C;
      } else if x in C {
        assert k <= x;
        if |p| < |q| {
          assert p < q;
          CoversThrough(p, G[p].edges, q, x);
        } else if |p| == |q| {
          assert p == q;
        } else {
          assert false;
        }
      }
    }
  }

  lemma AddKidDenotes(G: Shape, q: Key, str: Key, v: Ptr)
    requires q in G && |str| > 0 && NoneBelow(G, q + [str[0]])
    ensures Denote(AddKid(G, q, str, v)) == Denote(G)[q + str := v]
  {
    var k := q + [str[0]];
    ChainVals(k, str[1..], v);
    ChainShape(k, str[1..], v);
    assert k + str[1..] == q + str;
  }

  lemma SplitLineWF(G: Shape, p: Key, i: nat)
    requires WF(G) && p in G && G[p].edges.Line? && 0 < i < |G[p].edges.str|
    ensures WF(SplitLine(G, p, i))
    ensures Denote(SplitLine(G, p, i)) == Denote(G)
  {
    var s := G[p].edges.str;
    var H := SplitLine(G, p, i);
    var q := p + s[..i];
    assert p < q < p + s;
    assert q + s[i..] == p + s;
    SplitPointFree(G, p, i);
    assert CellOk(G[p]);
    assert IsKid(p, G[p].edges, p + s) && KidsIn(G, p);
    forall a | a in H ensures CellOk(H[a]) && KidsIn(H, a) {
      if a != p && a != q { assert KidsIn(G, a); }
    }
    SplitLineCovered(G, p, i);
    SplitLineDenotes(G, p, i);
  }

  lemma SplitLineDenotes(G: Shape, p: Key, i: nat)
    requires p in G && G[p].edges.Line? && 0 < i < |G[p].edges.str|
    requires p + G[p].edges.str[..i] !in G
    ensures Denote(SplitLine(G, p, i)) == Denote(G)
  {
    assert p < p + G[p].edges.str[..i];
  }

  lemma BelowLine(G: Shape, p: Key, x: Key)
    requires WF(G) && p in G && x in G && p < x && G[p].edges.Line?
    ensures p + G[p].edges.str <= x
  {
    assert Covers(p, G[p].edges, x);
  }

  lemma SplitPointFree(G: Shape, p: Key, i: nat)
    requires WF(G) && p in G && G[p].edges.Line? && 0 < i < |G[p].edges.str|
    ensures p + G[p].edges.str[..i] !in G
  {
    var q := p + G[p].edges.str[..i];
    assert p < q;
    if q in G {
      BelowLine(G, p, q);
    }
  }

  lemma SplitLineCovered(G: Shape, p: Key, i: nat)
    requires WF(G) && p in G && G[p].edges.Line? && 0 < i < |G[p].edges.str|
    ensures Covered(SplitLine(G, p, i))
  {
    var s := G[p].edges.str;
    var H := SplitLine(G, p, i);
    var q := p + s[..i];
    assert q + s[i..] == p + s;
    forall a, x | a in H && x in H && a < x ensures Covers(a, H[a].edges, x) {
      if a == q {
        assert x in G && p < x;
        assert Covers(p, G[p].edges, x);
      } else if x == q {
        if |a| < |p| {
          assert a < p;
          CoversThrough(a, G[a].edges, p, q);
        } else if |a| == |p| {
          assert a == p;
        } else {
          BelowLine(G, p, a);
          assert false;
        }
      } else if a == p {
        assert Covers(p, G[p].edges, x);
      }
    }
  }

  /** Every way of inserting below a node keeps the tree well formed and adds
      exactly one pair to the map, for strings of any length. */
  lemma InsertAtCorrect(G: Shape, q: Key, str: Key, v: Ptr)
    requires WF(G) && q in G
    requires |str| > 0 ==> NoneBelow(G, q + [str[0]])
    ensures WF(InsertAt(G, q, str, v))
    ensures Denote(InsertAt(G, q, str, v)) == Denote(G)[q + str := v]
  {
    assert CellOk(G[q]);
    if |str| == 0 {
      assert q + str == q;
      SetValCorrect(G, q, v);
    } else if G[q].edges.Line? && |G[q].edges.str| > 1 {
      SplitLineWF(G, q, 1);
      SplitLineNoneBelow(G, q, 1, q + [str[0]]);
      AddKidWF(SplitLine(G, q, 1), q, str, v);
      AddKidDenotes(SplitLine(G, q, 1), q, str, v);
    } else {
      AddKidWF(G, q, str, v);
      AddKidDenotes(G, q, str, v);
    }
  }

  lemma SetValCorrect(G: Shape, p: Key, v: Ptr)
    requires WF(G) && p in G
    ensures WF(SetVal(G, p, v))
    ensures Denote(SetVal(G, p, v)) == Denote(G)[p := v]
  {
    var H := SetVal(G, p, v);
    forall a | a in H ensures CellOk(H[a]) && KidsIn(H, a) {
      assert CellOk(G[a]) && KidsIn(G, a);
    }
    forall a, x | a in H && x in H && a < x ensures Covers(a, H[a].edges, x) {
      assert Covers(a, G[a].edges, x);
    }
  }

  lemma SplitLineNoneBelow(G: Shape, p: Key, i: nat, k: Key)
    requires WF(G) && p in G && G[p].edges.Line? && 0 < i < |G[p].edges.str|
    requires NoneBelow(G, k)
    ensures NoneBelow(SplitLine(G, p, i), k)
  {
    var s := G[p].edges.str;
    assert IsKid(p, G[p].edges, p + s) && KidsIn(G, p);
    assert p + s[..i] <= p + s;
  }
}
