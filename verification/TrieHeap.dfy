/** skit_trie itself: lookups that read the nodes and write only the key buffer, and
    sets that update the nodes in place. */
module TrieHeap {
  import opened Bytes
  import opened TrieShape
  import opened TrieLookup
  import opened TrieOps
  import opened TrieText
  import opened TrieNodes

  /** skit_trie_coords */
  datatype NodeCoords = NodeCoords(node: Node?, pos: nat, into: nat, stopped: bool)

  lemma LcpIs(x: Key, key: Key, n: nat, cs: bool)
    requires n <= |x| && n <= |key|
    requires forall i :: 0 <= i < n ==> SameChar(key[i], x[i], cs)
    requires n == |x| || n == |key| || !SameChar(key[n], x[n], cs)
    ensures Lcp(x, key, cs) == n
  {
  }

  class Trie {
    var length: nat
    var key_return_buf: array<byte>
    var root: Node?
    var iterator_count: nat
    ghost var G: Shape
    ghost var at: map<Key, Node>

    /** The state of the trie as a value. */
    ghost function Abs(): State
      reads this
    {
      State(G, length, key_return_buf.Length, iterator_count)
    }

    ghost predicate Valid()
      reads this, at.Values
    {
      && Inv(Abs())
      && HeapOk(at, G)
      && (root == null <==> G == map[])
      && (root != null ==> [] in at && root == at[[]])
    }

    /** skit_trie_ctor */
    constructor ()
      ensures Valid() && Abs() == EMPTY && at == map[] && fresh(key_return_buf)
    {
      length, root, iterator_count := 0, null, 0;
      key_return_buf := new byte[0];
      G, at := map[], map[];
    }

    /** skit_trie_accumulate_key */
    method Accumulate(pos: nat, frag: Key)
      requires pos + |frag| <= key_return_buf.Length
      modifies key_return_buf
      ensures key_return_buf[..] == Patch(old(key_return_buf[..]), pos, frag)
    {
      forall i | 0 <= i < |frag| {
        key_return_buf[pos + i] := frag[i];
      }
    }

    ghost predicate Points(nc: NodeCoords, c: Coords)
      reads this
    {
      c.path in at && nc == NodeCoords(at[c.path], c.pos, c.into, c.stopped)
    }

    /** The scan over a linear edge in skit_trie_next_node. */
    method ScanLine(current: Node, key: Key, pos: nat, cs: bool) returns (i: nat)
      requires pos <= |key| && current.chars_len <= |current.chars|
      ensures i == Lcp(current.chars[..current.chars_len], key[pos..], cs)
    {
      i := 0;
      while i < current.chars_len && pos + i < |key| && SameChar(key[pos + i], current.chars[i], cs)
        invariant i <= current.chars_len && pos + i <= |key|
        invariant forall j :: 0 <= j < i ==> SameChar(key[pos..][j], current.chars[..current.chars_len][j], cs)
      {
        i := i + 1;
      }
      LcpIs(current.chars[..current.chars_len], key[pos..], i, cs);
    }

    /** The scan over the chars array of a multi node. */
    method ScanChars(current: Node, c: byte) returns (i: nat)
      requires current.chars_len <= |current.chars|
      ensures i <= current.chars_len
      ensures i < current.chars_len ==> current.chars[i] == c
      ensures i == current.chars_len ==> c !in current.chars[..current.chars_len]
    {
      i := 0;
      while i < current.chars_len && current.chars[i] != c
        invariant i <= current.chars_len && c !in current.chars[..i]
      {
        i := i + 1;
      }
    }

    /** skit_trie_next_node on a node with one child. */
    method NextLine(current: Node, key: Key, pos: nat, cs: bool) returns (nc: NodeCoords)
      requires pos <= |key| && |current.kids| == 1 && current.chars_len <= |current.chars|
      requires pos + current.chars_len <= key_return_buf.Length
      modifies key_return_buf
      ensures var i := Lcp(current.chars[..current.chars_len], key[pos..], cs);
              nc == if i < current.chars_len then NodeCoords(current, pos + i, i, true)
                    else NodeCoords(current.kids[0], pos + i, 0, false)
      ensures var i := Lcp(current.chars[..current.chars_len], key[pos..], cs);
              key_return_buf[..] == Patch(old(key_return_buf[..]), pos, current.chars[..i])
    {
      var i := ScanLine(current, key, pos, cs);
      Accumulate(pos, current.chars[..i]);
      if i < current.chars_len {
        nc := NodeCoords(current, pos + i, i, true);
      } else {
        nc := NodeCoords(current.kids[0], pos + i, 0, false);
      }
    }

    /** skit_trie_next_node on a node with 2 to 12 children. */
    method NextMulti(current: Node, key: Key, pos: nat, mode: Mode) returns (nc: NodeCoords, ghost i: nat)
      requires pos <= |key| && |current.kids| == current.chars_len <= |current.chars|
      requires pos < key_return_buf.Length
      modifies key_return_buf
      ensures pos == |key| ==> nc == NodeCoords(current, pos, 0, true)
      ensures pos < |key| && Adjust(key[pos], mode) !in current.chars[..current.chars_len] ==>
              nc == NodeCoords(current, pos, 0, true)
      ensures pos < |key| && Adjust(key[pos], mode) in current.chars[..current.chars_len] ==>
              i < current.chars_len && current.chars[i] == Adjust(key[pos], mode) &&
              nc == NodeCoords(current.kids[i], pos + 1, 0, false)
      ensures key_return_buf[..] ==
              if nc.stopped then old(key_return_buf[..])
              else Patch(old(key_return_buf[..]), pos, [Adjust(key[pos], mode)])
    {
      i := 0;
      if pos >= |key| {
        nc := NodeCoords(current, pos, 0, true);
        return;
      }
      var c := Adjust(key[pos], mode);
      var k := ScanChars(current, c);
      i := k;
      if k == current.chars_len {
        nc := NodeCoords(current, pos, 0, true);
        return;
      }
      Accumulate(pos, [current.chars[k]]);
      nc := NodeCoords(current.kids[k], pos + 1, 0, false);
    }

    /** skit_trie_next_node on a table. */
    method NextTable(current: Node, key: Key, pos: nat, mode: Mode) returns (nc: NodeCoords)
      requires pos <= |key| && |current.table| == 256
      requires pos < |key| && current.table[Adjust(key[pos], mode)] != null ==> pos < key_return_buf.Length
      modifies key_return_buf
      ensures nc == if pos < |key| && current.table[Adjust(key[pos], mode)] != null
                    then NodeCoords(current.table[Adjust(key[pos], mode)], pos + 1, 0, false)
                    else NodeCoords(current, pos, 0, true)
      ensures key_return_buf[..] ==
              if nc.stopped then old(key_return_buf[..]) else Patch(old(key_return_buf[..]), pos, [key[pos]])
    {
      if pos >= |key| {
        nc := NodeCoords(current, pos, 0, true);
        return;
      }
      var c := Adjust(key[pos], mode);
      var nextNode := current.table[c];
      if nextNode == null {
        nc := NodeCoords(current, pos, 0, true);
        return;
      }
      Accumulate(pos, [key[pos]]);
      nc := NodeCoords(nextNode, pos + 1, 0, false);
    }

    /** What the fields of a node say about the trie, and that the paths of its
        children fit into the key buffer. */
    lemma NodeIs(p: Key)
      requires Valid() && p in G
      ensures p in at && Matches(at[p], G[p], p, at) && CellOk(G[p])
      ensures match G[p].edges
              case Leaf => true
              case Line(s) => |p| + |s| <= key_return_buf.Length
              case Fan(cs) => |p| < key_return_buf.Length
              case Table(used) => |p| < key_return_buf.Length
    {
      assert CellOk(G[p]) && KidsIn(G, p);
      match G[p].edges
      case Leaf =>
      case Line(s) => assert IsKid(p, G[p].edges, p + s);
      case Fan(cs) => assert IsKid(p, G[p].edges, p + [cs[0]]);
      case Table(used) =>
        var c :| c in used;
        assert IsKid(p, G[p].edges, p + [c]);
    }

    ghost predicate LineStep(n: Node, p: Key, key: Key, mode: Mode)
      requires p in G && |p| <= |key|
      reads this, n
    {
      && |n.kids| == 1 && n.chars_len <= |n.chars| && |p| + n.chars_len <= key_return_buf.Length
      && var i := Lcp(n.chars[..n.chars_len], key[|p|..], mode.Sensitive?);
         && Points(if i < n.chars_len then NodeCoords(n, |p| + i, i, true)
                   else NodeCoords(n.kids[0], |p| + i, 0, false), Next(G, p, key, mode))
         && StepBytes(G, p, key, mode) == n.chars[..i]
    }

    ghost predicate MultiStep(n: Node, p: Key, key: Key, mode: Mode)
      requires p in G && |p| <= |key|
      reads this, n
    {
      && G[p].edges.Fan? && |n.kids| == n.chars_len <= |n.chars| && |p| < key_return_buf.Length
      && (|p| == |key| || Adjust(key[|p|], mode) !in n.chars[..n.chars_len] ==>
            Points(NodeCoords(n, |p|, 0, true), Next(G, p, key, mode)))
      && (forall i :: 0 <= i < n.chars_len && |p| < |key| && n.chars[i] == Adjust(key[|p|], mode) ==>
            Points(NodeCoords(n.kids[i], |p| + 1, 0, false), Next(G, p, key, mode)))
    }

    ghost predicate TableStep(n: Node, p: Key, key: Key, mode: Mode)
      requires p in G && |p| <= |key|
      reads this, n
    {
      && G[p].edges.Table? && |n.table| == 256 && |p| < key_return_buf.Length
      && Points(if |p| < |key| && n.table[Adjust(key[|p|], mode)] != null
                then NodeCoords(n.table[Adjust(key[|p|], mode)], |p| + 1, 0, false)
                else NodeCoords(n, |p|, 0, true), Next(G, p, key, mode))
    }

    lemma LineSteps(p: Key, key: Key, mode: Mode)
      requires Valid() && p in G && |p| <= |key| && G[p].edges.Line?
      ensures p in at && LineStep(at[p], p, key, mode)
    {
      hide Trie.Valid, CellOk;
      NodeIs(p);
      assert at[p].chars[..at[p].chars_len] == G[p].edges.str;
    }

    lemma MultiSteps(p: Key, key: Key, mode: Mode)
      requires Valid() && p in G && |p| <= |key| && G[p].edges.Fan?
      ensures p in at && MultiStep(at[p], p, key, mode)
    {
      hide Trie.Valid, CellOk;
      NodeIs(p);
      var cs := G[p].edges.chars;
      assert at[p].chars[..at[p].chars_len] == cs;
      forall i | 0 <= i < at[p].chars_len && |p| < |key| && at[p].chars[i] == Adjust(key[|p|], mode)
        ensures Points(NodeCoords(at[p].kids[i], |p| + 1, 0, false), Next(G, p, key, mode))
      {
        assert cs[i] == at[p].chars[..at[p].chars_len][i];
        assert Next(G, p, key, mode) == Coords(p + [cs[i]], |p| + 1, 0, false);
      }
    }

    /** The branch that skit_trie_next_node takes on a node agrees with its layout. */
    lemma StepIs(n: Node, p: Key, key: Key, mode: Mode)
      requires Valid() && p in G && at[p] == n && |p| <= |key|
      ensures n.nodes_len == 0 ==> G[p].edges.Leaf? && Points(NodeCoords(n, |p|, 0, true), Next(G, p, key, mode))
      ensures n.nodes_len == 1 ==> LineStep(n, p, key, mode)
      ensures n.nodes_len > 1 && n.chars_len <= PREALLOC ==> MultiStep(n, p, key, mode)
      ensures n.nodes_len > 1 && n.chars_len > PREALLOC ==> TableStep(n, p, key, mode)
    {
      NodeIs(p);
      match G[p].edges
      case Leaf =>
      case Line(s) => LineSteps(p, key, mode);
      case Fan(cs) => MultiSteps(p, key, mode);
      case Table(used) => TableSteps(p, key, mode);
    }

    lemma TableSteps(p: Key, key: Key, mode: Mode)
      requires Valid() && p in G && |p| <= |key| && G[p].edges.Table?
      ensures p in at && TableStep(at[p], p, key, mode)
    {
      hide Trie.Valid, CellOk;
      NodeIs(p);
    }

    /** Writing the key buffer does not disturb the trie. */
    twostate lemma StillValid()
      requires old(Valid()) && unchanged(this) && forall n :: n in at.Values ==> unchanged(n)
      ensures Valid()
    {
    }

    /** The branch conditions of skit_trie_next_node and what each branch needs. */
    ghost predicate Steps(n: Node, p: Key, key: Key, mode: Mode)
      requires p in G && |p| <= |key|
      reads this, n
    {
      && (n.nodes_len == 0 ==> G[p].edges.Leaf? && Points(NodeCoords(n, |p|, 0, true), Next(G, p, key, mode)))
      && (n.nodes_len == 1 ==> LineStep(n, p, key, mode))
      && (n.nodes_len > 1 && n.chars_len <= PREALLOC ==> MultiStep(n, p, key, mode))
      && (n.nodes_len > 1 && n.chars_len > PREALLOC ==> TableStep(n, p, key, mode))
    }

    /** skit_trie_next_node */
    method NextNode(current: Node, key: Key, pos: nat, mode: Mode, ghost p: Key) returns (nc: NodeCoords)
      requires p in G && pos == |p| <= |key| && Steps(current, p, key, mode)
      requires pos + |StepBytes(G, p, key, mode)| <= key_return_buf.Length
      modifies key_return_buf
      ensures Points(nc, Next(G, p, key, mode))
      ensures key_return_buf[..] == Patch(old(key_return_buf[..]), pos, StepBytes(G, p, key, mode))
    {
      PatchNothing(key_return_buf[..], pos);
      if current.nodes_len == 0 {
        nc := NodeCoords(current, pos, 0, true);
      } else if current.nodes_len == 1 {
        nc := NextLine(current, key, pos, mode.Sensitive?);
      } else if current.chars_len <= PREALLOC {
        ghost var i;
        nc, i := NextMulti(current, key, pos, mode);
      } else {
        nc := NextTable(current, key, pos, mode);
      }
    }

    lemma StepsHold(n: Node, p: Key, key: Key, mode: Mode)
      requires Valid() && p in G && at[p] == n && |p| <= |key|
      ensures Steps(n, p, key, mode)
    {
      StepIs(n, p, key, mode);
    }

    // ------------------------------------------------------------ skit_trie_find

    lemma ExactAgrees(nc: NodeCoords, c: Coords, len: nat)
      requires Valid() && Points(nc, c)
      ensures nc.node.have_value == G[c.path].val.Some?
      ensures nc.node.have_value ==> nc.node.value == G[c.path].val.value
    {
      assert Matches(at[c.path], G[c.path], c.path, at);
    }

    lemma HasRoom(p: Key)
      requires Valid() && p in G
      ensures WF(G) && Roomy(G, key_return_buf.Length) && at.Keys == G.Keys
    {
    }

    lemma Rooted()
      requires Valid() && root != null
      ensures Inv(Abs()) && WF(G) && G != map[] && [] in G && [] in at && at[[]] == root
    {
    }

    /** One step of a search, in a valid trie. */
    method Advance(nc: NodeCoords, key: Key, mode: Mode, ghost p: Key) returns (nc': NodeCoords)
      requires Valid() && p in G && nc.node == at[p] && nc.pos == |p| <= |key|
      modifies key_return_buf
      ensures Valid() && Points(nc', Next(G, p, key, mode))
      ensures Roomy(G, key_return_buf.Length) &&
              key_return_buf[..] == AfterStep(G, p, key, mode, old(key_return_buf[..]))
      ensures nc'.node != null && nc'.node.have_value == G[Next(G, p, key, mode).path].val.Some?
    {
      hide WF;
      HasRoom(p);
      StepFits(G, p, key, mode, key_return_buf.Length);
      StepsHold(nc.node, p, key, mode);
      nc' := NextNode(nc.node, key, nc.pos, mode, p);
      StillValid();
      ExactAgrees(nc', Next(G, p, key, mode), |key|);
    }

    /** The loop of skit_trie_find. */
    method FindSensitive(key: Key) returns (nc: NodeCoords)
      requires Valid() && root != null
      modifies key_return_buf
      ensures Valid() && Points(nc, Walk(G, [], key)) && Roomy(G, key_return_buf.Length)
      ensures key_return_buf[..] == AfterWalk(G, [], key, old(key_return_buf[..]))
    {
      hide Trie.Valid, WF, AfterStep;
      nc := NodeCoords(root, 0, 0, false);
      ghost var p: Key := [];
      Rooted();
      HasRoom(p);
      while true
        invariant Valid() && p in G && p in at && nc.node == at[p] && nc.pos == |p| <= |key|
        invariant Walk(G, [], key) == Walk(G, p, key)
        invariant Roomy(G, key_return_buf.Length)
        invariant AfterWalk(G, [], key, old(key_return_buf[..])) == AfterWalk(G, p, key, key_return_buf[..])
        decreases |key| - nc.pos
      {
        NextOk(G, p, key, Sensitive);
        nc := Advance(nc, key, Sensitive, p);
        if nc.stopped {
          break;
        }
        if nc.pos == |key| && nc.node.have_value {
          break;
        }
        p := Next(G, p, key, Sensitive).path;
      }
    }

    /** skit_trie_find_icase_r */
    method TryFold(key: Key, nc: NodeCoords, mode: Mode, ghost p: Key) returns (nc': NodeCoords)
      requires Valid() && p in G && nc.node == at[p] && nc.pos == |p| <= |key|
      modifies key_return_buf
      ensures Valid() && Points(nc', Try(G, p, key, mode)) && Roomy(G, key_return_buf.Length)
      ensures key_return_buf[..] == AfterTry(G, p, key, mode, old(key_return_buf[..]))
      ensures nc'.node != null && nc'.node.have_value == G[Try(G, p, key, mode).path].val.Some?
      decreases |key| - |p|, 0
    {
      hide Trie.Valid, WF, AfterStep;
      HasRoom(p);
      NextOk(G, p, key, mode);
      ghost var c, t := Next(G, p, key, mode), Try(G, p, key, mode);
      assert t == if c.stopped || Exact(G, c, |key|) then c else WalkFold(G, c.path, key);
      nc' := Advance(nc, key, mode, p);
      if !nc'.stopped && !(nc'.pos == |key| && nc'.node.have_value) {
        nc' := FindFold(key, nc', c.path);
        assert Points(nc', t);
      }
    }

    /** skit_trie_find_icase */
    method FindFold(key: Key, nc: NodeCoords, ghost p: Key) returns (nc': NodeCoords)
      requires Valid() && p in G && nc.node == at[p] && nc.pos == |p| <= |key|
      modifies key_return_buf
      ensures Valid() && Points(nc', WalkFold(G, p, key)) && Roomy(G, key_return_buf.Length)
      ensures key_return_buf[..] == AfterFold(G, p, key, old(key_return_buf[..]))
      ensures nc'.node != null && nc'.node.have_value == G[WalkFold(G, p, key).path].val.Some?
      decreases |key| - |p|, 1
    {
      hide Trie.Valid, WF, AfterTry;
      HasRoom(p);
      ghost var u, l := Try(G, p, key, TryUpper), Try(G, p, key, TryLower);
      ghost var w := WalkFold(G, p, key);
      assert w == if u.stopped && !Exact(G, u, |key|) then (if u.pos > l.pos then u else l) else u;
      var a := TryFold(key, nc, TryUpper, p);
      if a.stopped && !(a.pos == |key| && a.node.have_value) {
        var b := TryFold(key, nc, TryLower, p);
        nc' := if a.pos > b.pos then a else b;
        assert Points(nc', w);
      } else {
        nc' := a;
        assert Points(nc', w);
      }
    }

    /** skit_trie_find on a trie that has a root. */
    method FindNode(key: Key, cs: bool) returns (nc: NodeCoords)
      requires Valid() && root != null
      modifies key_return_buf
      ensures Valid() && Points(nc, Find(G, key, cs)) && Roomy(G, key_return_buf.Length)
      ensures key_return_buf[..] == AfterFind(G, key, cs, old(key_return_buf[..]))
      ensures nc.node != null && nc.node.have_value == G[Find(G, key, cs).path].val.Some?
      ensures nc.node.have_value ==> nc.node.value == G[Find(G, key, cs).path].val.value
    {
      if !cs {
        nc := FindFold(key, NodeCoords(root, 0, 0, false), []);
      } else {
        nc := FindSensitive(key);
      }
      ExactAgrees(nc, Find(G, key, cs), |key|);
    }

    // ----------------------------------------------------------- get and set

    /** skit_trie_get: the key found and its value, or NULL and NULL. */
    method Get(key: Key, fl: Flags) returns (ret: Option<Key>, value: Ptr)
      requires Valid()
      modifies key_return_buf
      ensures Valid()
      ensures TrieOps.Get(Abs(), key, fl) == if ret.Some? then Some(value) else None
      ensures ret == None ==> value == 0
      ensures ret == if G == map[] then None else FoundText(G, key, !fl.icase)
    {
      if root == null {
        return None, 0;
      }
      ghost var b := key_return_buf[..];
      var nc := FindNode(key, !fl.icase);
      FindText(G, key, !fl.icase, b);
      if nc.pos == |key| && nc.node.have_value {
        return Some(key_return_buf[..|key|]), nc.node.value;
      }
      return None, 0;
    }

    /** Make the key buffer at least n bytes long, keeping what it holds. */
    method GrowBuffer(n: nat)
      modifies this`key_return_buf
      ensures key_return_buf.Length == Max(old(key_return_buf.Length), n)
      ensures key_return_buf[..old(key_return_buf.Length)] == old(key_return_buf[..])
      ensures key_return_buf == old(key_return_buf) || fresh(key_return_buf)
    {
      if n > key_return_buf.Length {
        var bigger := new byte[n];
        forall i | 0 <= i < key_return_buf.Length {
          bigger[i] := key_return_buf[i];
        }
        key_return_buf := bigger;
      }
    }

    /** A longer key buffer does not disturb the trie. */
    twostate lemma LongerValid()
      requires old(Valid()) && key_return_buf.Length >= old(key_return_buf.Length)
      requires root == old(root) && length == old(length) && iterator_count == old(iterator_count)
      requires G == old(G) && at == old(at) && forall n :: n in at.Values ==> unchanged(n)
      ensures Valid()
    {
      assert old(HeapOk(at, G));
    }

    /** Copy the rest of the key into the key buffer. */
    method RecordRest(key: Key, pos: nat)
      requires pos <= |key| <= key_return_buf.Length
      modifies key_return_buf
      ensures key_return_buf[..|key|] == old(key_return_buf[..pos]) + key[pos..]
    {
      Accumulate(pos, key[pos..]);
    }

    static lemma InsertNonempty(G: Shape, c: Coords, key: Key, v: Ptr)
      requires c.path in G && c.pos <= |key|
      requires c.into > 0 ==> G[c.path].edges.Line? && c.into < |G[c.path].edges.str|
      ensures c.path in Insert(G, c, key, v)
    {
    }

    /** Split a node to insert a new value. */
    method SplitAt(nc: NodeCoords, key: Key, v: Ptr, ghost c: Coords, ghost cs: bool)
      returns (ghost at': map<Key, Node>)
      requires Valid() && WF(G) && c.pos <= |key|
      requires Placed(G, key, c, cs) && Points(nc, c)
      requires c.pos < |key| ==> NoneBelow(G, Reached(G, c) + [key[c.pos]])
      modifies nc.node
      ensures HeapOk(at', Insert(G, c, key, v)) && Grown(at, at')
      ensures [] in at' && at'[[]] == root && Insert(G, c, key, v) != map[]
    {
      if c.into == 0 { ReachedNode(G, c); }
      at' := SplitNode(nc.node, nc.into, key[nc.pos..], v, G, at, c.path);
      InsertNonempty(G, c, key, v);
    }

    /** The fields make up a valid trie in state s. */
    ghost predicate Forms(s: State, root': Node?)
      reads this, at.Values
    {
      && Abs() == s && root == root'
      && HeapOk(at, s.G)
      && (root' == null <==> s.G == map[])
      && (root' != null ==> [] in at && root' == at[[]])
    }

    lemma Commit(s: State, root': Node?)
      requires Inv(s) && Forms(s, root')
      ensures Valid()
    {
    }

    /** Node objects that represented a trie value still do when only fields of the
        trie object itself were written. */
    twostate lemma FormsNow(new s: State, at1: map<Key, Node>, new root': Node?)
      requires old(HeapOk(at1, s.G)) && forall n :: n in at1.Values ==> unchanged(n)
      requires Abs() == s && at == at1 && root == root'
      requires (root' == null <==> s.G == map[]) && (root' != null ==> [] in at1 && root' == at1[[]])
      ensures Forms(s, root')
    {
      assert old(HeapOk(at1, s.G));
    }

    /** Write the fields of the trie object after its nodes changed. */
    method Update(root': Node?, length': nat, ghost G': Shape, ghost at': map<Key, Node>)
      requires HeapOk(at', G')
      requires (root' == null <==> G' == map[]) && (root' != null ==> [] in at' && root' == at'[[]])
      modifies this`root, this`length, this`G, this`at
      ensures Forms(State(G', length', key_return_buf.Length, iterator_count), root') && at == at'
    {
      root, length, G, at := root', length', G', at';
      FormsNow(Abs(), at', root');
    }

    /** The first insertion, into a trie without a root. */
    method SetFirst(key: Key, v: Ptr)
      modifies this`root, this`length, this`G, this`at
      ensures Forms(old(Abs()).(G := Chain([], key, v), length := old(length) + 1), root)
      ensures forall n :: n in at.Values ==> fresh(n)
    {
      var node := new Node(GARBAGE);
      ghost var m := FinishTail(node, key, v, []);
      ChainShape([], key, v);
      Update(node, length + 1, Chain([], key, v), m);
    }

    /** Replace the value of a node that has one. */
    method SetExisting(node: Node, v: Ptr, ghost p: Key)
      requires Valid() && p in G && at[p] == node && G[p].val.Some?
      modifies node, this`root, this`length, this`G, this`at
      ensures Forms(old(Abs()).(G := SetVal(old(G), p, v)), old(root)) && at == old(at)
    {
      hide HeapOk, WF, SetVal;
      WriteValue(node, v, G, at, p);
      Update(root, length, SetVal(G, p, v), at);
    }

    /** coords.node->value = value, on a node that has a value. */
    static method WriteValue(node: Node, v: Ptr, ghost G: Shape, ghost at: map<Key, Node>, ghost p: Key)
      requires p in G && HeapOk(at, G) && at[p] == node && G[p].val.Some?
      modifies node
      ensures HeapOk(at, SetVal(G, p, v))
    {
      assert Matches(node, G[p], p, at);
      node.value := v;
      ValueSet(node, G, at, p, v);
    }

    /** Insert a key that the search did not find. */
    method SetNew(nc: NodeCoords, key: Key, v: Ptr, ghost c: Coords, ghost cs: bool)
      requires Valid() && WF(G) && Placed(G, key, c, cs) && Points(nc, c) && c.pos <= |key|
      requires c.pos < |key| ==> NoneBelow(G, Reached(G, c) + [key[c.pos]])
      modifies nc.node, this`root, this`length, this`G, this`at
      ensures Forms(old(Abs()).(G := Insert(old(G), c, key, v), length := old(length) + 1), old(root))
      ensures Grown(old(at), at)
    {
      hide HeapOk, WF, Insert;
      ghost var at' := SplitAt(nc, key, v, c, cs);
      Update(root, length + 1, Insert(G, c, key, v), at');
    }

    /** What a set does to the state when the search found the key. */
    static lemma Replaces(s: State, key: Key, v: Ptr, fl: Flags)
      requires Inv(s) && s.G != map[] && s.iters == 0 && |key| <= s.longest && fl.overwrite
      requires WF(s.G) && Exact(s.G, Find(s.G, key, !fl.icase), |key|)
      ensures var c := Find(s.G, key, !fl.icase); var s' := s.(G := SetVal(s.G, c.path, v));
              Inv(s') && TrieOps.Set(s, key, v, fl) == (s', Stored)
    {
      hide WF;
      OverwriteInv(s, Find(s.G, key, !fl.icase).path, v, s.longest);
    }

    static lemma Insertable(s: State, key: Key, v: Ptr, cs: bool)
      requires Inv(s) && s.G != map[] && |key| <= s.longest
      requires WF(s.G) && !Exact(s.G, Find(s.G, key, cs), |key|)
      ensures var c := Find(s.G, key, cs);
              && Placed(s.G, key, c, cs) && c.pos <= |key| && c.stopped
              && (c.pos < |key| ==> NoneBelow(s.G, Reached(s.G, c) + [key[c.pos]]))
              && Inv(s.(G := Insert(s.G, c, key, v), length := s.length + 1))
    {
      var c := Find(s.G, key, cs);
      FindCorrect(s.G, key, cs);
      if c.pos < |key| { RoomBelow(s.G, key, c, cs); }
      InsertInv(s, key, c, cs, v);
    }

    /** What a set does to the state when the search did not find the key. */
    static lemma Inserts(s: State, key: Key, v: Ptr, fl: Flags)
      requires Inv(s) && s.G != map[] && s.iters == 0 && |key| <= s.longest && fl.create
      requires WF(s.G) && !Exact(s.G, Find(s.G, key, !fl.icase), |key|)
      ensures var c := Find(s.G, key, !fl.icase);
              && Placed(s.G, key, c, !fl.icase) && c.pos <= |key|
              && TrieOps.Set(s, key, v, fl) == (s.(G := Insert(s.G, c, key, v), length := s.length + 1), Stored)
    {
      assert s.(longest := Max(s.longest, |key|)) == s;
      Insertable(s, key, v, !fl.icase);
    }

    /** Without 'o', a set of a key that the search found changes nothing. */
    static lemma RefusesFound(s: State, key: Key, v: Ptr, fl: Flags)
      requires Inv(s) && s.G != map[] && s.iters == 0 && |key| <= s.longest && WF(s.G) && fl.create && !fl.overwrite
      requires Exact(s.G, Find(s.G, key, !fl.icase), |key|)
      ensures TrieOps.Set(s, key, v, fl) == (s, Thrown(EXCEPTION))
    {
      assert s.(longest := Max(s.longest, |key|)) == s;
    }

    /** Without 'c', a set of a key that the search did not find changes nothing. */
    static lemma RefusesMissing(s: State, key: Key, v: Ptr, fl: Flags)
      requires Inv(s) && s.G != map[] && s.iters == 0 && |key| <= s.longest && WF(s.G) && !fl.create && fl.overwrite
      requires !Exact(s.G, Find(s.G, key, !fl.icase), |key|)
      ensures TrieOps.Set(s, key, v, fl) == (s, Thrown(EXCEPTION))
    {
      NeverStuck(s.G, key, !fl.icase);
      assert s.(longest := Max(s.longest, |key|)) == s;
    }

    /** Replace the value of the key that the search found. */
    method Replace(node: Node, key: Key, v: Ptr, ghost fl: Flags)
      requires Valid() && root != null && iterator_count == 0 && |key| <= key_return_buf.Length && fl.overwrite
      requires var c := Find(G, key, !fl.icase); Exact(G, c, |key|) && c.path in at && at[c.path] == node
      modifies node, this`root, this`length, this`G, this`at
      ensures Valid() && (Abs(), Stored) == TrieOps.Set(old(Abs()), key, v, fl)
      ensures at == old(at) && root == old(root)
    {
      ghost var s := Abs();
      ghost var c := Find(G, key, !fl.icase);
      Replaces(s, key, v, fl);
      SetExisting(node, v, c.path);
      Commit(s.(G := SetVal(s.G, c.path, v)), root);
    }

    /** Insert the key that the search did not find. */
    method AddNode(nc: NodeCoords, key: Key, v: Ptr, ghost fl: Flags)
      requires Valid() && root != null && iterator_count == 0 && |key| <= key_return_buf.Length && fl.create
      requires var c := Find(G, key, !fl.icase); Points(nc, c) && !Exact(G, c, |key|)
      modifies nc.node, this`root, this`length, this`G, this`at
      ensures Valid() && (Abs(), Stored) == TrieOps.Set(old(Abs()), key, v, fl)
      ensures Grown(old(at), at) && root == old(root)
    {
      ghost var s := Abs();
      ghost var c := Find(G, key, !fl.icase);
      Inserts(s, key, v, fl);
      Insertable(s, key, v, !fl.icase);
      SetNew(nc, key, v, c, !fl.icase);
      Commit(s.(G := Insert(s.G, c, key, v), length := s.length + 1), root);
    }

    /** Copy the rest of the key into the key buffer of a valid trie. */
    method Remember(key: Key, pos: nat)
      requires Valid() && pos <= |key| <= key_return_buf.Length
      modifies key_return_buf
      ensures Valid() && key_return_buf[..|key|] == old(key_return_buf[..pos]) + key[pos..]
    {
      RecordRest(key, pos);
      StillValid();
    }

    method Add(nc: NodeCoords, key: Key, v: Ptr, ghost fl: Flags)
      requires Valid() && root != null && iterator_count == 0 && |key| <= key_return_buf.Length && fl.create
      requires var c := Find(G, key, !fl.icase); Points(nc, c) && !Exact(G, c, |key|)
      requires nc.pos <= |key|
      modifies nc.node, this`root, this`length, this`G, this`at, key_return_buf
      ensures Valid() && (Abs(), Stored) == TrieOps.Set(old(Abs()), key, v, fl)
      ensures Grown(old(at), at) && root == old(root)
      ensures key_return_buf[..|key|] == old(key_return_buf[..nc.pos]) + key[nc.pos..]
    {
      hide Trie.Valid, WF, Find, Exact, TrieOps.Set;
      Remember(key, nc.pos);
      AddNode(nc, key, v, fl);
    }

    /** skit_trie_set on a key that the search found. */
    method SetFound(node: Node, key: Key, v: Ptr, fl: Flags) returns (r: SetResult)
      requires Valid() && root != null && |key| <= key_return_buf.Length && iterator_count == 0
      requires fl.create || fl.overwrite
      requires var c := Find(G, key, !fl.icase); Exact(G, c, |key|) && c.path in at && at[c.path] == node
      modifies node, this`root, this`length, this`G, this`at
      ensures Valid() && (Abs(), r) == TrieOps.Set(old(Abs()), key, v, fl)
      ensures root == old(root) && at == old(at)
    {
      hide Trie.Valid, WF, Find, Exact, TrieOps.Set;
      Rooted();
      if !fl.overwrite {
        RefusesFound(Abs(), key, v, fl);
        r := Thrown(EXCEPTION);
      } else {
        Replace(node, key, v, fl);
        r := Stored;
      }
    }

    /** skit_trie_set on a key that the search did not find. */
    method SetMissing(nc: NodeCoords, key: Key, v: Ptr, fl: Flags) returns (r: SetResult)
      requires Valid() && root != null && |key| <= key_return_buf.Length && iterator_count == 0
      requires fl.create || fl.overwrite
      requires var c := Find(G, key, !fl.icase); Points(nc, c) && !Exact(G, c, |key|)
      requires nc.pos <= |key|
      modifies nc.node, this`root, this`length, this`G, this`at, key_return_buf
      ensures Valid() && (Abs(), r) == TrieOps.Set(old(Abs()), key, v, fl)
      ensures root == old(root) && Grown(old(at), at)
      ensures r.Stored? ==>
                nc.pos <= |key| && key_return_buf[..|key|] == old(key_return_buf[..nc.pos]) + key[nc.pos..]
    {
      hide Trie.Valid, WF, Find, Exact, TrieOps.Set;
      Rooted();
      if !fl.create {
        RefusesMissing(Abs(), key, v, fl);
        r := Thrown(EXCEPTION);
      } else {
        Add(nc, key, v, fl);
        r := Stored;
      }
    }

    static lemma NeverStuck(G: Shape, key: Key, cs: bool)
      requires WF(G)
      ensures var c := Find(G, key, cs); c.pos <= |key| && c.path in G && (Exact(G, c, |key|) || c.stopped)
    {
      FindCorrect(G, key, cs);
    }

    /** skit_trie_set once the search is done. */
    method StoreAt(nc: NodeCoords, key: Key, v: Ptr, fl: Flags) returns (r: SetResult)
      requires Valid() && root != null && |key| <= key_return_buf.Length && iterator_count == 0
      requires fl.create || fl.overwrite
      requires Points(nc, Find(G, key, !fl.icase)) && nc.node.have_value == G[Find(G, key, !fl.icase).path].val.Some?
      modifies nc.node, this`root, this`length, this`G, this`at, key_return_buf
      ensures Valid() && (Abs(), r) == TrieOps.Set(old(Abs()), key, v, fl)
      ensures root == old(root) && Grown(old(at), at)
      ensures r.Stored? ==>
                nc.pos <= |key| && key_return_buf[..|key|] == old(key_return_buf[..nc.pos]) + key[nc.pos..]
    {
      hide Trie.Valid, WF, Find;
      Rooted();
      NeverStuck(G, key, !fl.icase);
      if nc.pos == |key| && nc.node.have_value {
        r := SetFound(nc.node, key, v, fl);
      } else if (nc.stopped && |key| == nc.pos && !nc.node.have_value) || (nc.stopped && nc.pos < |key|) {
        r := SetMissing(nc, key, v, fl);
      } else {
        r := Thrown(FATAL_EXCEPTION);
      }
    }

    /** skit_trie_set after its checks of iterators and flags, on a trie with a root.
        The key buffer already has room for the key. */
    method Store(key: Key, v: Ptr, fl: Flags) returns (r: SetResult)
      requires Valid() && root != null && |key| <= key_return_buf.Length && iterator_count == 0
      requires fl.create || fl.overwrite
      modifies this`root, this`length, this`G, this`at, key_return_buf, at.Values
      ensures Valid() && (Abs(), r) == TrieOps.Set(old(Abs()), key, v, fl)
      ensures root == old(root) && Grown(old(at), at)
      ensures r.Stored? ==> Answers(old(G), key, !fl.icase, key_return_buf[..|key|])
    {
      hide Trie.Valid, WF, Find, TrieOps.Set, AfterFind, Answers;
      Rooted();
      ghost var b := key_return_buf[..];
      var nc := FindNode(key, !fl.icase);
      RestAnswers(G, key, !fl.icase, b);
      r := StoreAt(nc, key, v, fl);
    }

    /** skit_trie_set on a trie without a root. */
    method SetEmpty(key: Key, v: Ptr, fl: Flags) returns (r: SetResult)
      requires Valid() && root == null && |key| <= key_return_buf.Length && iterator_count == 0
      requires fl.create || fl.overwrite
      modifies this`root, this`length, this`G, this`at, key_return_buf
      ensures Valid() && (Abs(), r) == TrieOps.Set(old(Abs()), key, v, fl)
      ensures forall n :: n in at.Values ==> n in old(at.Values) || fresh(n)
      ensures r.Stored? ==> key_return_buf[..|key|] == key
    {
      ghost var s := Abs();
      assert s.(longest := Max(s.longest, |key|)) == s;
      if !fl.create {
        r := Thrown(EXCEPTION);
      } else {
        SetInv(s, key, v, fl);
        SetFirst(key, v);
        Commit(s.(G := Chain([], key, v), length := s.length + 1), root);
        Remember(key, 0);
        r := Stored;
      }
    }

    static lemma SetAfterGrow(s: State, key: Key, v: Ptr, fl: Flags)
      requires Inv(s) && s.iters == 0 && (fl.create || fl.overwrite)
      ensures var s1 := s.(longest := Max(s.longest, |key|));
              Inv(s1) && TrieOps.Set(s1, key, v, fl) == TrieOps.Set(s, key, v, fl)
    {
      var s1 := s.(longest := Max(s.longest, |key|));
      assert s1.G == s.G && s1.iters == s.iters && s1.length == s.length;
      assert s1.(longest := Max(s1.longest, |key|)) == s1;
      assert Inv(s1);
    }

    /** Make room in the key buffer of a valid trie. */
    method Widen(n: nat)
      requires Valid()
      modifies this`key_return_buf
      ensures Valid() && Abs() == old(Abs()).(longest := Max(old(key_return_buf.Length), n))
      ensures key_return_buf == old(key_return_buf) || fresh(key_return_buf)
    {
      GrowBuffer(n);
      LongerValid();
    }

    /** Only the number of open iterators changed. */
    twostate lemma CountValid()
      requires old(Valid()) && key_return_buf == old(key_return_buf)
      requires root == old(root) && length == old(length)
      requires G == old(G) && at == old(at) && forall n :: n in at.Values ==> unchanged(n)
      ensures Valid()
    {
      assert old(HeapOk(at, G));
    }

    /** (trie->iterator_count)++ and (trie->iterator_count)-- */
    method CountIterators(n: nat)
      requires Valid()
      modifies this`iterator_count
      ensures Valid() && iterator_count == n
    {
      iterator_count := n;
      CountValid();
    }

    /** skit_trie_set with room in the key buffer. */
    method SetFitting(key: Key, v: Ptr, fl: Flags) returns (r: SetResult)
      requires Valid() && |key| <= key_return_buf.Length && iterator_count == 0 && (fl.create || fl.overwrite)
      modifies this`root, this`length, this`G, this`at, key_return_buf, at.Values
      ensures Valid() && (Abs(), r) == TrieOps.Set(old(Abs()), key, v, fl)
      ensures forall n :: n in at.Values ==> n in old(at.Values) || fresh(n)
      ensures r.Stored? ==> Answers(old(G), key, !fl.icase, key_return_buf[..|key|])
    {
      if root == null {
        r := SetEmpty(key, v, fl);
      } else {
        r := Store(key, v, fl);
      }
    }

    /** skit_trie_set after its checks of iterators and flags. */
    method SetChecked(key: Key, v: Ptr, fl: Flags) returns (r: SetResult)
      requires Valid() && iterator_count == 0 && (fl.create || fl.overwrite)
      modifies this, key_return_buf, at.Values
      ensures Valid() && (Abs(), r) == TrieOps.Set(old(Abs()), key, v, fl)
      ensures forall n :: n in at.Values ==> n in old(at.Values) || fresh(n)
      ensures key_return_buf == old(key_return_buf) || fresh(key_return_buf)
      ensures |key| <= key_return_buf.Length
      ensures r.Stored? ==> Answers(old(G), key, !fl.icase, key_return_buf[..|key|])
    {
      SetAfterGrow(Abs(), key, v, fl);
      Widen(|key|);
      r := SetFitting(key, v, fl);
    }

    /** skit_trie_set */
    method Set(key: Key, v: Ptr, fl: Flags) returns (r: SetResult, ret: Key)
      requires Valid()
      modifies this, key_return_buf, at.Values
      ensures Valid() && (Abs(), r) == TrieOps.Set(old(Abs()), key, v, fl)
      ensures forall n :: n in at.Values ==> n in old(at.Values) || fresh(n)
      ensures key_return_buf == old(key_return_buf) || fresh(key_return_buf)
      ensures r.Stored? ==> Answers(old(G), key, !fl.icase, ret) && (!fl.icase ==> ret == key)
      ensures old(iterator_count) > 0 ==>
              unchanged(this) && unchanged(key_return_buf) && forall n :: n in at.Values ==> unchanged(n)
    {
      ret := [];
      if iterator_count > 0 {
        r := Thrown(TRIE_WRITE_IN_ITERATION);
      } else if !fl.create && !fl.overwrite {
        r := Thrown(TRIE_BAD_FLAGS);
      } else {
        r := SetChecked(key, v, fl);
        if r.Stored? {
          ret := key_return_buf[..|key|];
        }
      }
    }
  }
}
