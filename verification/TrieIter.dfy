/** skit_trie_iter: a depth-first walk over the nodes of a trie with a frame stack of
    fixed size and a key buffer of fixed size. */
module TrieIter {
  import opened Bytes
  import opened TrieShape
  import opened TrieLookup
  import opened TrieOps
  import opened TrieNodes
  import opened TrieText
  import opened TrieHeap
  import opened KeyOrder
  import opened TrieCursor

  /** skit_trie_frame */
  datatype Frame = Frame(node: Node?, pos: nat, current_char: nat)

  /** The loop over the chars array of a node in skit_trie_iter_next: where the current
      byte is, and which edge byte comes next. */
  method ScanMulti(node: Node, ch: nat) returns (index: int, next: nat)
    requires ch < 256 && node.chars_len <= |node.chars|
    ensures index < node.chars_len && (index >= 0 ==> node.chars[index] == ch)
    ensures index < 0 ==> ch as byte !in node.chars[..node.chars_len]
    ensures IsNext(Elems(node.chars[..node.chars_len]), ch, next)
  {
    index, next := -1, 256;
    var i := 0;
    while i < node.chars_len
      invariant 0 <= i <= node.chars_len
      invariant index < i && (index >= 0 ==> node.chars[index] == ch)
      invariant index < 0 ==> ch as byte !in node.chars[..i]
      invariant IsNext(Elems(node.chars[..i]), ch, next)
    {
      var c := node.chars[i];
      assert node.chars[..i + 1] == node.chars[..i] + [c];
      assert Elems(node.chars[..i + 1]) == Elems(node.chars[..i]) + {c};
      if c == ch {
        index := i;
      }
      if ch < c && c < next {
        next := c;
      }
      i := i + 1;
    }
  }

  /** The scan for the next used table entry. */
  method ScanTable(table: seq<Node?>, ch: nat) returns (next: nat)
    requires ch < 256 && |table| == 256
    ensures ch < next <= 256 && (next < 256 ==> table[next] != null)
    ensures forall c :: ch < c < next ==> table[c] == null
  {
    next := ch + 1;
    while next < 256 && table[next] == null
      invariant ch < next <= 256
      invariant forall c :: ch < c < next ==> table[c] == null
    {
      next := next + 1;
    }
  }

  class Iter {
    const trie: Trie
    var frames: array<Frame>
    var current_frame: int
    var prev_frame: int
    const key_buffer: array<byte>
    var freed: bool
    ghost var fr: seq<Spot>
    ghost var startPos: nat

    ghost predicate Entry()
      reads this
    {
      prev_frame < current_frame
    }

    /** The keys that this iterator still has to report. */
    ghost function Todo(): set<Key>
      reads this, trie
    {
      Rest(trie.G, fr, Entry())
    }

    ghost predicate Stacked()
      reads this, frames, trie
    {
      && StackOk(trie.G, fr) && |fr| == current_frame + 1 && trie.at.Keys == trie.G.Keys
      && (|fr| > 0 ==> startPos + frames.Length == trie.key_return_buf.Length + 1)
      && |fr| <= frames.Length
      && (forall i :: 0 <= i < |fr| ==> frames[i] == Frame(trie.at[fr[i].path], |fr[i].path|, fr[i].ch))
      && (forall i :: 0 <= i < |fr| ==> |fr[i].path| >= startPos + i)
    }

    ghost predicate Buffered()
      reads this, key_buffer, trie
    {
      && key_buffer.Length == trie.key_return_buf.Length && key_buffer != trie.key_return_buf
      && (|fr| > 0 ==> |fr[|fr| - 1].path| <= key_buffer.Length &&
                       key_buffer[..|fr[|fr| - 1].path|] == fr[|fr| - 1].path)
    }

    ghost predicate Live()
      reads this, frames, key_buffer, trie
    {
      !freed && Stacked() && Buffered()
    }

    constructor (t: Trie, longest: nat)
      ensures trie == t && fresh(frames) && frames.Length == 0 && current_frame == -1 && prev_frame == -1
      ensures fresh(key_buffer) && key_buffer.Length == longest && !freed && fr == []
    {
      trie, frames, current_frame, prev_frame := t, new Frame[0], -1, -1;
      key_buffer, freed, fr, startPos := new byte[longest], false, [], 0;
    }

    /** skit_iter_accumulate_key */
    method Accumulate(pos: nat, frag: Key)
      requires pos + |frag| <= key_buffer.Length
      modifies key_buffer
      ensures key_buffer[..pos] == old(key_buffer[..pos])
      ensures key_buffer[pos..pos + |frag|] == frag
    {
      forall i | 0 <= i < |frag| {
        key_buffer[pos + i] := frag[i];
      }
    }

    /** skit_trie_iter_push */
    method Push(node: Node, pos: nat)
      requires -1 <= current_frame && current_frame + 1 < frames.Length
      modifies this`current_frame, this`prev_frame, frames
      ensures prev_frame == old(current_frame) && current_frame == old(current_frame) + 1
      ensures frames[..current_frame] == old(frames[..current_frame + 1])
      ensures frames[current_frame] == Frame(node, pos, 0)
    {
      frames[current_frame + 1] := Frame(node, pos, 0);
      prev_frame := current_frame;
      current_frame := current_frame + 1;
    }

    /** skit_trie_iter_pop on an exhausted frame. */
    method Leave()
      requires Stacked() && Buffered() && |fr| > 0
      modifies this`current_frame, this`prev_frame, this`fr
      ensures Stacked() && Buffered() && !Entry() && fr == old(fr)[..|old(fr)| - 1]
    {
      ghost var lo := fr[..|fr| - 1];
      if |lo| > 0 { BufferedBelow(lo[|lo| - 1].path, fr[|fr| - 1].path); }
      prev_frame := current_frame;
      current_frame := current_frame - 1;
      fr := lo;
    }

    lemma BufferedBelow(p: Key, q: Key)
      requires p <= q && |q| <= key_buffer.Length && key_buffer[..|q|] == q
      ensures key_buffer[..|p|] == p
    {
      assert p == q[..|p|] == key_buffer[..|p|];
    }

    /** Move the current_char of the top frame on. */
    method Advance(n: nat)
      requires Stacked() && Buffered() && |fr| > 0 && fr[|fr| - 1].ch < n <= 256
      requires LongLine(trie.G[fr[|fr| - 1].path].edges) ==> n == 256
      modifies this`fr, frames
      ensures Stacked() && Buffered() && fr == Turn(old(fr), n)
    {
      hide LongLine;
      TurnOk(trie.G, fr, n);
      frames[current_frame] := frames[current_frame].(current_char := n);
      fr := Turn(fr, n);
    }

    /** Push the child at q. */
    method PushSpot(node: Node, pos: nat, ghost q: Key)
      requires Stacked() && |fr| > 0 && q in trie.G && trie.at[q] == node && |q| == pos
      requires StackOk(trie.G, fr + [Spot(q, 0)]) && |q| <= trie.key_return_buf.Length
      modifies this`current_frame, this`prev_frame, this`fr, frames
      ensures Stacked() && Entry() && fr == old(fr) + [Spot(q, 0)]
    {
      ghost var n := |fr|;
      assert |fr[n - 1].path| >= startPos + n - 1 && fr[n - 1].path < q by {
        assert (fr + [Spot(q, 0)])[n - 1].path < (fr + [Spot(q, 0)])[n].path;
      }
      Push(node, pos);
      fr := fr + [Spot(q, 0)];
      forall i | 0 <= i < |fr| ensures frames[i] == Frame(trie.at[fr[i].path], |fr[i].path|, fr[i].ch) {
        assert i < n ==> frames[i] == frames[..current_frame][i];
      }
    }

    /** Push the child at q and add the bytes of its edge to the key buffer. */
    method Enter(node: Node, pos: nat, frag: Key, ghost q: Key)
      requires Stacked() && Buffered() && |fr| > 0 && q in trie.G && trie.at[q] == node
      requires pos == |fr[|fr| - 1].path| && |frag| > 0 && q == fr[|fr| - 1].path + frag
      requires frag[0] < fr[|fr| - 1].ch && |q| <= key_buffer.Length
      modifies this`current_frame, this`prev_frame, this`fr, frames, key_buffer
      ensures Stacked() && Buffered() && Entry() && fr == old(fr) + [Spot(q, 0)]
    {
      ghost var f := fr[|fr| - 1];
      assert Turn(fr, f.ch) == fr;
      DescendOk(trie.G, fr, f.ch, q);
      PushSpot(node, pos + |frag|, q);
      Accumulate(pos, frag);
      assert key_buffer[..|q|] == key_buffer[..pos] + key_buffer[pos..pos + |frag|];
    }

    /** Mark the edge to q as taken, with n the next edge byte, and push the child. */
    method TakeEdge(node: Node, n: nat, frag: Key, ghost q: Key)
      requires Stacked() && Buffered() && |fr| > 0 && q in trie.G && trie.at[q] == node
      requires fr[|fr| - 1].ch < n <= 256 && (LongLine(trie.G[fr[|fr| - 1].path].edges) ==> n == 256)
      requires |frag| > 0 && frag[0] < n && q == fr[|fr| - 1].path + frag && |q| <= key_buffer.Length
      modifies this`current_frame, this`prev_frame, this`fr, frames, key_buffer
      ensures Stacked() && Buffered() && Entry() && fr == Turn(old(fr), n) + [Spot(q, 0)]
    {
      Advance(n);
      Enter(node, frames[current_frame].pos, frag, q);
    }

    // ------------------------------------------------------- the three kinds of node

    ghost predicate IsKidNode(k: Node?, q: Key)
      reads trie
    {
      q in trie.G && q in trie.at && trie.at[q] == k && |q| <= trie.key_return_buf.Length
    }

    /** The fields of a node with one edge of two bytes or more. */
    ghost predicate LineIs(node: Node, p: Key)
      reads node, trie
    {
      && p in trie.G && LongLine(trie.G[p].edges) && node.chars_len <= |node.chars| && |node.kids| == 1
      && node.chars[..node.chars_len] == trie.G[p].edges.str && IsKidNode(node.kids[0], p + trie.G[p].edges.str)
    }

    /** The fields of a node whose children lie behind single bytes in an array. */
    ghost predicate MultiIs(node: Node, p: Key)
      reads node, trie
    {
      && p in trie.G && !LongLine(trie.G[p].edges) && node.chars_len == |node.kids| <= |node.chars|
      && KidChars(trie.G[p].edges) == Elems(node.chars[..node.chars_len])
      && forall i :: 0 <= i < node.chars_len ==>
           IsKidNode(node.kids[i], p + [node.chars[i]]) && node.chars[i] in KidChars(trie.G[p].edges)
    }

    /** The fields of a table. */
    ghost predicate TableIs(node: Node, p: Key)
      reads node, trie
    {
      && p in trie.G && !LongLine(trie.G[p].edges) && |node.table| == 256
      && forall c: byte :: if c in KidChars(trie.G[p].edges) then node.table[c] != null && IsKidNode(node.table[c],
          p + [c])
                           else node.table[c] == null
    }

    /** The branch skit_trie_iter_next takes on a node agrees with its layout. */
    lemma KindOf(node: Node, p: Key)
      requires trie.Valid() && p in trie.G && trie.at[p] == node
      ensures Kind(node, p)
    {
      hide Trie.Valid;
      NodeHas(node, p);
      var e := trie.G[p].edges;
      match e
      case Leaf =>
      case Line(s) => EdgeIs(node, p);
      case Fan(cs) => FanIs(node, p);
      case Table(used) =>
        forall c: byte ensures c in used ==> p + [c] in trie.G { if c in used { assert IsKid(p, e, p + [c]); } }
    }

    lemma NodeHas(node: Node, p: Key)
      requires trie.Valid() && p in trie.G && trie.at[p] == node
      ensures Matches(node, trie.G[p], p, trie.at) && KidsIn(trie.G, p) && CellOk(trie.G[p])
      ensures trie.G.Keys == trie.at.Keys && forall q :: q in trie.G ==> |q| <= trie.key_return_buf.Length
    {
    }

    lemma EdgeIs(node: Node, p: Key)
      requires trie.Valid() && p in trie.G && trie.at[p] == node && trie.G[p].edges.Line?
      ensures Kind(node, p)
    {
      hide Trie.Valid;
      NodeHas(node, p);
      var s := trie.G[p].edges.str;
      assert IsKid(p, trie.G[p].edges, p + s);
      assert |s| == 1 ==> s == [s[0]] && node.chars[..1] == s;
    }

    lemma FanIs(node: Node, p: Key)
      requires trie.Valid() && p in trie.G && trie.at[p] == node && trie.G[p].edges.Fan?
      ensures MultiIs(node, p)
    {
      hide Trie.Valid;
      NodeHas(node, p);
      var cs := trie.G[p].edges.chars;
      assert node.chars[..node.chars_len] == cs;
      forall i | 0 <= i < node.chars_len
        ensures IsKidNode(node.kids[i], p + [node.chars[i]]) && node.chars[i] in KidChars(trie.G[p].edges)
      {
        assert node.chars[i] == cs[i];
        assert IsKid(p, trie.G[p].edges, p + [cs[i]]);
      }
    }

    /** The top frame. */
    method Top() returns (f: Frame)
      requires Stacked() && |fr| > 0
      ensures var t := fr[|fr| - 1];
              t.path in trie.at && f == Frame(trie.at[t.path], |t.path|, t.ch) && current_frame >= 0
    {
      f := frames[current_frame];
    }

    method MoveLine(node: Node, ghost p: Key) returns (ghost n: nat, ghost q: Option<Key>)
      requires Stacked() && Buffered() && |fr| > 0 && fr[|fr| - 1] == Spot(p, 0) && LineIs(node, p)
      modifies this`current_frame, this`prev_frame, this`fr, frames, key_buffer
      ensures Stacked() && Buffered() && Moves(trie.G, old(fr), old(Entry()), n, q, fr, Entry())
    {
      n, q := 256, Some(p + trie.G[p].edges.str);
      TakeEdge(node.kids[0], 256, node.chars[..node.chars_len], p + trie.G[p].edges.str);
    }

    method MoveMulti(node: Node, ch: nat, ghost p: Key) returns (ghost n: nat, ghost q: Option<Key>)
      requires Stacked() && Buffered() && |fr| > 0 && fr[|fr| - 1] == Spot(p, ch) && ch < 256 && MultiIs(node, p)
      modifies this`current_frame, this`prev_frame, this`fr, frames, key_buffer
      ensures Stacked() && Buffered() && Moves(trie.G, old(fr), old(Entry()), n, q, fr, Entry())
    {
      var index, next := ScanMulti(node, ch);
      n := next;
      if index < 0 {
        q := None;
        Advance(next);
      } else {
        q := Some(p + [node.chars[index]]);
        TakeEdge(node.kids[index], next, [node.chars[index]], p + [node.chars[index]]);
      }
    }

    method MoveTable(node: Node, ch: nat, ghost p: Key) returns (ghost n: nat, ghost q: Option<Key>)
      requires Stacked() && Buffered() && |fr| > 0 && fr[|fr| - 1] == Spot(p, ch) && ch < 256 && TableIs(node, p)
      modifies this`current_frame, this`prev_frame, this`fr, frames, key_buffer
      ensures Stacked() && Buffered() && Moves(trie.G, old(fr), old(Entry()), n, q, fr, Entry())
    {
      hide Iter.Stacked;
      var next := ScanTable(node.table, ch);
      n := next;
      if node.table[ch] == null {
        q := None;
        Advance(next);
      } else {
        q := Some(p + [ch as byte]);
        TakeEdge(node.table[ch], next, [ch as byte], p + [ch as byte]);
      }
    }

    ghost predicate Kind(node: Node, p: Key)
      reads node, trie
    {
      && (node.nodes_len == 1 && node.chars_len > 1 ==> LineIs(node, p))
      && (!(node.nodes_len == 1 && node.chars_len > 1) && node.nodes_len <= PREALLOC ==> MultiIs(node, p))
      && (node.nodes_len > PREALLOC ==> TableIs(node, p))
    }

    /** The three branches of skit_trie_iter_next that visit the next child. */
    method MoveOn(node: Node, ch: nat, ghost p: Key) returns (ghost n: nat, ghost q: Option<Key>)
      requires Stacked() && Buffered() && |fr| > 0 && fr[|fr| - 1] == Spot(p, ch) && ch < 256
      requires p in trie.G && (LongLine(trie.G[p].edges) ==> ch == 0) && Kind(node, p)
      modifies this`current_frame, this`prev_frame, this`fr, frames, key_buffer
      ensures Stacked() && Buffered() && Moves(trie.G, old(fr), old(Entry()), n, q, fr, Entry())
    {
      if node.nodes_len == 1 && node.chars_len > 1 {
        n, q := MoveLine(node, p);
      } else if node.nodes_len <= PREALLOC {
        n, q := MoveMulti(node, ch, p);
      } else {
        n, q := MoveTable(node, ch, p);
      }
    }

    static lemma LongStart(G: Shape, fr: seq<Spot>)
      requires StackOk(G, fr) && |fr| > 0
      ensures fr[|fr| - 1].path in G && fr[|fr| - 1].ch <= 256
      ensures LongLine(G[fr[|fr| - 1].path].edges) && fr[|fr| - 1].ch < 256 ==> fr[|fr| - 1].ch == 0
    {
    }

    /** One move that reports nothing. */
    method Move(node: Node, ch: nat, ghost p: Key)
      requires Stacked() && Buffered() && |fr| > 0 && fr[|fr| - 1] == Spot(p, ch) && p in trie.G && Kind(node, p)
      requires WF(trie.G) && (Entry() ==> trie.G[p].val.None?)
      modifies this`current_frame, this`prev_frame, this`fr, frames, key_buffer
      ensures Stacked() && Buffered() && Progress(trie.G, old(fr), old(Entry()), fr, Entry())
    {
      ghost var fr0, entry0 := fr, Entry();
      LongStart(trie.G, fr);
      if ch > 255 {
        PopProgress(trie.G, fr, Entry());
        Leave();
      } else {
        ghost var n, q := MoveOn(node, ch, p);
        MovesProgress(trie.G, fr0, entry0, n, q, fr, Entry());
      }
    }

    /** What the iterator relies on: each node has one of the three kinds. */
    ghost predicate NodesOk()
      reads trie, trie.at.Values
    {
      && WF(trie.G) && trie.at.Keys == trie.G.Keys
      && forall p :: p in trie.G ==> NodeOk(trie.at[p], p)
    }

    ghost predicate NodeOk(node: Node, p: Key)
      reads node, trie
    {
      p in trie.G && Kind(node, p) && ValueMatches(node, trie.G[p].val)
    }

    lemma ValidNodes()
      requires trie.Valid() && trie.G != map[]
      ensures NodesOk()
    {
      forall p | p in trie.G ensures NodeOk(trie.at[p], p) {
        KindOf(trie.at[p], p);
        assert Matches(trie.at[p], trie.G[p], p, trie.at);
      }
    }

    /** Moving the iterator does not disturb the nodes. */
    twostate lemma NodesStand()
      requires old(NodesOk()) && unchanged(trie) && forall n :: n in trie.at.Values ==> unchanged(n)
      ensures NodesOk()
    {
      forall p | p in trie.G ensures NodeOk(trie.at[p], p) {
        assert old(NodeOk(trie.at[p], p)) && trie.at[p] in trie.at.Values;
      }
    }

    /** Report the value of the node just entered. */
    method Report(f: Frame, ghost p: Key) returns (key: Key, value: Ptr)
      requires Stacked() && Buffered() && |fr| > 0 && fr[|fr| - 1].path == p && Entry() && WF(trie.G)
      requires f.node != null && f.pos == |p| && p in trie.G && trie.G[p].val == Some(f.node.value)
      modifies this`prev_frame
      ensures Stacked() && Buffered()
      ensures Reports(trie.G, old(Todo()), true, Some(key), value, Todo())
    {
      YieldReports(trie.G, fr, f.node.value);
      prev_frame := current_frame;
      key, value := key_buffer[..f.pos], f.node.value;
    }

    /** The newest frame and what its node holds. */
    method Look() returns (f: Frame, ghost p: Key)
      requires Stacked() && |fr| > 0 && NodesOk()
      ensures f.node != null && f.pos == |p| && fr[|fr| - 1] == Spot(p, f.current_char)
      ensures NodeOk(f.node, p)
    {
      f := Top();
      p := fr[|fr| - 1].path;
      LongStart(trie.G, fr);
    }

    /** A move that reports nothing, in a trie whose nodes are well formed. */
    method MoveAmong(f: Frame, ghost p: Key)
      requires Stacked() && Buffered() && |fr| > 0 && NodesOk() && fr[|fr| - 1] == Spot(p, f.current_char)
      requires f.node != null && p in trie.G && Kind(f.node, p) && (Entry() ==> trie.G[p].val.None?)
      modifies this`current_frame, this`prev_frame, this`fr, frames, key_buffer
      ensures Stacked() && Buffered() && NodesOk()
      ensures Todo() == old(Todo()) && Unseen(trie.G, fr) < old(Unseen(trie.G, fr))
    {
      hide Iter.Stacked, Iter.Kind, WF, Iter.NodeOk, Progress;
      Move(f.node, f.current_char, p);
      NodesStand();
    }

    /** The part of skit_trie_iter_next between one recursive call and the next; done
        tells whether the call returns here. */
    method Pass() returns (done: bool, key: Key, value: Ptr)
      requires Stacked() && Buffered() && |fr| > 0 && NodesOk()
      modifies this`current_frame, this`prev_frame, this`fr, frames, key_buffer
      ensures Stacked() && Buffered()
      ensures done ==> Reports(trie.G, old(Todo()), true, Some(key), value, Todo())
      ensures !done ==> NodesOk() && Todo() == old(Todo()) && Unseen(trie.G, fr) < old(Unseen(trie.G, fr))
    {
      var f;
      ghost var p;
      f, p := Look();
      key, value := [], 0;
      if prev_frame < current_frame && f.node.have_value {
        done := true;
        key, value := Report(f, p);
      } else {
        done := false;
        MoveAmong(f, p);
      }
    }

    /** skit_trie_iter_next */
    method NextKey() returns (more: bool, key: Option<Key>, value: Ptr)
      requires Stacked() && Buffered() && (|fr| > 0 ==> NodesOk())
      modifies this`current_frame, this`prev_frame, this`fr, frames, key_buffer
      ensures Stacked() && Buffered()
      ensures Reports(trie.G, old(Todo()), more, key, value, Todo())
      decreases Unseen(trie.G, fr)
    {
      if current_frame < 0 {
        assert Todo() == {};
        more, key, value := false, None, 0;
      } else {
        var done, k, v := Pass();
        if done {
          more, key, value := true, Some(k), v;
        } else {
          more, key, value := NextKey();
        }
      }
    }

    lemma LiveNodes()
      requires trie.Valid() && Stacked() && |fr| > 0
      ensures NodesOk()
    {
      assert fr[0].path in trie.G;
      ValidNodes();
    }

    /** skit_trie_iter_next on an iterator that has not been freed. */
    method Next() returns (more: bool, key: Option<Key>, value: Ptr)
      requires trie.Valid() && Live()
      modifies this`current_frame, this`prev_frame, this`fr, frames, key_buffer
      ensures Live()
      ensures Reports(trie.G, old(Todo()), more, key, value, Todo())
    {
      if current_frame >= 0 { LiveNodes(); }
      more, key, value := NextKey();
    }

    // ------------------------------------------------- making and freeing iterators

    /** Where the first frame stands, in terms of the node that the search found. */
    ghost predicate StartIs(nc: NodeCoords, prefix: Key, p: Key)
      reads trie, nc.node
    {
      && p in trie.G && p in trie.at && nc.pos == |prefix| && nc.node != null
      && prefix <= p && |p| <= trie.key_return_buf.Length
      && if nc.into > 0 then
           && nc.into < nc.node.chars_len <= |nc.node.chars| && nc.node.nodes_len == 1 && |nc.node.kids| == 1
           && trie.at[p] == nc.node.kids[0] && p == prefix + nc.node.chars[nc.into..nc.node.chars_len]
         else p == prefix && trie.at[p] == nc.node
    }

    /** What the end of the search for the prefix says about the shape. */
    static lemma StartShape(G: Shape, prefix: Key, c: Coords)
      requires WF(G) && c == Find(G, prefix, true) && !NoMatch(c, |prefix|)
      ensures c.path in G && c.pos == |prefix| && StartPath(G, c) in G && prefix <= StartPath(G, c)
      ensures Under(Denote(G), StartPath(G, c)) == Under(Denote(G), prefix)
      ensures if c.into > 0 then
                G[c.path].edges.Line? && c.into < |G[c.path].edges.str| && StartPath(G, c) ==
                    prefix + G[c.path].edges.str[c.into..]
              else StartPath(G, c) == prefix == c.path
    {
      hide WF;
      StartUnder(G, prefix, c);
      FindCorrect(G, prefix, true);
      ReachedNode(G, c);
      SensitiveSpells(Reached(G, c), prefix);
      assert Reached(G, c) == prefix;
      if c.into > 0 {
        var s := G[c.path].edges.str;
        assert s == s[..c.into] + s[c.into..];
      }
    }

    lemma StartHolds(nc: NodeCoords, prefix: Key, c: Coords)
      requires trie.Valid() && WF(trie.G) && c == Find(trie.G, prefix, true) && !NoMatch(c, |prefix|)
      requires trie.Points(nc, c)
      ensures c.path in trie.G && StartIs(nc, prefix, StartPath(trie.G, c))
      ensures Under(Denote(trie.G), StartPath(trie.G, c)) == Under(Denote(trie.G), prefix)
    {
      StartShape(trie.G, prefix, c);
      StartNode(nc, prefix, c, StartPath(trie.G, c));
    }

    lemma StartNode(nc: NodeCoords, prefix: Key, c: Coords, p: Key)
      requires trie.Valid() && c.path in trie.G && trie.Points(nc, c) && c.pos == |prefix| && p in trie.G && prefix <= p
      requires if c.into > 0 then
                 trie.G[c.path].edges.Line? && c.into < |trie.G[c.path].edges.str| && p ==
                     prefix + trie.G[c.path].edges.str[c.into..] == c.path + trie.G[c.path].edges.str
               else p == prefix == c.path
      ensures StartIs(nc, prefix, p)
    {
      var n := trie.at[c.path];
      assert Matches(n, trie.G[c.path], c.path, trie.at);
      if c.into > 0 {
        var s := trie.G[c.path].edges.str;
        assert n.chars[..n.chars_len] == s;
        assert n.chars[c.into..n.chars_len] == s[c.into..];
      }
    }

    /** frames gets room for one frame per byte that a key can have beyond the prefix. */
    method AllocFrames(pos: nat)
      requires pos <= trie.key_return_buf.Length
      modifies this`frames, this`startPos
      ensures fresh(frames) && frames.Length == trie.key_return_buf.Length - pos + 1 && startPos == pos
    {
      frames := new Frame[trie.key_return_buf.Length - pos + 1];
      startPos := pos;
    }

    /** The first push. */
    method Enroll(node: Node, pos: nat, ghost p: Key)
      requires p in trie.G && p in trie.at && trie.at[p] == node && |p| == pos && trie.at.Keys == trie.G.Keys
      requires current_frame == -1 && prev_frame == -1 && frames.Length > 0 && startPos <= |p|
      requires startPos + frames.Length == trie.key_return_buf.Length + 1
      modifies this`current_frame, this`prev_frame, this`fr, frames
      ensures Stacked() && Entry() && fr == [Spot(p, 0)]
    {
      Push(node, pos);
      fr := [Spot(p, 0)];
    }

    /** The end of skit_trie_iter_new, once the search has followed the whole prefix. */
    method Begin(nc: NodeCoords, prefix: Key, ghost p: Key)
      requires StartIs(nc, prefix, p) && trie.at.Keys == trie.G.Keys
      requires key_buffer.Length == trie.key_return_buf.Length && key_buffer != trie.key_return_buf
      requires key_buffer[..|prefix|] == prefix
      requires current_frame == -1 && prev_frame == -1
      modifies this`current_frame, this`prev_frame, this`fr, this`frames, this`startPos, frames, key_buffer
      ensures Stacked() && Buffered() && Entry() && fr == [Spot(p, 0)] && fresh(frames)
    {
      AllocFrames(nc.pos);
      var node, pos := nc.node, nc.pos;
      if nc.into > 0 {
        var frag := node.chars[nc.into..node.chars_len];
        Accumulate(pos, frag);
        assert key_buffer[..|p|] == key_buffer[..pos] + key_buffer[pos..pos + |frag|];
        pos := pos + |frag|;
        node := node.kids[0];
      }
      Enroll(node, pos, p);
    }

    /** The search for the prefix in skit_trie_iter_new. */
    method Locate(prefix: Key) returns (nc: NodeCoords, ghost p: Key)
      requires trie.Valid() && trie.root != null
      modifies trie.key_return_buf
      ensures trie.Valid()
      ensures nc.stopped && nc.pos < |prefix| ==> Under(Denote(trie.G), prefix) == {}
      ensures !(nc.stopped && nc.pos < |prefix|) ==>
                StartIs(nc, prefix, p) && Under(Denote(trie.G), p) == Under(Denote(trie.G), prefix) &&
                |prefix| <= trie.key_return_buf.Length && trie.key_return_buf[..|prefix|] == prefix
    {
      hide Trie.Valid, WF, Find, AfterFind, FoundText, Denote, Under, Spells;
      trie.Rooted();
      ghost var b := trie.key_return_buf[..];
      nc := trie.FindNode(prefix, true);
      FindText(trie.G, prefix, true, b);
      p := Located(nc, prefix);
      SpelledPrefix(trie.key_return_buf[..nc.pos], prefix);
    }

    /** What a case-sensitive search left in the buffer. */
    static lemma SpelledPrefix(t: Key, prefix: Key)
      requires Spells(t, prefix, true)
      ensures |t| == |prefix| ==> t == prefix
    {
      SensitiveSpells(t, prefix);
    }

    lemma Located(nc: NodeCoords, prefix: Key) returns (p: Key)
      requires trie.Valid() && WF(trie.G) && trie.Points(nc, Find(trie.G, prefix, true))
      ensures nc.stopped && nc.pos < |prefix| ==> Under(Denote(trie.G), prefix) == {}
      ensures !(nc.stopped && nc.pos < |prefix|) ==>
                StartIs(nc, prefix, p) && Under(Denote(trie.G), p) == Under(Denote(trie.G), prefix)
    {
      var c := Find(trie.G, prefix, true);
      p := [];
      if nc.stopped && nc.pos < |prefix| {
        NothingUnder(trie.G, prefix);
      } else {
        StartShape(trie.G, prefix, c);
        StartHolds(nc, prefix, c);
        p := StartPath(trie.G, c);
      }
    }

    /** Take the prefix over from the key buffer of the trie and push the first frame. */
    method BeginAt(nc: NodeCoords, prefix: Key, ghost p: Key, ghost todo: set<Key>)
      requires Under(Denote(trie.G), p) == todo
      requires Fresh() && StartIs(nc, prefix, p) && trie.at.Keys == trie.G.Keys
      requires |prefix| <= trie.key_return_buf.Length && trie.key_return_buf[..|prefix|] == prefix
      modifies this`current_frame, this`prev_frame, this`fr, this`frames, this`startPos, frames, key_buffer
      ensures Stacked() && Buffered() && fresh(frames) && Todo() == todo
    {
      Accumulate(0, trie.key_return_buf[..nc.pos]);
      assert key_buffer[0..0 + nc.pos] == key_buffer[..nc.pos];
      Begin(nc, prefix, p);
      StartRest(trie.G, p);
    }

    /** skit_trie_iter_new from the search on, on a trie with a root. */
    method Seek(prefix: Key, ghost todo: set<Key>)
      requires Fresh() && trie.Valid() && trie.root != null && todo == Under(Denote(trie.G), prefix)
      modifies this`current_frame, this`prev_frame, this`fr, this`frames, this`startPos, frames, key_buffer,
          trie.key_return_buf
      ensures Stacked() && Buffered() && Todo() == todo
      ensures frames == old(frames) || fresh(frames)
    {
      var nc;
      ghost var p;
      nc, p := Locate(prefix);
      if nc.stopped && nc.pos < |prefix| {
        assert Todo() == {};
      } else {
        BeginAt(nc, prefix, p, todo);
      }
    }

    /** The rest of skit_trie_iter_new. */
    method Start(prefix: Key)
      requires Fresh() && trie.Valid()
      modifies this`current_frame, this`prev_frame, this`fr, this`frames, this`startPos, frames, key_buffer,
          trie.key_return_buf
      ensures Live() && Todo() == Under(Denote(trie.G), prefix) && trie.Valid()
      ensures unchanged(trie) && (frames == old(frames) || fresh(frames))
    {
      StartFrames(prefix);
      Undisturbed();
    }

    /** The frames of the new iterator, if any key starts with the prefix. */
    method StartFrames(prefix: Key)
      requires Fresh() && trie.Valid()
      modifies this`current_frame, this`prev_frame, this`fr, this`frames, this`startPos, frames, key_buffer,
          trie.key_return_buf
      ensures Live() && Todo() == Under(Denote(trie.G), prefix)
      ensures frames == old(frames) || fresh(frames)
    {
      hide Inv;
      if trie.root != null {
        Seek(prefix, Under(Denote(trie.G), prefix));
      } else {
        assert Todo() == {} == Under(Denote(trie.G), prefix);
      }
    }

    /** No frames yet, and a buffer of its own. */
    ghost predicate Fresh()
      reads this, trie
    {
      && fr == [] && current_frame == -1 && prev_frame == -1 && !freed
      && key_buffer.Length == trie.key_return_buf.Length && key_buffer != trie.key_return_buf
    }

    /** Gets, refused sets, other iterators and openings leave a live iterator alone:
        they keep the shape and the nodes of the trie and the key buffer object, and
        write neither its fields nor its two arrays. */
    twostate lemma Survives()
      requires old(Live()) && unchanged(this) && unchanged(frames) && unchanged(key_buffer)
      requires trie.G == old(trie.G) && trie.at == old(trie.at) && trie.key_return_buf == old(trie.key_return_buf)
      ensures Live() && Todo() == old(Todo())
    {
    }

    /** The trie stays valid while only this iterator changes. */
    twostate lemma Undisturbed()
      requires old(trie.Valid()) && unchanged(trie) && forall n :: n in trie.at.Values ==> unchanged(n)
      ensures trie.Valid()
    {
    }

    /** key_buffer = NULL */
    method MarkFreed()
      requires trie.Valid()
      modifies this`freed
      ensures trie.Valid() && freed
    {
      freed := true;
      Undisturbed();
    }

    /** skit_trie_iter_free */
    method Free() returns (r: SetResult)
      requires trie.Valid() && (!freed ==> trie.iterator_count > 0)
      modifies this`freed, trie`iterator_count
      ensures trie.Valid() && freed
      ensures r == if old(freed) then Thrown(TRIE_EXCEPTION) else Stored
      ensures trie.iterator_count == if old(freed) then old(trie.iterator_count) else old(trie.iterator_count) - 1
    {
      if freed {
        r := Thrown(TRIE_EXCEPTION);
      } else {
        r := Stored;
        trie.CountIterators(trie.iterator_count - 1);
        MarkFreed();
      }
    }
  }

  datatype IterResult = Made(iter: Iter) | Refused(code: ErrCode)

  /** A new iterator without frames. */
  method Fresh(t: Trie) returns (it: Iter)
    requires t.Valid()
    ensures fresh(it) && fresh(it.frames) && fresh(it.key_buffer) && it.trie == t && it.Fresh() && t.Valid()
  {
    it := new Iter(t, t.key_return_buf.Length);
  }

  /** skit_trie_iter_new without the check of the flags. */
  method Open(t: Trie, prefix: Key) returns (it: Iter)
    requires t.Valid()
    modifies t`iterator_count, t.key_return_buf
    ensures fresh(it) && fresh(it.frames) && fresh(it.key_buffer) && it.trie == t && it.Live()
    ensures t.Valid() && it.Todo() == Under(Denote(t.G), prefix)
    ensures t.iterator_count == old(t.iterator_count) + 1
  {
    t.CountIterators(t.iterator_count + 1);
    it := Fresh(t);
    it.Start(prefix);
  }

  /** skit_trie_iter_new */
  method NewIter(t: Trie, prefix: Key, fl: Flags) returns (r: IterResult)
    requires t.Valid() && !fl.icase
    modifies t`iterator_count, t.key_return_buf
    ensures t.Valid()
    ensures fl.create || fl.overwrite ==> r == Refused(TRIE_BAD_FLAGS) && t.iterator_count == old(t.iterator_count)
    ensures !fl.create && !fl.overwrite ==>
              r.Made? && fresh(r.iter) && fresh(r.iter.frames) && fresh(r.iter.key_buffer) && r.iter.trie == t &&
              r.iter.Live() && r.iter.Todo() == Under(Denote(t.G), prefix) &&
              t.iterator_count == old(t.iterator_count) + 1
  {
    if fl.create || fl.overwrite {
      r := Refused(TRIE_BAD_FLAGS);
    } else {
      var it := Open(t, prefix);
      r := Made(it);
    }
  }

  ghost predicate Ascending(keys: seq<Key>) {
    forall i, j :: 0 <= i < j < |keys| ==> LexLess(keys[i], keys[j])
  }

  /** The keys reported so far come in order, before those still to come, and together
      with them make up all the keys there were at the start. */
  ghost predicate Drained(m: map<Key, Ptr>, all: set<Key>, keys: seq<Key>, values: seq<Ptr>, todo: set<Key>) {
    && Ascending(keys) && |values| == |keys|
    && (forall i, k :: 0 <= i < |keys| && k in todo ==> LexLess(keys[i], k))
    && (forall i :: 0 <= i < |keys| ==> keys[i] in m && values[i] == m[keys[i]])
    && (set i | 0 <= i < |keys| :: keys[i]) + todo == all
  }

  lemma DrainedMore(G: Shape, all: set<Key>, keys: seq<Key>, values: seq<Ptr>, todo: set<Key>,
                    key: Key, value: Ptr, todo': set<Key>)
    requires Drained(Denote(G), all, keys, values, todo)
    requires todo != {} && Reports(G, todo, true, Some(key), value, todo')
    ensures Drained(Denote(G), all, keys + [key], values + [value], todo')
  {
    var ks := keys + [key];
    forall i, j | 0 <= i < j < |ks| ensures LexLess(ks[i], ks[j]) { }
    var seen := set i | 0 <= i < |keys| :: keys[i];
    forall k | k in all ensures k in (set i | 0 <= i < |ks| :: ks[i]) + todo' {
      if k in seen { var i :| 0 <= i < |keys| && keys[i] == k; assert ks[i] == k; }
      if k == key { assert ks[|keys|] == k; }
    }
  }

  /** One round of the loop around skit_trie_iter_next. */
  method DrainStep(it: Iter, keys: seq<Key>, values: seq<Ptr>, ghost all: set<Key>)
    returns (more: bool, keys': seq<Key>, values': seq<Ptr>)
    requires it.trie.Valid() && it.Live() && Drained(Denote(it.trie.G), all, keys, values, it.Todo())
    modifies it`current_frame, it`prev_frame, it`fr, it.frames, it.key_buffer
    ensures it.Live() && Drained(Denote(it.trie.G), all, keys', values', it.Todo())
    ensures it.trie.Valid() && if more then it.Todo() < old(it.Todo()) else it.Todo() == {}
  {
    ghost var todo := it.Todo();
    var k, v;
    more, k, v := it.Next();
    keys', values' := keys, values;
    if more {
      DrainedMore(it.trie.G, all, keys, values, todo, k.value, v, it.Todo());
      keys', values' := keys + [k.value], values + [v];
    }
    it.Undisturbed();
  }

  /** The loop around skit_trie_iter_next that callers write: it ends, and it sees
      every key still to be reported once, in ascending order, with its value. */
  method Drain(it: Iter) returns (keys: seq<Key>, values: seq<Ptr>)
    requires it.trie.Valid() && it.Live()
    modifies it`current_frame, it`prev_frame, it`fr, it.frames, it.key_buffer
    ensures it.Live() && it.Todo() == {}
    ensures Drained(Denote(it.trie.G), old(it.Todo()), keys, values, {})
  {
    keys, values := [], [];
    ghost var all := it.Todo();
    var more := true;
    while more
      invariant it.trie.Valid() && it.Live()
      invariant Drained(Denote(it.trie.G), all, keys, values, it.Todo())
      invariant !more ==> it.Todo() == {}
      decreases it.Todo(), more
    {
      more, keys, values := DrainStep(it, keys, values, all);
    }
  }
}
