/** The frame stack of a trie iterator as a value: which keys are still to come, and
    why each move of skit_trie_iter_next keeps or shortens that set. */
module TrieCursor {
  import opened Bytes
  import opened TrieShape
  import opened TrieLookup
  import opened TrieOps
  import opened KeyOrder

  /** One frame: the node, by its path, and current_char. */
  datatype Spot = Spot(path: Key, ch: nat)

  /** The first bytes of the edges of a node. */
  function KidChars(e: Edges): set<byte> {
    match e
    case Leaf => {}
    case Line(s) => if |s| > 0 then {s[0]} else {}
    case Fan(cs) => Elems(cs)
    case Table(used) => used
  }

  /** The node is an edge of two bytes or more, which is followed in one move. */
  predicate LongLine(e: Edges) {
    e.Line? && |e.str| > 1
  }

  /** k lies below the node of the frame, behind an edge not yet taken. */
  ghost predicate Ahead(f: Spot, k: Key) {
    f.path < k && k[|f.path|] >= f.ch
  }

  /** Keys still to be visited; the key of the newest node counts when the node was
      just entered. */
  ghost predicate Waiting(fr: seq<Spot>, entry: bool, k: Key) {
    || (entry && |fr| > 0 && k == fr[|fr| - 1].path)
    || exists i :: 0 <= i < |fr| && Ahead(fr[i], k)
  }

  ghost function Rest(G: Shape, fr: seq<Spot>, entry: bool): set<Key> {
    set k | k in Denote(G) && Waiting(fr, entry, k)
  }

  /** Each frame stands at a node, below the frame under it, behind an edge that the
      frame under it has passed. */
  ghost predicate StackOk(G: Shape, fr: seq<Spot>) {
    && (forall i :: 0 <= i < |fr| ==> fr[i].path in G && fr[i].ch <= 256)
    && (forall i :: 0 <= i < |fr| && LongLine(G[fr[i].path].edges) ==> fr[i].ch == 0 || fr[i].ch == 256)
    && (forall i, j :: 0 <= i < j < |fr| ==> fr[i].path < fr[j].path && fr[j].path[|fr[i].path|] < fr[i].ch)
  }

  /** n is the next edge byte after ch, or 256. */
  ghost predicate IsNext(chars: set<byte>, ch: nat, n: nat) {
    && ch < n <= 256
    && (n < 256 ==> n as byte in chars)
    && (forall c :: c in chars && ch < c ==> n <= c)
  }

  lemma CoverChar(G: Shape, p: Key, k: Key)
    requires WF(G) && p in G && k in G && p < k
    ensures k[|p|] in KidChars(G[p].edges)
    ensures LongLine(G[p].edges) ==> p + G[p].edges.str <= k
  {
    assert Covers(p, G[p].edges, k) && CellOk(G[p]);
    if G[p].edges.Line? {
      var s := G[p].edges.str;
      assert k[|p|] == (p + s)[|p|];
    }
  }

  /** The key of a node just entered comes before all other keys still to come, and
      reporting it takes out just that key. */
  lemma Yield(G: Shape, fr: seq<Spot>)
    requires WF(G) && StackOk(G, fr) && |fr| > 0
    requires G[fr[|fr| - 1].path].val.Some?
    ensures var k := fr[|fr| - 1].path;
            && k in Rest(G, fr, true)
            && (forall x :: x in Rest(G, fr, true) && x != k ==> LexLess(k, x))
            && Rest(G, fr, false) == Rest(G, fr, true) - {k}
  {
    hide WF;
    var k := fr[|fr| - 1].path;
    forall x | x in Rest(G, fr, false) ensures LexLess(k, x) && x != k {
      var i :| 0 <= i < |fr| && Ahead(fr[i], x);
      if i == |fr| - 1 {
        PrefixLess(k, x);
      } else {
        BranchLess(fr[i].path, k, x);
      }
    }
    forall x | x in Rest(G, fr, true) && x != k ensures x in Rest(G, fr, false) {
      var i :| 0 <= i < |fr| && Ahead(fr[i], x);
    }
  }

  /** Entering a node that holds no value reports nothing. */
  lemma NoYield(G: Shape, fr: seq<Spot>, entry: bool)
    requires StackOk(G, fr) && |fr| > 0 && G[fr[|fr| - 1].path].val.None?
    ensures Rest(G, fr, entry) == Rest(G, fr, false)
  {
  }

  /** A frame that is exhausted can be dropped. */
  lemma Pop(G: Shape, fr: seq<Spot>)
    requires StackOk(G, fr) && |fr| > 0 && fr[|fr| - 1].ch == 256
    ensures StackOk(G, fr[..|fr| - 1])
    ensures Rest(G, fr, false) == Rest(G, fr[..|fr| - 1], false)
  {
    var lo := fr[..|fr| - 1];
    forall k | Waiting(fr, false, k) ensures Waiting(lo, false, k) {
      var i :| 0 <= i < |fr| && Ahead(fr[i], k);
      assert i < |lo| && Ahead(lo[i], k);
    }
    forall k | Waiting(lo, false, k) ensures Waiting(fr, false, k) {
      var i :| 0 <= i < |lo| && Ahead(lo[i], k);
      assert Ahead(fr[i], k);
    }
  }

  /** The stack with the current_char of its top frame replaced. */
  function Turn(fr: seq<Spot>, ch: nat): seq<Spot>
    requires |fr| > 0
  {
    fr[|fr| - 1 := Spot(fr[|fr| - 1].path, ch)]
  }

  lemma TurnKeeps(fr: seq<Spot>, ch: nat, k: Key)
    requires |fr| > 0 && fr[|fr| - 1].ch <= ch
    ensures Waiting(Turn(fr, ch), false, k) ==> Waiting(fr, false, k)
    ensures Waiting(fr, false, k) ==> Waiting(Turn(fr, ch), false, k) || Ahead(fr[|fr| - 1], k)
  {
    if Waiting(Turn(fr, ch), false, k) {
      var i :| 0 <= i < |fr| && Ahead(Turn(fr, ch)[i], k);
      assert Ahead(fr[i], k);
    }
    if Waiting(fr, false, k) {
      var i :| 0 <= i < |fr| && Ahead(fr[i], k);
      if i < |fr| - 1 { assert Ahead(Turn(fr, ch)[i], k); }
    }
  }

  lemma TurnOk(G: Shape, fr: seq<Spot>, ch: nat)
    requires StackOk(G, fr) && |fr| > 0 && fr[|fr| - 1].ch <= ch <= 256
    requires LongLine(G[fr[|fr| - 1].path].edges) ==> ch == 256
    ensures StackOk(G, Turn(fr, ch))
  {
  }

  /** No edge has the current byte: moving on to the next edge byte loses no key. */
  lemma Skip(G: Shape, fr: seq<Spot>, n: nat)
    requires WF(G) && StackOk(G, fr) && |fr| > 0 && fr[|fr| - 1].ch < 256
    requires var e := G[fr[|fr| - 1].path].edges;
             && !LongLine(e) && fr[|fr| - 1].ch as byte !in KidChars(e) && IsNext(KidChars(e), fr[|fr| - 1].ch, n)
    ensures StackOk(G, Turn(fr, n)) && Rest(G, Turn(fr, n), false) == Rest(G, fr, false)
  {
    var f := fr[|fr| - 1];
    TurnOk(G, fr, n);
    forall k | k in Denote(G) ensures Waiting(Turn(fr, n), false, k) <==> Waiting(fr, false, k) {
      TurnKeeps(fr, n, k);
      if Ahead(f, k) {
        CoverChar(G, f.path, k);
        assert Ahead(Turn(fr, n)[|fr| - 1], k);
      }
    }
  }

  /** Following the edge at the current byte splits the keys below the node into those
      behind that edge and those behind later edges. */
  lemma Descend(G: Shape, fr: seq<Spot>, n: nat, q: Key)
    requires WF(G) && StackOk(G, fr) && |fr| > 0 && q in G
    requires fr[|fr| - 1].path in G && Edge(G, fr[|fr| - 1], n, q)
    ensures var fr' := Turn(fr, n) + [Spot(q, 0)];
            StackOk(G, fr') && Rest(G, fr', true) == Rest(G, fr, false)
  {
    var f := fr[|fr| - 1];
    var fr' := Turn(fr, n) + [Spot(q, 0)];
    TurnOk(G, fr, n);
    DescendOk(G, fr, n, q);
    forall k | k in Denote(G) ensures Waiting(fr', true, k) <==> Waiting(fr, false, k) {
      DescendKey(G, fr, n, q, k);
    }
  }

  lemma DescendOk(G: Shape, fr: seq<Spot>, n: nat, q: Key)
    requires |fr| > 0 && StackOk(G, Turn(fr, n)) && StackOk(G, fr) && q in G
    requires fr[|fr| - 1].path < q && q[|fr[|fr| - 1].path|] < n
    ensures StackOk(G, Turn(fr, n) + [Spot(q, 0)])
  {
    var t := Turn(fr, n);
    var fr' := t + [Spot(q, 0)];
    forall i, j | 0 <= i < j < |fr'| ensures fr'[i].path < fr'[j].path && fr'[j].path[|fr'[i].path|] < fr'[i].ch {
      if j == |t| && i < |t| - 1 {
        assert t[i].path < t[|t| - 1].path < q;
      }
    }
  }

  /** q is the child of the top frame behind the edge at its current byte, and n the
      next edge byte. */
  ghost predicate Edge(G: Shape, f: Spot, n: nat, q: Key)
    requires f.path in G
  {
    var e := G[f.path].edges;
    && f.ch < 256
    && if LongLine(e) then f.ch == 0 && n == 256 && q == f.path + e.str
       else f.ch as byte in KidChars(e) && IsNext(KidChars(e), f.ch, n) && q == f.path + [f.ch as byte]
  }

  lemma EdgeAhead(G: Shape, f: Spot, n: nat, q: Key, k: Key)
    requires WF(G) && f.path in G && Edge(G, f, n, q) && k in G
    ensures q <= k ==> Ahead(f, k)
    ensures Ahead(f, k) ==> q <= k || Ahead(Spot(f.path, n), k)
  {
    assert f.path < q;
    if Ahead(f, k) { CoverChar(G, f.path, k); }
  }

  lemma DescendKey(G: Shape, fr: seq<Spot>, n: nat, q: Key, k: Key)
    requires WF(G) && StackOk(G, fr) && |fr| > 0 && q in G && k in Denote(G)
    requires fr[|fr| - 1].path in G && Edge(G, fr[|fr| - 1], n, q)
    ensures Waiting(Turn(fr, n) + [Spot(q, 0)], true, k) <==> Waiting(fr, false, k)
  {
    var f := fr[|fr| - 1];
    var t := Turn(fr, n);
    TurnKeeps(fr, n, k);
    EdgeAhead(G, f, n, q, k);
    WaitingMore(t, Spot(q, 0), k);
    assert Ahead(f, k) ==> Waiting(fr, false, k);
    assert Ahead(t[|t| - 1], k) ==> Waiting(t, false, k);
    assert Ahead(Spot(q, 0), k) || k == q <==> q <= k;
  }

  lemma WaitingMore(t: seq<Spot>, g: Spot, k: Key)
    ensures Waiting(t + [g], true, k) <==> Waiting(t, false, k) || Ahead(g, k) || k == g.path
  {
    var fr := t + [g];
    if Waiting(t, false, k) {
      var i :| 0 <= i < |t| && Ahead(t[i], k);
      assert Ahead(fr[i], k);
    }
    if Ahead(g, k) { assert Ahead(fr[|t|], k); }
  }

  // ----------------------------------------------------------------- starting

  /** The stored keys that start with a prefix. */
  ghost function Under(m: map<Key, Ptr>, prefix: Key): set<Key> {
    set k | k in m && prefix <= k
  }

  /** One frame at a node just entered has all the keys at and below the node to come. */
  lemma StartRest(G: Shape, p: Key)
    requires p in G
    ensures StackOk(G, [Spot(p, 0)]) && Rest(G, [Spot(p, 0)], true) == Under(Denote(G), p)
  {
    var fr := [Spot(p, 0)];
    forall k | k in Denote(G) ensures Waiting(fr, true, k) <==> p <= k {
      assert Ahead(fr[0], k) <==> p < k;
    }
  }

  /** The node where iteration starts: the node found, or the end of the edge inside
      which the prefix ends. */
  function StartPath(G: Shape, c: Coords): Key
    requires c.path in G
  {
    if c.into > 0 && G[c.path].edges.Line? then c.path + G[c.path].edges.str else c.path
  }

  /** Below that node lie exactly the stored keys that start with the prefix. */
  lemma StartUnder(G: Shape, prefix: Key, c: Coords)
    requires WF(G) && c == Find(G, prefix, true) && !NoMatch(c, |prefix|)
    ensures c.path in G && prefix <= StartPath(G, c) && StartPath(G, c) in G
    ensures Under(Denote(G), StartPath(G, c)) == Under(Denote(G), prefix)
  {
    FindCorrect(G, prefix, true);
    ReachedNode(G, c);
    SensitiveSpells(Reached(G, c), prefix);
    assert Reached(G, c) == prefix;
    var p := StartPath(G, c);
    if c.into > 0 {
      assert KidsIn(G, c.path) && IsKid(c.path, G[c.path].edges, p);
      forall k | k in Denote(G) && prefix <= k ensures p <= k { BelowLine(G, c.path, k); }
    }
  }

  /** A prefix that the search cannot follow to its end starts no stored key. */
  lemma NothingUnder(G: Shape, prefix: Key)
    requires Ok(G) && (G == map[] || NoMatch(Find(G, prefix, true), |prefix|))
    ensures Under(Denote(G), prefix) == {}
  {
    if G != map[] {
      FindCorrect(G, prefix, true);
      forall k | k in Under(Denote(G), prefix) ensures false { PrefixLcp(prefix, k, prefix, true); }
    }
  }

  // -------------------------------------------------------------- termination

  /** The pairs of node and current_char that the iterator has yet to pass through. */
  ghost predicate Pending(fr: seq<Spot>, p: Key, ch: nat) {
    exists i :: 0 <= i < |fr| && ((p == fr[i].path && fr[i].ch <= ch) || Ahead(fr[i], p))
  }

  ghost function Unseen(G: Shape, fr: seq<Spot>): set<(Key, nat)> {
    set p, ch | p in G && 0 <= ch <= 256 && Pending(fr, p, ch) :: (p, ch)
  }

  lemma PopSeen(G: Shape, fr: seq<Spot>)
    requires StackOk(G, fr) && |fr| > 0 && fr[|fr| - 1].ch == 256
    ensures Unseen(G, fr[..|fr| - 1]) < Unseen(G, fr)
  {
    var lo := fr[..|fr| - 1];
    var f := fr[|fr| - 1];
    forall p, ch: nat | Pending(lo, p, ch) ensures Pending(fr, p, ch) {
      var i :| 0 <= i < |lo| && ((p == lo[i].path && lo[i].ch <= ch) || Ahead(lo[i], p));
      assert fr[i] == lo[i];
    }
    assert f.path in G && Pending(fr, f.path, 256);
    assert (f.path, 256) in Unseen(G, fr);
    assert !Pending(lo, f.path, 256);
  }

  lemma TurnSeen(G: Shape, fr: seq<Spot>, n: nat)
    requires StackOk(G, fr) && |fr| > 0 && fr[|fr| - 1].ch < n <= 256
    ensures Unseen(G, Turn(fr, n)) < Unseen(G, fr)
  {
    var t := Turn(fr, n);
    var f := fr[|fr| - 1];
    forall p, ch: nat | Pending(t, p, ch) ensures Pending(fr, p, ch) {
      var i :| 0 <= i < |t| && ((p == t[i].path && t[i].ch <= ch) || Ahead(t[i], p));
      assert (p == fr[i].path && fr[i].ch <= ch) || Ahead(fr[i], p);
    }
    assert Pending(fr, f.path, f.ch) && f.path in G;
    assert (f.path, f.ch) in Unseen(G, fr);
    assert !Pending(t, f.path, f.ch);
  }

  lemma DescendSeen(G: Shape, fr: seq<Spot>, n: nat, q: Key)
    requires StackOk(G, fr) && |fr| > 0 && fr[|fr| - 1].ch < n <= 256 && q in G
    requires Ahead(fr[|fr| - 1], q)
    ensures Unseen(G, Turn(fr, n) + [Spot(q, 0)]) < Unseen(G, fr)
  {
    var t := Turn(fr, n);
    var f := fr[|fr| - 1];
    var fr' := t + [Spot(q, 0)];
    forall p, ch: nat | Pending(fr', p, ch) ensures Pending(fr, p, ch) {
      var i :| 0 <= i < |fr'| && ((p == fr'[i].path && fr'[i].ch <= ch) || Ahead(fr'[i], p));
      if i < |t| {
        assert (p == fr[i].path && fr[i].ch <= ch) || Ahead(fr[i], p);
      } else {
        assert Ahead(f, p);
      }
    }
    assert Pending(fr, f.path, f.ch) && f.path in G;
    assert (f.path, f.ch) in Unseen(G, fr);
    assert !Pending(fr', f.path, f.ch);
  }

  /** A move keeps the keys to come and gets closer to the end. */
  ghost predicate Progress(G: Shape, fr: seq<Spot>, entry: bool, fr': seq<Spot>, entry': bool) {
    && Rest(G, fr', entry') == Rest(G, fr, entry)
    && Unseen(G, fr') < Unseen(G, fr)
  }

  /** The newest node has nothing to report and more edges to try. */
  ghost predicate CanMove(G: Shape, fr: seq<Spot>, entry: bool) {
    && WF(G) && StackOk(G, fr) && |fr| > 0 && fr[|fr| - 1].path in G && fr[|fr| - 1].ch < 256
    && (entry ==> G[fr[|fr| - 1].path].val.None?)
  }

  lemma DescendProgress(G: Shape, fr: seq<Spot>, entry: bool, n: nat, q: Key)
    requires CanMove(G, fr, entry) && q in G && Edge(G, fr[|fr| - 1], n, q)
    ensures var fr' := Turn(fr, n) + [Spot(q, 0)];
            StackOk(G, fr') && Progress(G, fr, entry, fr', true)
  {
    EdgeAhead(G, fr[|fr| - 1], n, q, q);
    if entry { NoYield(G, fr, entry); }
    Descend(G, fr, n, q);
    DescendSeen(G, fr, n, q);
  }

  lemma SkipProgress(G: Shape, fr: seq<Spot>, entry: bool, n: nat)
    requires CanMove(G, fr, entry)
    requires var e := G[fr[|fr| - 1].path].edges;
             && !LongLine(e) && fr[|fr| - 1].ch as byte !in KidChars(e) && IsNext(KidChars(e), fr[|fr| - 1].ch, n)
    ensures StackOk(G, Turn(fr, n)) && Progress(G, fr, entry, Turn(fr, n), entry)
  {
    Skip(G, fr, n);
    TurnSeen(G, fr, n);
    if entry {
      NoYield(G, fr, entry);
      NoYield(G, Turn(fr, n), entry);
    }
  }

  lemma PopProgress(G: Shape, fr: seq<Spot>, entry: bool)
    requires StackOk(G, fr) && |fr| > 0 && fr[|fr| - 1].path in G && fr[|fr| - 1].ch == 256
    requires entry ==> G[fr[|fr| - 1].path].val.None?
    ensures StackOk(G, fr[..|fr| - 1]) && Progress(G, fr, entry, fr[..|fr| - 1], false)
  {
    if entry { NoYield(G, fr, entry); }
    Pop(G, fr);
    PopSeen(G, fr);
  }

  /** One move at the newest node: down the edge to q, or on to the next edge byte. */
  ghost predicate Moves(G: Shape, fr: seq<Spot>, entry: bool, n: nat, q: Option<Key>, fr': seq<Spot>, entry': bool)
    requires |fr| > 0 && fr[|fr| - 1].path in G
  {
    match q
    case Some(k) => k in G && Edge(G, fr[|fr| - 1], n, k) && fr' == Turn(fr, n) + [Spot(k, 0)] && entry'
    case None =>
      var e := G[fr[|fr| - 1].path].edges;
      && fr[|fr| - 1].ch < 256 && !LongLine(e) && fr[|fr| - 1].ch as byte !in KidChars(e)
      && IsNext(KidChars(e), fr[|fr| - 1].ch, n) && fr' == Turn(fr, n) && entry' == entry
  }

  lemma MovesProgress(G: Shape, fr: seq<Spot>, entry: bool, n: nat, q: Option<Key>, fr': seq<Spot>, entry': bool)
    requires CanMove(G, fr, entry) && Moves(G, fr, entry, n, q, fr', entry')
    ensures StackOk(G, fr') && Progress(G, fr, entry, fr', entry')
  {
    match q
    case Some(k) => DescendProgress(G, fr, entry, n, k);
    case None => SkipProgress(G, fr, entry, n);
  }

  /** One call of skit_trie_iter_next takes the least key out of those to come and
      reports it with its value, or reports the end when there is none. */
  ghost predicate Reports(G: Shape, todo: set<Key>, more: bool, key: Option<Key>, value: Ptr, todo': set<Key>) {
    if todo == {} then !more && key == None && value == 0 && todo' == {}
    else
      && more && key.Some? && key.value in todo && key.value in Denote(G)
      && value == Denote(G)[key.value]
      && (forall k :: k in todo && k != key.value ==> LexLess(key.value, k))
      && todo' == todo - {key.value}
  }

  lemma YieldReports(G: Shape, fr: seq<Spot>, value: Ptr)
    requires WF(G) && StackOk(G, fr) && |fr| > 0
    requires var k := fr[|fr| - 1].path; k in G && G[k].val == Some(value)
    ensures Reports(G, Rest(G, fr, true), true, Some(fr[|fr| - 1].path), value, Rest(G, fr, false))
  {
    Yield(G, fr);
  }
}
