/** The searches of survival_kit/trie.c over a trie value: one step, the
    case-sensitive walk and the backtracking case-insensitive walk. */
module TrieLookup {
  import opened Bytes
  import opened TrieShape

  datatype Mode = Sensitive | TryUpper | TryLower

  /** skit_trie_coords, with the node named by its path. */
  datatype Coords = Coords(path: Key, pos: nat, into: nat, stopped: bool)

  /** Length of the longest common prefix of x and key, up to case unless cs.
      A longest common prefix is what the linear-edge scan measures. */
  function Lcp(x: Key, key: Key, cs: bool): (n: nat)
    ensures n <= |x| && n <= |key|
    ensures forall i :: 0 <= i < n ==> SameChar(key[i], x[i], cs)
    ensures n < |x| && n < |key| ==> !SameChar(key[n], x[n], cs)
  {
    if |x| == 0 || |key| == 0 || !SameChar(key[0], x[0], cs) then 0
    else
      var n := 1 + Lcp(x[1..], key[1..], cs);
      assert forall i :: 0 < i < n ==> key[i] == key[1..][i - 1] && x[i] == x[1..][i - 1];
      n
  }

  function Adjust(c: byte, mode: Mode): byte {
    match mode
    case Sensitive => c
    case TryUpper => ToUpper(c)
    case TryLower => ToLower(c)
  }

  function NextByChar(p: Key, used: set<byte>, key: Key, mode: Mode): Coords {
    if |p| >= |key| then Coords(p, |p|, 0, true)
    else
      var c := Adjust(key[|p|], mode);
      if c !in used then Coords(p, |p|, 0, true) else Coords(p + [c], |p| + 1, 0, false)
  }

  /** skit_trie_next_node: one edge further, or stop. */
  function Next(G: Shape, p: Key, key: Key, mode: Mode): (c: Coords)
    requires p in G && |p| <= |key|
  {
    match G[p].edges
    case Leaf => Coords(p, |p|, 0, true)
    case Line(s) =>
      var i := Lcp(s, key[|p|..], mode.Sensitive?);
      if i < |s| then Coords(p, |p| + i, i, true) else Coords(p + s, |p| + i, 0, false)
    case Fan(cs) => NextByChar(p, Elems(cs), key, mode)
    case Table(used) => NextByChar(p, used, key, mode)
  }

  /** skit_exact_match, which does not look at n_chars_into_node. */
  predicate Exact(G: Shape, c: Coords, len: nat) {
    c.pos == len && c.path in G && G[c.path].val.Some?
  }

  /** skit_prefix_match, which does not look at n_chars_into_node either. */
  predicate PrefixMatch(G: Shape, c: Coords, len: nat) {
    c.stopped && len == c.pos && c.path in G && G[c.path].val.None?
  }

  /** skit_no_match on a trie that has a root. */
  predicate NoMatch(c: Coords, len: nat) {
    c.stopped && c.pos < len
  }

  /** The search loop of skit_trie_find. */
  function Walk(G: Shape, p: Key, key: Key): Coords
    requires WF(G) && p in G && |p| <= |key|
    decreases |key| - |p|
  {
    var c := Next(G, p, key, Sensitive);
    if c.stopped || Exact(G, c, |key|) then c
    else
      NextOk(G, p, key, Sensitive);
      Walk(G, c.path, key)
  }

  /** skit_trie_find_icase_r */
  function Try(G: Shape, p: Key, key: Key, mode: Mode): Coords
    requires WF(G) && p in G && |p| <= |key|
    decreases |key| - |p|, 0
  {
    var c := Next(G, p, key, mode);
    if c.stopped || Exact(G, c, |key|) then c
    else
      NextOk(G, p, key, mode);
      WalkFold(G, c.path, key)
  }

  /** skit_trie_find_icase: the upper-case branch, then the lower-case branch,
      keeping the deeper of the two. */
  function WalkFold(G: Shape, p: Key, key: Key): Coords
    requires WF(G) && p in G && |p| <= |key|
    decreases |key| - |p|, 1
  {
    var a := Try(G, p, key, TryUpper);
    if a.stopped && !Exact(G, a, |key|) then
      var b := Try(G, p, key, TryLower);
      if a.pos > b.pos then a else b
    else a
  }

  function Find(G: Shape, key: Key, cs: bool): Coords
    requires WF(G)
  {
    if cs then Walk(G, [], key) else WalkFold(G, [], key)
  }

  // ------------------------------------------------------------ what they find

  /** The bytes from the root to the point the coordinates name. */
  function Reached(G: Shape, c: Coords): Key
    requires c.path in G
  {
    if G[c.path].edges.Line? && c.into <= |G[c.path].edges.str|
    then c.path + G[c.path].edges.str[..c.into] else c.path
  }

  ghost predicate Spells(p: Key, key: Key, cs: bool) {
    |p| <= |key| && forall i :: 0 <= i < |p| ==> SameChar(key[i], p[i], cs)
  }

  /** Coordinates name a point of the tree that key[..pos] leads to. */
  ghost predicate Placed(G: Shape, key: Key, c: Coords, cs: bool) {
    && c.path in G
    && (c.into > 0 ==> G[c.path].edges.Line? && c.into < |G[c.path].edges.str|)
    && c.pos == |c.path| + c.into == |Reached(G, c)|
    && Spells(Reached(G, c), key, cs)
    && (!c.stopped ==> c.into == 0)
  }

  /** No node below p shares more than n bytes with key. */
  ghost predicate Deepest(G: Shape, p: Key, key: Key, n: nat, cs: bool) {
    forall x :: x in G && p <= x ==> Lcp(x, key, cs) <= n
  }

  lemma NextOk(G: Shape, p: Key, key: Key, mode: Mode)
    requires WF(G) && p in G && |p| <= |key|
    ensures var c := Next(G, p, key, mode);
            !c.stopped ==> c.path in G && p < c.path && |c.path| <= |key| && c.pos == |c.path| && c.into == 0
  {
    var c := Next(G, p, key, mode);
    var e := G[p].edges;
    assert CellOk(G[p]) && KidsIn(G, p);
    if !c.stopped { assert IsKid(p, e, c.path); }
  }

  lemma LcpStops(x: Key, key: Key, n: nat, cs: bool)
    requires n >= |x| || n >= |key| || !SameChar(key[n], x[n], cs)
    ensures Lcp(x, key, cs) <= n
  {
  }

  lemma SpellsMore(p: Key, s: Key, key: Key, i: nat, cs: bool)
    requires Spells(p, key, cs) && i <= Lcp(s, key[|p|..], cs)
    ensures Spells(p + s[..i], key, cs)
  {
    forall k | |p| <= k < |p| + i ensures SameChar(key[k], (p + s[..i])[k], cs) {
      assert key[k] == key[|p|..][k - |p|];
    }
  }

  lemma NextPlaced(G: Shape, p: Key, key: Key, mode: Mode)
    requires WF(G) && p in G && Spells(p, key, mode.Sensitive?)
    ensures Placed(G, key, Next(G, p, key, mode), mode.Sensitive?)
    ensures Next(G, p, key, mode).pos >= |p|
  {
    hide WF;
    NextOk(G, p, key, mode);
    var c := Next(G, p, key, mode);
    match G[p].edges
    case Leaf =>
    case Line(s) =>
      var i := Lcp(s, key[|p|..], mode.Sensitive?);
      SpellsMore(p, s, key, i, mode.Sensitive?);
      assert s[..|s|] == s;
      assert !c.stopped ==> Reached(G, c) == p + s by { ReachedNode(G, c); }
    case Fan(cs) => ReachedNode(G, c); NextCharSpells(p, key, mode);
    case Table(used) => ReachedNode(G, c); NextCharSpells(p, key, mode);
  }

  lemma ReachedNode(G: Shape, c: Coords)
    requires c.path in G
    ensures c.into == 0 ==> Reached(G, c) == c.path
  {
    if c.into == 0 { assert c.path + [] == c.path; }
  }

  lemma NextCharSpells(p: Key, key: Key, mode: Mode)
    requires Spells(p, key, mode.Sensitive?)
    ensures |p| < |key| ==> Spells(p + [Adjust(key[|p|], mode)], key, mode.Sensitive?)
  {
    if |p| < |key| { SameUpToCase(key[|p|], Adjust(key[|p|], mode)); }
  }

  /** The keys a step in the given mode cannot miss. */
  ghost predicate InReach(G: Shape, p: Key, key: Key, mode: Mode, x: Key)
    requires p in G
  {
    p < x && ((G[p].edges.Fan? || G[p].edges.Table?) && |p| < |key| ==> x[|p|] == Adjust(key[|p|], mode))
  }

  lemma LineMisses(p: Key, s: Key, key: Key, cs: bool, x: Key)
    requires |p| <= |key| && p + s <= x
    ensures var i := Lcp(s, key[|p|..], cs); i < |s| ==> Lcp(x, key, cs) <= |p| + i
  {
    var i := Lcp(s, key[|p|..], cs);
    if i < |s| {
      assert x[|p| + i] == (p + s)[|p| + i] == s[i];
      if |p| + i < |key| { assert key[|p| + i] == key[|p|..][i]; }
      LcpStops(x, key, |p| + i, cs);
    }
  }

  lemma NextMisses(G: Shape, p: Key, key: Key, mode: Mode, x: Key)
    requires WF(G) && p in G && |p| <= |key|
    requires x in G && InReach(G, p, key, mode, x)
    ensures var c := Next(G, p, key, mode);
            if c.stopped then Lcp(x, key, mode.Sensitive?) <= c.pos else c.path <= x
  {
    assert Covers(p, G[p].edges, x);
    if G[p].edges.Line? {
      LcpStops(x, key, |key|, mode.Sensitive?);
      LineMisses(p, G[p].edges.str, key, mode.Sensitive?, x);
    } else {
      ByteMisses(G, p, key, mode, x);
    }
  }

  lemma ByteMisses(G: Shape, p: Key, key: Key, mode: Mode, x: Key)
    requires p in G && (G[p].edges.Fan? || G[p].edges.Table?) && |p| <= |key|
    requires InReach(G, p, key, mode, x) && Covers(p, G[p].edges, x)
    ensures var c := Next(G, p, key, mode);
            if c.stopped then Lcp(x, key, mode.Sensitive?) <= c.pos else c.path <= x
  {
    if |p| == |key| {
      LcpStops(x, key, |key|, mode.Sensitive?);
    } else {
      assert x[..|p|] == p && p + [x[|p|]] <= x;
    }
  }

  lemma {:induction false} WalkCorrect(G: Shape, p: Key, key: Key)
    requires WF(G) && p in G && Spells(p, key, true)
    ensures var c := Walk(G, p, key);
            && Placed(G, key, c, true) && c.pos >= |p|
            && (c.stopped || Exact(G, c, |key|))
            && Deepest(G, p, key, c.pos, true)
    decreases |key| - |p|
  {
    var c := Next(G, p, key, Sensitive);
    NextOk(G, p, key, Sensitive);
    NextPlaced(G, p, key, Sensitive);
    var r := Walk(G, p, key);
    if !c.stopped && !Exact(G, c, |key|) { WalkCorrect(G, c.path, key); }
    forall x | x in G && p <= x ensures Lcp(x, key, true) <= r.pos {
      if x == p {
      } else if |p| < |key| && (G[p].edges.Fan? || G[p].edges.Table?) && x[|p|] != key[|p|] {
        LcpStops(x, key, |p|, true);
      } else {
        NextMisses(G, p, key, Sensitive, x);
      }
    }
  }

  lemma {:induction false} TryCorrect(G: Shape, p: Key, key: Key, mode: Mode)
    requires WF(G) && p in G && Spells(p, key, false) && !mode.Sensitive?
    ensures var c := Try(G, p, key, mode);
            && Placed(G, key, c, false) && c.pos >= |p|
            && (c.stopped || Exact(G, c, |key|))
            && (forall x :: x in G && InReach(G, p, key, mode, x) ==> Lcp(x, key, false) <= c.pos)
    decreases |key| - |p|, 0
  {
    var c := Next(G, p, key, mode);
    NextOk(G, p, key, mode);
    NextPlaced(G, p, key, mode);
    var r := Try(G, p, key, mode);
    if !c.stopped && !Exact(G, c, |key|) { WalkFoldCorrect(G, c.path, key); }
    forall x | x in G && InReach(G, p, key, mode, x) ensures Lcp(x, key, false) <= r.pos {
      NextMisses(G, p, key, mode, x);
    }
  }

  /** The backtracking search ends at a point the query leads to up to case, and no
      node below p shares a longer prefix with the query up to case. */
  lemma {:induction false} WalkFoldCorrect(G: Shape, p: Key, key: Key)
    requires WF(G) && p in G && Spells(p, key, false)
    ensures var c := WalkFold(G, p, key);
            && Placed(G, key, c, false) && c.pos >= |p|
            && (c.stopped || Exact(G, c, |key|))
            && Deepest(G, p, key, c.pos, false)
    decreases |key| - |p|, 1
  {
    TryCorrect(G, p, key, TryUpper);
    TryCorrect(G, p, key, TryLower);
    var r := WalkFold(G, p, key);
    forall x | x in G && p <= x ensures Lcp(x, key, false) <= r.pos {
      if x == p {
      } else if InReach(G, p, key, TryUpper, x) || InReach(G, p, key, TryLower, x) {
      } else {
        SameUpToCase(key[|p|], x[|p|]);
        LcpStops(x, key, |p|, false);
      }
    }
  }

  /** Both searches return a longest match: the point reached is spelled by the
      first pos bytes of the query, and no node shares a longer prefix with it. */
  lemma FindCorrect(G: Shape, key: Key, cs: bool)
    requires WF(G)
    ensures var c := Find(G, key, cs);
            && Placed(G, key, c, cs)
            && (c.stopped || Exact(G, c, |key|))
            && Deepest(G, [], key, c.pos, cs)
  {
    if cs { WalkCorrect(G, [], key); } else { WalkFoldCorrect(G, [], key); }
  }
}
