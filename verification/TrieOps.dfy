/** skit_trie_set and skit_trie_get as functions of the trie value, and their
    relation to a plain finite map. */
module TrieOps {
  import opened Bytes
  import opened TrieShape
  import opened TrieLookup

  /** The flags 'i', 'c' and 'o'. */
  datatype Flags = Flags(icase: bool, create: bool, overwrite: bool)

  /** The exception codes that a set can throw. */
  datatype ErrCode =
    | TRIE_WRITE_IN_ITERATION
    | TRIE_BAD_FLAGS
    | TRIE_EXCEPTION
    | EXCEPTION
    | FATAL_EXCEPTION

  datatype SetResult = Stored | Thrown(code: ErrCode)

  /** An empty trie has no root node. */
  ghost predicate Ok(G: Shape) {
    G == map[] || WF(G)
  }

  /** skit_trie_split_node: make room at c and store the rest of the key. */
  function Insert(G: Shape, c: Coords, key: Key, v: Ptr): Shape
    requires c.path in G && c.pos <= |key|
    requires c.into > 0 ==> G[c.path].edges.Line? && c.into < |G[c.path].edges.str|
  {
    if c.into > 0 then InsertAt(SplitLine(G, c.path, c.into), Reached(G, c), key[c.pos..], v)
    else InsertAt(G, c.path, key[c.pos..], v)
  }

  /** The key that an insertion at c creates: the bytes already on the path, then
      the rest of the given key. */
  function NewKey(G: Shape, c: Coords, key: Key): Key
    requires c.path in G && c.pos <= |key|
  {
    Reached(G, c) + key[c.pos..]
  }

  lemma PrefixLcp(p: Key, x: Key, key: Key, cs: bool)
    requires p <= x && Spells(p, key, cs)
    ensures Lcp(x, key, cs) >= |p|
  {
    var n := Lcp(x, key, cs);
    if n < |p| { assert false; }
  }

  /** A deepest stop leaves room below it: no node lies beyond the next byte. */
  lemma RoomBelow(G: Shape, key: Key, c: Coords, cs: bool)
    requires Placed(G, key, c, cs) && Deepest(G, [], key, c.pos, cs) && c.pos < |key|
    ensures NoneBelow(G, Reached(G, c) + [key[c.pos]])
  {
    hide Reached, Lcp;
    var p := Reached(G, c) + [key[c.pos]];
    forall x | x in G && p <= x ensures false {
      PrefixLcp(p, x, key, cs);
    }
  }

  lemma InsertCorrect(G: Shape, key: Key, c: Coords, cs: bool, v: Ptr)
    requires WF(G) && Placed(G, key, c, cs) && Deepest(G, [], key, c.pos, cs)
    requires !Exact(G, c, |key|)
    ensures WF(Insert(G, c, key, v))
    ensures Denote(Insert(G, c, key, v)) == Denote(G)[NewKey(G, c, key) := v]
    ensures NewKey(G, c, key) !in Denote(G)
  {
    NewKeyIsNew(G, key, c, cs);
    if c.pos < |key| { RoomBelow(G, key, c, cs); }
    if c.into > 0 {
      var p := Reached(G, c);
      SplitLineWF(G, c.path, c.into);
      if c.pos < |key| { SplitLineNoneBelow(G, c.path, c.into, p + [key[c.pos]]); }
      InsertAtCorrect(SplitLine(G, c.path, c.into), p, key[c.pos..], v);
    } else {
      ReachedNode(G, c);
      InsertAtCorrect(G, c.path, key[c.pos..], v);
    }
  }

  lemma NewKeyIsNew(G: Shape, key: Key, c: Coords, cs: bool)
    requires WF(G) && Placed(G, key, c, cs) && Deepest(G, [], key, c.pos, cs)
    requires !Exact(G, c, |key|)
    ensures NewKey(G, c, key) !in Denote(G)
  {
    var k := NewKey(G, c, key);
    if k in G {
      NewKeySpells(G, key, c, cs);
      PrefixLcp(k, k, key, cs);
      assert c.pos == |key|;
      assert k == Reached(G, c);
      if c.into > 0 { SplitPointFree(G, c.path, c.into); }
      ReachedNode(G, c);
    }
  }

  lemma NewKeySpells(G: Shape, key: Key, c: Coords, cs: bool)
    requires Placed(G, key, c, cs)
    ensures |NewKey(G, c, key)| == |key| && Spells(NewKey(G, c, key), key, cs)
    ensures cs ==> NewKey(G, c, key) == key
  {
    var k := NewKey(G, c, key);
    forall i | 0 <= i < |key| ensures SameChar(key[i], k[i], cs) {
      if i < c.pos { assert k[i] == Reached(G, c)[i]; }
    }
  }

  // ------------------------------------------------------------- the operations

  /** length, shape, length of key_return_buf and iterator_count of a skit_trie. */
  datatype State = State(G: Shape, length: nat, longest: nat, iters: nat)

  ghost predicate Inv(s: State) {
    && Ok(s.G)
    && s.length == |Denote(s.G)|
    && (forall p :: p in s.G ==> |p| <= s.longest)
  }

  const EMPTY := State(map[], 0, 0, 0)

  function Max(a: nat, b: nat): nat { if a > b then a else b }

  /** skit_trie_set */
  function Set(s: State, key: Key, v: Ptr, fl: Flags): (State, SetResult)
    requires Inv(s)
  {
    if s.iters > 0 then (s, Thrown(TRIE_WRITE_IN_ITERATION))
    else if !fl.create && !fl.overwrite then (s, Thrown(TRIE_BAD_FLAGS))
    else
      var s' := s.(longest := Max(s.longest, |key|));
      if s.G == map[] then
        if !fl.create then (s', Thrown(EXCEPTION))
        else (s'.(G := Chain([], key, v), length := s.length + 1), Stored)
      else
        var c := Find(s.G, key, !fl.icase);
        FindCorrect(s.G, key, !fl.icase);
        if Exact(s.G, c, |key|) then
          if !fl.overwrite then (s', Thrown(EXCEPTION))
          else (s'.(G := SetVal(s.G, c.path, v)), Stored)
        else if PrefixMatch(s.G, c, |key|) || NoMatch(c, |key|) then
          if !fl.create then (s', Thrown(EXCEPTION))
          else (s'.(G := Insert(s.G, c, key, v), length := s.length + 1), Stored)
        else (s', Thrown(FATAL_EXCEPTION))
  }

  /** skit_trie_get: the value found, if any. */
  function Get(s: State, key: Key, fl: Flags): Option<Ptr>
    requires Inv(s)
  {
    if s.G == map[] then None
    else
      var c := Find(s.G, key, !fl.icase);
      if Exact(s.G, c, |key|) then s.G[c.path].val else None
  }

  // ------------------------------------------------------- the finite-map model

  function MapGet(m: map<Key, Ptr>, key: Key): Option<Ptr> {
    if key in m then Some(m[key]) else None
  }

  /** The update of a map that 'c' and 'o' allow, with the exceptions that skit_trie_set
      throws. */
  function MapSet(m: map<Key, Ptr>, iters: nat, key: Key, v: Ptr, fl: Flags): (map<Key, Ptr>, SetResult) {
    if iters > 0 then (m, Thrown(TRIE_WRITE_IN_ITERATION))
    else if !fl.create && !fl.overwrite then (m, Thrown(TRIE_BAD_FLAGS))
    else if key in m && !fl.overwrite then (m, Thrown(EXCEPTION))
    else if key !in m && !fl.create then (m, Thrown(EXCEPTION))
    else (m[key := v], Stored)
  }

  /** The search ends strictly inside an edge that leaves a node holding a value. */
  predicate StopsInValueEdge(G: Shape, key: Key, cs: bool)
    requires Ok(G)
  {
    G != map[] && var c := Find(G, key, cs); Exact(G, c, |key|) && c.into > 0
  }

  /** The key ends strictly inside an edge of the tree that leaves a node holding a value. */
  predicate InsideValueEdge(G: Shape, key: Key) {
    exists p :: p in G && G[p].val.Some? && G[p].edges.Line? && p < key < p + G[p].edges.str
  }

  lemma Comparable(p: Key, q: Key, key: Key)
    requires p <= key && q <= key
    ensures p < q || q < p || p == q
  {
    if |p| < |q| {
      assert p == key[..|p|] == q[..|p|];
    } else {
      assert q == key[..|q|] == p[..|q|];
    }
  }

  /** Where a search that stops in a value edge stops is told by the stored tree alone. */
  lemma StopsMeans(G: Shape, key: Key)
    requires Ok(G)
    ensures StopsInValueEdge(G, key, true) <==> InsideValueEdge(G, key)
  {
    if G != map[] { StopsMeansWF(G, key); }
  }

  lemma StopsMeansWF(G: Shape, key: Key)
    requires WF(G)
    ensures StopsInValueEdge(G, key, true) <==> InsideValueEdge(G, key)
  {
    if StopsInValueEdge(G, key, true) {
      StopsInside(G, key);
    }
    if InsideValueEdge(G, key) {
      var p :| p in G && G[p].val.Some? && G[p].edges.Line? && p < key < p + G[p].edges.str;
      FoundInside(G, key, p);
    }
  }

  lemma StopsInside(G: Shape, key: Key)
    requires WF(G) && StopsInValueEdge(G, key, true)
    ensures InsideValueEdge(G, key)
  {
    hide WF;
    var c := Find(G, key, true);
    FindCorrect(G, key, true);
    SensitiveSpells(Reached(G, c), key);
    var p, str := c.path, G[c.path].edges.str;
    assert Reached(G, c) == p + str[..c.into] == key;
    assert p + str == key + str[c.into..];
    assert p < key < p + str;
  }

  lemma FoundInside(G: Shape, key: Key, p: Key)
    requires WF(G) && p in G && G[p].val.Some? && G[p].edges.Line? && p < key < p + G[p].edges.str
    ensures StopsInValueEdge(G, key, true)
  {
    var c := Find(G, key, true);
    var str := G[p].edges.str;
    FindCorrect(G, key, true);
    ReachedNode(G, c);
    SensitiveSpells(Reached(G, c), key);
    assert KidsIn(G, p) && IsKid(p, G[p].edges, p + str);
    SensitivePrefix(key, p + str);
    assert c.pos == |key| && Reached(G, c) == key;
    Comparable(p, c.path, key);
    if p < c.path { BelowLine(G, p, c.path); }
    if c.path < p { BelowLine(G, c.path, p); }
  }

  lemma SensitivePrefix(key: Key, x: Key)
    requires key <= x
    ensures Lcp(x, key, true) == |key|
  {
    assert forall i :: 0 <= i < |key| ==> x[i] == key[i];
  }

  lemma PathSpells(G: Shape, key: Key, c: Coords, cs: bool)
    requires Placed(G, key, c, cs)
    ensures Spells(c.path, key, cs) && (c.into > 0 ==> |c.path| < |key|)
  {
    ReachedNode(G, c);
    assert forall i :: 0 <= i < |c.path| ==> c.path[i] == Reached(G, c)[i];
  }

  /** No search of a key that has no stored key as a proper prefix, up to case where case
      does not count, stops in a value edge. */
  lemma NoPrefixClear(G: Shape, key: Key, cs: bool)
    requires WF(G) && forall x :: x in Denote(G) && |x| < |key| ==> !Spells(x, key, cs)
    ensures !StopsInValueEdge(G, key, cs)
  {
    FindCorrect(G, key, cs);
    PathSpells(G, key, Find(G, key, cs), cs);
  }

  /** The key that a case-sensitive operation on key really acts on. */
  function Target(G: Shape, key: Key): Key
    requires Ok(G)
  {
    if StopsInValueEdge(G, key, true) then Find(G, key, true).path else key
  }

  lemma SensitiveSpells(p: Key, key: Key)
    requires Spells(p, key, true)
    ensures p <= key
  {
  }

  lemma TargetExact(G: Shape, key: Key)
    requires WF(G)
    ensures var c := Find(G, key, true);
            && (Exact(G, c, |key|) ==> Target(G, key) == c.path && c.path in Denote(G))
            && (!Exact(G, c, |key|) ==> Target(G, key) == key && key !in Denote(G))
            && (StopsInValueEdge(G, key, true) ==> c.path < key && key !in G)
  {
    var c := Find(G, key, true);
    FindCorrect(G, key, true);
    ReachedNode(G, c);
    if !Exact(G, c, |key|) {
      NewKeyIsNew(G, key, c, true);
      NewKeySpells(G, key, c, true);
    } else {
      assert Reached(G, c) == key;
      if c.into > 0 { SplitPointFree(G, c.path, c.into); }
    }
  }

  lemma ChainCorrect(key: Key, v: Ptr)
    ensures WF(Chain([], key, v)) && Denote(Chain([], key, v)) == map[key := v]
    ensures forall p :: p in Chain([], key, v) ==> |p| <= |key|
  {
    hide Chain;
    ChainOk([], key, v);
    ChainCovered([], key, v);
    ChainShape([], key, v);
    ChainVals([], key, v);
    assert [] + key == key;
  }

  lemma InsertPaths(G: Shape, c: Coords, key: Key, v: Ptr, n: nat, cs: bool)
    requires WF(G) && Placed(G, key, c, cs) && |key| <= n
    requires forall p :: p in G ==> |p| <= n
    ensures forall p :: p in Insert(G, c, key, v) ==> |p| <= n
  {
    hide WF;
    var r := key[c.pos..];
    if |r| > 0 { ChainShape(Reached(G, c) + [r[0]], r[1..], v); ReachedNode(G, c); }
  }

  lemma OverwriteInv(s: State, p: Key, v: Ptr, n: nat)
    requires Inv(s) && WF(s.G) && p in s.G && s.G[p].val.Some? && s.longest <= n
    ensures Inv(s.(G := SetVal(s.G, p, v), longest := n))
  {
    SetValCorrect(s.G, p, v);
    assert Denote(s.G)[p := v].Keys == Denote(s.G).Keys;
  }

  lemma InsertInv(s: State, key: Key, c: Coords, cs: bool, v: Ptr)
    requires Inv(s) && WF(s.G) && Placed(s.G, key, c, cs) && Deepest(s.G, [], key, c.pos, cs)
    requires !Exact(s.G, c, |key|)
    ensures Inv(s.(G := Insert(s.G, c, key, v), length := s.length + 1, longest := Max(s.longest, |key|)))
  {
    InsertCorrect(s.G, key, c, cs, v);
    InsertPaths(s.G, c, key, v, Max(s.longest, |key|), cs);
    assert Denote(s.G)[NewKey(s.G, c, key) := v].Keys == Denote(s.G).Keys + {NewKey(s.G, c, key)};
  }

  lemma MissingInv(s: State, key: Key, v: Ptr, fl: Flags)
    requires Inv(s) && s.G != map[] && s.iters == 0 && (fl.create || fl.overwrite)
    requires !Exact(s.G, Find(s.G, key, !fl.icase), |key|)
    ensures Inv(Set(s, key, v, fl).0)
    ensures Set(s, key, v, fl).1 != Thrown(FATAL_EXCEPTION)
  {
    hide Denote;
    var c := Find(s.G, key, !fl.icase);
    FindCorrect(s.G, key, !fl.icase);
    InsertInv(s, key, c, !fl.icase, v);
  }

  /** A set keeps the trie well formed, its length equal to the number of keys and
      its buffer as long as its longest key; case-sensitive or not.  The branch for
      an impossible lookup result is never taken. */
  lemma SetInv(s: State, key: Key, v: Ptr, fl: Flags)
    requires Inv(s)
    ensures Inv(Set(s, key, v, fl).0)
    ensures Set(s, key, v, fl).1 != Thrown(FATAL_EXCEPTION)
  {
    if s.iters > 0 || (!fl.create && !fl.overwrite) {
    } else if s.G == map[] {
      ChainCorrect(key, v);
      assert |map[key := v]| == 1;
    } else if Exact(s.G, Find(s.G, key, !fl.icase), |key|) {
      OverwriteInv(s, Find(s.G, key, !fl.icase).path, v, Max(s.longest, |key|));
    } else {
      MissingInv(s, key, v, fl);
    }
  }

  lemma FoundRefines(s: State, key: Key, v: Ptr, fl: Flags)
    requires Inv(s) && !fl.icase && s.G != map[] && s.iters == 0 && (fl.create || fl.overwrite)
    requires Exact(s.G, Find(s.G, key, true), |key|)
    ensures var s' := Set(s, key, v, fl).0;
            Denote(s'.G) == MapSet(Denote(s.G), 0, Target(s.G, key), v, fl).0
    ensures Set(s, key, v, fl).1 == MapSet(Denote(s.G), 0, Target(s.G, key), v, fl).1
  {
    var c := Find(s.G, key, true);
    TargetExact(s.G, key);
    SetValCorrect(s.G, c.path, v);
  }

  lemma MissingRefines(s: State, key: Key, v: Ptr, fl: Flags)
    requires Inv(s) && !fl.icase && s.G != map[] && s.iters == 0 && (fl.create || fl.overwrite)
    requires !Exact(s.G, Find(s.G, key, true), |key|)
    ensures var s' := Set(s, key, v, fl).0;
            Denote(s'.G) == MapSet(Denote(s.G), 0, Target(s.G, key), v, fl).0
    ensures Set(s, key, v, fl).1 == MapSet(Denote(s.G), 0, Target(s.G, key), v, fl).1
  {
    var c := Find(s.G, key, true);
    FindCorrect(s.G, key, true);
    TargetExact(s.G, key);
    InsertCorrect(s.G, key, c, true, v);
    NewKeySpells(s.G, key, c, true);
  }

  /** Every case-sensitive set is a map update at the target key. */
  lemma SetRefines(s: State, key: Key, v: Ptr, fl: Flags)
    requires Inv(s) && !fl.icase
    ensures var (s', r) := Set(s, key, v, fl);
            (Denote(s'.G), r) == MapSet(Denote(s.G), s.iters, Target(s.G, key), v, fl)
  {
    if s.iters > 0 || (!fl.create && !fl.overwrite) {
    } else if s.G == map[] {
      ChainCorrect(key, v);
    } else if Exact(s.G, Find(s.G, key, true), |key|) {
      FoundRefines(s, key, v, fl);
    } else {
      MissingRefines(s, key, v, fl);
    }
  }

  lemma GetRefines(s: State, key: Key, fl: Flags)
    requires Inv(s) && !fl.icase
    ensures Get(s, key, fl) == MapGet(Denote(s.G), Target(s.G, key))
  {
    if s.G != map[] { TargetExact(s.G, key); FindCorrect(s.G, key, true); }
  }

  /** A case-sensitive get is a map lookup exactly when the search does not end
      inside an edge that leaves a node holding a value. */
  lemma GetMeetsMap(s: State, key: Key, fl: Flags)
    requires Inv(s) && !fl.icase
    ensures Get(s, key, fl) == MapGet(Denote(s.G), key) <==> !InsideValueEdge(s.G, key)
  {
    StopsMeans(s.G, key);
    GetRefines(s, key, fl);
    if s.G != map[] { TargetExact(s.G, key); }
  }

  /** A case-sensitive set that is not refused outright is a map update exactly
      under the same condition. */
  lemma SetMeetsMap(s: State, key: Key, v: Ptr, fl: Flags)
    requires Inv(s) && !fl.icase
    ensures var (s', r) := Set(s, key, v, fl);
            (Denote(s'.G), r) == MapSet(Denote(s.G), s.iters, key, v, fl)
            <==> (!InsideValueEdge(s.G, key) || s.iters > 0 || (!fl.create && !fl.overwrite))
  {
    SetRefines(s, key, v, fl);
    var m := Denote(s.G);
    StopsMeans(s.G, key);
    if StopsInValueEdge(s.G, key, true) {
      var t := Target(s.G, key);
      TargetExact(s.G, key);
      assert t in m && key !in m && t != key;
      assert key !in m[t := v] && key in m[key := v];
    }
  }

  /** The answers and the new pairs in words: a set is refused while an iterator is open, or
      without a flag that allows writing; otherwise it writes the value of a stored key if 'o'
      is given and that of a new key if 'c' is given, leaves all other keys alone, and throws
      without a change where the flag is missing. */
  lemma SetDoes(s: State, key: Key, v: Ptr, fl: Flags)
    requires Inv(s) && !fl.icase && !InsideValueEdge(s.G, key)
    ensures var (s', r) := Set(s, key, v, fl);
            var m, m' := Denote(s.G), Denote(s'.G);
            && (r == Stored <==> s.iters == 0 && if key in m then fl.overwrite else fl.create)
            && (r == Stored ==>
                  && m'.Keys == m.Keys + {key} && m'[key] == v
                  && forall k :: k in m && k != key ==> m'[k] == m[k])
            && (r != Stored ==> m' == m && r == Thrown(
                  if s.iters > 0 then TRIE_WRITE_IN_ITERATION
                  else if !fl.create && !fl.overwrite then TRIE_BAD_FLAGS else EXCEPTION))
  {
    hide Set, InsideValueEdge, Denote;
    SetMeetsMap(s, key, v, fl);
  }

  lemma GetFinds(s: State, key: Key, v: Ptr, fl: Flags)
    requires Inv(s) && !fl.icase && !InsideValueEdge(s.G, key)
    ensures Get(s, key, fl) == Some(v) <==> (key, v) in Denote(s.G).Items
  {
    GetMeetsMap(s, key, fl);
  }
}
