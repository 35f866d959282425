/** Longest match and case-insensitive lookups and insertions. */
module TrieFold {
  import opened Bytes
  import opened KeyOrder
  import opened TrieShape
  import opened TrieLookup
  import opened TrieOps

  /** Every node lies on the way to a stored key. */
  lemma {:induction false} KeyBelow(s: State, p: Key) returns (x: Key)
    requires Inv(s) && WF(s.G) && p in s.G
    ensures x in Denote(s.G) && p <= x
    decreases s.longest - |p|
  {
    assert CellOk(s.G[p]) && KidsIn(s.G, p);
    match s.G[p].edges
    case Leaf => x := p;
    case Line(str) =>
      assert IsKid(p, s.G[p].edges, p + str);
      x := KeyBelow(s, p + str);
    case Fan(cs) =>
      assert IsKid(p, s.G[p].edges, p + [cs[0]]);
      x := KeyBelow(s, p + [cs[0]]);
    case Table(used) =>
      var c :| c in used;
      assert IsKid(p, s.G[p].edges, p + [c]);
      x := KeyBelow(s, p + [c]);
  }

  /** The position a search reports is the length of the longest prefix that the
      query shares with a stored key, and some stored key attains it. */
  lemma LongestMatch(s: State, key: Key, cs: bool) returns (x: Key)
    requires Inv(s) && WF(s.G)
    ensures var c := Find(s.G, key, cs);
            && Placed(s.G, key, c, cs)
            && x in Denote(s.G) && Reached(s.G, c) <= x && Lcp(x, key, cs) == c.pos
            && (forall y :: y in Denote(s.G) ==> Lcp(y, key, cs) <= c.pos)
  {
    var c := Find(s.G, key, cs);
    FindCorrect(s.G, key, cs);
    x := KeyThrough(s, key, c, cs);
    PrefixLcp(Reached(s.G, c), x, key, cs);
  }

  /** Some stored key goes through the place that a search reports. */
  lemma KeyThrough(s: State, key: Key, c: Coords, cs: bool) returns (x: Key)
    requires Inv(s) && WF(s.G) && Placed(s.G, key, c, cs)
    ensures x in Denote(s.G) && Reached(s.G, c) <= x
  {
    hide Lcp;
    ReachedNode(s.G, c);
    if c.into > 0 {
      var str := s.G[c.path].edges.str;
      assert KidsIn(s.G, c.path) && IsKid(c.path, s.G[c.path].edges, c.path + str);
      x := KeyBelow(s, c.path + str);
    } else {
      x := KeyBelow(s, c.path);
    }
  }

  /** The key ends, up to case, strictly inside the edge that leaves a node at p holding a
      value. */
  ghost predicate InsideAt(G: Shape, key: Key, p: Key) {
    && p in G && G[p].val.Some? && G[p].edges.Line? && |p| < |key| < |p| + |G[p].edges.str|
    && Spells((p + G[p].edges.str)[..|key|], key, false)
  }

  ghost predicate InsideFold(G: Shape, key: Key) {
    exists p :: p in G && InsideAt(G, key, p)
  }

  /** A node that the match tests take for one of the key: its own up to case, or one whose
      edge the key ends in. */
  ghost predicate Takes(G: Shape, key: Key, p: Key) {
    p in G && G[p].val.Some? && (SameKey(key, p) || InsideAt(G, key, p))
  }

  lemma TakesSpells(G: Shape, key: Key, p: Key)
    requires Takes(G, key, p)
    ensures Spells(p, key, false)
  {
    if InsideAt(G, key, p) {
      assert forall i :: 0 <= i < |p| ==> (p + G[p].edges.str)[..|key|][i] == p[i];
    }
  }

  /** A search only goes down, and from a fan or a table along the byte of its mode. */
  lemma {:induction false} TryBelow(G: Shape, p: Key, key: Key, mode: Mode)
    requires WF(G) && p in G && |p| <= |key|
    ensures var c := Try(G, p, key, mode);
            && p <= c.path
            && (c.pos > |p| && !G[p].edges.Line? ==>
                  |p| < |key| && |p| < |c.path| && c.path[|p|] == Adjust(key[|p|], mode))
    decreases |key| - |p|, 0
  {
    var c := Next(G, p, key, mode);
    NextOk(G, p, key, mode);
    if !c.stopped && !Exact(G, c, |key|) { FoldBelow(G, c.path, key); }
  }

  lemma {:induction false} FoldBelow(G: Shape, p: Key, key: Key)
    requires WF(G) && p in G && |p| <= |key|
    ensures p <= WalkFold(G, p, key).path
    decreases |key| - |p|, 1
  {
    TryBelow(G, p, key, TryUpper);
    TryBelow(G, p, key, TryLower);
  }

  /** A match in the branch of the upper letter comes before everything in that of the lower
      one. */
  lemma UpperFirst(G: Shape, p: Key, key: Key, x: Key)
    requires WF(G) && p in G && |p| < |key| && p < x && Exact(G, Try(G, p, key, TryUpper), |key|)
    requires SameChar(key[|p|], x[|p|], false) && !InReach(G, p, key, TryUpper, x)
    ensures LexLess(Try(G, p, key, TryUpper).path, x)
  {
    var a := Try(G, p, key, TryUpper);
    TryBelow(G, p, key, TryUpper);
    assert a.path[..|p|] == p == x[..|p|];
    LexAt(a.path, x, |p|);
  }

  /** A search that starts above such a node reports a match, whatever other branches the
      trie has, and none that comes after that node. */
  lemma {:induction false} FoldMeets(G: Shape, p: Key, key: Key, x: Key)
    requires WF(G) && p in G && Spells(p, key, false)
    requires Takes(G, key, x) && p <= x
    ensures var c := WalkFold(G, p, key); Exact(G, c, |key|) && (c.path == x || LexLess(c.path, x))
    decreases |key| - |p|, 1
  {
    WalkFoldCorrect(G, p, key);
    TryCorrect(G, p, key, TryUpper);
    TryCorrect(G, p, key, TryLower);
    TakesSpells(G, key, x);
    if p == x {
      StopAtNode(G, p, key, TryUpper);
    } else {
      SameUpToCase(key[|p|], x[|p|]);
      if InReach(G, p, key, TryUpper, x) {
        TryMeets(G, p, key, TryUpper, x);
      } else {
        TryMeets(G, p, key, TryLower, x);
        if Exact(G, Try(G, p, key, TryUpper), |key|) { UpperFirst(G, p, key, x); }
      }
    }
  }

  lemma StopAtNode(G: Shape, p: Key, key: Key, mode: Mode)
    requires WF(G) && Takes(G, key, p) && |p| <= |key| && !mode.Sensitive?
    ensures var c := Try(G, p, key, mode); Exact(G, c, |key|) && c.path == p
  {
    assert CellOk(G[p]);
    if |p| == |key| {
      assert key[|p|..] == [];
    } else {
      InsideStops(G, p, key);
    }
  }

  /** The scan of the edge ends with the key. */
  lemma InsideStops(G: Shape, p: Key, key: Key)
    requires InsideAt(G, key, p)
    ensures Lcp(G[p].edges.str, key[|p|..], false) == |key| - |p|
  {
    var str, t := G[p].edges.str, key[|p|..];
    var x := (p + str)[..|key|];
    forall i | 0 <= i < |t| ensures SameChar(t[i], str[i], false) {
      assert key[|p| + i] == t[i] && x[|p| + i] == str[i];
    }
    assert Lcp(str, t, false) >= |t|;
  }

  lemma {:induction false} TryMeets(G: Shape, p: Key, key: Key, mode: Mode, x: Key)
    requires WF(G) && p in G && Spells(p, key, false) && !mode.Sensitive?
    requires Takes(G, key, x) && InReach(G, p, key, mode, x)
    ensures var c := Try(G, p, key, mode); Exact(G, c, |key|) && (c.path == x || LexLess(c.path, x))
    decreases |key| - |p|, 0
  {
    var c := Next(G, p, key, mode);
    TakesSpells(G, key, x);
    NextOk(G, p, key, mode);
    NextPlaced(G, p, key, mode);
    NextMisses(G, p, key, mode, x);
    NextStopsShort(G, p, key, mode, x);
    if !Exact(G, c, |key|) {
      ReachedNode(G, c);
      FoldMeets(G, c.path, key, x);
    }
  }

  /** A step towards a node that the query leads to cannot stop. */
  lemma NextStopsShort(G: Shape, p: Key, key: Key, mode: Mode, x: Key)
    requires WF(G) && p in G && !mode.Sensitive? && |p| < |key|
    requires x in G && Spells(x, key, false) && InReach(G, p, key, mode, x)
    ensures !Next(G, p, key, mode).stopped
  {
    assert Covers(p, G[p].edges, x);
    if G[p].edges.Line? {
      var s := G[p].edges.str;
      var t := key[|p|..];
      forall i | 0 <= i < |s| ensures SameChar(t[i], s[i], false) {
        assert x[|p| + i] == (p + s)[|p| + i];
      }
    }
  }

  /** When skit_trie_find_icase gives up, no stored key equals the query up to case,
      whatever other branches the trie has. */
  lemma GiveUpMeansAbsent(G: Shape, key: Key, x: Key)
    requires WF(G) && !Exact(G, Find(G, key, false), |key|)
    requires x in Denote(G)
    ensures !SameKey(key, x)
  {
    if SameKey(key, x) { FoldMeets(G, [], key, x); }
  }

  /** The node at which a case-insensitive search reports a match is one that the tests take
      for the key. */
  lemma FoundTakes(G: Shape, key: Key)
    requires WF(G) && Exact(G, Find(G, key, false), |key|)
    ensures var c := Find(G, key, false); Takes(G, key, c.path) && (c.into > 0 <==> InsideAt(G, key, c.path))
  {
    var c := Find(G, key, false);
    FindCorrect(G, key, false);
    ReachedNode(G, c);
    if c.into > 0 {
      var str := G[c.path].edges.str;
      assert (c.path + str)[..|key|] == Reached(G, c);
    }
  }

  /** Case-insensitive lookup reports a match if and only if some stored key equals
      the query up to case, or the query ends inside an edge that leaves a node holding a
      value. */
  lemma FoldReports(s: State, key: Key, fl: Flags)
    requires Inv(s) && fl.icase
    ensures Get(s, key, fl).Some? <==>
            (exists x :: x in Denote(s.G) && SameKey(key, x)) || InsideFold(s.G, key)
  {
    if s.G != map[] {
      if Exact(s.G, Find(s.G, key, false), |key|) {
        FoundTakes(s.G, key);
      }
      forall x | x in s.G && Takes(s.G, key, x) ensures Get(s, key, fl).Some? { FoldMeets(s.G, [], key, x); }
    }
  }

  /** The answer of a case-insensitive get is right: the value of a key equal to the
      query up to case, or nothing when there is no such key. */
  ghost predicate RightAnswer(m: map<Key, Ptr>, key: Key, found: Option<Key>) {
    match found
    case Some(x) => x in m && SameKey(key, x)
    case None => forall x :: x in m ==> !SameKey(key, x)
  }

  function FoundKey(G: Shape, key: Key): Option<Key>
    requires Ok(G)
  {
    if G == map[] then None
    else
      var c := Find(G, key, false);
      if Exact(G, c, |key|) then Some(c.path) else None
  }

  /** The first node, in the order of keys, of those that the match tests take for the key. */
  ghost predicate FirstTaken(G: Shape, key: Key, x: Key) {
    Takes(G, key, x) && forall y :: y in G && Takes(G, key, y) && y != x ==> LexLess(x, y)
  }

  /** Which node a case-insensitive search finds. */
  lemma FoldFinds(G: Shape, key: Key, x: Key)
    requires WF(G)
    ensures FoundKey(G, key) == Some(x) <==> FirstTaken(G, key, x)
  {
    hide WF, Find, Takes, InsideAt;
    if Exact(G, Find(G, key, false), |key|) {
      var z := Find(G, key, false).path;
      FoundTakes(G, key);
      forall y | y in G && Takes(G, key, y) ensures z == y || LexLess(z, y) { FindsFirst(G, key, y); }
      CompareDecides(z, x);
      FirstIn(G, key, x);
    } else if FirstTaken(G, key, x) {
      FirstIn(G, key, x);
      FindsFirst(G, key, x);
    }
  }

  lemma FirstIn(G: Shape, key: Key, x: Key)
    ensures FirstTaken(G, key, x) ==> x in G
  {
  }

  lemma FindsFirst(G: Shape, key: Key, y: Key)
    requires WF(G) && Takes(G, key, y)
    ensures var c := Find(G, key, false); Exact(G, c, |key|) && (c.path == y || LexLess(c.path, y))
  {
    FoldMeets(G, [], key, y);
  }

  /** The first node that is taken for the key is one whose edge the key ends in. */
  ghost predicate FirstInside(G: Shape, key: Key) {
    exists p :: p in G && FirstTaken(G, key, p) && InsideAt(G, key, p)
  }

  /** A case-insensitive get answers with the value of the node found, and that is right if and
      only if the first node taken for the query is not one whose edge the query ends in. */
  lemma FoldAnswers(s: State, key: Key, fl: Flags)
    requires Inv(s) && fl.icase
    ensures var f := FoundKey(s.G, key);
            && (f.Some? ==> f.value in Denote(s.G))
            && Get(s, key, fl) == (if f.Some? then Some(Denote(s.G)[f.value]) else None)
    ensures RightAnswer(Denote(s.G), key, FoundKey(s.G, key)) <==> !FirstInside(s.G, key)
  {
    if s.G != map[] {
      forall p | p in s.G && FirstTaken(s.G, key, p) ensures FoundKey(s.G, key) == Some(p) {
        FoldFinds(s.G, key, p);
      }
      if Exact(s.G, Find(s.G, key, false), |key|) {
        FoundTakes(s.G, key);
        FoldFinds(s.G, key, Find(s.G, key, false).path);
      } else {
        forall x | x in Denote(s.G) ensures !SameKey(key, x) { GiveUpMeansAbsent(s.G, key, x); }
      }
    }
  }

  /** No two stored keys are equal up to case. */
  ghost predicate NoTwins(m: map<Key, Ptr>) {
    forall x, y :: x in m && y in m && SameKey(x, y) ==> x == y
  }

  ghost predicate Adds(m: map<Key, Ptr>, m': map<Key, Ptr>, key: Key, k: Key, v: Ptr) {
    m' == m[k := v] && SameKey(key, k) && forall x :: x in m ==> !SameKey(key, x)
  }

  lemma FoldInsert(s: State, key: Key, c: Coords, v: Ptr)
    requires Inv(s) && WF(s.G) && c == Find(s.G, key, false)
    requires !Exact(s.G, c, |key|)
    ensures c.pos <= |key| && Placed(s.G, key, c, false)
    ensures Adds(Denote(s.G), Denote(Insert(s.G, c, key, v)), key, NewKey(s.G, c, key), v)
  {
    FindCorrect(s.G, key, false);
    InsertCorrect(s.G, key, c, false, v);
    NewKeySpells(s.G, key, c, false);
    forall x | x in Denote(s.G) ensures !SameKey(key, x) { GiveUpMeansAbsent(s.G, key, x); }
  }

  /** The key that a set with the 'i' flag creates when it creates one. */
  function FoldKey(G: Shape, key: Key): Key
    requires Ok(G)
  {
    if G == map[] then key
    else
      var c := Find(G, key, false);
      FindCorrect(G, key, false);
      NewKey(G, c, key)
  }

  lemma SameKeyTrans(a: Key, b: Key, c: Key)
    ensures SameKey(a, b) && SameKey(b, c) ==> SameKey(a, c)
    ensures SameKey(b, c) ==> SameKey(c, b)
  {
  }

  /** Stored keys that begin alike up to case begin alike: every path of the tree is written
      in one way. */
  ghost predicate OneSpelling(m: map<Key, Ptr>) {
    forall x, y, n: nat :: x in m && y in m && n <= |x| && n <= |y| && SameKey(x[..n], y[..n]) ==> x[..n] == y[..n]
  }

  lemma OneSpellingNoTwins(m: map<Key, Ptr>)
    requires OneSpelling(m)
    ensures NoTwins(m)
  {
    forall x, y | x in m && y in m && SameKey(x, y) ensures x == y {
      assert x[..|x|] == x && y[..|x|] == y;
    }
  }

  /** Some stored key runs through the place where the query ends, which is itself no node. */
  lemma KeyPastInside(s: State, key: Key, p: Key) returns (z: Key)
    requires Inv(s) && WF(s.G) && InsideAt(s.G, key, p)
    ensures z in Denote(s.G) && |key| <= |z| && Spells(z[..|key|], key, false) && z[..|key|] !in s.G
  {
    var str := s.G[p].edges.str;
    assert KidsIn(s.G, p) && IsKid(p, s.G[p].edges, p + str);
    z := KeyBelow(s, p + str);
    SplitPointFree(s.G, p, |key| - |p|);
    assert z[..|key|] == (p + str)[..|key|] == p + str[..|key| - |p|];
  }

  /** Where every path is written in one way, a query that ends inside a value edge equals no
      stored key up to case. */
  lemma InsideMeansAbsent(s: State, key: Key, p: Key, x: Key)
    requires Inv(s) && WF(s.G) && OneSpelling(Denote(s.G)) && InsideAt(s.G, key, p)
    requires x in Denote(s.G)
    ensures !SameKey(key, x)
  {
    hide InsideAt, WF, Inv;
    var z := KeyPastInside(s, key, p);
    assert x[..|x|] == x;
    SameKeyTrans(x, key, z[..|key|]);
    SameKeyTrans(key, x, z[..|key|]);
  }

  /** On such a trie the answer is right if and only if the query does not end inside a value
      edge. */
  lemma FoldAnswersExactly(s: State, key: Key)
    requires Inv(s) && OneSpelling(Denote(s.G))
    ensures RightAnswer(Denote(s.G), key, FoundKey(s.G, key)) <==> !InsideFold(s.G, key)
  {
    FoldAnswers(s, key, Flags(true, false, false));
    if InsideFold(s.G, key) {
      var p :| p in s.G && InsideAt(s.G, key, p);
      FoldMeets(s.G, [], key, p);
      forall x | x in Denote(s.G) ensures !SameKey(key, x) { InsideMeansAbsent(s, key, p, x); }
    }
  }

  /** What a set with the 'i' flag does to the map: it is refused outright, it finds a key,
      whose value alone is replaced if 'o' allows it, or it finds none and adds one key if
      'c' allows it. */
  ghost predicate FoldUpdate(s: State, key: Key, v: Ptr, fl: Flags, m': map<Key, Ptr>, r: SetResult)
    requires Inv(s)
  {
    var m := Denote(s.G);
    var found := FoundKey(s.G, key);
    if s.iters > 0 then m' == m && r == Thrown(TRIE_WRITE_IN_ITERATION)
    else if !fl.create && !fl.overwrite then m' == m && r == Thrown(TRIE_BAD_FLAGS)
    else match found
      case Some(x) =>
        x in m && if fl.overwrite then m' == m[x := v] && r == Stored else m' == m && r == Thrown(EXCEPTION)
      case None =>
        if fl.create then Adds(m, m', key, FoldKey(s.G, key), v) && r == Stored
        else m' == m && r == Thrown(EXCEPTION)
  }

  /** The key added is the bytes already on the path followed by the rest of the given key,
      equal to the given key up to case and to no stored key. */
  lemma FoldSet(s: State, key: Key, v: Ptr, fl: Flags)
    requires Inv(s) && fl.icase
    ensures var (s', r) := Set(s, key, v, fl); FoldUpdate(s, key, v, fl, Denote(s'.G), r)
  {
    if s.iters > 0 || (!fl.create && !fl.overwrite) {
    } else if s.G == map[] {
      ChainCorrect(key, v);
    } else {
      FoldSetFind(s, key, v, fl);
    }
  }

  lemma FoldSetFind(s: State, key: Key, v: Ptr, fl: Flags)
    requires Inv(s) && fl.icase && s.iters == 0 && (fl.create || fl.overwrite) && s.G != map[]
    ensures var (s', r) := Set(s, key, v, fl); FoldUpdate(s, key, v, fl, Denote(s'.G), r)
  {
    var c := Find(s.G, key, false);
    FindCorrect(s.G, key, false);
    if Exact(s.G, c, |key|) {
      SetValCorrect(s.G, c.path, v);
    } else {
      FoldSetNew(s, key, v, fl);
    }
  }

  lemma FoldSetNew(s: State, key: Key, v: Ptr, fl: Flags)
    requires Inv(s) && fl.icase && s.iters == 0 && (fl.create || fl.overwrite) && s.G != map[]
    requires !Exact(s.G, Find(s.G, key, false), |key|)
    ensures var (s', r) := Set(s, key, v, fl); FoldUpdate(s, key, v, fl, Denote(s'.G), r)
  {
    hide WF, Insert, NewKey, Denote;
    var c := Find(s.G, key, false);
    FindCorrect(s.G, key, false);
    FoldInsert(s, key, c, v);
    assert FoldKey(s.G, key) == NewKey(s.G, c, key);
  }

  /** A set with 'i' in words, where the first node taken for the key is not one in whose edge
      it ends: it writes the value of one stored key that equals the given key up to case if 'o'
      is given, or that of one new such key if there is none and 'c' is given; it leaves all
      other keys alone, and throws without a change where the flag is missing. */
  lemma FoldSetDoes(s: State, key: Key, v: Ptr, fl: Flags) returns (x: Key)
    requires Inv(s) && fl.icase && !FirstInside(s.G, key)
    ensures var (s', r) := Set(s, key, v, fl);
            var m, m' := Denote(s.G), Denote(s'.G);
            && SameKey(key, x)
            && (x in m || forall y :: y in m ==> !SameKey(key, y))
            && (r == Stored <==> s.iters == 0 && if x in m then fl.overwrite else fl.create)
            && (r == Stored ==>
                  && m'.Keys == m.Keys + {x} && m'[x] == v
                  && forall k :: k in m && k != x ==> m'[k] == m[k])
            && (r != Stored ==> m' == m && r == Thrown(
                  if s.iters > 0 then TRIE_WRITE_IN_ITERATION
                  else if !fl.create && !fl.overwrite then TRIE_BAD_FLAGS else EXCEPTION))
  {
    hide Set, FirstInside, Denote, FoundKey, FoldKey, WF, FirstTaken;
    FoldAnswers(s, key, fl);
    FoldSet(s, key, v, fl);
    var f := FoundKey(s.G, key);
    x := if f.Some? then f.value
         else if s.iters == 0 && fl.create then FoldKey(s.G, key) else key;
  }

  /** A trie filled only by sets with the 'i' flag never holds two keys that are
      equal up to case. */
  lemma FoldSetKeepsNoTwins(s: State, key: Key, v: Ptr, fl: Flags)
    requires Inv(s) && fl.icase && NoTwins(Denote(s.G))
    ensures NoTwins(Denote(Set(s, key, v, fl).0.G))
  {
    FoldSet(s, key, v, fl);
    var m, m' := Denote(s.G), Denote(Set(s, key, v, fl).0.G);
    forall x, y | x in m' && y in m' && SameKey(x, y) ensures x == y {
      if m'.Keys == m.Keys {
      } else {
        SameKeyTrans(key, x, y);
        SameKeyTrans(key, y, x);
      }
    }
  }

  /** A new key begins as the stored keys do as far as it has anything in common with them. */
  lemma NewKeySpelling(s: State, key: Key, c: Coords, y: Key, n: nat)
    requires Inv(s) && WF(s.G) && OneSpelling(Denote(s.G)) && c == Find(s.G, key, false)
    requires Placed(s.G, key, c, false) && y in Denote(s.G)
    requires var k := NewKey(s.G, c, key); n <= |k| && n <= |y| && SameKey(k[..n], y[..n])
    ensures NewKey(s.G, c, key)[..n] == y[..n]
  {
    hide WF, Inv, Find, Placed, Lcp, Reached;
    PosIsLength(s.G, key, c);
    FindCorrect(s.G, key, false);
    var k := NewKey(s.G, c, key);
    NewKeySpells(s.G, key, c, false);
    Shares(key, k, y, n);
    var x := KeyThrough(s, key, c, false);
    SameStart(Reached(s.G, c), key[c.pos..], x, n);
  }

  lemma PosIsLength(G: Shape, key: Key, c: Coords)
    requires Placed(G, key, c, false)
    ensures c.path in G && c.pos == |Reached(G, c)| <= |key|
  {
  }

  lemma SameStart(r: Key, rest: Key, x: Key, n: nat)
    requires n <= |r| && r <= x
    ensures (r + rest)[..n] == x[..n]
  {
    assert r[..n] == x[..n];
  }

  lemma Shares(key: Key, k: Key, y: Key, n: nat)
    requires Spells(k, key, false) && n <= |k| && n <= |y| && SameKey(k[..n], y[..n])
    ensures Lcp(y, key, false) >= n
  {
    forall i | 0 <= i < n ensures SameChar(key[i], y[i], false) {
      assert k[..n][i] == k[i] && y[..n][i] == y[i];
    }
  }

  lemma FoldSetSpelling(s: State, key: Key, v: Ptr, fl: Flags)
    requires Inv(s) && fl.icase && OneSpelling(Denote(s.G))
    ensures OneSpelling(Denote(Set(s, key, v, fl).0.G))
  {
    FoldSet(s, key, v, fl);
    var m, m' := Denote(s.G), Denote(Set(s, key, v, fl).0.G);
    if m'.Keys != m.Keys && s.G != map[] {
      var c := Find(s.G, key, false);
      FindCorrect(s.G, key, false);
      var k := NewKey(s.G, c, key);
      forall y, n: nat | y in m && n <= |k| && n <= |y| && (SameKey(k[..n], y[..n]) || SameKey(y[..n], k[..n]))
        ensures k[..n] == y[..n]
      {
        SameKeyTrans(k[..n], y[..n], k[..n]);
        NewKeySpelling(s, key, c, y, n);
      }
    }
  }

  /** A run of sets with the 'i' flag, starting from the empty trie. */
  function FoldRun(s: State, sets: seq<(Key, Ptr, Flags)>): State
    requires Inv(s)
    decreases |sets|
  {
    if |sets| == 0 then s
    else
      SetInv(s, sets[0].0, sets[0].1, sets[0].2);
      FoldRun(Set(s, sets[0].0, sets[0].1, sets[0].2).0, sets[1..])
  }

  lemma {:induction false} FoldRunNoTwins(s: State, sets: seq<(Key, Ptr, Flags)>)
    requires Inv(s) && NoTwins(Denote(s.G))
    requires forall i :: 0 <= i < |sets| ==> sets[i].2.icase
    ensures NoTwins(Denote(FoldRun(s, sets).G))
    decreases |sets|
  {
    if |sets| == 0 {
    } else {
      var (key, v, fl) := sets[0];
      SetInv(s, key, v, fl);
      FoldSetKeepsNoTwins(s, key, v, fl);
      FoldRunNoTwins(Set(s, key, v, fl).0, sets[1..]);
    }
  }

  /** Nor does it ever hold two keys that begin alike up to case and are spelled differently
      there. */
  lemma {:induction false} FoldRunSpelling(s: State, sets: seq<(Key, Ptr, Flags)>)
    requires Inv(s) && OneSpelling(Denote(s.G))
    requires forall i :: 0 <= i < |sets| ==> sets[i].2.icase
    ensures OneSpelling(Denote(FoldRun(s, sets).G))
    decreases |sets|
  {
    if |sets| > 0 {
      var (key, v, fl) := sets[0];
      SetInv(s, key, v, fl);
      FoldSetSpelling(s, key, v, fl);
      FoldRunSpelling(Set(s, key, v, fl).0, sets[1..]);
    }
  }
}
