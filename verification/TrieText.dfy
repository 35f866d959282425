/** What a search leaves in key_return_buf, which is where the returned keys come from. */
module TrieText {
  import opened Bytes
  import opened TrieShape
  import opened TrieLookup

  /** skit_trie_accumulate_key on a buffer. */
  function Patch(b: Key, pos: nat, frag: Key): (r: Key)
    requires pos + |frag| <= |b|
    ensures |r| == |b|
    ensures forall i :: 0 <= i < |b| && !(pos <= i < pos + |frag|) ==> r[i] == b[i]
    ensures forall i :: pos <= i < pos + |frag| ==> r[i] == frag[i - pos]
  {
    b[..pos] + frag + b[pos + |frag|..]
  }

  lemma PatchNothing(b: Key, pos: nat)
    requires pos <= |b|
    ensures Patch(b, pos, []) == b
  {
  }

  /** The bytes that one step records: stored ones, except that a table step records the byte
      of the query. */
  function StepBytes(G: Shape, p: Key, key: Key, mode: Mode): Key
    requires p in G && |p| <= |key|
  {
    match G[p].edges
    case Leaf => []
    case Line(s) => s[..Lcp(s, key[|p|..], mode.Sensitive?)]
    case Fan(cs) => if Next(G, p, key, mode).stopped then [] else [Adjust(key[|p|], mode)]
    case Table(_) => if Next(G, p, key, mode).stopped then [] else [key[|p|]]
  }

  /** The buffer is as long as the longest key. */
  predicate Roomy(G: Shape, n: nat) {
    forall x :: x in G ==> |x| <= n
  }

  lemma StepFits(G: Shape, p: Key, key: Key, mode: Mode, n: nat)
    requires WF(G) && p in G && |p| <= |key| && Roomy(G, n)
    ensures var c := Next(G, p, key, mode);
            c.pos == |p| + |StepBytes(G, p, key, mode)| && c.pos <= n && c.pos <= |key|
  {
    hide Covered;
    NextOk(G, p, key, mode);
    assert CellOk(G[p]) && KidsIn(G, p);
    if G[p].edges.Line? { assert IsKid(p, G[p].edges, p + G[p].edges.str); }
  }

  function AfterStep(G: Shape, p: Key, key: Key, mode: Mode, b: Key): (r: Key)
    requires WF(G) && p in G && |p| <= |key| && Roomy(G, |b|)
    ensures |r| == |b|
  {
    StepFits(G, p, key, mode, |b|);
    Patch(b, |p|, StepBytes(G, p, key, mode))
  }

  /** The buffer after the loop of skit_trie_find. */
  function AfterWalk(G: Shape, p: Key, key: Key, b: Key): (r: Key)
    requires WF(G) && p in G && |p| <= |key| && Roomy(G, |b|)
    ensures |r| == |b|
    decreases |key| - |p|
  {
    var c := Next(G, p, key, Sensitive);
    var r := AfterStep(G, p, key, Sensitive, b);
    if c.stopped || Exact(G, c, |key|) then r
    else
      NextOk(G, p, key, Sensitive);
      AfterWalk(G, c.path, key, r)
  }

  /** The buffer after skit_trie_find_icase_r. */
  function AfterTry(G: Shape, p: Key, key: Key, mode: Mode, b: Key): (r: Key)
    requires WF(G) && p in G && |p| <= |key| && Roomy(G, |b|)
    ensures |r| == |b|
    decreases |key| - |p|, 0
  {
    var c := Next(G, p, key, mode);
    var r := AfterStep(G, p, key, mode, b);
    if c.stopped || Exact(G, c, |key|) then r
    else
      NextOk(G, p, key, mode);
      AfterFold(G, c.path, key, r)
  }

  /** The buffer after skit_trie_find_icase: the second branch writes over the first. */
  function AfterFold(G: Shape, p: Key, key: Key, b: Key): (r: Key)
    requires WF(G) && p in G && |p| <= |key| && Roomy(G, |b|)
    ensures |r| == |b|
    decreases |key| - |p|, 1
  {
    var c := Try(G, p, key, TryUpper);
    var r := AfterTry(G, p, key, TryUpper, b);
    if c.stopped && !Exact(G, c, |key|) then AfterTry(G, p, key, TryLower, r) else r
  }

  function AfterFind(G: Shape, key: Key, cs: bool, b: Key): (r: Key)
    requires WF(G) && Roomy(G, |b|)
    ensures |r| == |b|
  {
    if cs then AfterWalk(G, [], key, b) else AfterFold(G, [], key, b)
  }

  // --------------------------------------------------------- case-sensitive text

  lemma StepRecords(G: Shape, p: Key, key: Key, b: Key)
    requires WF(G) && p in G && Spells(p, key, true) && Roomy(G, |b|) && b[..|p|] == key[..|p|]
    ensures var c := Next(G, p, key, Sensitive);
            c.pos <= |key| && c.pos <= |b| && AfterStep(G, p, key, Sensitive, b)[..c.pos] == key[..c.pos]
  {
    hide WF;
    StepFits(G, p, key, Sensitive, |b|);
    var c, r := Next(G, p, key, Sensitive), AfterStep(G, p, key, Sensitive, b);
    var t := StepBytes(G, p, key, Sensitive);
    forall i | 0 <= i < c.pos ensures r[i] == key[i] {
      if i < |p| {
        assert b[..|p|][i] == key[..|p|][i];
      } else {
        assert r[i] == t[i - |p|];
        assert key[i] == key[|p|..][i - |p|];
      }
    }
  }

  /** A case-sensitive search leaves the part of the query that it followed in the buffer. */
  lemma {:induction false} WalkRecords(G: Shape, p: Key, key: Key, b: Key)
    requires WF(G) && p in G && Spells(p, key, true) && Roomy(G, |b|) && b[..|p|] == key[..|p|]
    ensures var c := Walk(G, p, key);
            c.pos <= |key| && c.pos <= |b| && AfterWalk(G, p, key, b)[..c.pos] == key[..c.pos]
    decreases |key| - |p|
  {
    var c := Next(G, p, key, Sensitive);
    StepRecords(G, p, key, b);
    NextOk(G, p, key, Sensitive);
    NextPlaced(G, p, key, Sensitive);
    if !c.stopped && !Exact(G, c, |key|) {
      ReachedNode(G, c);
      WalkRecords(G, c.path, key, AfterStep(G, p, key, Sensitive, b));
    }
  }

  // ------------------------------------------------------- text without case

  /** Every write keeps a buffer that spells the query up to case. */
  lemma StepSpells(G: Shape, p: Key, key: Key, mode: Mode, b: Key, n: nat)
    requires WF(G) && p in G && |p| <= |key| && Roomy(G, |b|) && n <= |b| && Spells(b[..n], key, false)
    ensures Spells(AfterStep(G, p, key, mode, b)[..n], key, false)
    ensures var c := Next(G, p, key, mode);
            n >= |p| ==> c.pos <= |b| && Spells(AfterStep(G, p, key, mode, b)[..c.pos], key, false)
  {
    hide WF, Patch, Lcp;
    StepFits(G, p, key, mode, |b|);
    var c, r := Next(G, p, key, mode), AfterStep(G, p, key, mode, b);
    var t := StepBytes(G, p, key, mode);
    forall i | 0 <= i < |t| ensures SameChar(key[|p| + i], t[i], false) {
      assert key[|p| + i] == key[|p|..][i];
      SameUpToCase(key[|p| + i], Adjust(key[|p| + i], mode));
    }
    forall i | 0 <= i < n ensures SameChar(key[i], r[i], false) {
      assert b[..n][i] == b[i];
      if |p| <= i < c.pos { assert r[i] == t[i - |p|] && SameChar(key[|p| + (i - |p|)], t[i - |p|], false); }
    }
    forall i | 0 <= i < c.pos && n >= |p| ensures SameChar(key[i], r[i], false) {
      if i < |p| {
        assert b[..n][i] == b[i];
      } else {
        assert r[i] == t[i - |p|] && SameChar(key[|p| + (i - |p|)], t[i - |p|], false);
      }
    }
  }

  lemma {:induction false} TrySpells(G: Shape, p: Key, key: Key, mode: Mode, b: Key, n: nat)
    requires WF(G) && p in G && Spells(p, key, false) && !mode.Sensitive?
    requires Roomy(G, |b|) && |p| <= n <= |b| && Spells(b[..n], key, false)
    ensures Spells(AfterTry(G, p, key, mode, b)[..n], key, false)
    ensures var c := Try(G, p, key, mode);
            c.pos <= |b| && Spells(AfterTry(G, p, key, mode, b)[..c.pos], key, false)
    decreases |key| - |p|, 0
  {
    var c := Next(G, p, key, mode);
    StepSpells(G, p, key, mode, b, n);
    NextOk(G, p, key, mode);
    NextPlaced(G, p, key, mode);
    if !c.stopped && !Exact(G, c, |key|) {
      ReachedNode(G, c);
      var r := AfterStep(G, p, key, mode, b);
      FoldSpells(G, c.path, key, r, if n > c.pos then n else c.pos);
      if n <= c.pos { Shorter(AfterFold(G, c.path, key, r), key, c.pos, n); }
    }
  }

  lemma Shorter(b: Key, key: Key, n: nat, m: nat)
    requires m <= n <= |b| && Spells(b[..n], key, false)
    ensures Spells(b[..m], key, false)
  {
    assert forall i :: 0 <= i < m ==> b[..m][i] == b[..n][i];
  }

  /** Whatever branches it tries, a case-insensitive search leaves a text in the buffer that
      equals the part of the query it followed up to case. */
  lemma {:induction false} FoldSpells(G: Shape, p: Key, key: Key, b: Key, n: nat)
    requires WF(G) && p in G && Spells(p, key, false)
    requires Roomy(G, |b|) && |p| <= n <= |b| && Spells(b[..n], key, false)
    ensures Spells(AfterFold(G, p, key, b)[..n], key, false)
    ensures var c := WalkFold(G, p, key);
            c.pos <= |b| && Spells(AfterFold(G, p, key, b)[..c.pos], key, false)
    decreases |key| - |p|, 1
  {
    TrySpells(G, p, key, TryUpper, b, n);
    var c := Try(G, p, key, TryUpper);
    if c.stopped && !Exact(G, c, |key|) {
      var r := AfterTry(G, p, key, TryUpper, b);
      TrySpells(G, p, key, TryLower, r, n);
      if c.pos >= |p| { TrySpells(G, p, key, TryLower, r, c.pos); }
      TryCorrect(G, p, key, TryUpper);
    }
  }

  // ---------------------------------------------------- text of a reported match

  /** The bytes on the way to q, with the byte of the query behind every table. */
  function PathText(G: Shape, q: Key, key: Key): (t: Key)
    requires |q| <= |key|
    ensures |t| == |q|
  {
    seq(|q|, j requires 0 <= j < |q| => if q[..j] in G && G[q[..j]].edges.Table? then key[j] else q[j])
  }

  lemma PathStart(G: Shape, q: Key, x: Key, key: Key)
    requires q <= x && |x| <= |key|
    ensures PathText(G, x, key)[..|q|] == PathText(G, q, key)
  {
    assert forall j :: 0 <= j < |q| ==> x[..j] == q[..j] && x[j] == q[j];
  }

  lemma LineText(G: Shape, p: Key, i: nat, key: Key)
    requires WF(G) && p in G && G[p].edges.Line? && i <= |G[p].edges.str| && |p| + i <= |key|
    ensures var s := G[p].edges.str; PathText(G, p + s[..i], key) == PathText(G, p, key) + s[..i]
  {
    var s := G[p].edges.str;
    var q := p + s[..i];
    PathStart(G, p, q, key);
    forall j | |p| <= j < |q| ensures PathText(G, q, key)[j] == s[..i][j - |p|] {
      if j > |p| {
        SplitPointFree(G, p, j - |p|);
        assert q[..j] == p + s[..j - |p|];
      } else {
        assert q[..j] == p;
      }
    }
    assert PathText(G, q, key) == PathText(G, q, key)[..|p|] + PathText(G, q, key)[|p|..];
  }

  lemma ByteText(G: Shape, p: Key, c: byte, key: Key)
    requires p in G && |p| < |key|
    ensures PathText(G, p + [c], key) == PathText(G, p, key) + [if G[p].edges.Table? then key[|p|] else c]
  {
    var q := p + [c];
    PathStart(G, p, q, key);
    assert q[..|p|] == p;
    assert PathText(G, q, key) == PathText(G, q, key)[..|p|] + [PathText(G, q, key)[|p|]];
  }

  lemma StepText(G: Shape, p: Key, key: Key, mode: Mode)
    requires WF(G) && p in G && Spells(p, key, mode.Sensitive?)
    ensures var c := Next(G, p, key, mode);
            && c.path in G && |Reached(G, c)| == c.pos <= |key| && p <= Reached(G, c)
            && PathText(G, Reached(G, c), key) == PathText(G, p, key) + StepBytes(G, p, key, mode)
  {
    hide PathText, WF, Lcp;
    var c := Next(G, p, key, mode);
    NextPlaced(G, p, key, mode);
    ReachedNode(G, c);
    match G[p].edges
    case Leaf =>
    case Line(s) =>
      var i := Lcp(s, key[|p|..], mode.Sensitive?);
      assert s[..|s|] == s;
      LineText(G, p, i, key);
    case Fan(_) => if !c.stopped { ByteText(G, p, Adjust(key[|p|], mode), key); }
    case Table(_) => if !c.stopped { ByteText(G, p, Adjust(key[|p|], mode), key); }
  }

  lemma PatchText(b: Key, t: Key, frag: Key)
    requires |t| + |frag| <= |b| && b[..|t|] == t
    ensures Patch(b, |t|, frag)[..|t| + |frag|] == t + frag && Patch(b, |t|, frag)[..|t|] == t
  {
  }

  lemma AfterStepText(G: Shape, p: Key, key: Key, mode: Mode, b: Key)
    requires WF(G) && p in G && Spells(p, key, false) && !mode.Sensitive?
    requires Roomy(G, |b|) && b[..|p|] == PathText(G, p, key)
    ensures var c := Next(G, p, key, mode); var r := AfterStep(G, p, key, mode, b);
            && c.path in G && |Reached(G, c)| == c.pos <= |key| && c.pos <= |b|
            && r[..|p|] == b[..|p|] && r[..c.pos] == PathText(G, Reached(G, c), key)
  {
    hide PathText, WF, Patch, StepBytes;
    StepFits(G, p, key, mode, |b|);
    StepText(G, p, key, mode);
    PatchText(b, b[..|p|], StepBytes(G, p, key, mode));
  }

  lemma {:induction false} TryText(G: Shape, p: Key, key: Key, mode: Mode, b: Key)
    requires WF(G) && p in G && Spells(p, key, false) && !mode.Sensitive?
    requires Roomy(G, |b|) && b[..|p|] == PathText(G, p, key)
    ensures var c := Try(G, p, key, mode); var r := AfterTry(G, p, key, mode, b);
            && r[..|p|] == b[..|p|]
            && (Exact(G, c, |key|) ==>
                  |Reached(G, c)| == |key| <= |b| && r[..|key|] == PathText(G, Reached(G, c), key))
    decreases |key| - |p|, 0
  {
    hide PathText;
    var c := Next(G, p, key, mode);
    AfterStepText(G, p, key, mode, b);
    NextOk(G, p, key, mode);
    NextPlaced(G, p, key, mode);
    if !c.stopped && !Exact(G, c, |key|) {
      ReachedNode(G, c);
      var r := AfterStep(G, p, key, mode, b);
      FoldText(G, c.path, key, r);
      var z := AfterFold(G, c.path, key, r);
      assert z[..|p|] == z[..c.pos][..|p|] == r[..c.pos][..|p|] == r[..|p|];
    }
  }

  /** When a case-insensitive search reports a match, the branch that found it was the last to
      write: the text is the path of the match, except behind tables. */
  lemma {:induction false} FoldText(G: Shape, p: Key, key: Key, b: Key)
    requires WF(G) && p in G && Spells(p, key, false)
    requires Roomy(G, |b|) && b[..|p|] == PathText(G, p, key)
    ensures var c := WalkFold(G, p, key); var r := AfterFold(G, p, key, b);
            && r[..|p|] == b[..|p|]
            && (Exact(G, c, |key|) ==>
                  |Reached(G, c)| == |key| <= |b| && r[..|key|] == PathText(G, Reached(G, c), key))
    decreases |key| - |p|, 1
  {
    hide PathText;
    var c := Try(G, p, key, TryUpper);
    TryText(G, p, key, TryUpper, b);
    if c.stopped && !Exact(G, c, |key|) {
      TryText(G, p, key, TryLower, AfterTry(G, p, key, TryUpper, b));
      TryCorrect(G, p, key, TryUpper);
      TryCorrect(G, p, key, TryLower);
    }
  }

  /** The query has the byte of the path behind every table. */
  ghost predicate TablesAgree(G: Shape, q: Key, key: Key)
    requires |q| <= |key|
  {
    forall j :: 0 <= j < |q| && q[..j] in G && G[q[..j]].edges.Table? ==> key[j] == q[j]
  }

  lemma TextIsPath(G: Shape, q: Key, key: Key)
    requires |q| <= |key|
    ensures PathText(G, q, key) == q <==> TablesAgree(G, q, key)
  {
    var t := PathText(G, q, key);
    if t == q {
      forall j | 0 <= j < |q| && q[..j] in G && G[q[..j]].edges.Table? ensures key[j] == q[j] { assert t[j] == q[j]; }
    }
  }

  /** The text that a search which reports a match returns. */
  function FoundText(G: Shape, key: Key, cs: bool): Option<Key>
    requires WF(G)
  {
    var c := Find(G, key, cs);
    FindCorrect(G, key, cs);
    if !Exact(G, c, |key|) then None
    else if cs then Some(key) else Some(PathText(G, Reached(G, c), key))
  }

  /** When the text of a case-insensitive match is the key that was found. */
  lemma TextIsKey(G: Shape, key: Key)
    requires WF(G) && Exact(G, Find(G, key, false), |key|)
    ensures var x := Find(G, key, false).path;
            && |x| <= |key|
            && (FoundText(G, key, false) == Some(x) <==> |x| == |key| && TablesAgree(G, x, key))
  {
    hide WF, PathText, TablesAgree;
    var c := Find(G, key, false);
    FindCorrect(G, key, false);
    ReachedNode(G, c);
    if c.into == 0 { TextIsPath(G, c.path, key); }
  }

  /** A table at the root with the keys "A" to "M". */
  const LETTERS: set<byte> := {65, 66, 67, 68, 69, 70, 71, 72, 73, 74, 75, 76, 77}
  const NODES: set<Key> := {[]} + set c | c in LETTERS :: [c]
  const FULL: Shape := map x | x in NODES :: if x == [] then Cell(Table(LETTERS), None) else Cell(Leaf, Some(1))

  /** Asking that trie for "a" with 'i' finds "A" and returns the text "a". */
  lemma TableTextDiffers()
    ensures WF(FULL) && Find(FULL, [97], false) == Coords([65], 1, 0, false)
    ensures FoundText(FULL, [97], false) == Some([97])
  {
    hide WF, Find, PathText;
    FullOk();
    FullFind();
    ReachedNode(FULL, Coords([65], 1, 0, false));
    FullText();
  }

  lemma FullOk()
    ensures WF(FULL) && [65] in FULL && FULL[[65]] == Cell(Leaf, Some(1))
  {
    hide LETTERS;
    FullCount();
    var root: Key := [];
    forall p | p in FULL ensures CellOk(FULL[p]) && KidsIn(FULL, p) {
      if p == root {
        forall q | IsKid(p, FULL[p].edges, q) ensures q in FULL { assert q == [q[0]]; }
      }
    }
  }

  lemma FullCount()
    ensures |LETTERS| == 13 && 65 in LETTERS
  {
  }

  lemma FullFind()
    requires WF(FULL)
    ensures Find(FULL, [97], false) == Coords([65], 1, 0, false)
  {
    hide WF;
    var root: Key := [];
    assert root + [65] == [65] && [65] in FULL;
    assert Next(FULL, root, [97], TryUpper) == Coords([65], 1, 0, false);
  }

  lemma FullText()
    ensures PathText(FULL, [65], [97]) == [97]
  {
    var root: Key := [];
    assert [65][..0] == root && root in FULL;
  }

  lemma FindText(G: Shape, key: Key, cs: bool, b: Key)
    requires WF(G) && Roomy(G, |b|)
    ensures var c := Find(G, key, cs); var r := AfterFind(G, key, cs, b);
            && c.pos <= |key| && c.pos <= |b| && Spells(r[..c.pos], key, cs)
            && (FoundText(G, key, cs).Some? ==> c.pos == |key| && r[..|key|] == FoundText(G, key, cs).value)
  {
    hide PathText;
    FindCorrect(G, key, cs);
    if cs {
      WalkRecords(G, [], key, b);
    } else {
      FoldSpells(G, [], key, b, 0);
      EmptyText(G, key);
      FoldText(G, [], key, b);
    }
  }

  lemma EmptyText(G: Shape, key: Key)
    ensures PathText(G, [], key) == []
  {
  }

  /** The text that a set returns: that of the match if the search reported one, and otherwise
      one that equals the key, up to case with 'i'. */
  ghost predicate Answers(G: Shape, key: Key, cs: bool, t: Key)
    requires G == map[] || WF(G)
  {
    if G == map[] then t == key
    else match FoundText(G, key, cs)
      case Some(x) => t == x
      case None => |t| == |key| && Spells(t, key, cs)
  }

  /** Copying the rest of the key behind what the search left. */
  lemma RestAnswers(G: Shape, key: Key, cs: bool, b: Key)
    requires WF(G) && Roomy(G, |b|)
    ensures var c := Find(G, key, cs);
            c.pos <= |key| && c.pos <= |b| && Answers(G, key, cs, AfterFind(G, key, cs, b)[..c.pos] + key[c.pos..])
  {
    FindText(G, key, cs, b);
    RootText(G);
    var c := Find(G, key, cs);
    var r := AfterFind(G, key, cs, b)[..c.pos];
    var t := r + key[c.pos..];
    forall i | 0 <= i < |key| ensures SameChar(key[i], t[i], cs) {
      assert t[i] == if i < c.pos then r[i] else key[c.pos..][i - c.pos];
    }
    if c.pos == |key| { assert t == r; }
  }

  lemma RootText(G: Shape)
    requires WF(G)
    ensures G != map[]
  {
  }
}
