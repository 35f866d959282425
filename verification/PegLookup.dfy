/** survival_kit/parsing/peg_lookup.h: an unordered choice between keywords through a
    trie and a table of suffixes, and the word it looks up. */
module PegLookup {
  import opened Bytes
  import opened TrieShape
  import opened TrieLookup
  import opened TrieOps
  import opened TrieFold
  import opened TrieHeap

  /** CHOICE(keyword, rule) and SUFFIX(name, rule), as they stand in the list. */
  datatype Entry = ChoiceOf(keyword: Key) | SuffixMark

  const DEFAULT_SUFFIX: nat := 0

  const CREATE := Flags(false, true, false)

  /** The keywords in order; their places are the values of their enum constants. */
  function Keywords(es: seq<Entry>): seq<Key> {
    if |es| == 0 then []
    else
      var ks := Keywords(es[..|es| - 1]);
      if es[|es| - 1].ChoiceOf? then ks + [es[|es| - 1].keyword] else ks
  }

  /** How many SUFFIX marks there are, which is the number of the last. */
  function Marks(es: seq<Entry>): nat {
    if |es| == 0 then DEFAULT_SUFFIX
    else Marks(es[..|es| - 1]) + if es[|es| - 1].SuffixMark? then 1 else 0
  }

  /** The suffix of a keyword is the last mark before it. */
  function Suffixes(es: seq<Entry>): (t: seq<nat>)
    ensures |t| == |Keywords(es)|
  {
    if |es| == 0 then []
    else
      var t := Suffixes(es[..|es| - 1]);
      if es[|es| - 1].ChoiceOf? then t + [Marks(es[..|es| - 1])] else t
  }

  predicate AllDifferent(ks: seq<Key>) {
    forall i, j :: 0 <= i < j < |ks| ==> ks[i] != ks[j]
  }

  /** The trie after the sets of the lazy initialization, up to the first that throws. */
  function Filled(ks: seq<Key>): (r: (State, bool))
    ensures Inv(r.0)
    decreases |ks|
  {
    if |ks| == 0 then (EMPTY, true)
    else FillOne(Filled(ks[..|ks| - 1]), ks[|ks| - 1], |ks| - 1)
  }

  /** One more set, unless an earlier one has thrown. */
  function FillOne(r: (State, bool), k: Key, v: nat): (r': (State, bool))
    requires Inv(r.0)
    ensures Inv(r'.0)
  {
    if !r.1 then r
    else
      SetInv(r.0, k, v, CREATE);
      var x := Set(r.0, k, v, CREATE);
      (x.0, x.1 == Stored)
  }

  /** A plain comparison with every keyword. */
  function Linear(ks: seq<Key>, word: Key): (r: Option<nat>)
    ensures r.Some? ==> r.value < |ks| && ks[r.value] == word
    ensures r.None? ==> word !in ks
    decreases |ks|
  {
    if |ks| == 0 then None
    else if ks[|ks| - 1] == word then Some(|ks| - 1)
    else Linear(ks[..|ks| - 1], word)
  }

  ghost predicate Holds(m: map<Key, Ptr>, ks: seq<Key>) {
    && (forall i :: 0 <= i < |ks| ==> ks[i] in m && m[ks[i]] == i)
    && forall k :: k in m ==> k in ks
  }

  /** When no set throws, the trie maps each keyword to its place. */
  lemma {:induction false} FilledHolds(ks: seq<Key>)
    requires AllDifferent(ks) && Filled(ks).1
    ensures Filled(ks).0.iters == 0 && Holds(Denote(Filled(ks).0.G), ks)
    decreases |ks|
  {
    if |ks| > 0 {
      FilledHolds(ks[..|ks| - 1]);
      FilledOne(ks);
    }
  }

  lemma Front<T>(s: seq<T>)
    requires |s| > 0
    ensures s == s[..|s| - 1] + [s[|s| - 1]]
  {
  }

  lemma FilledOne(ks: seq<Key>)
    requires |ks| > 0 && AllDifferent(ks) && Filled(ks).1
    requires var lo := ks[..|ks| - 1]; Filled(lo).0.iters == 0 && Holds(Denote(Filled(lo).0.G), lo)
    ensures Filled(ks).0.iters == 0 && Holds(Denote(Filled(ks).0.G), ks)
  {
    var lo, k := ks[..|ks| - 1], ks[|ks| - 1];
    var s := Filled(lo).0;
    var x := Set(s, k, |lo|, CREATE);
    assert x.1 == Stored && Filled(ks).0 == x.0;
    StoredSet(s, k, |lo|);
    Front(ks);
    HoldsMore(Denote(s.G), lo, k);
  }

  lemma StoredSet(s: State, key: Key, v: Ptr)
    requires Inv(s) && s.iters == 0 && Set(s, key, v, CREATE).1 == Stored
    ensures var s' := Set(s, key, v, CREATE).0; s'.iters == 0 && Denote(s'.G) == Denote(s.G)[key := v]
  {
    SetRefines(s, key, v, CREATE);
    StoredTarget(s, key, v);
  }

  lemma HoldsMore(m: map<Key, Ptr>, ks: seq<Key>, k: Key)
    requires Holds(m, ks) && k !in ks
    ensures Holds(m[k := |ks|], ks + [k])
  {
  }

  /** A set with 'c' alone that is accepted acts on the key it was given. */
  lemma StoredTarget(s: State, key: Key, v: Ptr)
    requires Inv(s) && Set(s, key, v, CREATE).1 == Stored
    ensures Target(s.G, key) == key && key !in Denote(s.G)
  {
    if s.G != map[] { TargetExact(s.G, key); }
  }

  /** The set for one more keyword throws exactly when the search for it ends inside an
      edge that leaves another keyword. */
  lemma NextKeyword(ks: seq<Key>)
    requires |ks| > 0 && AllDifferent(ks) && Filled(ks[..|ks| - 1]).1
    ensures Filled(ks).1 <==> !InsideValueEdge(Filled(ks[..|ks| - 1]).0.G, ks[|ks| - 1])
  {
    var lo, k := ks[..|ks| - 1], ks[|ks| - 1];
    var s := Filled(lo).0;
    FilledHolds(lo);
    assert k !in lo;
    SetRefines(s, k, |lo|, CREATE);
    StopsMeans(s.G, k);
    if s.G != map[] { TargetExact(s.G, k); }
  }

  /** With a case-sensitive parser the trie picks the keyword that equals the word, and
      no keyword if none does, exactly when the search for the word does not end inside
      an edge that leaves a keyword. */
  lemma LookupIsLinear(ks: seq<Key>, word: Key, fl: Flags)
    requires AllDifferent(ks) && Filled(ks).1 && !fl.icase
    ensures Get(Filled(ks).0, word, fl) == Linear(ks, word) <==> !InsideValueEdge(Filled(ks).0.G, word)
  {
    var s := Filled(ks).0;
    FilledHolds(ks);
    GetMeetsMap(s, word, fl);
    var r := Linear(ks, word);
    if r.Some? { assert ks[r.value] == word; }
    assert MapGet(Denote(s.G), word) == r;
  }

  /** What a search finds in the filled trie is the place of a keyword. */
  lemma GetInRange(ks: seq<Key>, word: Key, fl: Flags)
    requires AllDifferent(ks) && Filled(ks).1
    ensures var r := Get(Filled(ks).0, word, fl); r.Some? ==> 0 <= r.value < |ks|
  {
    var s := Filled(ks).0;
    FilledHolds(ks);
    if s.G != map[] {
      var c := Find(s.G, word, !fl.icase);
      FindCorrect(s.G, word, !fl.icase);
      if Exact(s.G, c, |word|) {
        assert c.path in Denote(s.G);
        assert c.path in ks;
      }
    }
  }

  // ---------------------------------------------------------------- the word

  /** The bytes from cursor to end are the longest word there, with no word byte before. */
  predicate WordAt(text: Key, isWord: byte -> bool, cursor: nat, ubound: nat, end: nat) {
    && cursor < end <= ubound <= |text|
    && (forall i :: cursor <= i < end ==> isWord(text[i]))
    && (end < ubound ==> !isWord(text[end]))
    && (cursor > 0 ==> !isWord(text[cursor - 1]))
  }

  predicate AllWord(s: Key, isWord: byte -> bool) {
    forall i :: 0 <= i < |s| ==> isWord(s[i])
  }

  /** The word at the cursor is the longest stretch of word bytes around it, and it starts
      there. */
  lemma WordIsLongest(text: Key, isWord: byte -> bool, cursor: nat, ubound: nat, end: nat)
    requires ubound <= |text|
    ensures WordAt(text, isWord, cursor, ubound, end) <==>
            && cursor < end <= ubound && AllWord(text[cursor..end], isWord)
            && forall a, b :: 0 <= a <= cursor && end <= b <= ubound && AllWord(text[a..b], isWord) ==>
                 a == cursor && b == end
  {
    if WordAt(text, isWord, cursor, ubound, end) {
      forall a, b | 0 <= a <= cursor && end <= b <= ubound && AllWord(text[a..b], isWord)
        ensures a == cursor && b == end
      {
        SliceWord(text, isWord, a, b);
      }
    } else if cursor < end <= ubound && AllWord(text[cursor..end], isWord) {
      SliceWord(text, isWord, cursor, end);
      var a := if cursor > 0 && isWord(text[cursor - 1]) then cursor - 1 else cursor;
      var b := if end < ubound && isWord(text[end]) then end + 1 else end;
      SliceWord(text, isWord, a, b);
    }
  }

  lemma SliceWord(text: Key, isWord: byte -> bool, a: nat, b: nat)
    requires a <= b <= |text|
    ensures AllWord(text[a..b], isWord) <==> forall i :: a <= i < b ==> isWord(text[i])
  {
    assert forall i :: a <= i < b ==> text[i] == text[a..b][i - a];
  }

  /** SKIT_PEG_any_word */
  method AnyWord(text: Key, isWord: byte -> bool, cursor: nat, ubound: nat) returns (end: Option<nat>)
    requires ubound <= |text|
    ensures end.Some? ==> WordAt(text, isWord, cursor, ubound, end.value)
    ensures end.None? ==> forall n: nat :: !WordAt(text, isWord, cursor, ubound, n)
  {
    if cursor >= ubound || !isWord(text[cursor]) {
      return None;
    }
    var newCursor := cursor + 1;
    while newCursor < ubound && isWord(text[newCursor])
      invariant cursor < newCursor <= ubound
      invariant forall i :: cursor <= i < newCursor ==> isWord(text[i])
    {
      newCursor := newCursor + 1;
    }
    if cursor > 0 && isWord(text[cursor - 1]) {
      return None;
    }
    return Some(newCursor);
  }

  lemma OneWord(text: Key, isWord: byte -> bool, cursor: nat, ubound: nat, m: nat, n: nat)
    requires WordAt(text, isWord, cursor, ubound, m) && WordAt(text, isWord, cursor, ubound, n)
    ensures m == n
  {
  }

  // -------------------------------------------------------------- the dispatch

  /** What the lookup comes to: no word, a word that is no keyword, or a keyword with the
      suffix that must follow; next is the position after the word and whitespace. */
  datatype Looked =
    | NoWord
    | NoKeyword(at: nat)
    | Chosen(choice: nat, suffix: nat, next: nat)

  class Index {
    const trie: Trie
    var suffixTable: seq<nat>
    var filled: bool
    /** The error-checking mutex of the index is held. */
    var locked: bool

    ghost predicate Valid()
      reads this`filled, trie, trie.at.Values
    {
      trie.Valid() && (!filled ==> trie.Abs() == EMPTY)
    }

    /** The index was filled with the keywords of this list. */
    ghost predicate FilledWith(es: seq<Entry>)
      reads this`filled, this`suffixTable, trie
    {
      filled && (trie.Abs(), true) == Filled(Keywords(es)) && suffixTable == Suffixes(es)
    }

    /** skit_peg_lookup_index_ctor */
    constructor ()
      ensures Valid() && !filled && !locked && fresh(trie) && fresh(trie.key_return_buf) && trie.at == map[]
    {
      trie := new Trie();
      suffixTable, filled, locked := [], false, false;
    }

    /** skit_trie_set( ... keyword ... SKIT_FLAG_C ) */
    method AddKeyword(k: Key, v: nat) returns (ok: bool)
      requires trie.Valid()
      modifies trie, trie.key_return_buf, trie.at.Values
      ensures trie.Valid()
      ensures var (s, r) := Set(old(trie.Abs()), k, v, CREATE); trie.Abs() == s && (ok <==> r == Stored)
      ensures forall n :: n in trie.at.Values ==> n in old(trie.at.Values) || fresh(n)
      ensures trie.key_return_buf == old(trie.key_return_buf) || fresh(trie.key_return_buf)
    {
      var r, ret := trie.Set(k, v, CREATE);
      ok := r == Stored;
    }

    /** After entry number i - 1 of the list, with the given current suffix and the
        suffixes so far. */
    ghost predicate Reached(es: seq<Entry>, i: nat, current: nat, table: seq<nat>)
      requires i <= |es|
      reads this, trie, trie.at.Values
    {
      && trie.Valid() && (trie.Abs(), true) == Filled(Keywords(es[..i]))
      && table == Suffixes(es[..i]) && current == Marks(es[..i])
    }

    /** One entry of the list. */
    method AddEntry(es: seq<Entry>, i: nat, current: nat, table: seq<nat>)
            returns (ok: bool, current': nat, table': seq<nat>)
      requires i < |es| && Reached(es, i, current, table)
      modifies trie, trie.key_return_buf, trie.at.Values
      ensures trie.Valid() && (trie.Abs(), ok) == Filled(Keywords(es[..i + 1]))
      ensures ok ==> Reached(es, i + 1, current', table')
      ensures forall n :: n in trie.at.Values ==> n in old(trie.at.Values) || fresh(n)
      ensures trie.key_return_buf == old(trie.key_return_buf) || fresh(trie.key_return_buf)
    {
      EntryStep(es, i);
      if es[i].ChoiceOf? {
        current', table' := current, table + [current];
        ok := AddKeyword(es[i].keyword, |table|);
      } else {
        ok, current', table' := true, current + 1, table;
      }
    }

    /** The expansion of the list from entry number i on.  When a set throws, the
        exception leaves it at once. */
    method FillFrom(es: seq<Entry>, i: nat, current: nat, table: seq<nat>) returns (ok: bool, table': seq<nat>)
      requires i <= |es| && Reached(es, i, current, table)
      modifies trie, trie.key_return_buf, trie.at.Values
      ensures trie.Valid() && (trie.Abs(), ok) == Filled(Keywords(es))
      ensures ok ==> table' == Suffixes(es)
      ensures forall n :: n in trie.at.Values ==> n in old(trie.at.Values) || fresh(n)
      ensures trie.key_return_buf == old(trie.key_return_buf) || fresh(trie.key_return_buf)
      decreases |es| - i
    {
      table' := table;
      if i == |es| {
        assert es[..i] == es;
        ok := true;
      } else {
        var current';
        ok, current', table' := AddEntry(es, i, current, table);
        if ok {
          ok, table' := FillFrom(es, i + 1, current', table');
        } else {
          StaysBroken(es, i + 1);
        }
      }
    }

    /** The lazy initialization. */
    method Fill(es: seq<Entry>) returns (ok: bool)
      requires Valid() && !filled
      modifies this`suffixTable, this`filled, trie, trie.key_return_buf, trie.at.Values
      ensures Valid() && filled && (trie.Abs(), ok) == Filled(Keywords(es))
      ensures ok ==> FilledWith(es)
      ensures forall n :: n in trie.at.Values ==> n in old(trie.at.Values) || fresh(n)
      ensures trie.key_return_buf == old(trie.key_return_buf) || fresh(trie.key_return_buf)
    {
      hide Trie.Valid, Suffixes;
      var table;
      ok, table := FillFrom(es, 0, DEFAULT_SUFFIX, []);
      filled, suffixTable := true, table;
    }

    /** The lookup in a filled index, up to the dispatch to the rule of the suffix and to
        the rule of the choice. */
    method Lookup(es: seq<Entry>, text: Key, isWord: byte -> bool, skip: nat -> nat, cursor: nat, ubound: nat,
            caseSensitive: bool)
      returns (r: Looked)
      requires trie.Valid() && FilledWith(es) && AllDifferent(Keywords(es)) && ubound <= |text|
      modifies trie.key_return_buf
      ensures trie.Valid() && FilledWith(es)
      ensures (forall n: nat :: !WordAt(text, isWord, cursor, ubound, n)) ==> r == NoWord
      ensures forall n: nat :: WordAt(text, isWord, cursor, ubound, n) ==>
                r == Picks(es, text[cursor..n], Flags(!caseSensitive, false, false), skip(n))
    {
      var end := AnyWord(text, isWord, cursor, ubound);
      if end.None? { return NoWord; }
      forall n: nat | WordAt(text, isWord, cursor, ubound, n) ensures n == end.value {
        OneWord(text, isWord, cursor, ubound, end.value, n);
      }
      r := Pick(es, text[cursor..end.value], Flags(!caseSensitive, false, false), skip(end.value));
    }

    /** The index may be used: it was filled to the end, or is still to be filled.  An index
        on which filling threw keeps its mutex. */
    ghost predicate Usable(es: seq<Entry>)
      reads this, trie
    {
      !locked ==> (filled ==> FilledWith(es))
    }

    /** The mutex is taken, which throws when it is held; an index that is not filled yet is
        filled, which throws when a keyword cannot be stored and leaves the mutex held;
        otherwise the mutex is given back. */
    method Prepare(es: seq<Entry>) returns (ok: bool)
      requires Valid() && Usable(es)
      modifies this`suffixTable, this`filled, this`locked, trie, trie.key_return_buf, trie.at.Values
      ensures Valid() && locked == !ok && (ok ==> FilledWith(es))
      ensures ok <==> !old(locked) && Filled(Keywords(es)).1
      ensures forall n :: n in trie.at.Values ==> n in old(trie.at.Values) || fresh(n)
      ensures trie.key_return_buf == old(trie.key_return_buf) || fresh(trie.key_return_buf)
    {
      hide Trie.Valid, Filled, Keywords;
      if locked { return false; }
      locked, ok := true, true;
      if !filled {
        ok := Fill(es);
      }
      locked := !ok;
    }

    /** The macro up to the dispatch, with None for an exception. */
    method FillAndLookup(es: seq<Entry>, text: Key, isWord: byte -> bool, skip: nat -> nat, cursor: nat, ubound: nat,
            caseSensitive: bool)
      returns (r: Option<Looked>)
      requires Valid() && Usable(es) && AllDifferent(Keywords(es)) && ubound <= |text|
      modifies this`suffixTable, this`filled, this`locked, trie, trie.key_return_buf, trie.at.Values
      ensures Valid() && Usable(es) && (r.None? <==> old(locked) || !Filled(Keywords(es)).1)
      ensures r.Some? && (forall n: nat :: !WordAt(text, isWord, cursor, ubound, n)) ==> r.value == NoWord
      ensures forall n: nat :: r.Some? && caseSensitive && WordAt(text, isWord, cursor, ubound, n) ==>
                (r.value == Plain(es, text[cursor..n], skip(n)) <==> !InsideValueEdge(trie.G, text[cursor..n]))
      ensures forall n: nat :: r.Some? && !caseSensitive && WordAt(text, isWord, cursor, ubound, n) ==>
                (RightFold(es, text[cursor..n], skip(n), r.value) <==> !FirstInside(trie.G, text[cursor..n]))
    {
      var ok := Prepare(es);
      if !ok { return None; }
      var looked := Lookup(es, text, isWord, skip, cursor, ubound, caseSensitive);
      r := Some(looked);
      forall n: nat | caseSensitive && WordAt(text, isWord, cursor, ubound, n)
        ensures r.value == Plain(es, text[cursor..n], skip(n)) <==> !InsideValueEdge(trie.G, text[cursor..n])
      {
        LookupSelects(es, text[cursor..n], Flags(false, false, false), skip(n));
      }
      forall n: nat | !caseSensitive && WordAt(text, isWord, cursor, ubound, n)
        ensures RightFold(es, text[cursor..n], skip(n), r.value) <==> !FirstInside(trie.G, text[cursor..n])
      {
        FoldSelects(es, text[cursor..n], Flags(true, false, false), skip(n));
      }
    }

    /** Which keyword the word is, and its suffix. */
    method Pick(es: seq<Entry>, word: Key, fl: Flags, next: nat) returns (r: Looked)
      requires trie.Valid() && FilledWith(es) && AllDifferent(Keywords(es))
      modifies trie.key_return_buf
      ensures trie.Valid() && FilledWith(es) && r == Picks(es, word, fl, next)
    {
      hide Trie.Valid, Filled, Suffixes, Keywords;
      GetInRange(Keywords(es), word, fl);
      var ret, which := trie.Get(word, fl);
      r := if ret.None? then NoKeyword(next) else Chosen(which, suffixTable[which], next);
    }
  }

  /** What the trie makes of the word. */
  function Picks(es: seq<Entry>, word: Key, fl: Flags, next: nat): Looked {
    match Get(Filled(Keywords(es)).0, word, fl)
    case None => NoKeyword(next)
    case Some(i) => if 0 <= i < |Suffixes(es)| then Chosen(i, Suffixes(es)[i], next) else NoKeyword(next)
  }

  /** What comparing the word with every keyword makes of it. */
  function Plain(es: seq<Entry>, word: Key, next: nat): Looked {
    match Linear(Keywords(es), word)
    case None => NoKeyword(next)
    case Some(i) => Chosen(i, Suffixes(es)[i], next)
  }

  /** For a case-sensitive parser the lookup selects the choice and the suffix that a
      comparison with all keywords selects, exactly when the search for the word does not
      end inside an edge that leaves a keyword. */
  lemma LookupSelects(es: seq<Entry>, word: Key, fl: Flags, next: nat)
    requires AllDifferent(Keywords(es)) && Filled(Keywords(es)).1 && !fl.icase
    ensures Picks(es, word, fl, next) == Plain(es, word, next) <==>
            !InsideValueEdge(Filled(Keywords(es)).0.G, word)
  {
    LookupIsLinear(Keywords(es), word, fl);
    GetInRange(Keywords(es), word, fl);
  }

  /** The right answer for a parser without case: the place and the suffix of a keyword that
      equals the word up to case, or that there is none. */
  ghost predicate RightFold(es: seq<Entry>, word: Key, next: nat, r: Looked) {
    var ks := Keywords(es);
    match r
    case Chosen(i, suffix, n) => i < |ks| && SameKey(word, ks[i]) && suffix == Suffixes(es)[i] && n == next
    case NoKeyword(n) => n == next && forall i :: 0 <= i < |ks| ==> !SameKey(word, ks[i])
    case NoWord => false
  }

  /** For a parser without case the lookup is right exactly when the first node of the trie
      that is taken for the word is not one in whose edge the word ends. */
  lemma FoldSelects(es: seq<Entry>, word: Key, fl: Flags, next: nat)
    requires AllDifferent(Keywords(es)) && Filled(Keywords(es)).1 && fl.icase
    ensures RightFold(es, word, next, Picks(es, word, fl, next)) <==>
            !FirstInside(Filled(Keywords(es)).0.G, word)
  {
    hide Filled, Keywords, Suffixes, FirstInside, Get;
    var ks := Keywords(es);
    var s := Filled(ks).0;
    FilledHolds(ks);
    GetInRange(ks, word, fl);
    FoldAnswers(s, word, fl);
    FoldMeansPick(ks, Denote(s.G), word, FoundKey(s.G, word));
  }

  lemma FoldMeansPick(ks: seq<Key>, m: map<Key, Ptr>, word: Key, f: Option<Key>)
    requires AllDifferent(ks) && Holds(m, ks) && (f.Some? ==> f.value in m)
    ensures RightAnswer(m, word, f) <==>
            match f
            case Some(x) => 0 <= m[x] < |ks| && SameKey(word, ks[m[x]])
            case None => forall i :: 0 <= i < |ks| ==> !SameKey(word, ks[i])
  {
    if f.Some? { assert f.value in ks; }
  }

  /** The places of the choices, or of the marks, among the first n entries. */
  function Places(es: seq<Entry>, n: nat, choices: bool): set<int>
    requires n <= |es|
  {
    set x | 0 <= x < n && es[x].ChoiceOf? == choices
  }

  lemma PlacesMore(es: seq<Entry>, n: nat, choices: bool)
    requires 0 < n <= |es|
    ensures |Places(es, n, choices)| == |Places(es, n - 1, choices)| + if es[n - 1].ChoiceOf? == choices then 1 else 0
  {
    var lo := Places(es, n - 1, choices);
    assert Places(es, n, choices) == if es[n - 1].ChoiceOf? == choices then lo + {n - 1} else lo;
  }

  lemma {:induction false} CountEntries(es: seq<Entry>, n: nat)
    requires n <= |es|
    ensures |Keywords(es[..n])| == |Places(es, n, true)| && Marks(es[..n]) == |Places(es, n, false)|
    decreases n
  {
    if n > 0 {
      CountEntries(es, n - 1);
      assert es[..n][..n - 1] == es[..n - 1];
      PlacesMore(es, n, true);
      PlacesMore(es, n, false);
    }
  }

  /** Each choice of the list is one keyword, its place is the number of choices before it,
      and its suffix the number of marks before it. */
  lemma {:induction false} SuffixPlaces(es: seq<Entry>, j: nat)
    requires j < |es| && es[j].ChoiceOf?
    ensures var i := |Places(es, j, true)|;
            i < |Keywords(es)| && Keywords(es)[i] == es[j].keyword && Suffixes(es)[i] == |Places(es, j, false)|
    decreases |es|
  {
    var n := |es| - 1;
    var lo := es[..n];
    if j == n {
      CountEntries(es, n);
    } else {
      SuffixPlaces(lo, j);
      assert forall x :: 0 <= x < n ==> lo[x] == es[x];
      assert Places(lo, j, true) == Places(es, j, true) && Places(lo, j, false) == Places(es, j, false);
    }
  }

  /** A list in which no keyword is a proper prefix of a later one can be filled in, and a
      word that no keyword is a proper prefix of is looked up right. */
  lemma {:induction false} NoPrefixFills(ks: seq<Key>)
    requires AllDifferent(ks) && forall i, j :: 0 <= i < j < |ks| ==> !(ks[i] < ks[j])
    ensures Filled(ks).1
    decreases |ks|
  {
    if |ks| > 0 {
      var lo, k := ks[..|ks| - 1], ks[|ks| - 1];
      NoPrefixFills(lo);
      FilledHolds(lo);
      NextKeyword(ks);
      NoKeywordBefore(lo, k);
    }
  }

  lemma NoKeywordBefore(ks: seq<Key>, word: Key)
    requires AllDifferent(ks) && Filled(ks).1 && forall i :: 0 <= i < |ks| ==> !(ks[i] < word)
    ensures !InsideValueEdge(Filled(ks).0.G, word)
  {
    var G := Filled(ks).0.G;
    FilledHolds(ks);
    forall p | p in G && G[p].val.Some? ensures !(p < word) { assert p in Denote(G); }
  }

  lemma NoPrefixSelects(es: seq<Entry>, word: Key, fl: Flags, next: nat)
    requires AllDifferent(Keywords(es)) && Filled(Keywords(es)).1 && !fl.icase
    requires forall i :: 0 <= i < |Keywords(es)| ==> !(Keywords(es)[i] < word)
    ensures Picks(es, word, fl, next) == Plain(es, word, next)
  {
    LookupSelects(es, word, fl, next);
    NoKeywordBefore(Keywords(es), word);
  }

  lemma EntryStep(es: seq<Entry>, i: nat)
    requires i < |es|
    ensures es[i].ChoiceOf? ==>
              && Filled(Keywords(es[..i + 1])) == FillOne(Filled(Keywords(es[..i])), es[i].keyword, |Suffixes(es[..i])|)
              && Suffixes(es[..i + 1]) == Suffixes(es[..i]) + [Marks(es[..i])] && Marks(es[..i + 1]) == Marks(es[..i])
    ensures es[i].SuffixMark? ==>
              && Keywords(es[..i + 1]) == Keywords(es[..i]) && Suffixes(es[..i + 1]) == Suffixes(es[..i])
              && Marks(es[..i + 1]) == Marks(es[..i]) + 1
  {
    var up := es[..i + 1];
    assert up[..|up| - 1] == es[..i];
    if es[i].ChoiceOf? {
      var ks := Keywords(up);
      assert ks[..|ks| - 1] == Keywords(es[..i]);
    }
  }

  /** Once a set has thrown, the rest of the list does not matter. */
  lemma {:induction false} StaysBroken(es: seq<Entry>, i: nat)
    requires i <= |es| && !Filled(Keywords(es[..i])).1
    ensures Filled(Keywords(es)) == Filled(Keywords(es[..i]))
    decreases |es|
  {
    if i == |es| {
      assert es[..i] == es;
    } else {
      var lo := es[..|es| - 1];
      assert lo[..i] == es[..i];
      StaysBroken(lo, i);
      var ks := Keywords(es);
      if es[|es| - 1].ChoiceOf? { assert ks[..|ks| - 1] == Keywords(lo); }
    }
  }

  // -------------------------------------------------- the failing family exists

  const AB: Key := [97, 98]
  const ABC: Key := [97, 98, 99]
  const ABCD: Key := [97, 98, 99, 100]

  /** The trie of the keyword "abcd", and then of "ab" as well. */
  const ONE_KEYWORD := State(map[[] := Cell(Line(ABCD), None), ABCD := Cell(Leaf, Some(0))], 1, 4, 0)
  const TWO_KEYWORDS := State(map[[] := Cell(Line(AB), None), AB := Cell(Line([99, 100]), Some(1)),
                                  ABCD := Cell(Leaf, Some(0))], 2, 4, 0)

  lemma FirstChain()
    ensures Chain([], ABCD, 0) == ONE_KEYWORD.G
  {
    assert ChunkLen(ABCD) == 4 && ABCD[..4] == ABCD && ABCD[4..] == [] && [] + ABCD == ABCD;
    assert Chain(ABCD, [], 0) == map[ABCD := Cell(Leaf, Some(0))];
  }

  lemma FirstKeyword()
    ensures Filled([ABCD]) == (ONE_KEYWORD, true)
  {
    hide WF, Inv, Chain;
    var none: seq<Key> := [];
    assert [ABCD][..0] == none;
    assert Filled(none) == (EMPTY, true);
    FirstChain();
  }

  lemma SecondKeyword()
    ensures Filled([ABCD, AB]) == (TWO_KEYWORDS, true)
  {
    hide Inv;
    FirstKeyword();
    assert [ABCD, AB][..1] == [ABCD];
    assert Inv(Filled([ABCD]).0);
    SplitKeyword();
  }

  /** Storing "ab" cuts the edge "abcd". */
  lemma SplitKeyword()
    requires Inv(ONE_KEYWORD)
    ensures Set(ONE_KEYWORD, AB, 1, CREATE) == (TWO_KEYWORDS, Stored)
  {
    hide WF, Walk;
    assert [] in ONE_KEYWORD.G;
    OneStop();
    SplitShape();
  }

  lemma OneStop()
    requires WF(ONE_KEYWORD.G)
    ensures Find(ONE_KEYWORD.G, AB, true) == Coords([], 2, 2, true)
  {
    hide WF, Lcp;
    assert AB[0..] == AB;
    LcpWhole(ABCD, AB, true);
  }

  lemma LcpWhole(x: Key, key: Key, cs: bool)
    requires key <= x
    ensures Lcp(x, key, cs) == |key|
  {
    assert forall i :: 0 <= i < |key| ==> x[i] == key[i];
  }

  lemma SplitShape()
    ensures Insert(ONE_KEYWORD.G, Coords([], 2, 2, true), AB, 1) == TWO_KEYWORDS.G
  {
    assert AB[2..] == [] && ABCD[..2] == AB && ABCD[2..] == [99, 100] && [] + AB == AB;
    var H := SplitLine(ONE_KEYWORD.G, [], 2);
    assert H == map[[] := Cell(Line(AB), None), AB := Cell(Line([99, 100]), None), ABCD := Cell(Leaf, Some(0))];
    assert SetVal(H, AB, 1) == TWO_KEYWORDS.G;
  }

  lemma InsideKeyword()
    ensures InsideValueEdge(TWO_KEYWORDS.G, ABC)
  {
    var G := TWO_KEYWORDS.G;
    assert AB in G && G[AB] == Cell(Line([99, 100]), Some(1));
    assert AB + [99, 100] == ABCD;
    assert AB < ABC && ABC < AB + [99, 100];
  }

  /** The keywords "abcd" and "ab" are filled in without an exception, and the word "abc",
      which is neither, selects "ab". */
  lemma WrongKeyword(fl: Flags)
    requires !fl.icase
    ensures Filled([ABCD, AB]) == (TWO_KEYWORDS, true)
    ensures Linear([ABCD, AB], ABC) == None && Get(TWO_KEYWORDS, ABC, fl) == Some(1)
  {
    hide WF, Inv, Get, Filled, InsideValueEdge;
    SecondKeyword();
    InsideKeyword();
    assert Inv(Filled([ABCD, AB]).0);
    WrongGet(fl);
  }

  lemma WrongGet(fl: Flags)
    requires Inv(TWO_KEYWORDS) && InsideValueEdge(TWO_KEYWORDS.G, ABC) && !fl.icase
    ensures Get(TWO_KEYWORDS, ABC, fl) == Some(1)
  {
    hide WF, Find, InsideValueEdge;
    var G := TWO_KEYWORDS.G;
    assert [] in G;
    StopsMeans(G, ABC);
    TargetExact(G, ABC);
    assert forall p :: p in Denote(G) && |p| < 3 ==> p == AB && G[p].val == Some(1);
  }

  /** The keywords "abcd", "ab" and "abc" cannot be filled in: the third throws. */
  lemma ThirdKeywordThrows()
    ensures AllDifferent([ABCD, AB, ABC]) && Filled([ABCD, AB]).1 && !Filled([ABCD, AB, ABC]).1
  {
    hide WF, Inv, InsideValueEdge;
    SecondKeyword();
    InsideKeyword();
    assert [ABCD, AB, ABC][..2] == [ABCD, AB];
    NextKeyword([ABCD, AB, ABC]);
  }
}
