/** Interleavings of gets, attempted sets and several iterators on one trie. */
module TrieSessions {
  import opened Bytes
  import opened TrieShape
  import opened TrieLookup
  import opened TrieOps
  import opened KeyOrder
  import opened TrieCursor
  import opened TrieIter

  datatype Call =
    | SetCall(key: Key, v: Ptr, fl: Flags)
    | GetCall(key: Key, fl: Flags)
    | OpenCall(prefix: Key, fl: Flags)
    | NextCall(id: nat)
    | FreeCall(id: nat)

  datatype Reply =
    | SetReply(r: SetResult)
    | GetReply(v: Option<Ptr>)
    | OpenReply(id: nat)
    | OpenRefused(code: ErrCode)
    | NextReply(more: bool, key: Option<Key>, value: Ptr)
    | FreeReply

  /** A live iterator: the keys it has still to report, and a record of what the trie
      held when the iterator was made and of what the iterator has reported. */
  datatype Track = Track(m: map<Key, Ptr>, prefix: Key, keys: seq<Key>, values: seq<Ptr>, todo: set<Key>)

  /** The trie and the iterators not yet freed. */
  datatype World = World(s: State, live: map<nat, Track>)

  /** A call that its caller may make: iterators are used only until they are freed,
      and iteration is never case-insensitive. */
  predicate Allowed(w: World, c: Call) {
    match c
    case SetCall(_, _, _) => true
    case GetCall(_, _) => true
    case OpenCall(_, fl) => !fl.icase
    case NextCall(id) => id in w.live
    case FreeCall(id) => id in w.live
  }

  /** One call: what it may answer and what it leaves behind.  TrieClients proves that the
      calls on a real trie and its iterators are such steps. */
  ghost predicate Steps(w: World, c: Call, r: Reply, w': World) {
    && Inv(w.s) && Allowed(w, c)
    && match c
       case SetCall(key, v, fl) =>
         w'.live == w.live && w'.s == Set(w.s, key, v, fl).0 && r == SetReply(Set(w.s, key, v, fl).1)
       case GetCall(key, fl) => w' == w && r == GetReply(Get(w.s, key, fl))
       case OpenCall(prefix, fl) =>
         if fl.create || fl.overwrite then w' == w && r == OpenRefused(TRIE_BAD_FLAGS)
         else
           && r.OpenReply? && r.id !in w.live && w'.s == w.s.(iters := w.s.iters + 1)
           && w'.live == w.live[r.id := Track(Denote(w.s.G), prefix, [], [], Under(Denote(w.s.G), prefix))]
       case NextCall(id) =>
         var t := w.live[id];
         && w'.s == w.s && r.NextReply? && id in w'.live
         && Reports(w.s.G, t.todo, r.more, r.key, r.value, w'.live[id].todo)
         && w'.live == w.live[id := Recorded(t, r, w'.live[id].todo)]
       case FreeCall(id) =>
         r == FreeReply && w.s.iters > 0 && w'.s == w.s.(iters := w.s.iters - 1) && w'.live == w.live - {id}
  }

  function Recorded(t: Track, r: Reply, todo: set<Key>): Track
    requires r.NextReply?
  {
    if r.more && r.key.Some? then t.(keys := t.keys + [r.key.value], values := t.values + [r.value], todo := todo)
    else t.(todo := todo)
  }

  /** The iterator shows the map as it was when the iterator was made, which is still
      the map in the trie. */
  ghost predicate Faithful(s: State, t: Track) {
    t.m == Denote(s.G) && Drained(t.m, Under(t.m, t.prefix), t.keys, t.values, t.todo)
  }

  ghost predicate Sound(w: World) {
    && Inv(w.s) && w.s.iters == |w.live|
    && forall id :: id in w.live ==> Faithful(w.s, w.live[id])
  }

  lemma StepSound(w: World, c: Call, r: Reply, w': World)
    requires Sound(w) && Steps(w, c, r, w')
    ensures Sound(w')
    ensures w.live.Keys != {} ==> w'.s.G == w.s.G && w'.s.length == w.s.length && w'.s.longest == w.s.longest
  {
    match c
    case SetCall(key, v, fl) => SetSound(w, c, r, w');
    case GetCall(key, fl) =>
    case OpenCall(prefix, fl) => OpenSound(w, c, r, w');
    case NextCall(id) => NextSound(w, id, r, w');
    case FreeCall(id) => FreeSound(w, id, r, w');
  }

  lemma SetSound(w: World, c: Call, r: Reply, w': World)
    requires Sound(w) && c.SetCall? && Steps(w, c, r, w')
    ensures Sound(w')
    ensures w.live.Keys != {} ==> w'.s == w.s
  {
    hide Inv;
    SetInv(w.s, c.key, c.v, c.fl);
    if w.live.Keys != {} {
      assert |w.live.Keys| == |w.live|;
    } else {
      assert w.live == map[];
    }
  }

  lemma NothingDrained(m: map<Key, Ptr>, all: set<Key>)
    ensures Drained(m, all, [], [], all)
  {
    var none: seq<Key> := [];
    assert (set i | 0 <= i < |none| :: none[i]) == {};
  }

  lemma OpenSound(w: World, c: Call, r: Reply, w': World)
    requires Sound(w) && c.OpenCall? && Steps(w, c, r, w')
    ensures Sound(w')
  {
    if r.OpenReply? {
      assert w'.live.Keys == w.live.Keys + {r.id};
      forall id | id in w'.live ensures Faithful(w'.s, w'.live[id]) {
        if id == r.id {
          NothingDrained(Denote(w.s.G), Under(Denote(w.s.G), c.prefix));
        } else {
          assert w'.live[id] == w.live[id] && Faithful(w.s, w.live[id]);
        }
      }
    }
  }

  lemma FreeSound(w: World, id: nat, r: Reply, w': World)
    requires Sound(w) && Steps(w, FreeCall(id), r, w')
    ensures Sound(w')
  {
    assert w.live.Keys == w'.live.Keys + {id};
    forall i | i in w'.live ensures Faithful(w'.s, w'.live[i]) { assert Faithful(w.s, w.live[i]); }
  }

  lemma NextSound(w: World, id: nat, r: Reply, w': World)
    requires Sound(w) && Steps(w, NextCall(id), r, w')
    ensures Sound(w')
  {
    var t := w.live[id];
    assert w'.live.Keys == w.live.Keys;
    assert Faithful(w.s, t);
    if t.todo != {} {
      DrainedMore(w.s.G, Under(t.m, t.prefix), t.keys, t.values, t.todo, r.key.value, r.value, w'.live[id].todo);
    }
    assert Faithful(w.s, w'.live[id]);
  }

  /** An empty trie without iterators is a sound world to start from, and so is any trie
      that keeps the invariant. */
  lemma StartSound(s: State)
    requires Inv(s) && s.iters == 0
    ensures Sound(World(s, map[])) && Sound(World(EMPTY, map[]))
  {
  }

  /** A run of calls with their answers. */
  ghost predicate Run(w: World, cs: seq<Call>, rs: seq<Reply>, w': World)
    decreases |cs|
  {
    && |rs| == |cs|
    && if |cs| == 0 then w' == w
       else exists mid :: Steps(w, cs[0], rs[0], mid) && Run(mid, cs[1..], rs[1..], w')
  }

  lemma StepKeeps(w: World, c: Call, r: Reply, w': World, id: nat)
    requires Sound(w) && Steps(w, c, r, w') && id in w.live && c != FreeCall(id)
    ensures id in w'.live && w'.live[id].m == w.live[id].m && w'.live[id].prefix == w.live[id].prefix
    ensures w.live[id].keys <= w'.live[id].keys && w'.s.G == w.s.G
  {
    assert id in w.live.Keys && |w.live.Keys| == |w.live|;
  }

  /** In any run from a sound world, an iterator that is not freed keeps what it
      recorded of its making, and its reports only get longer; the trie is not changed. */
  lemma {:induction false} RunKeeps(w: World, cs: seq<Call>, rs: seq<Reply>, w': World, id: nat)
    requires Sound(w) && Run(w, cs, rs, w') && id in w.live && FreeCall(id) !in cs
    ensures Sound(w') && id in w'.live && w'.live[id].m == w.live[id].m && w'.live[id].prefix == w.live[id].prefix
    ensures w.live[id].keys <= w'.live[id].keys && w'.s.G == w.s.G
    decreases |cs|
  {
    if |cs| > 0 {
      var mid :| Steps(w, cs[0], rs[0], mid) && Run(mid, cs[1..], rs[1..], w');
      StepSound(w, cs[0], rs[0], mid);
      StepKeeps(w, cs[0], rs[0], mid, id);
      RunKeeps(mid, cs[1..], rs[1..], w', id);
    }
  }

  lemma {:induction false} RunSound(w: World, cs: seq<Call>, rs: seq<Reply>, w': World)
    requires Sound(w) && Run(w, cs, rs, w')
    ensures Sound(w')
    decreases |cs|
  {
    if |cs| > 0 {
      var mid :| Steps(w, cs[0], rs[0], mid) && Run(mid, cs[1..], rs[1..], w');
      StepSound(w, cs[0], rs[0], mid);
      RunSound(mid, cs[1..], rs[1..], w');
    }
  }

  /** In any interleaving, an iterator that has not been freed has by now reported, in
      ascending order and each with its value, the least keys that start with its
      prefix out of the map at the time it was made, and has the others still to
      report; and that map is still the map in the trie. */
  lemma IteratorsSeeTheirMap(w: World, prefix: Key, fl: Flags, id: nat, w1: World,
                             cs: seq<Call>, rs: seq<Reply>, w2: World)
    requires Sound(w) && Steps(w, OpenCall(prefix, fl), OpenReply(id), w1)
    requires Run(w1, cs, rs, w2) && FreeCall(id) !in cs
    ensures id in w2.live && Denote(w2.s.G) == Denote(w.s.G)
    ensures var m := Denote(w.s.G); var t := w2.live[id];
            Drained(m, Under(m, prefix), t.keys, t.values, t.todo)
  {
    StepSound(w, OpenCall(prefix, fl), OpenReply(id), w1);
    RunKeeps(w1, cs, rs, w2, id);
    assert Faithful(w2.s, w2.live[id]);
  }

  lemma EndOnlyAfterAll(G: Shape, all: set<Key>, t: Track, r: Reply, todo': set<Key>)
    requires Drained(Denote(G), all, t.keys, t.values, t.todo)
    requires r.NextReply? && Reports(G, t.todo, r.more, r.key, r.value, todo')
    ensures !r.more <==> (set i | 0 <= i < |t.keys| :: t.keys[i]) == all
  {
    var seen := set i | 0 <= i < |t.keys| :: t.keys[i];
    if t.todo != {} {
      var k := r.key.value;
      assert k in t.todo;
      if k in seen {
        var i :| 0 <= i < |t.keys| && t.keys[i] == k;
        LexIrreflexive(k);
      }
    }
  }

  /** An iterator reports the end exactly when it has reported every key that started
      with its prefix when it was made. */
  lemma EndMeansAll(w: World, prefix: Key, fl: Flags, id: nat, w1: World,
                    cs: seq<Call>, rs: seq<Reply>, w2: World, r: Reply, w3: World)
    requires Sound(w) && Steps(w, OpenCall(prefix, fl), OpenReply(id), w1)
    requires Run(w1, cs, rs, w2) && FreeCall(id) !in cs && id in w2.live
    requires r.NextReply? && Steps(w2, NextCall(id), r, w3)
    ensures var keys := w2.live[id].keys;
            !r.more <==> (set i | 0 <= i < |keys| :: keys[i]) == Under(Denote(w.s.G), prefix)
  {
    IteratorsSeeTheirMap(w, prefix, fl, id, w1, cs, rs, w2);
    var t := w2.live[id];
    EndOnlyAfterAll(w2.s.G, Under(Denote(w.s.G), prefix), t, r, w3.live[id].todo);
  }

  /** After any run, while an iterator is open every set is refused, whatever its
      flags, and changes nothing. */
  lemma SetsRefused(w: World, cs: seq<Call>, rs: seq<Reply>, w1: World, c: Call, r: Reply, w2: World)
    requires Sound(w) && Run(w, cs, rs, w1) && w1.live != map[]
    requires c.SetCall? && Steps(w1, c, r, w2)
    ensures r == SetReply(Thrown(TRIE_WRITE_IN_ITERATION)) && w2 == w1
  {
    RunSound(w, cs, rs, w1);
    assert |w1.live.Keys| == |w1.live|;
    assert w1.live.Keys != {};
  }
}
