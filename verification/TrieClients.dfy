/** A program that works with one trie: real gets, sets and any number of iterators at the
    same time, each call a step of the sessions. */
module TrieClients {
  import opened Bytes
  import opened TrieShape
  import opened TrieLookup
  import opened TrieOps
  import H = TrieHeap
  import opened TrieCursor
  import opened TrieIter
  import opened TrieSessions

  lemma GetSteps(w: World, key: Key, fl: Flags)
    requires Inv(w.s)
    ensures Steps(w, GetCall(key, fl), GetReply(Get(w.s, key, fl)), w)
  {
  }

  lemma SetSteps(w: World, key: Key, v: Ptr, fl: Flags)
    requires Inv(w.s)
    ensures Steps(w, SetCall(key, v, fl), SetReply(Set(w.s, key, v, fl).1), w.(s := Set(w.s, key, v, fl).0))
  {
  }

  lemma KeepsCount(s: State, key: Key, v: Ptr, fl: Flags)
    requires Inv(s)
    ensures Set(s, key, v, fl).0.iters == s.iters
  {
  }

  lemma FreeSteps(w: World, id: nat)
    requires Inv(w.s) && id in w.live && w.s.iters == |w.live|
    ensures |w.live| > 0 && |w.live - {id}| == |w.live| - 1
    ensures Steps(w, FreeCall(id), FreeReply, World(w.s.(iters := w.s.iters - 1), w.live - {id}))
  {
    assert |w.live.Keys| == |w.live| && id in w.live.Keys;
    assert (w.live - {id}).Keys == w.live.Keys - {id};
    assert |(w.live - {id}).Keys| == |w.live - {id}|;
  }

  /** The record of a new iterator. */
  ghost function Opened(s: State, prefix: Key): Track {
    Track(Denote(s.G), prefix, [], [], Under(Denote(s.G), prefix))
  }

  lemma OpenSteps(w: World, prefix: Key, fl: Flags, id: nat)
    requires Inv(w.s) && !fl.icase
    ensures fl.create || fl.overwrite ==> Steps(w, OpenCall(prefix, fl), OpenRefused(TRIE_BAD_FLAGS), w)
    ensures !(fl.create || fl.overwrite) && id !in w.live ==>
              Steps(w, OpenCall(prefix, fl), OpenReply(id),
                    World(w.s.(iters := w.s.iters + 1), w.live[id := Opened(w.s, prefix)]))
  {
  }

  lemma OneMore(m: map<nat, Track>, id: nat, t: Track)
    requires id !in m
    ensures |m[id := t]| == |m| + 1
  {
    assert m[id := t].Keys == m.Keys + {id};
    assert |m[id := t].Keys| == |m[id := t]| && |m.Keys| == |m|;
  }

  lemma NextSteps(w: World, id: nat, more: bool, key: Option<Key>, value: Ptr, todo: set<Key>, w': World)
    requires Inv(w.s) && id in w.live && Reports(w.s.G, w.live[id].todo, more, key, value, todo)
    requires w' == World(w.s, w.live[id := Recorded(w.live[id], NextReply(more, key, value), todo)])
    ensures Steps(w, NextCall(id), NextReply(more, key, value), w')
  {
    var t' := Recorded(w.live[id], NextReply(more, key, value), todo);
    assert w'.live[id] == t' && t'.todo == todo;
  }

  class Client {
    const trie: H.Trie
    var iters: map<nat, Iter>
    var next: nat
    ghost var live: map<nat, Track>

    ghost function Arrays(): set<object>
      reads this`iters, iters.Values`frames
    {
      (set id | id in iters :: iters[id].frames) + (set id | id in iters :: iters[id].key_buffer)
    }

    ghost function Objects(): set<object>
      reads this`iters, iters.Values`frames, trie`key_return_buf, trie`at
    {
      {this, trie, trie.key_return_buf} + trie.at.Values + iters.Values + Arrays()
    }

    /** A call only brings in new objects: one more iterator, or a new key buffer or node. */
    twostate predicate NewObjects()
      reads this, iters.Values, trie
    {
      fresh(Objects() - old(Objects()))
    }

    twostate lemma Inside()
      requires forall id :: id in iters ==>
                 if id in old(iters) then iters[id] == old(iters[id]) && iters[id].frames == old(iters[id].frames)
                 else fresh(iters[id]) && fresh(iters[id].frames) && fresh(iters[id].key_buffer)
      requires trie.key_return_buf == old(trie.key_return_buf) || fresh(trie.key_return_buf)
      requires forall n :: n in trie.at.Values ==> n in old(trie.at.Values) || fresh(n)
      ensures NewObjects()
    {
    }

    /** No two iterators share a frame stack or a key buffer, and none has that of the trie. */
    ghost predicate Apart()
      reads this`iters, this`next, iters.Values`frames, trie`key_return_buf
    {
      && (forall i, j :: i in iters && j in iters && i != j ==>
            iters[i] != iters[j] && iters[i].frames != iters[j].frames && iters[i].key_buffer != iters[j].key_buffer)
      && (forall id :: id in iters ==> id < next && iters[id].trie == trie)
      && forall id :: id in iters ==> iters[id].key_buffer != trie.key_return_buf
    }

    /** The iterator has still to report what t says. */
    ghost predicate Shown(it: Iter, t: Track)
      reads it, it.frames, it.key_buffer, trie
    {
      it.trie == trie && it.Live() && it.Todo() == t.todo
    }

    ghost predicate Showing(now: map<nat, Track>)
      reads this`iters, iters.Values, Arrays(), trie
    {
      iters.Keys == now.Keys && forall id :: id in iters ==> Shown(iters[id], now[id])
    }

    ghost predicate Valid()
      reads this, iters.Values, Arrays(), trie, trie.at.Values
    {
      trie.Valid() && Apart() && Showing(live) && trie.iterator_count == |live|
    }

    ghost function Now(): World
      reads this, trie
    {
      World(trie.Abs(), live)
    }

    constructor (t: H.Trie)
      requires t.Valid() && t.iterator_count == 0
      ensures Valid() && trie == t && Now() == World(t.Abs(), map[])
    {
      hide H.Trie.Valid, Iter.Live, Iter.Todo, Client.Shown, Client.Arrays;
      trie, iters, next, live := t, map[], 0, map[];
    }

    /** The objects of some of the iterators. */
    ghost function Things(ids: set<nat>): set<object>
      requires ids <= iters.Keys
      reads this`iters, iters.Values`frames
    {
      (set id | id in ids :: iters[id]) + (set id | id in ids :: iters[id].frames) +
      (set id | id in ids :: iters[id].key_buffer)
    }

    lemma ThingsApart(id: nat)
      requires Apart() && id in iters
      ensures iters[id] !in Things(iters.Keys - {id}) && iters[id].frames !in Things(iters.Keys - {id})
      ensures iters[id].key_buffer !in Things(iters.Keys - {id}) && trie !in Things(iters.Keys - {id})
    {
      hide Client.Arrays;
    }

    lemma BufferApart()
      requires Apart()
      ensures trie.key_return_buf !in Things(iters.Keys) && trie !in Things(iters.Keys)
    {
      hide Client.Arrays;
    }

    /** The iterators of which nothing was written. */
    twostate lemma OthersShow(new others: set<nat>, things: set<object>)
      requires old(Showing(live)) && live == old(live) && iters == old(iters) && others <= iters.Keys
      requires trie.G == old(trie.G) && trie.at == old(trie.at) && trie.key_return_buf == old(trie.key_return_buf)
      requires things == old(Things(others)) && unchanged(things)
      ensures forall id :: id in others ==> Shown(iters[id], live[id])
    {
      hide Iter.Live, Iter.Todo, H.Trie.Valid, Steps;
      forall id | id in others ensures Shown(iters[id], live[id]) {
        assert old(Shown(iters[id], live[id]));
        assert iters[id] in things && old(iters[id].frames) in things && iters[id].key_buffer in things;
        iters[id].Survives();
      }
    }

    /** The trie counts the open iterators. */
    lemma Counted()
      requires Valid()
      ensures iters != map[] ==> trie.iterator_count > 0
    {
      hide Iter.Live, Iter.Todo, H.Trie.Valid, Steps;
      assert |live.Keys| == |live|;
      if iters != map[] {
        var id :| id in iters;
        assert id in live.Keys;
      }
    }

    lemma Holds()
      requires trie.Valid()
      ensures Inv(trie.Abs())
    {
    }

    /** The record of the iterators after a call. */
    ghost method Record(now: map<nat, Track>)
      requires trie.Valid() && Apart() && Showing(now) && trie.iterator_count == |now|
      modifies this`live
      ensures Valid() && live == now
    {
      hide Iter.Live, Iter.Todo, H.Trie.Valid, Steps;
      live := now;
    }

    ghost method RecordOne(id: nat, t: Track)
      requires trie.Valid() && Apart() && id in iters && iters.Keys == live.Keys && trie.iterator_count == |live|
      requires Shown(iters[id], live[id].(todo := t.todo))
      requires forall i :: i in iters && i != id ==> Shown(iters[i], live[i])
      modifies this`live
      ensures Valid() && live == old(live)[id := t] && Objects() == old(Objects())
    {
      hide *;
      SameSize(live, id, t);
      ShowingOne(id, t);
      Record(live[id := t]);
    }

    lemma ShowingOne(id: nat, t: Track)
      requires id in iters && iters.Keys == live.Keys
      requires Shown(iters[id], live[id].(todo := t.todo))
      requires forall i :: i in iters && i != id ==> Shown(iters[i], live[i])
      ensures Showing(live[id := t])
    {
      hide Iter.Live, Iter.Todo, H.Trie.Valid;
    }

    static lemma SameSize(m: map<nat, Track>, id: nat, t: Track)
      requires id in m
      ensures |m[id := t]| == |m|
    {
      assert m[id := t].Keys == m.Keys;
      assert |m[id := t].Keys| == |m[id := t]| && |m.Keys| == |m|;
    }

    method CallGet(key: Key, fl: Flags) returns (v: Option<Ptr>)
      requires Valid()
      modifies trie.key_return_buf
      ensures trie.Valid() && Apart() && Showing(live) && v == Get(trie.Abs(), key, fl)
    {
      hide Client.Things, Iter.Live, Iter.Todo, H.Trie.Valid;
      BufferApart();
      ghost var things := Things(iters.Keys);
      var ret, value := trie.Get(key, fl);
      v := if ret.Some? then Some(value) else None;
      OthersShow(iters.Keys, things);
    }

    /** skit_trie_get */
    method GetKey(key: Key, fl: Flags) returns (r: Reply)
      requires Valid()
      modifies trie.key_return_buf
      ensures Valid() && Steps(old(Now()), GetCall(key, fl), r, Now()) && NewObjects()
    {
      hide Client.NewObjects, Client.Arrays, Iter.Live, Iter.Todo, H.Trie.Valid, Steps, Apart, Showing;
      Holds();
      var v := CallGet(key, fl);
      r := GetReply(v);
      GetSteps(Now(), key, fl);
      Inside();
    }

    method CallNext(it: Iter, ghost id: nat) returns (more: bool, key: Option<Key>, value: Ptr)
      requires Valid() && id in iters && it == iters[id]
      modifies it`current_frame, it`prev_frame, it`fr, it.frames, it.key_buffer
      ensures iters.Keys == live.Keys && trie.iterator_count == |live|
      ensures trie.Valid() && Apart() && Shown(iters[id], live[id].(todo := it.Todo()))
      ensures forall i :: i in iters && i != id ==> Shown(iters[i], live[i])
      ensures Reports(trie.G, live[id].todo, more, key, value, it.Todo())
      ensures Objects() == old(Objects())
    {
      hide Client.Arrays, Client.Objects, Client.Things, Iter.Live, Iter.Todo, H.Trie.Valid, Reports, Client.Apart;
      ThingsApart(id);
      ghost var things := Things(iters.Keys - {id});
      assert Shown(iters[id], live[id]);
      more, key, value := it.Next();
      it.Undisturbed();
      OthersShow(iters.Keys - {id}, things);
    }

    /** skit_trie_iter_next */
    method NextKey(id: nat) returns (r: Reply)
      requires Valid() && id in iters
      modifies this`live, iters[id], iters[id].frames, iters[id].key_buffer
      ensures Valid() && Steps(old(Now()), NextCall(id), r, Now()) && NewObjects()
    {
      hide Client.Objects, Client.Apart, Client.Showing, Client.Shown, Iter.Todo, H.Trie.Valid, Reports, Inv, Set;
      Holds();
      var it: Iter := iters[id];
      var more, key, value := CallNext(it, id);
      r := NextReply(more, key, value);
      ghost var w, todo := Now(), it.Todo();
      RecordOne(id, Recorded(live[id], r, todo));
      NextSteps(w, id, more, key, value, todo, Now());
    }

    lemma NobodyApart()
      requires iters == map[]
      ensures Apart()
    {
    }

    method CallSet(key: Key, v: Ptr, fl: Flags) returns (res: SetResult)
      requires Valid()
      modifies trie, trie.key_return_buf, trie.at.Values
      ensures trie.Valid() && Apart() && Showing(live) && (trie.Abs(), res) == Set(old(trie.Abs()), key, v, fl)
      ensures trie.key_return_buf == old(trie.key_return_buf) || fresh(trie.key_return_buf)
      ensures forall n :: n in trie.at.Values ==> n in old(trie.at.Values) || fresh(n)
      ensures iters != map[] ==> trie.Abs() == old(trie.Abs())
    {
      hide Client.Things, Client.Apart, Client.Shown, Iter.Live, Iter.Todo, H.Trie.Valid;
      BufferApart();
      ghost var things := Things(iters.Keys);
      Counted();
      var ret;
      res, ret := trie.Set(key, v, fl);
      if iters == map[] {
        NobodyApart();
      } else {
        OthersShow(iters.Keys, things);
      }
    }

    /** skit_trie_set */
    method SetKey(key: Key, v: Ptr, fl: Flags) returns (r: Reply)
      requires Valid()
      modifies trie, trie.key_return_buf, trie.at.Values
      ensures Valid() && Steps(old(Now()), SetCall(key, v, fl), r, Now()) && NewObjects()
    {
      hide Client.NewObjects, Client.Arrays, Client.Showing, Client.Apart;
      hide Iter.Live, Iter.Todo, H.Trie.Valid, Steps, Set;
      Holds();
      ghost var w := Now();
      var res := CallSet(key, v, fl);
      r := SetReply(res);
      KeepsCount(w.s, key, v, fl);
      SetSteps(w, key, v, fl);
      Inside();
    }

    lemma NotFreed(it: Iter, t: Track)
      requires Shown(it, t)
      ensures !it.freed && it.trie == trie
    {
    }

    method CallFree(it: Iter, ghost id: nat)
      requires Valid() && id in iters && it == iters[id]
      modifies it`freed, trie`iterator_count
      ensures trie.Valid() && Apart() && trie.iterator_count == |live| - 1 && iters.Keys == live.Keys
      ensures trie.Abs() == old(trie.Abs()).(iters := |live| - 1)
      ensures forall i :: i in iters && i != id ==> Shown(iters[i], live[i])
      ensures Objects() == old(Objects())
    {
      hide Client.Arrays, Client.Objects, Client.Things, Iter.Live, Iter.Todo, H.Trie.Valid, Client.Apart, Client.Shown;
      ThingsApart(id);
      ghost var things := Things(iters.Keys - {id});
      Counted();
      NotFreed(it, live[id]);
      var res := it.Free();
      OthersShow(iters.Keys - {id}, things);
    }

    twostate lemma FewerObjects(id: nat)
      requires iters == old(iters) - {id} && trie.at == old(trie.at)
      requires trie.key_return_buf == old(trie.key_return_buf)
      requires forall i :: i in iters ==> iters[i].frames == old(iters[i].frames)
      ensures Objects() <= old(Objects())
    {
    }

    method Unlink(id: nat)
      requires trie.Valid() && Apart() && id in iters && iters.Keys == live.Keys
      requires forall i :: i in iters && i != id ==> Shown(iters[i], live[i])
      modifies this`iters
      ensures trie.Valid() && Apart() && Showing(live - {id}) && iters == old(iters) - {id}
      ensures Objects() <= old(Objects())
    {
      hide H.Trie.Valid, Client.Shown, Client.Objects, Client.Arrays;
      iters := iters - {id};
      FewerObjects(id);
    }

    method Drop(id: nat)
      requires trie.Valid() && trie.iterator_count == |live - {id}| && Apart() && id in iters
      requires iters.Keys == live.Keys && forall i :: i in iters && i != id ==> Shown(iters[i], live[i])
      modifies this`iters, this`live
      ensures Valid() && live == old(live) - {id} && Objects() <= old(Objects())
    {
      hide *;
      Unlink(id);
      Record(live - {id});
    }

    /** skit_trie_iter_free */
    method FreeIter(id: nat) returns (r: Reply)
      requires Valid() && id in iters
      modifies this`live, this`iters, iters[id], trie`iterator_count
      ensures Valid() && Steps(old(Now()), FreeCall(id), r, Now()) && NewObjects()
    {
      hide Client.Objects, Client.Arrays, Client.Shown, Iter.Live, Iter.Todo, H.Trie.Valid, Steps, Apart, Showing;
      Holds();
      ghost var w := Now();
      CallFree(iters[id], id);
      r := FreeReply;
      FreeSteps(w, id);
      Drop(id);
    }

    method CallOpen(prefix: Key, fl: Flags) returns (made: IterResult)
      requires Valid() && !fl.icase
      modifies trie`iterator_count, trie.key_return_buf
      ensures trie.Valid() && Apart() && Showing(live)
      ensures if fl.create || fl.overwrite then made == Refused(TRIE_BAD_FLAGS) && trie.Abs() == old(trie.Abs())
              else
                && made.Made? && fresh(made.iter) && fresh(made.iter.frames) && fresh(made.iter.key_buffer)
                && trie.Abs() == old(trie.Abs()).(iters := |live| + 1)
                && Shown(made.iter, Opened(trie.Abs(), prefix)) && made.iter.key_buffer != trie.key_return_buf
                && (forall i :: i in iters ==> iters[i] != made.iter && iters[i].frames != made.iter.frames &&
                                               iters[i].key_buffer != made.iter.key_buffer)
    {
      hide Client.Things, Iter.Live, Iter.Todo, H.Trie.Valid, Under, Denote;
      BufferApart();
      ghost var things := Things(iters.Keys);
      made := NewIter(trie, prefix, fl);
      OthersShow(iters.Keys, things);
    }

    /** A new iterator gets the next number. */
    method Add(it: Iter, ghost t: Track)
      requires trie.Valid() && Apart() && Showing(live) && Shown(it, t) && it.key_buffer != trie.key_return_buf
      requires forall i :: i in iters ==>
                 iters[i] != it && iters[i].frames != it.frames && iters[i].key_buffer != it.key_buffer
      modifies this`iters, this`next
      ensures trie.Valid() && Apart() && Showing(live[old(next) := t]) && old(next) !in live
      ensures iters == old(iters)[old(next) := it] && old(next) !in old(iters)
    {
      hide Iter.Live, Iter.Todo, H.Trie.Valid;
      NotFreed(it, t);
      iters := iters[next := it];
      next := next + 1;
    }

    /** skit_trie_iter_new */
    method OpenIter(prefix: Key, fl: Flags) returns (r: Reply)
      requires Valid() && !fl.icase
      modifies this`live, this`iters, this`next, trie`iterator_count, trie.key_return_buf
      ensures Valid() && Steps(old(Now()), OpenCall(prefix, fl), r, Now()) && NewObjects()
      ensures !fl.create && !fl.overwrite ==> r == OpenReply(old(next))
    {
      hide Client.NewObjects, Client.Arrays, Iter.Live, Iter.Todo, H.Trie.Valid, Steps, Apart, Showing, Inv, Set, Get;
      Holds();
      ghost var w := Now();
      var made := CallOpen(prefix, fl);
      OpenSteps(w, prefix, fl, next);
      match made {
        case Refused(code) => r := OpenRefused(code);
        case Made(it) =>
          r := OpenReply(next);
          ghost var id := next;
          Add(it, Opened(w.s, prefix));
          OneMore(live, id, Opened(w.s, prefix));
          Record(live[id := Opened(w.s, prefix)]);
      }
      Inside();
    }

    // ------------------------------------------------------------- runs of calls

    /** One call, whichever it is. */
    method Do(c: Call) returns (r: Reply)
      requires Valid() && Allowed(Now(), c)
      modifies Objects()
      ensures Valid() && Steps(old(Now()), c, r, Now()) && NewObjects()
    {
      hide Client.NewObjects, Iter.Live, Iter.Todo, H.Trie.Valid, Steps, Apart;
      match c
      case SetCall(key, v, fl) => r := SetKey(key, v, fl);
      case GetCall(key, fl) => r := GetKey(key, fl);
      case OpenCall(prefix, fl) => r := OpenIter(prefix, fl);
      case NextCall(id) => r := NextKey(id);
      case FreeCall(id) => r := FreeIter(id);
    }

    /** Iterators are used only until they are freed, and never without case. */
    function May(c: Call): (b: bool)
      requires Valid()
      reads this, iters.Values, Arrays(), trie, trie.at.Values
      ensures b == Allowed(Now(), c)
    {
      match c
      case OpenCall(_, fl) => !fl.icase
      case NextCall(id) => id in iters
      case FreeCall(id) => id in iters
      case _ => true
    }

    /** Calls in any order, up to one that may not be made. */
    method DoAll(cs: seq<Call>) returns (rs: seq<Reply>)
      requires Valid()
      modifies Objects()
      ensures Valid() && NewObjects()
      ensures |rs| <= |cs| && Run(old(Now()), cs[..|rs|], rs, Now())
      ensures |rs| < |cs| ==> !Allowed(Now(), cs[|rs|])
      decreases |cs|
    {
      hide Steps, Client.Valid, Client.Arrays;
      if |cs| == 0 || !May(cs[0]) {
        rs := [];
      } else {
        ghost var w := Now();
        var r := Do(cs[0]);
        ghost var mid := Now();
        var rest := DoAll(cs[1..]);
        rs := [r] + rest;
        RunMore(w, cs, r, mid, rest, Now());
      }
    }

    static lemma RunMore(w: World, cs: seq<Call>, r: Reply, mid: World, rest: seq<Reply>, w': World)
      requires |cs| > 0 && |rest| < |cs| && Steps(w, cs[0], r, mid) && Run(mid, cs[1..][..|rest|], rest, w')
      ensures Run(w, cs[..|rest| + 1], [r] + rest, w')
    {
      hide Steps;
      var now := cs[..|rest| + 1];
      assert now[0] == cs[0] && now[1..] == cs[1..][..|rest|];
      assert ([r] + rest)[1..] == rest;
    }

    /** An iterator of a real trie, among any other calls that do not free it: what it has
        reported and what it has still to report are the keys that began with its prefix when
        it was made, each with its value, and the trie holds the same map. */
    method Watch(prefix: Key, fl: Flags, cs: seq<Call>) returns (id: nat, rs: seq<Reply>)
      requires Valid() && Sound(Now()) && !fl.icase && !fl.create && !fl.overwrite && FreeCall(next) !in cs
      modifies Objects()
      ensures Valid() && Sound(Now()) && id in iters && Denote(trie.G) == old(Denote(trie.G))
      ensures var m := old(Denote(trie.G));
              Drained(m, Under(m, prefix), live[id].keys, live[id].values, iters[id].Todo())
    {
      hide Client.Apart, H.Trie.Valid, Steps, Sound;
      ghost var w := Now();
      id := next;
      var made := OpenIter(prefix, fl);
      ghost var w1 := Now();
      rs := DoAll(cs);
      ghost var run := cs[..|rs|];
      assert FreeCall(id) !in run;
      IteratorsSeeTheirMap(w, prefix, fl, id, w1, run, rs, Now());
      StepSound(w, OpenCall(prefix, fl), made, w1);
      RunSound(w1, run, rs, Now());
    }
  }
}
