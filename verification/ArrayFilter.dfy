/** slice_bfd_filter of survival_kit/templates/array.c: a stable filter within a buffer. */
module ArrayFilter {

  /** The elements that pass, in order. */
  function Kept<T>(s: seq<T>, p: T -> bool): seq<T> {
    if |s| == 0 then [] else (if p(s[0]) then [s[0]] else []) + Kept(s[1..], p)
  }

  lemma {:induction false} KeptSplit<T>(s: seq<T>, t: seq<T>, p: T -> bool)
    ensures Kept(s + t, p) == Kept(s, p) + Kept(t, p)
    decreases |s|
  {
    if |s| == 0 {
      assert s + t == t;
    } else {
      KeptSplit(s[1..], t, p);
      assert (s + t)[0] == s[0] && (s + t)[1..] == s[1..] + t;
      var h := if p(s[0]) then [s[0]] else [];
      assert h + (Kept(s[1..], p) + Kept(t, p)) == h + Kept(s[1..], p) + Kept(t, p);
    }
  }

  /** The places of the passing elements among the first n. */
  ghost function Passed<T>(s: seq<T>, n: nat, p: T -> bool): set<int>
    requires n <= |s|
  {
    set x | 0 <= x < n && p(s[x])
  }

  lemma PassedMore<T>(s: seq<T>, n: nat, p: T -> bool)
    requires 0 < n <= |s|
    ensures |Passed(s, n, p)| == |Passed(s, n - 1, p)| + if p(s[n - 1]) then 1 else 0
    ensures Kept(s[..n], p) == Kept(s[..n - 1], p) + if p(s[n - 1]) then [s[n - 1]] else []
  {
    var lo := Passed(s, n - 1, p);
    assert Passed(s, n, p) == if p(s[n - 1]) then lo + {n - 1} else lo;
    assert s[..n] == s[..n - 1] + [s[n - 1]];
    KeptSplit(s[..n - 1], [s[n - 1]], p);
  }

  /** The filter is stable: each passing element comes to the place that is the number of
      passing elements before it, and nothing else is kept. */
  lemma {:induction false} KeptInOrder<T>(s: seq<T>, n: nat, p: T -> bool)
    requires n <= |s|
    ensures |Kept(s[..n], p)| == |Passed(s, n, p)|
    ensures forall i :: 0 <= i < n && p(s[i]) ==>
              |Passed(s, i, p)| < |Passed(s, n, p)| && Kept(s[..n], p)[|Passed(s, i, p)|] == s[i]
    decreases n
  {
    if n > 0 {
      KeptInOrder(s, n - 1, p);
      PassedMore(s, n, p);
    }
  }

  lemma {:induction false} KeptNone<T>(s: seq<T>, p: T -> bool)
    requires forall i :: 0 <= i < |s| ==> !p(s[i])
    ensures Kept(s, p) == []
    decreases |s|
  {
    if |s| > 0 { KeptNone(s[1..], p); }
  }

  /** Swapping a hole at i with a passing element at j, everything between failing. */
  lemma SwapKeeps<T>(s: seq<T>, i: nat, j: nat, p: T -> bool)
    requires i < j < |s| && !p(s[i]) && p(s[j])
    requires forall k :: i < k < j ==> !p(s[k])
    ensures var t := s[i := s[j]][j := s[i]];
            Kept(t[i + 1..], p) == Kept(s[j + 1..], p) && Kept(s[i..], p) == [s[j]] + Kept(s[j + 1..], p)
  {
    var t := s[i := s[j]][j := s[i]];
    var holes, gap := t[i + 1..j + 1], s[i..j];
    assert t[i + 1..] == holes + s[j + 1..];
    KeptSplit(holes, s[j + 1..], p);
    forall k | 0 <= k < |holes| ensures !p(holes[k]) { assert holes[k] == if i + 1 + k == j then
        s[i] else s[i + 1 + k]; }
    KeptNone(holes, p);
    assert s[i..] == gap + s[j..];
    KeptSplit(gap, s[j..], p);
    forall k | 0 <= k < |gap| ensures !p(gap[k]) { assert gap[k] == s[i + k]; }
    KeptNone(gap, p);
    assert s[j..] == [s[j]] + s[j + 1..];
    KeptSplit([s[j]], s[j + 1..], p);
    assert Kept([s[j]], p) == [s[j]];
    assert [] + Kept(s[j + 1..], p) == Kept(s[j + 1..], p);
    assert [] + Kept(s[j..], p) == Kept(s[j..], p);
  }

  lemma SwapPermutes<T>(s: seq<T>, i: nat, j: nat)
    requires i < j < |s|
    ensures multiset(s[i := s[j]][j := s[i]]) == multiset(s)
  {
  }

  /** The scan for the next passing element. */
  method NextPassing<T>(buffer: array<T>, from: nat, len: nat, p: T -> bool) returns (leading: nat, ghost calls: nat)
    requires from <= len <= buffer.Length
    ensures from <= leading <= len && calls <= leading - from + 1
    ensures forall i :: from <= i < leading ==> !p(buffer[i])
    ensures leading < len ==> p(buffer[leading])
  {
    leading, calls := from, 0;
    while leading < len
      invariant from <= leading <= len && calls == leading - from
      invariant forall i :: from <= i < leading ==> !p(buffer[i])
    {
      calls := calls + 1;
      if p(buffer[leading]) {
        break;
      }
      leading := leading + 1;
    }
  }

  /** How the buffer stands when the first trailing elements are done. */
  ghost predicate Condensed<T>(s: seq<T>, was: seq<T>, trailing: nat, leading: nat, len: nat, p: T -> bool) {
    && trailing <= len <= |s| == |was| && leading <= len
    && (forall i :: 0 <= i < trailing ==> p(s[i]))
    && (forall i :: trailing <= i < leading ==> !p(s[i]))
    && s[..trailing] + Kept(s[trailing..len], p) == Kept(was[..len], p)
    && s[len..] == was[len..] && multiset(s) == multiset(was)
  }

  lemma Passing<T>(s: seq<T>, was: seq<T>, trailing: nat, leading: nat, len: nat, p: T -> bool)
    requires Condensed(s, was, trailing, leading, len, p) && trailing < len && p(s[trailing])
    ensures Condensed(s, was, trailing + 1, leading, len, p)
  {
    assert s[trailing..len][1..] == s[trailing + 1..len];
    assert s[..trailing + 1] == s[..trailing] + [s[trailing]];
  }

  lemma Filling<T>(s: seq<T>, was: seq<T>, i: nat, leading: nat, j: nat, len: nat, p: T -> bool)
    requires Condensed(s, was, i, leading, len, p) && i < j < len && leading <= j && !p(s[i]) && p(s[j])
    requires forall k :: i < k < j ==> !p(s[k])
    ensures Condensed(s[i := s[j]][j := s[i]], was, i + 1, j, len, p)
  {
    hide Kept;
    var t := s[i := s[j]][j := s[i]];
    FillingKeeps(s, i, j, len, p);
    SwapPermutes(s, i, j);
    assert t[len..] == s[len..];
    forall k | i + 1 <= k < j ensures !p(t[k]) { assert t[k] == s[k]; }
  }

  lemma FillingKeeps<T>(s: seq<T>, i: nat, j: nat, len: nat, p: T -> bool)
    requires i < j < len <= |s| && !p(s[i]) && p(s[j])
    requires forall k :: i < k < j ==> !p(s[k])
    ensures var t := s[i := s[j]][j := s[i]];
            t[..i + 1] + Kept(t[i + 1..len], p) == s[..i] + Kept(s[i..len], p)
  {
    var t := s[i := s[j]][j := s[i]];
    var u := s[..len];
    SwapKeeps(u, i, j, p);
    assert t[..len] == u[i := u[j]][j := u[i]];
    assert t[..len][i + 1..] == t[i + 1..len] && u[i..] == s[i..len];
    assert t[..i + 1] == s[..i] + [s[j]];
    assert s[..i] + [s[j]] + Kept(u[j + 1..], p) == s[..i] + ([s[j]] + Kept(u[j + 1..], p));
  }

  lemma Finished<T>(s: seq<T>, was: seq<T>, trailing: nat, leading: nat, len: nat, p: T -> bool)
    requires Condensed(s, was, trailing, leading, len, p)
    requires forall i :: trailing <= i < len ==> !p(s[i])
    ensures s[..trailing] == Kept(was[..len], p)
  {
    KeptNone(s[trailing..len], p);
  }

  method Swap<T>(buffer: array<T>, i: nat, j: nat)
    requires i < j < buffer.Length
    modifies buffer
    ensures buffer[..] == old(buffer[..][i := buffer[j]][j := buffer[i]])
  {
    buffer[i], buffer[j] := buffer[j], buffer[i];
  }

  /** One round of the outer loop; done when no passing element is left. */
  method Round<T>(buffer: array<T>, trailing: nat, leading: nat, len: nat, p: T -> bool, ghost was: seq<T>)
    returns (done: bool, trailing': nat, leading': nat, ghost calls: nat)
    requires trailing < len && Condensed(buffer[..], was, trailing, leading, len, p)
    modifies buffer
    ensures Condensed(buffer[..], was, trailing', leading', len, p)
    ensures trailing' == if done then trailing else trailing + 1
    ensures done ==> forall i :: trailing <= i < len ==> !p(buffer[i])
    ensures leading <= leading' && calls <= 3 + leading' - leading
  {
    done, trailing', leading', calls := false, trailing + 1, leading, 1;
    ghost var s := buffer[..];
    if p(buffer[trailing]) {
      Passing(s, was, trailing, leading, len, p);
    } else {
      if leading' < trailing + 1 {
        leading' := trailing + 1;
      }
      ghost var n;
      leading', n := NextPassing(buffer, leading', len, p);
      calls := calls + n;
      if leading' >= len {
        done, trailing' := true, trailing;
      } else {
        Filling(s, was, trailing, leading, leading', len, p);
        Swap(buffer, trailing, leading');
      }
    }
  }

  /** slice_bfd_filter on the first len elements of the buffer.  The new length is
      returned; the number of calls of the predicate is linear because the leading index
      never moves back. */
  method Filter<T>(buffer: array<T>, len: nat, p: T -> bool) returns (newLen: nat, ghost calls: nat)
    requires len <= buffer.Length
    modifies buffer
    ensures newLen <= len && buffer[..newLen] == old(Kept(buffer[..len], p))
    ensures forall i :: newLen <= i < len ==> !p(buffer[i])
    ensures buffer[len..] == old(buffer[len..]) && multiset(buffer[..]) == old(multiset(buffer[..]))
    ensures calls <= 4 * len
  {
    var trailing, leading, done := 0, 0, len == 0;
    calls := 0;
    ghost var was := buffer[..];
    assert was[0..len] == was[..len];
    while !done
      invariant Condensed(buffer[..], was, trailing, leading, len, p)
      invariant done ==> forall i :: trailing <= i < len ==> !p(buffer[i])
      invariant calls <= 3 * (trailing + if done && trailing < len then 1 else 0) + leading
      invariant !done ==> trailing < len
      decreases len - trailing, !done
    {
      ghost var n;
      done, trailing, leading, n := Round(buffer, trailing, leading, len, p, was);
      calls := calls + n;
      if trailing >= len {
        done := true;
      }
    }
    Finished(buffer[..], was, trailing, leading, len, p);
    newLen := trailing;
  }
}
