/** The order of keys: skit_slice_ascii_ccmp and the lexicographic order it decides. */
module KeyOrder {
  import opened Bytes
  import opened TrieLookup

  /** Lexicographic order on unsigned bytes; a proper prefix comes first. */
  ghost predicate LexLess(a: Key, b: Key) {
    if |b| == 0 then false
    else if |a| == 0 then true
    else a[0] < b[0] || (a[0] == b[0] && LexLess(a[1..], b[1..]))
  }

  /** skit_slice_common_cprefix */
  method CommonPrefix(a: Key, b: Key, cs: bool) returns (prefix: Key)
    ensures prefix == a[..Lcp(a, b, cs)]
  {
    var len := if |a| < |b| then |a| else |b|;
    var pos := 0;
    while pos < len && SameChar(b[pos], a[pos], cs)
      invariant 0 <= pos <= len
      invariant forall j :: 0 <= j < pos ==> SameChar(b[j], a[j], cs)
    {
      pos := pos + 1;
    }
    prefix := a[..pos];
  }

  /** skit_slice_ascii_ccmp on slices that are not null. */
  function Compare(a: Key, b: Key, cs: bool): int {
    var pos := Lcp(a, b, cs);
    var rest1, rest2 := |a| - pos, |b| - pos;
    if rest1 == rest2 && rest1 == 0 then 0
    else if rest1 != rest2 && (rest1 == 0 || rest2 == 0) then rest1 - rest2
    else CharCmp(a[pos], b[pos], cs)
  }

  lemma {:induction false} LexAt(a: Key, b: Key, n: nat)
    requires n <= |a| && n <= |b| && a[..n] == b[..n]
    requires n == |a| || n == |b| || a[n] != b[n]
    ensures LexLess(a, b) <==> n < |b| && (n == |a| || a[n] < b[n])
    decreases n
  {
    if n == 0 {
    } else {
      assert a[0] == a[..n][0] && b[0] == b[..n][0];
      assert a[1..][..n - 1] == a[..n][1..] && b[1..][..n - 1] == b[..n][1..];
      LexAt(a[1..], b[1..], n - 1);
    }
  }

  /** The case-sensitive comparison decides the lexicographic order and equality. */
  lemma CompareDecides(a: Key, b: Key)
    ensures Compare(a, b, true) < 0 <==> LexLess(a, b)
    ensures Compare(a, b, true) == 0 <==> a == b
    ensures Compare(a, b, true) > 0 <==> LexLess(b, a)
  {
    var n := Lcp(a, b, true);
    assert forall i :: 0 <= i < n ==> a[i] == b[i];
    assert a[..n] == b[..n];
    LexAt(a, b, n);
    LexAt(b, a, n);
  }

  /** The case-insensitive comparison is that of the keys in lower case. */
  lemma CompareFold(a: Key, b: Key)
    ensures Compare(a, b, false) < 0 <==> LexLess(Lower(a), Lower(b))
    ensures Compare(a, b, false) == 0 <==> SameKey(a, b)
    ensures Compare(a, b, false) > 0 <==> LexLess(Lower(b), Lower(a))
  {
    var n := Lcp(a, b, false);
    var x, y := Lower(a), Lower(b);
    assert forall i :: 0 <= i < n ==> x[i] == y[i];
    assert x[..n] == y[..n];
    LexAt(x, y, n);
    LexAt(y, x, n);
  }

  lemma {:induction false} LexTransitive(a: Key, b: Key, c: Key)
    requires LexLess(a, b) && LexLess(b, c)
    ensures LexLess(a, c)
    decreases |a|
  {
    if |a| > 0 && a[0] == b[0] == c[0] { LexTransitive(a[1..], b[1..], c[1..]); }
  }

  lemma {:induction false} LexIrreflexive(a: Key)
    ensures !LexLess(a, a)
    decreases |a|
  {
    if |a| > 0 { LexIrreflexive(a[1..]); }
  }

  lemma PrefixLess(a: Key, b: Key)
    requires a < b
    ensures LexLess(a, b)
  {
    LexAt(a, b, |a|);
  }

  /** Two keys that leave a common prefix by different bytes. */
  lemma BranchLess(p: Key, a: Key, b: Key)
    requires p < a && p < b && a[|p|] < b[|p|]
    ensures LexLess(a, b)
  {
    LexAt(a, b, |p|);
  }
}
