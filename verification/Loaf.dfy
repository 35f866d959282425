/** Loaves and slices of survival_kit/string.c: text whose storage may move behind a
    handle that loaf and slices share. */
module Loaf {
  import opened Bytes

  /** The memory a loaf starts with: a handle, which is NULL at first, followed by bytes;
      later the handle points to memory elsewhere. */
  class Handle {
    const inner: array<byte>
    var moved: array?<byte>

    /** skit_loaf_emplace_internal: the last byte is NUL and not counted. */
    constructor (length: nat)
      ensures moved == null && fresh(inner) && inner.Length == length + 1 && inner[length] == 0
    {
      inner := new byte[length + 1];
      moved := null;
      new;
      inner[length] := 0;
    }

    /** The pointer part of skit_loaf_ptr and skit_slice_ptr. */
    function Storage(): array<byte>
      reads this
    {
      if moved == null then inner else moved
    }
  }

  /** skit_slice: an offset and a length behind a handle. */
  datatype Slice = Slice(handle: Handle, offset: nat, length: nat)

  ghost predicate Readable(s: Slice)
    reads s.handle
  {
    s.offset + s.length <= s.handle.Storage().Length
  }

  /** The bytes of a slice. */
  ghost function Read(s: Slice): seq<byte>
    requires Readable(s)
    reads s.handle, s.handle.Storage()
  {
    s.handle.Storage()[s.offset..s.offset + s.length]
  }

  /** skit_slice_of; None stands for SKIT_EOT, and negative indices count from the end.  The
      bounds may lie outside of the slice. */
  function SliceOf(s: Slice, index1: int, index2: Option<int>): (r: Slice)
    requires s.offset + From(s.length, index1) >= 0 && To(s.length, index2) >= From(s.length, index1)
    ensures r.handle == s.handle
  {
    Slice(s.handle, From(s.length, index1) + s.offset, To(s.length, index2) - From(s.length, index1))
  }

  function From(length: nat, index: int): int {
    if index < 0 then length + index else index
  }

  function To(length: nat, index: Option<int>): int {
    match index
    case None => length
    case Some(i) => From(length, i)
  }

  /** A slice of a slice reads what slicing the bytes gives.  With bounds outside of the
      slice it reads on in the storage, as far as there is any. */
  lemma SliceOfReads(s: Slice, index1: int, index2: Option<int>)
    requires s.offset + From(s.length, index1) >= 0 && To(s.length, index2) >= From(s.length, index1)
    requires Readable(s)
    ensures var a, b, r := From(s.length, index1), To(s.length, index2), SliceOf(s, index1, index2);
            && (Readable(r) <==> s.offset + b <= s.handle.Storage().Length)
            && (Readable(r) ==> Read(r) == s.handle.Storage()[s.offset + a..s.offset + b])
            && (0 <= a && b <= s.length ==> Readable(r) && Read(r) == Read(s)[a..b])
  {
    var a, b, arr := From(s.length, index1), To(s.length, index2), s.handle.Storage();
    var r := SliceOf(s, index1, index2);
    assert r.offset == s.offset + a && r.offset + r.length == s.offset + b;
    if 0 <= a && b <= s.length {
      SliceOfSlice(arr[..], s.offset, s.length, a, b);
      assert Read(s) == arr[..][s.offset..s.offset + s.length];
    }
  }

  /** Indices from the front, from the end, and to the end. */
  lemma SliceFromEnds(s: Slice, i: int, j: int, k: int)
    requires Readable(s) && 0 <= i <= j <= s.length && 0 < k <= s.length
    ensures Readable(SliceOf(s, i, Some(j))) && Read(SliceOf(s, i, Some(j))) == Read(s)[i..j]
    ensures Readable(SliceOf(s, i, None)) && Read(SliceOf(s, i, None)) == Read(s)[i..s.length]
    ensures Readable(SliceOf(s, -k, None)) && Read(SliceOf(s, -k, None)) == Read(s)[s.length - k..s.length]
    ensures i <= s.length - k ==>
              Readable(SliceOf(s, i, Some(-k))) && Read(SliceOf(s, i, Some(-k))) == Read(s)[i..s.length - k]
    ensures s.length - k <= j ==>
              Readable(SliceOf(s, -k, Some(j))) && Read(SliceOf(s, -k, Some(j))) == Read(s)[s.length - k..j]
  {
    hide Readable, Read, SliceOf;
    SliceIs(s, i, Some(j), i, j);
    SliceIs(s, i, None, i, s.length);
    SliceIs(s, -k, None, s.length - k, s.length);
    if i <= s.length - k { SliceIs(s, i, Some(-k), i, s.length - k); }
    if s.length - k <= j { SliceIs(s, -k, Some(j), s.length - k, j); }
  }

  lemma SliceIs(s: Slice, index1: int, index2: Option<int>, a: nat, b: nat)
    requires Readable(s) && From(s.length, index1) == a <= b == To(s.length, index2) && b <= s.length
    ensures var r := SliceOf(s, index1, index2); |Read(s)| == s.length && Readable(r) && Read(r) == Read(s)[a..b]
  {
    SliceOfReads(s, index1, index2);
  }

  lemma SliceOfSlice(t: seq<byte>, o: nat, n: nat, a: nat, b: nat)
    requires a <= b <= n && o + n <= |t|
    ensures t[o..o + n][a..b] == t[o + a..o + b]
  {
    var u, v, w := t[o..o + n], t[o..o + n][a..b], t[o + a..o + b];
    assert |v| == |w|;
    forall i | 0 <= i < |v| ensures v[i] == w[i] {
      assert v[i] == u[a + i];
    }
  }

  /** memcpy */
  method Copy(dst: array<byte>, at: nat, src: array<byte>, from: nat, n: nat)
    requires at + n <= dst.Length && from + n <= src.Length
    requires dst == src ==> at + n <= from || from + n <= at
    modifies dst
    ensures dst[at..at + n] == old(src[from..from + n])
    ensures forall i :: 0 <= i < dst.Length && !(at <= i < at + n) ==> dst[i] == old(dst[i])
  {
    forall i | 0 <= i < n {
      dst[at + i] := src[from + i];
    }
  }

  function Min(a: nat, b: nat): nat { if a < b then a else b }

  class Loaf {
    const handle: Handle
    var length: nat
    /** How many bytes growth has copied so far. */
    ghost var copied: nat

    ghost predicate Valid()
      reads this, handle
    {
      length + 1 <= handle.Storage().Length
    }

    /** All copying so far is paid for by the bytes the loaf now has. */
    ghost predicate Amortized()
      reads this
    {
      copied <= 2 * length
    }

    /** skit_loaf_alloc */
    constructor (n: nat)
      ensures Valid() && Amortized() && length == n && fresh(handle) && fresh(handle.Storage())
    {
      handle := new Handle(n);
      length, copied := n, 0;
    }

    /** Memory elsewhere for n bytes and a NUL, with the first k bytes of the old. */
    method Move(n: nat, k: nat)
      requires k <= n && k <= handle.Storage().Length
      modifies handle
      ensures fresh(handle.Storage()) && handle.Storage().Length == n + 1 && handle.Storage()[n] == 0
      ensures forall i :: 0 <= i < k ==> handle.Storage()[i] == old(handle.Storage()[i])
    {
      var was := handle.Storage();
      var now := new byte[n + 1](i => 0);
      forall i | 0 <= i < k {
        now[i] := was[i];
      }
      handle.moved := now;
    }

    /** skit_loaf_resize */
    method Resize(n: nat)
      requires Valid()
      modifies this`length, this`copied, handle, handle.Storage()
      ensures Valid() && length == n && handle.Storage()[n] == 0
      ensures forall i :: 0 <= i < old(length) && i < n ==> handle.Storage()[i] == old(handle.Storage()[i])
      ensures handle.Storage() == old(handle.Storage()) || fresh(handle.Storage())
      ensures copied <= old(copied) + old(length) + 1
    {
      if handle.moved == null {
        if length < n {
          Move(n, length);
          copied := copied + length;
        } else {
          handle.inner[n] := 0;
        }
      } else {
        // realloc: the new block may be elsewhere
        Move(n, Min(length, n));
        copied := copied + Min(length, n) + 1;
      }
      length := n;
    }

    /** Growing to half as much again pays for the copying. */
    lemma Pays(copied0: nat, length0: nat, need: nat)
      requires copied0 <= 2 * length0 && need > length0
      ensures copied0 + length0 + 1 <= 2 * (need * 3 / 2)
    {
    }

    /** skit_slice_buffered_resize */
    method BufferedResize(s: Slice, newLength: nat) returns (r: Slice)
      requires Valid() && s.handle == handle && s.offset <= length
      modifies this`length, this`copied, handle, handle.Storage()
      ensures Valid() && r == s.(length := newLength) && r.offset + r.length <= length
      ensures length == if s.offset + newLength > old(length) then (s.offset + newLength) * 3 / 2 else old(length)
      ensures forall i :: 0 <= i < old(length) ==> handle.Storage()[i] == old(handle.Storage()[i])
      ensures handle.Storage() == old(handle.Storage()) || fresh(handle.Storage())
      ensures old(Amortized()) ==> Amortized()
    {
      var need := s.offset + newLength;
      if need > length {
        if copied <= 2 * length { Pays(copied, length, need); }
        Resize(need * 3 / 2);
      }
      r := s.(length := newLength);
    }

    /** The bytes that a buffered append to s writes. */
    ghost predicate Written(s: Slice, n: nat, i: int) {
      s.offset + s.length <= i < s.offset + s.length + n
    }

    /** memcpy needs the suffix to be outside of the bytes that are written.  A suffix in
        other memory is not touched; one in the same buffer lies within it. */
    ghost predicate Apart(s: Slice, suffix: Slice)
      reads this, suffix.handle, handle
    {
      if suffix.handle == handle then
        && suffix.offset + suffix.length <= length
        && (suffix.offset + suffix.length <= s.offset + s.length ||
            s.offset + s.length + suffix.length <= suffix.offset)
      else Readable(suffix) && suffix.handle.Storage() != handle.Storage()
    }

    /** skit_slice_buffered_append */
    method BufferedAppend(s: Slice, suffix: Slice) returns (r: Slice)
      requires Valid() && s.handle == handle && s.offset + s.length <= length && Apart(s, suffix)
      modifies this`length, this`copied, handle, handle.Storage()
      ensures Valid() && r == s.(length := s.length + suffix.length) && r.offset + r.length <= length
      ensures length == Grown(old(length), Append(s, suffix)) >= old(length)
      ensures Read(r) == old(Read(s)) + old(Read(suffix))
      ensures forall i :: 0 <= i < old(length) && !Written(s, suffix.length, i) ==>
                handle.Storage()[i] == old(handle.Storage()[i])
      ensures handle.Storage() == old(handle.Storage()) || fresh(handle.Storage())
      ensures old(Amortized()) ==> Amortized()
    {
      r := BufferedResize(s, s.length + suffix.length);
      StillReads(s);
      StillReads(suffix);
      FillTail(s, suffix);
    }

    /** What lies in the old length of the buffer, or in other memory, reads as before. */
    twostate lemma StillReads(s: Slice)
      requires old(Readable(s))
      requires s.handle == handle ==> s.offset + s.length <= old(length)
      requires s.handle != handle ==> unchanged(s.handle) && unchanged(s.handle.Storage())
      requires old(length) <= handle.Storage().Length && old(length) <= old(handle.Storage().Length)
      requires forall i :: 0 <= i < old(length) ==> handle.Storage()[i] == old(handle.Storage()[i])
      ensures Readable(s) && Read(s) == old(Read(s))
    {
      var r := old(Read(s));
      forall i | 0 <= i < |r| ensures Readable(s) && Read(s)[i] == r[i] {
        if s.handle == handle { assert handle.Storage()[s.offset + i] == old(handle.Storage()[s.offset + i]); }
      }
    }

    /** The memcpy at the end of skit_slice_buffered_append. */
    method FillTail(s: Slice, suffix: Slice)
      requires s.handle == handle && s.offset + s.length + suffix.length <= handle.Storage().Length
      requires Readable(suffix) && Disjoint(s, suffix)
      modifies handle.Storage()
      ensures Read(s.(length := s.length + suffix.length)) == old(Read(s)) + old(Read(suffix))
      ensures forall i :: 0 <= i < handle.Storage().Length && !Written(s, suffix.length, i) ==>
                handle.Storage()[i] == old(handle.Storage()[i])
    {
      ghost var at := s.offset + s.length;
      Copy(handle.Storage(), s.offset + s.length, suffix.handle.Storage(), suffix.offset, suffix.length);
      assert handle.Storage()[s.offset..at] == old(Read(s));
      assert handle.Storage()[s.offset..at + suffix.length] ==
             handle.Storage()[s.offset..at] + handle.Storage()[at..at + suffix.length];
    }

    ghost predicate Disjoint(s: Slice, suffix: Slice)
      reads suffix.handle, handle
    {
      suffix.handle.Storage() == handle.Storage() ==>
        suffix.offset + suffix.length <= s.offset + s.length || s.offset + s.length + suffix.length <= suffix.offset
    }
  }

  /** skit_slice_buffered_append of a suffix to a slice of the buffer, anywhere in it. */
  datatype Append = Append(s: Slice, suffix: Slice)

  /** The length of the loaf after an append. */
  function Grown(length: nat, a: Append): nat {
    var need := a.s.offset + a.s.length + a.suffix.length;
    if need > length then need * 3 / 2 else length
  }

  /** Each append finds its slice, and a suffix that is in the buffer as well, within the
      bytes that the buffer has by then, and the suffix outside of the bytes it writes. */
  predicate Fit(handle: Handle, length: nat, appends: seq<Append>)
    decreases |appends|
  {
    |appends| > 0 ==>
      var a := appends[0];
      && a.s.handle == handle && a.s.offset + a.s.length <= length
      && (a.suffix.handle == handle ==>
            && a.suffix.offset + a.suffix.length <= length
            && (a.suffix.offset + a.suffix.length <= a.s.offset + a.s.length ||
                a.s.offset + a.s.length + a.suffix.length <= a.suffix.offset))
      && Fit(handle, Grown(length, a), appends[1..])
  }

  /** A suffix elsewhere is in memory of its own. */
  ghost predicate Elsewhere(buffer: Loaf, appends: seq<Append>)
    reads buffer, buffer.handle, set a | a in appends :: a.suffix.handle
  {
    forall a :: a in appends && a.suffix.handle != buffer.handle ==>
      Readable(a.suffix) && a.suffix.handle.Storage() != buffer.handle.Storage()
  }

  ghost predicate WrittenByAny(appends: seq<Append>, i: int) {
    exists a :: a in appends && a.s.offset + a.s.length <= i < a.s.offset + a.s.length + a.suffix.length
  }

  function FinalLength(length: nat, appends: seq<Append>): nat
    decreases |appends|
  {
    if |appends| == 0 then length else FinalLength(Grown(length, appends[0]), appends[1..])
  }

  /** Any sequence of buffered appends to any slices of a buffer, with suffixes from
      elsewhere or from the buffer itself: every byte outside of all ranges written reads as
      before, wherever the storage has moved, and all growth together has copied at most
      twice the final capacity. */
  method AppendRun(buffer: Loaf, appends: seq<Append>)
    requires buffer.Valid() && buffer.Amortized()
    requires Fit(buffer.handle, buffer.length, appends) && Elsewhere(buffer, appends)
    modifies buffer`length, buffer`copied, buffer.handle, buffer.handle.Storage()
    ensures buffer.Valid() && buffer.length == FinalLength(old(buffer.length), appends) >= old(buffer.length)
    ensures buffer.copied <= 2 * buffer.length
    ensures forall i :: 0 <= i < old(buffer.length) && !WrittenByAny(appends, i) ==>
              buffer.handle.Storage()[i] == old(buffer.handle.Storage()[i])
    decreases |appends|
  {
    if |appends| > 0 {
      var a := appends[0];
      var r := buffer.BufferedAppend(a.s, a.suffix);
      AppendRun(buffer, appends[1..]);
      assert forall i :: WrittenByAny(appends[1..], i) ==> WrittenByAny(appends, i);
    }
  }

  function Concat(cs: seq<seq<byte>>): seq<byte> {
    if |cs| == 0 then [] else Concat(cs[..|cs| - 1]) + cs[|cs| - 1]
  }

  lemma ConcatMore(first: seq<byte>, cs: seq<seq<byte>>, n: nat)
    requires n < |cs|
    ensures first + Concat(cs[..n]) + cs[n] == first + Concat(cs[..n + 1])
  {
    assert cs[..n + 1][..n] == cs[..n];
    assert first + Concat(cs[..n]) + cs[n] == first + (Concat(cs[..n]) + cs[n]);
  }

  /** A piece in memory of its own with these bytes. */
  ghost predicate Foreign(buffer: Loaf, piece: Slice, bytes: seq<byte>)
    reads buffer, buffer.handle, piece.handle, piece.handle.Storage()
  {
    && piece.handle != buffer.handle && Readable(piece)
    && piece.handle.Storage() != buffer.handle.Storage() && Read(piece) == bytes
  }

  /** The bytes that came behind slice s to make it slice t. */
  ghost predicate Between(s: Slice, t: Slice, i: int) {
    s.offset + s.length <= i < t.offset + t.length
  }

  /** Building a text by appending piece after piece to a slice of a buffer: the slice
      then reads all pieces, and every byte outside of those written reads as before wherever
      the storage has moved. */
  method AppendAll(buffer: Loaf, start: Slice, pieces: seq<Slice>, ghost contents: seq<seq<byte>>) returns (acc: Slice)
    requires buffer.Valid() && buffer.Amortized()
    requires start.handle == buffer.handle && start.offset + start.length <= buffer.length
    requires |contents| == |pieces| && forall i :: 0 <= i < |pieces| ==> Foreign(buffer, pieces[i], contents[i])
    modifies buffer`length, buffer`copied, buffer.handle, buffer.handle.Storage()
    ensures buffer.Valid() && buffer.copied <= 2 * buffer.length
    ensures acc.handle == buffer.handle && acc.offset == start.offset && acc.offset + acc.length <= buffer.length
    ensures Read(acc) == old(Read(start)) + Concat(contents)
    ensures old(buffer.length) <= buffer.length
    ensures forall i :: 0 <= i < old(buffer.length) && !Between(start, acc, i) ==>
              buffer.handle.Storage()[i] == old(buffer.handle.Storage()[i])
  {
    acc := start;
    var n := 0;
    assert old(Read(start)) + [] == old(Read(start));
    while n < |pieces|
      invariant n <= |pieces| && buffer.Valid() && buffer.Amortized()
      invariant acc.handle == buffer.handle && acc.offset == start.offset && start.length <= acc.length
      invariant acc.offset + acc.length <= buffer.length
      invariant Read(acc) == old(Read(start)) + Concat(contents[..n])
      invariant forall i :: 0 <= i < |pieces| ==> Foreign(buffer, pieces[i], contents[i])
      invariant buffer.handle.Storage() == old(buffer.handle.Storage()) || fresh(buffer.handle.Storage())
      invariant old(buffer.length) <= buffer.length
      invariant forall i :: 0 <= i < old(buffer.length) && !Between(start, acc, i) ==>
                  buffer.handle.Storage()[i] == old(buffer.handle.Storage()[i])
    {
      acc := AppendOne(buffer, acc, pieces, contents, n);
      ConcatMore(old(Read(start)), contents, n);
      n := n + 1;
    }
    assert contents[..n] == contents;
  }

  /** One piece. */
  method AppendOne(buffer: Loaf, acc: Slice, pieces: seq<Slice>, ghost contents: seq<seq<byte>>, n: nat)
          returns (r: Slice)
    requires buffer.Valid() && buffer.Amortized()
    requires acc.handle == buffer.handle && acc.offset + acc.length <= buffer.length
    requires |contents| == |pieces| && forall i :: 0 <= i < |pieces| ==> Foreign(buffer, pieces[i], contents[i])
    requires n < |pieces|
    modifies buffer`length, buffer`copied, buffer.handle, buffer.handle.Storage()
    ensures buffer.Valid() && buffer.Amortized()
    ensures r.handle == acc.handle && r.offset == acc.offset && acc.length <= r.length &&
        r.offset + r.length <= buffer.length
    ensures Read(r) == old(Read(acc)) + contents[n]
    ensures forall i :: 0 <= i < |pieces| ==> Foreign(buffer, pieces[i], contents[i])
    ensures buffer.handle.Storage() == old(buffer.handle.Storage()) || fresh(buffer.handle.Storage())
    ensures old(buffer.length) <= buffer.length
    ensures forall i :: 0 <= i < old(buffer.length) && !Between(acc, r, i) ==>
              buffer.handle.Storage()[i] == old(buffer.handle.Storage()[i])
  {
    assert Foreign(buffer, pieces[n], contents[n]);
    r := buffer.BufferedAppend(acc, pieces[n]);
    forall i | 0 <= i < |pieces| ensures Foreign(buffer, pieces[i], contents[i]) {
      assert old(Foreign(buffer, pieces[i], contents[i]));
    }
  }
}
