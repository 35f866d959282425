/** Bytes, keys and the ASCII character functions of survival_kit/string.c. */
module Bytes {

  datatype Option<+T> = None | Some(value: T)

  /** skit_utf8c is an unsigned 8-bit character. */
  type byte = x: int | 0 <= x < 256

  type Key = seq<byte>

  function ToLower(c: byte): byte {
    if 65 <= c <= 90 then c - 65 + 97 else c
  }

  function ToUpper(c: byte): byte {
    if 97 <= c <= 122 then c - 97 + 65 else c
  }

  /** skit_char_ascii_ccmp: the sign orders the two characters, 0 means equal. */
  function CharCmp(c1: byte, c2: byte, caseSensitive: bool): int {
    if caseSensitive then c1 - c2 else ToLower(c1) - ToLower(c2)
  }

  predicate SameChar(c1: byte, c2: byte, caseSensitive: bool) {
    CharCmp(c1, c2, caseSensitive) == 0
  }

  /** Equal up to case are equal bytes and the capital and small forms of the letters "A"
      (65) to "Z" (90); these are exactly the two that a case-insensitive search tries. */
  lemma SameUpToCase(c: byte, d: byte)
    ensures SameChar(c, d, true) <==> c == d
    ensures SameChar(c, d, false) <==>
            c == d || (65 <= c <= 90 && d == c + 32) || (97 <= c <= 122 && d == c - 32)
    ensures SameChar(c, d, false) <==> d == ToUpper(c) || d == ToLower(c)
  {
  }

  /** The small form has no capital letter and the capital form no small one. */
  lemma Letters(c: byte)
    ensures SameChar(c, ToLower(c), false) && !(65 <= ToLower(c) <= 90)
    ensures SameChar(c, ToUpper(c), false) && !(97 <= ToUpper(c) <= 122)
  {
  }

  /** Keys equal up to ASCII case. */
  predicate SameKey(a: Key, b: Key) {
    |a| == |b| && forall i :: 0 <= i < |a| ==> SameChar(a[i], b[i], false)
  }

  /** A key in lower case. */
  function Lower(k: Key): (l: Key)
    ensures |l| == |k| && forall i :: 0 <= i < |k| ==> l[i] == ToLower(k[i])
  {
    seq(|k|, i requires 0 <= i < |k| => ToLower(k[i]))
  }

  lemma LowerSame(a: Key, b: Key)
    ensures SameKey(a, b) <==> Lower(a) == Lower(b)
  {
    if Lower(a) == Lower(b) {
      assert forall i :: 0 <= i < |a| ==> Lower(a)[i] == Lower(b)[i];
    }
  }
}
