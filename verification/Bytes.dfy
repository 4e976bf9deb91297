/** Bytes, 32-bit words in little-endian order, and the C idioms over them. */
module Bytes {
  type byte = bv8
  type u32 = x: int | 0 <= x < 0x1_0000_0000

  const SLASH: byte := 0x2f

  /** The value an unsigned 32-bit variable holds after `x` is stored in it. */
  function U32(x: int): (r: u32)
    ensures 0 <= x < 0x1_0000_0000 ==> r == x
  {
    x % 0x1_0000_0000
  }

  function ToByte(x: int): (b: byte)
    requires 0 <= x < 256
    ensures b as int == x
  {
    (x % 256) as bv8
  }

  /** The little-endian word stored at byte offset `off`. */
  function WordAt(s: seq<byte>, off: nat): (r: u32)
    requires off + 4 <= |s|
  {
    s[off] as int + 0x100 * (s[off + 1] as int) + 0x1_0000 * (s[off + 2] as int) + 0x100_0000 * (s[off + 3] as int)
  }

  lemma Digits(x: u32)
    ensures x == x % 0x100 + 0x100 * (x / 0x100 % 0x100) + 0x1_0000 * (x / 0x1_0000 % 0x100) + 0x100_0000 * (x / 0x100_0000)
    ensures 0 <= x / 0x100_0000 < 0x100
  {
    assert x / 0x1_0000 == x / 0x100 / 0x100;
    assert x / 0x100_0000 == x / 0x1_0000 / 0x100;
  }

  /** The four bytes of a word. */
  function WordBytes(x: u32): (b: seq<byte>)
    ensures |b| == 4 && WordAt(b, 0) == x
  {
    Digits(x);
    [ToByte(x % 0x100), ToByte(x / 0x100 % 0x100), ToByte(x / 0x1_0000 % 0x100), ToByte(x / 0x100_0000)]
  }

  /** An array of words as it lies in memory. */
  function WordsBytes(ws: seq<u32>): (b: seq<byte>)
    ensures |b| == 4 * |ws|
  {
    if ws == [] then [] else WordsBytes(ws[..|ws| - 1]) + WordBytes(ws[|ws| - 1])
  }

  lemma {:induction false} WordsBytesAt(ws: seq<u32>, k: nat)
    requires k < |ws|
    ensures WordAt(WordsBytes(ws), 4 * k) == ws[k] && WordsBytes(ws)[4 * k..4 * k + 4] == WordBytes(ws[k])
  {
    hide WordAt, WordBytes;
    var last := |ws| - 1;
    var init, tail := WordsBytes(ws[..last]), WordBytes(ws[last]);
    assert WordsBytes(ws) == init + tail;
    if k < last {
      WordsBytesAt(ws[..last], k);
      WordAtFrame(init, 4 * k, init + tail, 4 * k);
    } else {
      WordAtFrame(tail, 0, init + tail, 4 * k);
    }
  }

  /** A word depends on its four bytes only. */
  lemma WordAtFrame(s: seq<byte>, i: nat, t: seq<byte>, j: nat)
    requires i + 4 <= |s| && j + 4 <= |t|
    requires s[i] == t[j] && s[i + 1] == t[j + 1] && s[i + 2] == t[j + 2] && s[i + 3] == t[j + 3]
    ensures WordAt(s, i) == WordAt(t, j)
  {
  }

  /** `memset`: `n` copies. */
  function Copies<T>(x: T, n: nat): (r: seq<T>)
    ensures |r| == n && forall k :: 0 <= k < n ==> r[k] == x
  {
    seq(n, _ => x)
  }

  /** `memcpy(dst + off, src, |src|)` on values. */
  function Splice(dst: seq<byte>, off: nat, src: seq<byte>): (r: seq<byte>)
    requires off + |src| <= |dst|
    ensures |r| == |dst|
    ensures forall k :: 0 <= k < |dst| ==> r[k] == if off <= k < off + |src| then src[k - off] else dst[k]
  {
    dst[..off] + src + dst[off + |src|..]
  }

  predicate NoSlash(s: seq<byte>) {
    forall k :: 0 <= k < |s| ==> s[k] != SLASH
  }

  /** The bytes of a C string hold no terminator. */
  predicate NoZero(s: seq<byte>) {
    forall k :: 0 <= k < |s| ==> s[k] != 0
  }
}
