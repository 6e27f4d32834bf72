/** Python's integer bit operations as the assembler uses them, on 16-bit machine words. */
module Bits {

  /** One unsigned 16-bit word: an element of array('H'). */
  type Word = bv16

  function Pow2(k: nat): (r: nat)
    ensures r >= 1
  {
    if k == 0 then 1 else 2 * Pow2(k - 1)
  }

  /** (1 << k) - 1: the k low bits set. */
  function LowBits(k: nat): Word
    decreases k
  {
    if k == 0 then 0 else if k >= 16 then 0xFFFF else (LowBits(k - 1) << 1) | 1
  }

  /** The two's-complement low 16 bits of a Python int, that is Python's v & 0xFFFF
      (Dafny's % is Euclidean, so v % 0x10000 is never negative). */
  function Low16(v: int): Word {
    (v % 0x10000) as bv16
  }

  lemma WordBelow(w: Word)
    ensures w as int < 0x10000
  {
  }

  lemma WordRoundTrip(w: Word)
    ensures (w as int) as bv16 == w
  {
  }

  lemma ModSmall(n: int)
    requires 0 <= n < 0x10000
    ensures n % 0x10000 == n
  {
  }

  /** Any split value == q * 2^16 + r with r in [0, 2^16) is the Euclidean quotient and remainder. */
  lemma ModOfParts(value: int, q: int, r: int)
    requires value == q * 0x10000 + r && 0 <= r < 0x10000
    ensures value % 0x10000 == r && value / 0x10000 == q
  {
  }

  /** A word's value as a non-negative integer. */
  function Unsigned(w: Word): (n: nat)
    ensures n < 0x10000
  {
    w as int
  }

  /** A value already in [0, 2^16) keeps its bits. */
  lemma Low16OfWord(w: Word)
    ensures Low16(w as int) == w && Low16(Unsigned(w)) == w
  {
    WordBelow(w);
    ModSmall(w as int);
    WordRoundTrip(w);
  }

  /** Python's v & mask for any int v and a mask below 2^16. */
  function PyAnd(v: int, mask: Word): (r: Word)
    ensures r <= mask
    ensures r & !mask == 0
  {
    Low16(v) & mask
  }

  /** Python's v | w for a non-negative int v and a 16-bit w: the bits of v above
      bit 15 are kept, the low 16 bits are ORed with w. */
  function PyOr(v: nat, w: Word): (r: nat)
    ensures r / 0x10000 == v / 0x10000
  {
    (v / 0x10000) * 0x10000 + Unsigned((v % 0x10000) as bv16 | w)
  }

  /** The low 16 bits of Python's v | w. */
  lemma LowWordOfPyOr(v: nat, w: Word)
    ensures Low16(PyOr(v, w)) == (v % 0x10000) as Word | w
    ensures v < 0x10000 ==> PyOr(v, w) == Unsigned(v as Word | w)
  {
    LowBitsOfPyOr(v, w);
    if v < 0x10000 {
      PyOrOfWord(v, w);
    }
  }

  lemma LowBitsOfPyOr(v: nat, w: Word)
    ensures Low16(PyOr(v, w)) == (v % 0x10000) as Word | w
  {
    var x := (v % 0x10000) as Word | w;
    var low := Unsigned(x);
    assert PyOr(v, w) == (v / 0x10000) * 0x10000 + low;
    ModOfParts(PyOr(v, w), v / 0x10000, low);
    WordRoundTrip(x);
  }

  /** Below 2^16, Python's v | w is the word OR. */
  lemma PyOrOfWord(v: nat, w: Word)
    requires v < 0x10000
    ensures PyOr(v, w) == Unsigned(v as Word | w)
  {
    ModOfParts(v, 0, v);
  }

  /** The two bytes of a word exchanged, as array.byteswap() does to every element. */
  function Swap(w: Word): (r: Word)
    ensures (r >> 8) as bv8 == (w & 0xFF) as bv8
    ensures (r & 0xFF) as bv8 == (w >> 8) as bv8
  {
    (w << 8) | (w >> 8)
  }

  /** A word's two bytes, least significant first. */
  function LowHigh(w: Word): seq<bv8> {
    [(w & 0xFF) as bv8, (w >> 8) as bv8]
  }

  /** A word's two bytes, most significant first. */
  function HighLow(w: Word): seq<bv8> {
    [(w >> 8) as bv8, (w & 0xFF) as bv8]
  }

  /** array('H').tobytes() on a little-endian host: low byte first. */
  function ToBytes(ws: seq<Word>): (bs: seq<bv8>)
    ensures |bs| == 2 * |ws|
  {
    if ws == [] then [] else LowHigh(ws[0]) + ToBytes(ws[1..])
  }

  /** The words written most significant byte first. */
  function BigEndian(ws: seq<Word>): (bs: seq<bv8>)
    ensures |bs| == 2 * |ws|
  {
    if ws == [] then [] else HighLow(ws[0]) + BigEndian(ws[1..])
  }

  /** Serialising a concatenation serialises each part. */
  lemma {:induction false} BigEndianAppend(a: seq<Word>, b: seq<Word>)
    ensures BigEndian(a + b) == BigEndian(a) + BigEndian(b)
    decreases |a|
  {
    if a == [] {
      assert a + b == b;
    } else {
      BigEndianAppend(a[1..], b);
      assert (a + b)[0] == a[0];
      assert (a + b)[1..] == a[1..] + b;
      var h, x, y := HighLow(a[0]), BigEndian(a[1..]), BigEndian(b);
      assert h + (x + y) == (h + x) + y;
    }
  }

  /** A swapped word written low byte first is the word written high byte first. */
  lemma SwapBytes(w: Word)
    ensures LowHigh(Swap(w)) == HighLow(w)
  {
  }

  /** Byte-swapping every word and then serialising little-endian gives the big-endian bytes. */
  lemma {:induction false} SwappedBytesAreBigEndian(ws: seq<Word>)
    ensures ToBytes(seq(|ws|, i requires 0 <= i < |ws| => Swap(ws[i]))) == BigEndian(ws)
  {
    if ws != [] {
      var sw := seq(|ws|, i requires 0 <= i < |ws| => Swap(ws[i]));
      var rest := seq(|ws| - 1, i requires 0 <= i < |ws| - 1 => Swap(ws[1..][i]));
      assert sw[1..] == rest;
      SwappedBytesAreBigEndian(ws[1..]);
      SwapBytes(ws[0]);
    }
  }
}

/** Python's list indexing and slicing on sequences. */
module Sequences {
  import opened Wrappers

  /** The position a Python index i denotes in a list of length n: negative indices count from the end. */
  function PyIndex(i: int, n: nat): (r: Option<nat>)
    ensures r.Some? <==> -(n as int) <= i < n
    ensures r.Some? ==> r.value < n && (r.value == i || r.value == i + n)
  {
    if 0 <= i < n then Some(i) else if -(n as int) <= i < 0 then Some(i + n) else None
  }

  /** A slice bound clamped into [0, n] as Python does. */
  function ClampBound(i: int, n: nat): (r: nat)
    ensures r <= n
    ensures 0 <= i <= n ==> r == i
    ensures i > n ==> r == n
    ensures -(n as int) <= i < 0 ==> r == i + n
    ensures i < -(n as int) ==> r == 0
  {
    if i < 0 then (if i + n < 0 then 0 else i + n) else if i > n then n else i
  }

  /** s[a:b] in Python. */
  function PySlice<T>(s: seq<T>, a: int, b: int): (r: seq<T>)
    ensures 0 <= a <= b <= |s| ==> r == s[a..b]
    ensures 0 <= b <= a ==> r == []
    ensures |r| == if ClampBound(a, |s|) < ClampBound(b, |s|) then ClampBound(b, |s|) - ClampBound(a, |s|) else 0
    ensures forall k | 0 <= k < |r| :: ClampBound(a, |s|) + k < |s| && r[k] == s[ClampBound(a, |s|) + k]
  {
    var lo := ClampBound(a, |s|);
    var hi := ClampBound(b, |s|);
    if lo < hi then s[lo..hi] else []
  }
}
