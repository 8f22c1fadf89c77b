/** Bytes, 32-bit words and Java's 32-bit integer arithmetic.
    A float32 is carried as its raw bit pattern (a `Word`); its IEEE-754 meaning is not modelled. */
module Words {

  const TwoTo31: int := 0x8000_0000
  const TwoTo32: int := 0x1_0000_0000

  type Byte = b: int | 0 <= b < 256
  /** An unsigned 32-bit pattern. */
  type Word = w: int | 0 <= w < TwoTo32

  /** The word stored little-endian in s[off..off+4] (ByteOrder.LITTLE_ENDIAN). */
  function WordLE(s: seq<Byte>, off: int): Word
    requires 0 <= off && off + 4 <= |s|
  {
    Join(s[off], s[off + 1], s[off + 2], s[off + 3])
  }

  /** s[off] is the least significant byte of the little-endian word at off, s[off + 3] the most. */
  lemma WordLEBytes(s: seq<Byte>, off: int)
    requires 0 <= off && off + 4 <= |s|
    ensures var r := WordLE(s, off);
      && r % 256 == s[off] && (r / 0x100) % 256 == s[off + 1]
      && (r / 0x1_0000) % 256 == s[off + 2] && r / 0x100_0000 == s[off + 3]
  {
    JoinDigits(s[off], s[off + 1], s[off + 2], s[off + 3]);
  }

  /** A word read as a Java `int` (two's complement). */
  function ToInt32(w: Word): (r: int)
    ensures -TwoTo31 <= r < TwoTo31
    ensures (r - w) % TwoTo32 == 0
  {
    if w < TwoTo31 then w else w - TwoTo32
  }

  /** `ByteBuffer.getInt(off)` in little-endian order. */
  function Int32LE(s: seq<Byte>, off: int): int
    requires 0 <= off && off + 4 <= |s|
  {
    ToInt32(WordLE(s, off))
  }

  /** The bit pattern of a Java `int` (the inverse of `ToInt32`). */
  function FromInt32(v: int): (w: Word)
    requires -TwoTo31 <= v < TwoTo31
    ensures ToInt32(w) == v
  {
    if v < 0 then v + TwoTo32 else v
  }

  /** The four bytes of a word in little-endian order. */
  function EncodeLE(w: Word): (r: seq<Byte>)
    ensures |r| == 4
    ensures WordLE(r, 0) == w
  {
    WordDigits(w);
    [w % 256, (w / 0x100) % 256, (w / 0x1_0000) % 256, w / 0x100_0000]
  }

  /** A little-endian word depends only on its own four bytes. */
  lemma WordLEOfSlice(s: seq<Byte>, off: int)
    requires 0 <= off && off + 4 <= |s|
    ensures WordLE(s, off) == WordLE(s[off..off + 4], 0)
  {
  }

  /** Java `int` addition and the like: the result wrapped into the 32-bit range. */
  function Wrap32(x: int): (r: int)
    ensures -TwoTo31 <= r < TwoTo31
    ensures (r - x) % TwoTo32 == 0
    ensures -TwoTo31 <= x < TwoTo31 ==> r == x
  {
    (x + TwoTo31) % TwoTo32 - TwoTo31
  }

  /** The four bytes of a word in big-endian order (the default order of a Java ByteBuffer). */
  function EncodeBE(w: Word): (r: seq<Byte>)
    ensures |r| == 4
    ensures DecodeBE(r, 0) == w
  {
    WordDigits(w);
    [w / 0x100_0000, (w / 0x1_0000) % 256, (w / 0x100) % 256, w % 256]
  }

  /** The word stored big-endian in s[off..off+4]. */
  function DecodeBE(s: seq<Byte>, off: int): Word
    requires 0 <= off && off + 4 <= |s|
  {
    Join(s[off + 3], s[off + 2], s[off + 1], s[off])
  }

  /** The word whose bytes, from the least significant one up, are b0, b1, b2, b3. */
  function Join(b0: Byte, b1: Byte, b2: Byte, b3: Byte): Word
  {
    b0 + 0x100 * b1 + 0x1_0000 * b2 + 0x100_0000 * b3
  }

  /** The bytes of a big-endian float buffer holding the words ws. */
  function EncodeWordsBE(ws: seq<Word>): (r: seq<Byte>)
    ensures |r| == 4 * |ws|
    ensures forall i :: 0 <= i < |ws| ==> DecodeBE(r, 4 * i) == ws[i]
  {
    if ws == [] then []
    else
      var head := EncodeBE(ws[0]);
      var rest := EncodeWordsBE(ws[1..]);
      DecodeBEPrefix(head, rest, 0);
      forall i | 1 <= i < |ws| ensures DecodeBE(head + rest, 4 * i) == ws[i] {
        DecodeBESuffix(head, rest, 4 * (i - 1));
      }
      head + rest
  }

  lemma DecodeBEPrefix(a: seq<Byte>, b: seq<Byte>, off: int)
    requires 0 <= off && off + 4 <= |a|
    ensures DecodeBE(a + b, off) == DecodeBE(a, off)
  {
    var s := a + b;
    assert s[off] == a[off] && s[off + 1] == a[off + 1] && s[off + 2] == a[off + 2] && s[off + 3] == a[off + 3];
  }

  lemma DecodeBESuffix(a: seq<Byte>, b: seq<Byte>, off: int)
    requires 0 <= off && off + 4 <= |b|
    ensures DecodeBE(a + b, |a| + off) == DecodeBE(b, off)
  {
    var s := a + b;
    var k := |a| + off;
    assert s[k] == b[off] && s[k + 1] == b[off + 1] && s[k + 2] == b[off + 2] && s[k + 3] == b[off + 3];
  }

  /** Decoding every word of a big-endian float buffer gives back the words put into it. */
  function DecodeWordsBE(s: seq<Byte>): (ws: seq<Word>)
    requires |s| % 4 == 0
    ensures |ws| == |s| / 4
    ensures forall i :: 0 <= i < |ws| ==> ws[i] == DecodeBE(s, 4 * i)
  {
    seq(|s| / 4, i requires 0 <= i < |s| / 4 => DecodeBE(s, 4 * i))
  }

  lemma BigEndianRoundTrip(ws: seq<Word>)
    ensures DecodeWordsBE(EncodeWordsBE(ws)) == ws
  {
    var s := EncodeWordsBE(ws);
    assert |s| / 4 == |ws|;
  }

  // ---------------------------------------------------------------------------
  // Division and multiplication facts the index maps need

  /** The quotient and remainder of n by h are the unique q, r with n == q*h + r, 0 <= r < h. */
  lemma DivModUnique(n: int, q: int, r: int, h: int)
    requires 0 < h && 0 <= r < h && n == q * h + r
    ensures n / h == q && n % h == r
  {
    var q', r' := n / h, n % h;
    assert n == q' * h + r';
    if q' > q {
      assert q' * h >= (q + 1) * h by { MulMonotone(q + 1, q', h); }
    } else if q' < q {
      assert q * h >= (q' + 1) * h by { MulMonotone(q' + 1, q, h); }
    }
  }

  /** The base-256 digits of a joined word are the bytes it was joined from. */
  lemma JoinDigits(b0: Byte, b1: Byte, b2: Byte, b3: Byte)
    ensures var r := Join(b0, b1, b2, b3);
      && r % 256 == b0 && (r / 0x100) % 256 == b1
      && (r / 0x1_0000) % 256 == b2 && r / 0x100_0000 == b3
  {
    var r := Join(b0, b1, b2, b3);
    DivModUnique(r, b1 + 0x100 * b2 + 0x1_0000 * b3, b0, 0x100);
    DivModUnique(b1 + 0x100 * b2 + 0x1_0000 * b3, b2 + 0x100 * b3, b1, 0x100);
    DivModUnique(r, b2 + 0x100 * b3, b0 + 0x100 * b1, 0x1_0000);
    DivModUnique(b2 + 0x100 * b3, b3, b2, 0x100);
    DivModUnique(r, b3, b0 + 0x100 * b1 + 0x1_0000 * b2, 0x100_0000);
  }

  /** A word is the join of its four base-256 digits. */
  lemma WordDigits(w: Word)
    ensures 0 <= w / 0x100_0000 < 256
    ensures Join(w % 256, (w / 0x100) % 256, (w / 0x1_0000) % 256, w / 0x100_0000) == w
  {
    var q1, r0 := w / 0x100, w % 0x100;
    var q2, r1 := q1 / 0x100, q1 % 0x100;
    var q3, r2 := q2 / 0x100, q2 % 0x100;
    assert w == q1 * 0x100 + r0 && q1 == q2 * 0x100 + r1 && q2 == q3 * 0x100 + r2;
    assert w == r0 + 0x100 * r1 + 0x1_0000 * r2 + 0x100_0000 * q3;
    DivModUnique(w, q2, r0 + 0x100 * r1, 0x1_0000);
    DivModUnique(w, q3, r0 + 0x100 * r1 + 0x1_0000 * r2, 0x100_0000);
  }

  lemma MulMonotone(a: int, b: int, h: int)
    requires a <= b && 0 <= h
    ensures a * h <= b * h
  {
    assert b * h - a * h == (b - a) * h;
  }
}
