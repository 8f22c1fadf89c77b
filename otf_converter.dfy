/** The OMX OTF file decoder: header fields at fixed little-endian offsets of the
    MRC/Deltavision header, one validation rule, and three bands of complex float32
    samples read with a sequential cursor and stored transposed. */
module OtfConverter {
  import opened Words
  import opened Results

  // Byte offsets of the header fields (the MRC2014 header words 1-4, 11, 12 and 24).
  const OffWidth: int := 0
  const OffHeight: int := 4
  const OffNrImg: int := 8
  const OffPixelType: int := 12
  const OffPixelSizeAxial: int := 40
  const OffPixelSizeLateral: int := 44
  const OffExtHeaderSize: int := 92
  /** Bytes 96 and 97 (the endian stamp) are the last ones the decoder touches in the header. */
  const HeaderLength: int := 98
  /** The standard header that precedes the extended header. */
  const StdHeaderSize: int := 1024
  /** The only accepted image count: the three bands. */
  const BandCount: int := 3
  /** The only accepted pixel type: complex float32. */
  const ComplexFloat: int := 4
  /** A complex sample is two float32 words, real then imaginary. */
  const BytesPerSample: int := 8

  datatype Header = Header(
    width: int,          // axial sample count
    height: int,         // lateral sample count
    nrImg: int,
    fType: int,
    extHeader: int,
    micronPerPxlLateral: Word,
    micronPerPxlAxial: Word)

  datatype FormatError =
    | HeaderTruncated    // fewer bytes than the header reads (array index out of bounds)
    | NotOmxOtf          // "#Images != 3 or pxlType!=cplx"
    | BadDataStart       // position(startPxl) outside the buffer
    | TruncatedData      // a getFloat() past the end of the buffer

  /** Where a validated file keeps its pixel data. */
  datatype Layout = Layout(header: Header, start: int)

  /** The header fields, read with absolute `getInt`/`getFloat` calls. */
  function DecodeHeader(data: seq<Byte>): (r: Header)
    requires |data| >= HeaderLength
    ensures Encodable(r)
  {
    Header(Int32LE(data, OffWidth), Int32LE(data, OffHeight), Int32LE(data, OffNrImg),
           Int32LE(data, OffPixelType), Int32LE(data, OffExtHeaderSize),
           WordLE(data, OffPixelSizeLateral), WordLE(data, OffPixelSizeAxial))
  }

  /** Header fields a file can hold: the integer fields are Java `int`s. */
  predicate Encodable(h: Header) {
    && -TwoTo31 <= h.width < TwoTo31 && -TwoTo31 <= h.height < TwoTo31
    && -TwoTo31 <= h.nrImg < TwoTo31 && -TwoTo31 <= h.fType < TwoTo31
    && -TwoTo31 <= h.extHeader < TwoTo31
  }

  /** A minimal header holding h: each field little-endian at its offset, zero bytes elsewhere. */
  function EncodeHeader(h: Header): (r: seq<Byte>)
    requires Encodable(h)
    ensures |r| == HeaderLength
  {
    EncodeLE(FromInt32(h.width)) + EncodeLE(FromInt32(h.height))
    + EncodeLE(FromInt32(h.nrImg)) + EncodeLE(FromInt32(h.fType))
    + seq(24, _ => 0)
    + EncodeLE(h.micronPerPxlAxial) + EncodeLE(h.micronPerPxlLateral)
    + seq(44, _ => 0)
    + EncodeLE(FromInt32(h.extHeader))
    + seq(2, _ => 0)
  }

  /** The decoder reads every header field back from the offset the encoder put it at. */
  lemma HeaderRoundTrip(h: Header)
    requires Encodable(h)
    ensures DecodeHeader(EncodeHeader(h)) == h
  {
    var r := EncodeHeader(h);
    assert r[0..4] == EncodeLE(FromInt32(h.width));
    assert r[4..8] == EncodeLE(FromInt32(h.height));
    assert r[8..12] == EncodeLE(FromInt32(h.nrImg));
    assert r[12..16] == EncodeLE(FromInt32(h.fType));
    assert r[40..44] == EncodeLE(h.micronPerPxlAxial);
    assert r[44..48] == EncodeLE(h.micronPerPxlLateral);
    assert r[92..96] == EncodeLE(FromInt32(h.extHeader));
    WordLEOfSlice(r, OffWidth);
    WordLEOfSlice(r, OffHeight);
    WordLEOfSlice(r, OffNrImg);
    WordLEOfSlice(r, OffPixelType);
    WordLEOfSlice(r, OffPixelSizeAxial);
    WordLEOfSlice(r, OffPixelSizeLateral);
    WordLEOfSlice(r, OffExtHeaderSize);
  }

  /** The header is read from the first 98 bytes alone. */
  lemma HeaderFromPrefix(d1: seq<Byte>, d2: seq<Byte>)
    requires |d1| >= HeaderLength && |d2| >= HeaderLength && d1[..HeaderLength] == d2[..HeaderLength]
    ensures DecodeHeader(d1) == DecodeHeader(d2)
  {
    forall off | 0 <= off && off + 4 <= HeaderLength ensures WordLE(d1, off) == WordLE(d2, off) {
      assert d1[off..off + 4] == d1[..HeaderLength][off..off + 4] == d2[..HeaderLength][off..off + 4] == d2[off..off + 4];
      WordLEOfSlice(d1, off);
      WordLEOfSlice(d2, off);
    }
  }

  predicate IsOmxOtf(h: Header) {
    h.nrImg == BandCount && h.fType == ComplexFloat
  }

  /** `extHeader + 1024` in Java `int` arithmetic. */
  function DataStart(h: Header): int {
    Wrap32(h.extHeader + StdHeaderSize)
  }

  /** Bytes of pixel data the decoder consumes: 3 bands of width*height samples. */
  function PayloadSize(h: Header): int {
    BytesPerSample * (BandCount * (h.width * h.height))
  }

  /** Sizes for which `new float[3][width*height*2]` neither fails nor overflows. */
  predicate DimsFit(h: Header) {
    0 <= h.width && 0 <= h.height && 2 * (h.width * h.height) < TwoTo31
  }

  /** What the model asks of an accepted header: its band array size fits a Java int. */
  predicate DimensionsFit(data: seq<Byte>) {
    |data| >= HeaderLength && IsOmxOtf(DecodeHeader(data)) ==> DimsFit(DecodeHeader(data))
  }

  /** The outcome of decoding `data`, in the order the decoder meets the failures. */
  function Check(data: seq<Byte>): (r: Result<Layout, FormatError>)
    ensures r == Failure(HeaderTruncated) <==> |data| < HeaderLength
    ensures r == Failure(NotOmxOtf) <==> |data| >= HeaderLength && !IsOmxOtf(DecodeHeader(data))
    ensures r == Failure(BadDataStart) <==> (|data| >= HeaderLength && IsOmxOtf(DecodeHeader(data))
      && !(0 <= DataStart(DecodeHeader(data)) <= |data|))
    ensures r.Success? ==>
      && |data| >= HeaderLength
      && r.value.header == DecodeHeader(data)
      && IsOmxOtf(r.value.header)
      && r.value.start == DataStart(r.value.header)
      && 0 <= r.value.start
      && r.value.start + PayloadSize(r.value.header) <= |data|
    ensures r == Failure(TruncatedData) ==>
      var h := DecodeHeader(data); 0 <= DataStart(h) <= |data| < DataStart(h) + PayloadSize(h)
  {
    if |data| < HeaderLength then Failure(HeaderTruncated)
    else
      var h := DecodeHeader(data);
      if !IsOmxOtf(h) then Failure(NotOmxOtf)
      else
        var start := DataStart(h);
        if start < 0 || start > |data| then Failure(BadDataStart)
        else if start + PayloadSize(h) > |data| then Failure(TruncatedData)
        else Success(Layout(h, start))
  }

  /** Once the header is accepted and the data start is inside the buffer, only the payload
      length decides. */
  lemma CheckAfterStart(data: seq<Byte>, lay: Layout)
    requires |data| >= HeaderLength && lay.header == DecodeHeader(data) && IsOmxOtf(lay.header)
    requires lay.start == DataStart(lay.header) && 0 <= lay.start <= |data|
    ensures Check(data) == if lay.start + PayloadSize(lay.header) <= |data| then Success(lay) else Failure(TruncatedData)
  {
  }

  // ---------------------------------------------------------------------------
  // The file layout and the storage layout

  /** Byte offset of component c (0 = real, 1 = imaginary) of band b, file sample (y, x):
      bands outer, then y (lateral), then x (axial), 8 bytes per sample. */
  function FileOffset(lay: Layout, b: int, y: int, x: int, c: int): int {
    lay.start + BytesPerSample * (b * (lay.header.width * lay.header.height) + y * lay.header.width + x) + 4 * c
  }

  /** The word the file holds for component c of band b at (y, x), or 0 past the end of the buffer. */
  function Sample(data: seq<Byte>, lay: Layout, b: int, y: int, x: int, c: int): Word {
    var off := FileOffset(lay, b, y, x, c);
    if 0 <= off && off + 4 <= |data| then WordLE(data, off) else 0
  }

  /** Index of the real part of file sample (y, x) in a band array: `(x*height + y)*2`. */
  function Slot(x: int, y: int, h: int): int {
    (x * h + y) * 2
  }

  /** The axial coordinate x stored at band index k. */
  function SlotAxial(k: int, h: int): int {
    if h <= 0 then 0 else (k / 2) / h
  }

  /** The lateral coordinate y stored at band index k. */
  function SlotLateral(k: int, h: int): int {
    if h <= 0 then 0 else (k / 2) % h
  }

  /** The word the decoder stores at index k of band b. */
  function StoredWord(data: seq<Byte>, lay: Layout, b: int, k: int): Word {
    Sample(data, lay, b, SlotLateral(k, lay.header.height), SlotAxial(k, lay.header.height), k % 2)
  }

  /** The storage map sends (x, y, c) into [0, 2wh) and can be inverted. */
  lemma {:induction false} SlotInverse(x: int, y: int, c: int, w: int, h: int)
    requires 0 <= x < w && 0 <= y < h && 0 <= c < 2
    ensures 0 <= Slot(x, y, h) + c < 2 * (w * h)
    ensures SlotAxial(Slot(x, y, h) + c, h) == x
    ensures SlotLateral(Slot(x, y, h) + c, h) == y
    ensures (Slot(x, y, h) + c) % 2 == c
    ensures Slot(x, y, h) == 2 * (y + x * h)
  {
    var k := Slot(x, y, h) + c;
    assert k / 2 == x * h + y;
    DivModUnique(x * h + y, x, y, h);
    MulMonotone(x + 1, w, h);
    assert (x + 1) * h == x * h + h;
  }

  /** Every index of a band array is the image of exactly one (x, y, c). */
  lemma {:induction false} SlotDecompose(k: int, w: int, h: int)
    requires 0 <= w && 0 <= h && 0 <= k < 2 * (w * h)
    ensures 0 <= SlotAxial(k, h) < w && 0 <= SlotLateral(k, h) < h
    ensures k == Slot(SlotAxial(k, h), SlotLateral(k, h), h) + k % 2
  {
    if h > 0 {
      var q := (k / 2) / h;
      assert k / 2 == q * h + (k / 2) % h;
      if q >= w {
        MulMonotone(w, q, h);
      }
    }
  }

  /** The storage map (x, y) to x*height + y is a bijection from [0,w) x [0,h) onto [0, w*h):
      it lands in range, it is injective, and every index is reached. */
  lemma StorageMapBijective(w: int, h: int)
    requires 0 <= w && 0 <= h
    ensures forall x, y :: 0 <= x < w && 0 <= y < h ==> 0 <= Slot(x, y, h) && Slot(x, y, h) < 2 * (w * h)
    ensures forall x1, y1, x2, y2 ::
      0 <= x1 < w && 0 <= y1 < h && 0 <= x2 < w && 0 <= y2 < h && Slot(x1, y1, h) == Slot(x2, y2, h)
      ==> x1 == x2 && y1 == y2
    ensures forall k :: 0 <= k < 2 * (w * h) && k % 2 == 0 ==>
      var x, y := SlotAxial(k, h), SlotLateral(k, h); 0 <= x < w && 0 <= y < h && Slot(x, y, h) == k
  {
    forall x, y | 0 <= x < w && 0 <= y < h ensures 0 <= Slot(x, y, h) && Slot(x, y, h) < 2 * (w * h) {
      SlotInverse(x, y, 0, w, h);
    }
    forall x1, y1, x2, y2 |
      0 <= x1 < w && 0 <= y1 < h && 0 <= x2 < w && 0 <= y2 < h && Slot(x1, y1, h) == Slot(x2, y2, h)
      ensures x1 == x2 && y1 == y2
    {
      SlotInverse(x1, y1, 0, w, h);
      SlotInverse(x2, y2, 0, w, h);
    }
    forall k | 0 <= k < 2 * (w * h) && k % 2 == 0
      ensures var x, y := SlotAxial(k, h), SlotLateral(k, h); 0 <= x < w && 0 <= y < h && Slot(x, y, h) == k
    {
      SlotDecompose(k, w, h);
    }
  }

  /** The last byte read for sample (b, y, x) lies within the payload. */
  lemma {:induction false} OffsetBound(lay: Layout, b: int, y: int, x: int, c: int)
    requires 0 <= b < BandCount && 0 <= y < lay.header.height && 0 <= x < lay.header.width && 0 <= c < 2
    ensures lay.start <= FileOffset(lay, b, y, x, c)
    ensures FileOffset(lay, b, y, x, c) + 4 <= lay.start + PayloadSize(lay.header)
  {
    var w, h := lay.header.width, lay.header.height;
    MulMonotone(y + 1, h, w);
    assert (y + 1) * w == y * w + w;
    assert h * w == w * h;
    MulMonotone(b + 1, BandCount, w * h);
    assert (b + 1) * (w * h) == b * (w * h) + w * h;
    assert 0 <= b * (w * h) by { MulMonotone(0, b, w * h); }
    assert 0 <= y * w by { MulMonotone(0, y, w); }
  }

  /** A validated file is read only within its bounds (the decoder never reads past the end). */
  lemma SamplesInBounds(data: seq<Byte>, lay: Layout, b: int, y: int, x: int, c: int)
    requires Check(data) == Success(lay)
    requires 0 <= b < BandCount && 0 <= y < lay.header.height && 0 <= x < lay.header.width && 0 <= c < 2
    ensures 0 <= FileOffset(lay, b, y, x, c) && FileOffset(lay, b, y, x, c) + 4 <= |data|
    ensures Sample(data, lay, b, y, x, c) == WordLE(data, FileOffset(lay, b, y, x, c))
  {
    assert lay.start + PayloadSize(lay.header) <= |data|;
    OffsetBound(lay, b, y, x, c);
  }

  /** The validation reads only the image count and pixel type words at bytes 8-15: buffers
      that agree on them are accepted or refused alike, whatever their other bytes. */
  lemma ValidationIgnoresPixels(d1: seq<Byte>, d2: seq<Byte>)
    requires |d1| >= HeaderLength && |d2| >= HeaderLength && d1[OffNrImg..OffPixelType + 4] == d2[OffNrImg..OffPixelType + 4]
    ensures IsOmxOtf(DecodeHeader(d1)) <==> IsOmxOtf(DecodeHeader(d2))
    ensures !IsOmxOtf(DecodeHeader(d1)) ==> Check(d1) == Check(d2) == Failure(NotOmxOtf)
  {
    forall i | OffNrImg <= i < OffPixelType + 4 ensures d1[i] == d2[i] {
      assert d1[i] == d1[OffNrImg..OffPixelType + 4][i - OffNrImg] && d2[i] == d2[OffNrImg..OffPixelType + 4][i - OffNrImg];
    }
    assert WordLE(d1, OffNrImg) == WordLE(d2, OffNrImg);
    assert WordLE(d1, OffPixelType) == WordLE(d2, OffPixelType);
  }

  // ---------------------------------------------------------------------------
  // The byte cursor

  /** A little-endian `ByteBuffer` wrapped around the file contents. */
  class LEByteBuffer {
    const data: seq<Byte>
    var position: int

    ghost predicate Valid()
      reads this
    {
      0 <= position <= |data|
    }

    constructor Wrap(data: seq<Byte>)
      ensures this.data == data && position == 0 && Valid()
    {
      this.data := data;
      position := 0;
    }

    /** `position(p)`: refused (IllegalArgumentException) outside [0, limit]. */
    method SetPosition(p: int) returns (ok: bool)
      requires Valid()
      modifies this
      ensures Valid()
      ensures ok == (0 <= p <= |data|)
      ensures position == if ok then p else old(position)
    {
      ok := 0 <= p <= |data|;
      if ok {
        position := p;
      }
    }

    /** Relative `getFloat()`: reads the word at the cursor and advances it by 4, or fails
        (BufferUnderflowException) leaving the cursor alone when fewer than 4 bytes remain. */
    method NextFloat() returns (ok: bool, v: Word)
      requires Valid()
      modifies this
      ensures Valid()
      ensures ok == (old(position) + 4 <= |data|)
      ensures ok ==> v == WordLE(data, old(position)) && position == old(position) + 4
      ensures !ok ==> position == old(position)
    {
      ok := position + 4 <= |data|;
      if ok {
        v := WordLE(data, position);
        position := position + 4;
      } else {
        v := 0;
      }
    }
  }

  // ---------------------------------------------------------------------------
  // The decoded store

  /** Index k of the current band has been filled once the loop is at (y, x). */
  ghost predicate WrittenIn(k: int, y: int, x: int, h: int) {
    SlotLateral(k, h) < y || (SlotLateral(k, h) == y && SlotAxial(k, h) < x)
  }

  /** The pair read at (y, x) lies inside the payload, one word after the other, and goes to
      the two slots of sample (y, x), whose stored words are exactly that pair. */
  lemma {:induction false} ReadStep(data: seq<Byte>, lay: Layout, band: int, y: int, x: int)
    requires 0 <= band < BandCount && 0 <= y < lay.header.height && 0 <= x < lay.header.width
    ensures var s := Slot(x, y, lay.header.height);
      && 0 <= s && s + 1 < 2 * (lay.header.width * lay.header.height)
      && StoredWord(data, lay, band, s) == Sample(data, lay, band, y, x, 0)
      && StoredWord(data, lay, band, s + 1) == Sample(data, lay, band, y, x, 1)
    ensures lay.start <= FileOffset(lay, band, y, x, 0)
    ensures FileOffset(lay, band, y, x, 1) == FileOffset(lay, band, y, x, 0) + 4
    ensures FileOffset(lay, band, y, x, 1) + 4 <= lay.start + PayloadSize(lay.header)
    ensures FileOffset(lay, band, y, x + 1, 0) == FileOffset(lay, band, y, x, 1) + 4
  {
    var w, h := lay.header.width, lay.header.height;
    SlotInverse(x, y, 0, w, h);
    SlotInverse(x, y, 1, w, h);
    OffsetBound(lay, band, y, x, 0);
    OffsetBound(lay, band, y, x, 1);
  }

  /** At the start of row y the slots written so far are those of the earlier rows. */
  lemma {:induction false} RowStart(k: int, y: int, w: int, h: int)
    requires 0 <= w && 0 <= h && 0 <= k < 2 * (w * h)
    ensures WrittenIn(k, y, 0, h) <==> SlotLateral(k, h) < y
  {
    SlotDecompose(k, w, h);
  }

  /** Moving from (y, x) to (y, x + 1) adds exactly the two slots of sample (y, x). */
  lemma {:induction false} WrittenStep(k: int, y: int, x: int, w: int, h: int)
    requires 0 <= x < w && 0 <= y < h && 0 <= k < 2 * (w * h) && WrittenIn(k, y, x + 1, h)
    ensures WrittenIn(k, y, x, h) || k == Slot(x, y, h) || k == Slot(x, y, h) + 1
  {
    if SlotLateral(k, h) == y && SlotAxial(k, h) == x {
      SlotDecompose(k, w, h);
    }
  }

  /** At the end of row y every slot of the rows up to y has been written, and the cursor
      stands at the start of row y + 1. */
  lemma {:induction false} RowEnd(lay: Layout, band: int, y: int)
    requires 0 <= y < lay.header.height && 0 <= lay.header.width
    ensures forall k :: 0 <= k < 2 * (lay.header.width * lay.header.height) && SlotLateral(k, lay.header.height) < y + 1 ==>
      WrittenIn(k, y, lay.header.width, lay.header.height)
    ensures FileOffset(lay, band, y, lay.header.width, 0) == FileOffset(lay, band, y + 1, 0, 0)
  {
    var w, h := lay.header.width, lay.header.height;
    forall k | 0 <= k < 2 * (w * h) && SlotLateral(k, h) < y + 1
      ensures WrittenIn(k, y, w, h)
    {
      SlotDecompose(k, w, h);
    }
    assert (y + 1) * w == y * w + w;
  }

  class OTFConverter {
    const bandsData: array2<Word>
    const width: int
    const height: int
    const nrImg: int
    const fType: int
    const micronPerPxlLateral: Word
    const micronPerPxlAxial: Word

    /** Three bands of width*height (re, im) pairs each. */
    predicate Valid() {
      && nrImg == BandCount && fType == ComplexFloat
      && 0 <= width && 0 <= height
      && bandsData.Length0 == BandCount
      && bandsData.Length1 == 2 * (width * height)
    }

    /** This store is the decoding of `data` laid out as `lay`. */
    ghost predicate Holds(data: seq<Byte>, lay: Layout)
      reads bandsData
    {
      && Valid()
      && width == lay.header.width && height == lay.header.height
      && nrImg == lay.header.nrImg && fType == lay.header.fType
      && micronPerPxlLateral == lay.header.micronPerPxlLateral
      && micronPerPxlAxial == lay.header.micronPerPxlAxial
      && forall b, k :: 0 <= b < BandCount && 0 <= k < bandsData.Length1 ==> bandsData[b, k] == StoredWord(data, lay, b, k)
    }

    /** Allocates the zero-filled band arrays for a validated header. */
    constructor (hdr: Header)
      requires IsOmxOtf(hdr) && DimsFit(hdr)
      ensures Valid() && fresh(bandsData)
      ensures width == hdr.width && height == hdr.height && nrImg == hdr.nrImg && fType == hdr.fType
      ensures micronPerPxlLateral == hdr.micronPerPxlLateral && micronPerPxlAxial == hdr.micronPerPxlAxial
      ensures forall b, k :: 0 <= b < BandCount && 0 <= k < bandsData.Length1 ==> bandsData[b, k] == 0
    {
      width := hdr.width;
      height := hdr.height;
      nrImg := hdr.nrImg;
      fType := hdr.fType;
      micronPerPxlLateral := hdr.micronPerPxlLateral;
      micronPerPxlAxial := hdr.micronPerPxlAxial;
      bandsData := new Word[BandCount, 2 * (hdr.width * hdr.height)]((_, _) => 0);
    }

    /** Decodes an OTF file held in memory: succeeds exactly when `Check` does, and then
        holds every band sample of the file; a failure exposes no store. */
    static method Read(data: seq<Byte>) returns (r: Result<OTFConverter, FormatError>)
      requires DimensionsFit(data)
      ensures r.Failure? <==> Check(data).Failure?
      ensures r.Failure? ==> r.error == Check(data).error
      ensures r.Success? ==> fresh(r.value) && fresh(r.value.bandsData) && r.value.Holds(data, Check(data).value)
    {
      if |data| < HeaderLength {
        return Failure(HeaderTruncated);
      }
      var otfImg := new LEByteBuffer.Wrap(data);
      var hdr := DecodeHeader(data);
      if !IsOmxOtf(hdr) {
        return Failure(NotOmxOtf);
      }
      var startPxl := Wrap32(hdr.extHeader + StdHeaderSize);
      var ok := otfImg.SetPosition(startPxl);
      if !ok {
        return Failure(BadDataStart);
      }
      var c := new OTFConverter(hdr);
      ghost var lay := Layout(hdr, startPxl);
      CheckAfterStart(data, lay);
      var band := 0;
      while band < BandCount
        invariant 0 <= band <= BandCount
        invariant otfImg.Valid()
        invariant otfImg.position == FileOffset(lay, band, 0, 0, 0)
        invariant forall b, k :: 0 <= b < band && 0 <= k < c.bandsData.Length1 ==>
          c.bandsData[b, k] == StoredWord(data, lay, b, k)
      {
        ok := ReadBand(otfImg, c, band, lay);
        if !ok {
          return Failure(TruncatedData);
        }
        band := band + 1;
      }
      assert FileOffset(lay, BandCount, 0, 0, 0) == lay.start + PayloadSize(hdr);
      assert Check(data) == Success(lay);
      r := Success(c);
    }

    /** One pass of the band loop: height rows of width (re, im) pairs read at the cursor and
        stored at `(x*height + y)*2`; fails only when the file is shorter than its payload. */
    static method ReadBand(otfImg: LEByteBuffer, c: OTFConverter, band: int, ghost lay: Layout) returns (ok: bool)
      requires otfImg.Valid() && c.Valid() && 0 <= band < BandCount
      requires lay.header.width == c.width && lay.header.height == c.height
      requires otfImg.position == FileOffset(lay, band, 0, 0, 0)
      modifies otfImg, c.bandsData
      ensures otfImg.Valid()
      ensures ok ==> otfImg.position == FileOffset(lay, band + 1, 0, 0, 0)
      ensures !ok ==> |otfImg.data| < lay.start + PayloadSize(lay.header)
      ensures ok ==> forall k :: 0 <= k < c.bandsData.Length1 ==> c.bandsData[band, k] == StoredWord(otfImg.data, lay, band, k)
      ensures forall b, k :: 0 <= b < BandCount && b != band && 0 <= k < c.bandsData.Length1 ==>
        c.bandsData[b, k] == old(c.bandsData[b, k])
    {
      var w, h := c.width, c.height;
      var y := 0;
      while y < h
        invariant 0 <= y <= h
        invariant otfImg.Valid()
        invariant otfImg.position == FileOffset(lay, band, y, 0, 0)
        invariant forall k :: 0 <= k < c.bandsData.Length1 && SlotLateral(k, h) < y ==>
          c.bandsData[band, k] == StoredWord(otfImg.data, lay, band, k)
        invariant forall b, k :: 0 <= b < BandCount && b != band && 0 <= k < c.bandsData.Length1 ==>
          c.bandsData[b, k] == old(c.bandsData[b, k])
      {
        ok := ReadRow(otfImg, c, band, y, lay);
        if !ok {
          return;
        }
        y := y + 1;
      }
      forall k | 0 <= k < c.bandsData.Length1
        ensures c.bandsData[band, k] == StoredWord(otfImg.data, lay, band, k)
      {
        SlotDecompose(k, w, h);
      }
      assert h * w == w * h;
      assert (band + 1) * (w * h) == band * (w * h) + w * h;
      ok := true;
    }

    /** One pass of the row loop: the width samples of row y of a band. */
    static method ReadRow(otfImg: LEByteBuffer, c: OTFConverter, band: int, y: int, ghost lay: Layout) returns (ok: bool)
      requires otfImg.Valid() && c.Valid() && 0 <= band < BandCount && 0 <= y < c.height
      requires lay.header.width == c.width && lay.header.height == c.height
      requires otfImg.position == FileOffset(lay, band, y, 0, 0)
      requires forall k :: 0 <= k < c.bandsData.Length1 && SlotLateral(k, c.height) < y ==>
        c.bandsData[band, k] == StoredWord(otfImg.data, lay, band, k)
      modifies otfImg, c.bandsData
      ensures otfImg.Valid()
      ensures ok ==> otfImg.position == FileOffset(lay, band, y + 1, 0, 0)
      ensures !ok ==> |otfImg.data| < lay.start + PayloadSize(lay.header)
      ensures ok ==> forall k :: 0 <= k < c.bandsData.Length1 && SlotLateral(k, c.height) < y + 1 ==>
        c.bandsData[band, k] == StoredWord(otfImg.data, lay, band, k)
      ensures forall b, k :: 0 <= b < BandCount && b != band && 0 <= k < c.bandsData.Length1 ==>
        c.bandsData[b, k] == old(c.bandsData[b, k])
    {
      var w, h := c.width, c.height;
      var data := otfImg.data;
      forall k | 0 <= k < c.bandsData.Length1 && WrittenIn(k, y, 0, h)
        ensures c.bandsData[band, k] == StoredWord(data, lay, band, k)
      {
        RowStart(k, y, w, h);
      }
      var x := 0;
      while x < w
        invariant 0 <= x <= w
        invariant otfImg.Valid()
        invariant otfImg.position == FileOffset(lay, band, y, x, 0)
        invariant forall k :: 0 <= k < c.bandsData.Length1 && WrittenIn(k, y, x, h) ==>
          c.bandsData[band, k] == StoredWord(data, lay, band, k)
        invariant forall b, k :: 0 <= b < BandCount && b != band && 0 <= k < c.bandsData.Length1 ==>
          c.bandsData[b, k] == old(c.bandsData[b, k])
      {
        ok := ReadPair(otfImg, c, band, y, x, lay);
        if !ok {
          return;
        }
        forall k | 0 <= k < c.bandsData.Length1 && WrittenIn(k, y, x + 1, h)
          ensures c.bandsData[band, k] == StoredWord(data, lay, band, k)
        {
          WrittenStep(k, y, x, w, h);
        }
        x := x + 1;
      }
      RowEnd(lay, band, y);
      ok := true;
    }

    /** One pass of the axial loop: the (re, im) pair of sample (y, x) into slot
        (x*height + y)*2 and the one after it. */
    static method ReadPair(otfImg: LEByteBuffer, c: OTFConverter, band: int, y: int, x: int, ghost lay: Layout) returns (ok: bool)
      requires otfImg.Valid() && c.Valid() && 0 <= band < BandCount && 0 <= y < c.height && 0 <= x < c.width
      requires lay.header.width == c.width && lay.header.height == c.height
      requires otfImg.position == FileOffset(lay, band, y, x, 0)
      modifies otfImg, c.bandsData
      ensures otfImg.Valid()
      ensures ok ==> otfImg.position == FileOffset(lay, band, y, x + 1, 0)
      ensures !ok ==> |otfImg.data| < lay.start + PayloadSize(lay.header)
      ensures 0 <= Slot(x, y, c.height) && Slot(x, y, c.height) + 1 < c.bandsData.Length1
      ensures ok ==> c.bandsData[band, Slot(x, y, c.height)] == StoredWord(otfImg.data, lay, band, Slot(x, y, c.height))
      ensures ok ==> c.bandsData[band, Slot(x, y, c.height) + 1] == StoredWord(otfImg.data, lay, band, Slot(x, y, c.height) + 1)
      ensures forall b, k ::
        (0 <= b < BandCount && 0 <= k < c.bandsData.Length1
         && !(b == band && (k == Slot(x, y, c.height) || k == Slot(x, y, c.height) + 1))) ==>
        c.bandsData[b, k] == old(c.bandsData[b, k])
    {
      var h := c.height;
      ReadStep(otfImg.data, lay, band, y, x);
      var s := (x * h + y) * 2;
      var re, im;
      ok, re := otfImg.NextFloat();
      if !ok {
        return;
      }
      c.bandsData[band, s] := re;
      ok, im := otfImg.NextFloat();
      if !ok {
        return;
      }
      c.bandsData[band, s + 1] := im;
    }

    /** `getReal(band, lateral, axial)`: the word at 2*(lateral + axial*height), which is
        the slot of sample (lateral, axial); `GetRealIsFileSample` ties it to the file. */
    function GetReal(band: int, lateral: int, axial: int): (r: Word)
      reads bandsData
      requires 0 <= band < bandsData.Length0
      requires 0 <= 2 * (lateral + axial * height) < bandsData.Length1
      ensures r == bandsData[band, Slot(axial, lateral, height)]
    {
      bandsData[band, 2 * (lateral + axial * height)]
    }

    /** `getImag(band, lateral, axial)`: the word after the real part; `GetRealIsFileSample`
        ties it to the file. */
    function GetImag(band: int, lateral: int, axial: int): (r: Word)
      reads bandsData
      requires 0 <= band < bandsData.Length0
      requires 0 <= 2 * (lateral + axial * height) + 1 < bandsData.Length1
      ensures r == bandsData[band, Slot(axial, lateral, height) + 1]
    {
      bandsData[band, 2 * (lateral + axial * height) + 1]
    }

    /** `getBandsData()[b]`: the band array as a sequence. */
    function GetBandsData(b: int): (r: seq<Word>)
      reads bandsData
      requires 0 <= b < bandsData.Length0
      ensures |r| == bandsData.Length1
      ensures forall k :: 0 <= k < |r| ==> r[k] == bandsData[b, k]
    {
      seq(bandsData.Length1, k requires 0 <= k < bandsData.Length1 reads bandsData => bandsData[b, k])
    }

    /** The source names the file's height the lateral sample count and its width the
        axial one; the swap is intended, as `getReal`/`getImag` take lateral first. */
    function GetSamplesLateral(): (r: int)
      requires Valid()
      ensures r == height
      ensures 0 <= r && bandsData.Length1 == 2 * (GetSamplesAxial() * r)
    {
      height
    }

    function GetSamplesAxial(): (r: int)
      requires Valid()
      ensures r == width && 0 <= r
    {
      width
    }

    function GetNrBands(): (r: int)
      requires Valid()
      ensures r == BandCount && r == bandsData.Length0
    {
      nrImg
    }

    /** Returns the lateral pixel size word (the source names it cycles per micron);
        `GettersAreHeaderFields` shows it is the header word at byte 44. */
    function GetCyclesPerMicronLateral(): (r: Word)
      ensures r == micronPerPxlLateral
    {
      micronPerPxlLateral
    }

    /** Returns the axial pixel size word (the source names it cycles per micron);
        `GettersAreHeaderFields` shows it is the header word at byte 40. */
    function GetCyclesPerMicronAxial(): (r: Word)
      ensures r == micronPerPxlAxial
    {
      micronPerPxlAxial
    }
  }

  /** The getters of a decoded file return its header fields: height as the lateral sample
      count, width as the axial one, the image count, and the pixel size words at 44 and 40. */
  lemma GettersAreHeaderFields(c: OTFConverter, data: seq<Byte>, lay: Layout)
    requires Check(data) == Success(lay) && c.Holds(data, lay)
    ensures c.GetSamplesLateral() == Int32LE(data, OffHeight)
    ensures c.GetSamplesAxial() == Int32LE(data, OffWidth)
    ensures c.GetNrBands() == Int32LE(data, OffNrImg) == BandCount
    ensures c.GetCyclesPerMicronLateral() == WordLE(data, OffPixelSizeLateral)
    ensures c.GetCyclesPerMicronAxial() == WordLE(data, OffPixelSizeAxial)
  {
  }

  /** getReal(b, y, x) and getImag(b, y, x) return the two words the file holds for band b,
      sample (y, x): the transposed store and the swapped accessor cancel out. */
  lemma GetRealIsFileSample(c: OTFConverter, data: seq<Byte>, lay: Layout, b: int, y: int, x: int)
    requires Check(data) == Success(lay) && c.Holds(data, lay)
    requires 0 <= b < BandCount && 0 <= y < c.height && 0 <= x < c.width
    ensures 0 <= FileOffset(lay, b, y, x, 0) && FileOffset(lay, b, y, x, 1) + 4 <= |data|
    ensures 0 <= 2 * (y + x * c.height) && 2 * (y + x * c.height) + 1 < c.bandsData.Length1
    ensures c.GetReal(b, y, x) == WordLE(data, FileOffset(lay, b, y, x, 0))
    ensures c.GetImag(b, y, x) == WordLE(data, FileOffset(lay, b, y, x, 1))
  {
    SlotInverse(x, y, 0, c.width, c.height);
    SlotInverse(x, y, 1, c.width, c.height);
    OffsetBound(lay, b, y, x, 0);
    OffsetBound(lay, b, y, x, 1);
  }
}
