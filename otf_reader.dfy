/** The OTF reader plug-in: the decoded store turned into six planes, the power-spectrum
    display (DC centering and mirroring of the lateral axis), the 2D projection and 3D
    repacking written to big-endian float buffers, and the metadata record around them. */
module OtfReader {
  import opened Words
  import opened Results
  import opened OtfConverter

  // ---------------------------------------------------------------------------
  // Options

  /** The plug-in's options; the defaults are `DefaultOptions`. */
  datatype Options = Options(
    doMirror: bool,          // mirror the OTF to the negative lateral axis
    doLogPw: bool,           // logarithmic power spectrum
    doCenterDcZ: bool,       // move the axial DC sample to the middle row
    doDisplayRaw: bool,      // also show the six raw planes
    doDisplayPhases: bool,   // add a phase slice after each magnitude slice
    doSaveProjection: bool,  // store the 2D projection
    wavelength: int,         // emission wavelength
    doSave3d: bool)          // also store the full 3D OTF

  const DefaultOptions: Options := Options(true, true, true, false, false, false, 515, false)

  /** What the dialog returns: one answer per checkbox, in dialog order, and the wavelength. */
  datatype DialogAnswers = DialogAnswers(
    logPw: bool, displayPhases: bool, centerDcZ: bool, mirror: bool,
    displayRaw: bool, saveProjection: bool, save3d: bool, wavelength: int)

  /** The options after an accepted dialog: storing the 3D OTF also stores the 2D one.
      The plug-in's `run` is not modelled, so this rule is kept as a stated property and
      the operations below take their options as parameters. */
  function ApplyDialog(a: DialogAnswers): (o: Options)
    ensures o.doSave3d == a.save3d
    ensures o.doSaveProjection == (a.saveProjection || a.save3d)
    ensures o.doSave3d ==> o.doSaveProjection
    ensures o.doLogPw == a.logPw && o.doDisplayPhases == a.displayPhases && o.doCenterDcZ == a.centerDcZ
    ensures o.doMirror == a.mirror && o.doDisplayRaw == a.displayRaw && o.wavelength == a.wavelength
  {
    Options(a.mirror, a.logPw, a.centerDcZ, a.displayRaw, a.displayPhases,
            a.saveProjection || a.save3d, a.wavelength, a.save3d)
  }

  /** The dialog opens with each checkbox showing the current option and the wavelength
      field showing 515. Accepting it unchanged keeps options in which storing the 3D OTF
      implies storing the projection, except that the wavelength goes back to 515. */
  lemma UnchangedDialogKeepsOptions(o: Options)
    requires o.doSave3d ==> o.doSaveProjection
    ensures ApplyDialog(DialogAnswers(o.doLogPw, o.doDisplayPhases, o.doCenterDcZ, o.doMirror,
                                      o.doDisplayRaw, o.doSaveProjection, o.doSave3d, 515))
            == o.(wavelength := 515)
  {
  }

  /** The defaults mirror, log-scale and centre, show nothing extra, store nothing and use
      515 nm; they satisfy the dialog's rule, so the unchanged dialog gives them back. */
  lemma DefaultsAreDialogFixedPoint()
    ensures DefaultOptions.doMirror && DefaultOptions.doLogPw && DefaultOptions.doCenterDcZ
    ensures !DefaultOptions.doDisplayRaw && !DefaultOptions.doDisplayPhases
    ensures !DefaultOptions.doSaveProjection && !DefaultOptions.doSave3d
    ensures DefaultOptions.wavelength == 515
    ensures DefaultOptions.doSave3d ==> DefaultOptions.doSaveProjection
    ensures var d := DefaultOptions;
      ApplyDialog(DialogAnswers(d.doLogPw, d.doDisplayPhases, d.doCenterDcZ, d.doMirror,
                                d.doDisplayRaw, d.doSaveProjection, d.doSave3d, 515)) == d
  {
    UnchangedDialogKeepsOptions(DefaultOptions);
  }

  // ---------------------------------------------------------------------------
  // The six planes

  /** Six planes of one size: band b's real part at 2b, its imaginary part at 2b + 1,
      each indexed [axial, lateral]. */
  predicate Uniform(raw: seq<array2<Word>>) {
    |raw| == 6 && forall i :: 0 <= i < 6 ==> raw[i].Length0 == raw[0].Length0 && raw[i].Length1 == raw[0].Length1
  }

  function RealPlane(b: int): int { 2 * b }
  function ImagPlane(b: int): int { 2 * b + 1 }

  /** The planes hold the file `data`: plane i at [x, y] is component i % 2 of band i / 2, sample (y, x). */
  ghost predicate PlanesHold(raw: seq<array2<Word>>, data: seq<Byte>, lay: Layout)
    reads raw
  {
    && Uniform(raw)
    && raw[0].Length0 == lay.header.width && raw[0].Length1 == lay.header.height
    && forall i, x, y :: 0 <= i < 6 && 0 <= x < raw[i].Length0 && 0 <= y < raw[i].Length1 ==>
         raw[i][x, y] == Sample(data, lay, i / 2, y, x, i % 2)
  }

  /** `readOTFs`: decodes the file and copies each band into a w x h real plane and
      a w x h imaginary plane; fails exactly when the decoder does. */
  method ReadOTFs(data: seq<Byte>) returns (r: Result<seq<array2<Word>>, FormatError>)
    requires DimensionsFit(data)
    ensures r.Failure? <==> Check(data).Failure?
    ensures r.Failure? ==> r.error == Check(data).error
    ensures r.Success? ==> (forall i :: 0 <= i < |r.value| ==> fresh(r.value[i])) && PlanesHold(r.value, data, Check(data).value)
  {
    var res := OTFConverter.Read(data);
    if res.Failure? {
      return Failure(res.error);
    }
    var otf := res.value;
    ghost var lay := Check(data).value;
    var w, h := otf.width, otf.height;
    var ret: seq<array2<Word>> := [];
    var band := 0;
    while band < BandCount
      invariant 0 <= band <= BandCount
      invariant otf.Holds(data, lay)
      invariant |ret| == 2 * band
      invariant forall i :: 0 <= i < |ret| ==> fresh(ret[i]) && ret[i].Length0 == w && ret[i].Length1 == h
      invariant forall i, x, y :: 0 <= i < |ret| && 0 <= x < ret[i].Length0 && 0 <= y < ret[i].Length1 ==>
        ret[i][x, y] == Sample(data, lay, i / 2, y, x, i % 2)
    {
      var re, im := FillBand(otf, band, data, lay);
      PlanesOfBand(band);
      ret := ret + [re, im];
      band := band + 1;
    }
    return Success(ret);
  }

  /** The planes 2*band and 2*band + 1 appended for a band are its real and imaginary parts. */
  lemma PlanesOfBand(band: int)
    requires 0 <= band
    ensures (2 * band) / 2 == band && (2 * band) % 2 == 0
    ensures (2 * band + 1) / 2 == band && (2 * band + 1) % 2 == 1
  {
  }

  /** One band of `readOTFs`: plane [x, y] receives getReal(band, y, x), resp. getImag. */
  method FillBand(otf: OTFConverter, band: int, ghost data: seq<Byte>, ghost lay: Layout) returns (re: array2<Word>, im: array2<Word>)
    requires Check(data) == Success(lay) && otf.Holds(data, lay) && 0 <= band < BandCount
    ensures fresh(re) && fresh(im)
    ensures re.Length0 == otf.width && re.Length1 == otf.height
    ensures im.Length0 == otf.width && im.Length1 == otf.height
    ensures forall x, y :: 0 <= x < otf.width && 0 <= y < otf.height ==>
      re[x, y] == Sample(data, lay, band, y, x, 0) && im[x, y] == Sample(data, lay, band, y, x, 1)
  {
    var w, h := otf.width, otf.height;
    forall y, x | 0 <= y < h && 0 <= x < w
      ensures AccessorIsSample(otf, data, lay, band, y, x)
    {
      AccessorsGiveSample(otf, data, lay, band, y, x);
    }
    re := new Word[w, h]((_, _) => 0);
    im := new Word[w, h]((_, _) => 0);
    var y := 0;
    while y < h
      invariant 0 <= y <= h
      invariant forall x', y' :: 0 <= x' < w && 0 <= y' < y ==>
        re[x', y'] == Sample(data, lay, band, y', x', 0) && im[x', y'] == Sample(data, lay, band, y', x', 1)
    {
      FillRow(otf, band, y, re, im, data, lay);
      y := y + 1;
    }
  }

  /** The x loop of `readOTFs` for lateral row y of one band. */
  method FillRow(otf: OTFConverter, band: int, y: int, re: array2<Word>, im: array2<Word>, ghost data: seq<Byte>, ghost lay: Layout)
    requires otf.Valid() && 0 <= band < BandCount && 0 <= y < otf.height
    requires forall x :: 0 <= x < otf.width ==> AccessorIsSample(otf, data, lay, band, y, x)
    requires re != im && re != otf.bandsData && im != otf.bandsData
    requires re.Length0 == im.Length0 == otf.width && re.Length1 == im.Length1 == otf.height
    requires forall x', y' :: 0 <= x' < otf.width && 0 <= y' < y ==>
      re[x', y'] == Sample(data, lay, band, y', x', 0) && im[x', y'] == Sample(data, lay, band, y', x', 1)
    modifies re, im
    ensures forall x', y' :: 0 <= x' < otf.width && 0 <= y' < y + 1 ==>
      re[x', y'] == Sample(data, lay, band, y', x', 0) && im[x', y'] == Sample(data, lay, band, y', x', 1)
  {
    var w := otf.width;
    var x := 0;
    while x < w
      invariant 0 <= x <= w
      invariant forall x', y' :: 0 <= x' < w && 0 <= y' < y ==>
        re[x', y'] == Sample(data, lay, band, y', x', 0) && im[x', y'] == Sample(data, lay, band, y', x', 1)
      invariant forall x' :: 0 <= x' < x ==>
        re[x', y] == Sample(data, lay, band, y, x', 0) && im[x', y] == Sample(data, lay, band, y, x', 1)
    {
      assert AccessorIsSample(otf, data, lay, band, y, x);
      re[x, y] := otf.GetReal(band, y, x);
      im[x, y] := otf.GetImag(band, y, x);
      x := x + 1;
    }
  }

  /** getReal/getImag(band, y, x) are in bounds and give component 0 and 1 of file sample (y, x). */
  ghost predicate AccessorIsSample(otf: OTFConverter, data: seq<Byte>, lay: Layout, band: int, y: int, x: int)
    reads otf.bandsData
  {
    && 0 <= band < otf.bandsData.Length0
    && 0 <= 2 * (y + x * otf.height) && 2 * (y + x * otf.height) + 1 < otf.bandsData.Length1
    && otf.GetReal(band, y, x) == Sample(data, lay, band, y, x, 0)
    && otf.GetImag(band, y, x) == Sample(data, lay, band, y, x, 1)
  }

  /** getReal/getImag(band, y, x) of a decoded file are component 0 and 1 of file sample (y, x). */
  lemma AccessorsGiveSample(otf: OTFConverter, data: seq<Byte>, lay: Layout, band: int, y: int, x: int)
    requires Check(data) == Success(lay) && otf.Holds(data, lay)
    requires 0 <= band < BandCount && 0 <= y < otf.height && 0 <= x < otf.width
    ensures 0 <= 2 * (y + x * otf.height) && 2 * (y + x * otf.height) + 1 < otf.bandsData.Length1
    ensures otf.GetReal(band, y, x) == Sample(data, lay, band, y, x, 0)
    ensures otf.GetImag(band, y, x) == Sample(data, lay, band, y, x, 1)
  {
    GetRealIsFileSample(otf, data, lay, band, y, x);
    SamplesInBounds(data, lay, band, y, x, 0);
    SamplesInBounds(data, lay, band, y, x, 1);
  }

  // ---------------------------------------------------------------------------
  // The power-spectrum display

  /** The floating-point functions the display applies, left abstract: `hypot(re, im)`,
      `atan2(im, re)` and the logarithm with its 1e-3 floor, each rounded to float32. */
  datatype FloatMaths = FloatMaths(hypot: (Word, Word) -> Word, atan2: (Word, Word) -> Word, logFloor: Word -> Word)

  datatype Plot = Magnitude | Phase

  /** The value shown for the sample (re, im). */
  function Pixel(plot: Plot, re: Word, im: Word, logPw: bool, m: FloatMaths): Word {
    match plot
    case Magnitude => var mag := m.hypot(re, im); if logPw then m.logFloor(mag) else mag
    case Phase => m.atan2(im, re)
  }

  /** Output columns: 2*h with the mirrored negative axis, h without. */
  function OutWidth(h: int, mirror: bool): int {
    if mirror then 2 * h else h
  }

  /** Output row of axial sample x. */
  function OutRow(x: int, w: int, center: bool): int {
    if center && w > 0 then (x + w / 2) % w else x
  }

  /** Output column of lateral sample y. */
  function OutCol(y: int, outW: int, mirror: bool): int {
    y + (if mirror then outW / 2 else 0)
  }

  /** The axial sample shown in output row oy (the inverse of `OutRow`). */
  function SourceAxial(oy: int, w: int, center: bool): int {
    if center && w > 0 then (oy + w - w / 2) % w else oy
  }

  /** Whether output column ox is ever written: all but column 0 when mirroring. */
  predicate ColumnWritten(ox: int, mirror: bool) {
    !mirror || ox >= 1
  }

  /** The lateral sample shown in a written output column ox. */
  function SourceLateral(ox: int, h: int, mirror: bool): int {
    if !mirror then ox else if ox >= h then ox - h else h - ox
  }

  /** The value an output spectrum of the planes (re, im) holds at (ox, oy). */
  function Expected(re: array2<Word>, im: array2<Word>, plot: Plot, opts: Options, m: FloatMaths, ox: int, oy: int): Word
    reads re, im
    requires re.Length0 == im.Length0 && re.Length1 == im.Length1
    requires 0 <= ox < OutWidth(re.Length1, opts.doMirror) && 0 <= oy < re.Length0
  {
    var w, h := re.Length0, re.Length1;
    if ColumnWritten(ox, opts.doMirror) then
      var sx, sy := SourceAxial(oy, w, opts.doCenterDcZ), SourceLateral(ox, h, opts.doMirror);
      Pixel(plot, re[sx, sy], im[sx, sy], opts.doLogPw, m)
    else 0
  }

  /** `out` is the spectrum of (re, im): OutWidth(h) columns, w rows, and each written pixel
      shows the sample its row and column come from; column 0 stays 0 when mirroring. */
  ghost predicate Rendered(out: array2<Word>, re: array2<Word>, im: array2<Word>, plot: Plot, opts: Options, m: FloatMaths)
    reads out, re, im
  {
    && re.Length0 == im.Length0 && re.Length1 == im.Length1
    && out.Length0 == OutWidth(re.Length1, opts.doMirror) && out.Length1 == re.Length0
    && forall ox, oy :: 0 <= ox < out.Length0 && 0 <= oy < out.Length1 ==> out[ox, oy] == Expected(re, im, plot, opts, m, ox, oy)
  }

  /** Centering is a permutation of the rows [0, w): `SourceAxial` undoes `OutRow` both ways. */
  lemma {:induction false} CenteringPermutes(w: int)
    requires 0 < w
    ensures forall x :: 0 <= x < w ==> 0 <= OutRow(x, w, true) < w && SourceAxial(OutRow(x, w, true), w, true) == x
    ensures forall oy :: 0 <= oy < w ==> 0 <= SourceAxial(oy, w, true) < w && OutRow(SourceAxial(oy, w, true), w, true) == oy
  {
    forall x | 0 <= x < w
      ensures 0 <= OutRow(x, w, true) < w && SourceAxial(OutRow(x, w, true), w, true) == x
    {
      CenterRow(x, w);
    }
    forall oy | 0 <= oy < w
      ensures 0 <= SourceAxial(oy, w, true) < w && OutRow(SourceAxial(oy, w, true), w, true) == oy
    {
      CenterRowInverse(oy, w);
    }
  }

  /** The centered row of axial sample x is in range, and `SourceAxial` leads back to x. */
  lemma {:induction false} CenterRow(x: int, w: int)
    requires 0 <= x < w
    ensures 0 <= OutRow(x, w, true) < w && SourceAxial(OutRow(x, w, true), w, true) == x
  {
    var m := w / 2;
    if x + m < w {
      DivModUnique(x + m, 0, x + m, w);
      DivModUnique(x + w, 1, x, w);
    } else {
      DivModUnique(x + m, 1, x + m - w, w);
      DivModUnique(x, 0, x, w);
    }
  }

  /** The axial sample shown in row oy is in range, and centering sends it back to oy. */
  lemma {:induction false} CenterRowInverse(oy: int, w: int)
    requires 0 <= oy < w
    ensures 0 <= SourceAxial(oy, w, true) < w && OutRow(SourceAxial(oy, w, true), w, true) == oy
  {
    var m := w / 2;
    if oy + w - m < w {
      DivModUnique(oy + w - m, 0, oy + w - m, w);
      DivModUnique(oy + w, 1, oy, w);
    } else {
      DivModUnique(oy + w - m, 1, oy - m, w);
      DivModUnique(oy, 0, oy, w);
    }
  }

  /** Without centering the row is the axial index itself; with it, axial 0 (the DC sample)
      lands on row w/2. */
  lemma DcRow(w: int)
    requires 0 < w
    ensures OutRow(0, w, true) == w / 2
    ensures forall x :: OutRow(x, w, false) == x && SourceAxial(x, w, false) == x
  {
    DivModUnique(w / 2, 0, w / 2, w);
  }

  /** The columns of lateral sample y: y + h and h - y when mirroring (in [h, 2h) and [1, h]),
      y otherwise; written columns lead back to y, and only from those two. */
  lemma MirrorColumns(y: int, h: int, mirror: bool)
    requires 0 <= y < h
    ensures var outW := OutWidth(h, mirror); var ox := OutCol(y, outW, mirror);
      && (mirror ==> ox == y + h && h <= ox < 2 * h && outW - ox == h - y && 1 <= outW - ox <= h)
      && (!mirror ==> ox == y && ox < outW)
      && SourceLateral(ox, h, mirror) == y && ColumnWritten(ox, mirror)
      && (mirror ==> SourceLateral(outW - ox, h, mirror) == y && ColumnWritten(outW - ox, mirror))
      && forall ox' :: 0 <= ox' < outW && ColumnWritten(ox', mirror) && SourceLateral(ox', h, mirror) == y ==>
           ox' == ox || (mirror && ox' == outW - ox)
  {
  }

  /** Whether the spectrum loop has filled output (ox, oy) once it has reached sample (y, x):
      rows y' < y are done, and in row y the samples x' < x. */
  predicate Done(ox: int, oy: int, y: int, x: int, w: int, h: int, opts: Options) {
    && ColumnWritten(ox, opts.doMirror)
    && (SourceLateral(ox, h, opts.doMirror) < y
        || (SourceLateral(ox, h, opts.doMirror) == y && SourceAxial(oy, w, opts.doCenterDcZ) < x))
  }

  /** `out` holds its expected value where the loop has been up to sample (y, x), and 0 elsewhere. */
  ghost predicate PartlyRendered(out: array2<Word>, re: array2<Word>, im: array2<Word>, plot: Plot, opts: Options, m: FloatMaths, y: int, x: int)
    reads out, re, im
  {
    && re.Length0 == im.Length0 && re.Length1 == im.Length1
    && out.Length0 == OutWidth(re.Length1, opts.doMirror) && out.Length1 == re.Length0
    && forall ox, oy :: 0 <= ox < out.Length0 && 0 <= oy < out.Length1 ==>
      out[ox, oy] == if Done(ox, oy, y, x, re.Length0, re.Length1, opts) then Expected(re, im, plot, opts, m, ox, oy) else 0
  }

  /** The spectrum of (re, im) for one band: magnitude and phase, written at the centred row
      and the primary column of each sample, and at the mirror column when mirroring. */
  method RenderBand(re: array2<Word>, im: array2<Word>, opts: Options, m: FloatMaths) returns (outMag: array2<Word>, outPha: array2<Word>)
    requires re.Length0 == im.Length0 && re.Length1 == im.Length1
    ensures fresh(outMag) && fresh(outPha)
    ensures Rendered(outMag, re, im, Magnitude, opts, m) && Rendered(outPha, re, im, Phase, opts, m)
  {
    var w, h := re.Length0, re.Length1;
    var outW := if opts.doMirror then 2 * h else h;
    outMag := new Word[outW, w]((_, _) => 0);
    outPha := new Word[outW, w]((_, _) => 0);
    var y := 0;
    while y < h
      invariant 0 <= y <= h
      invariant PartlyRendered(outMag, re, im, Magnitude, opts, m, y, 0)
      invariant PartlyRendered(outPha, re, im, Phase, opts, m, y, 0)
    {
      RenderRow(re, im, opts, m, outMag, outPha, y);
      y := y + 1;
    }
    AllRowsRendered(outMag, re, im, Magnitude, opts, m);
    AllRowsRendered(outPha, re, im, Phase, opts, m);
  }

  /** Once every lateral row is done, the spectrum is rendered. */
  lemma AllRowsRendered(out: array2<Word>, re: array2<Word>, im: array2<Word>, plot: Plot, opts: Options, m: FloatMaths)
    requires PartlyRendered(out, re, im, plot, opts, m, re.Length1, 0)
    ensures Rendered(out, re, im, plot, opts, m)
  {
  }

  /** Once every axial sample of row y is done, row y is done. */
  lemma RowRendered(out: array2<Word>, re: array2<Word>, im: array2<Word>, plot: Plot, opts: Options, m: FloatMaths, y: int)
    requires PartlyRendered(out, re, im, plot, opts, m, y, re.Length0)
    ensures PartlyRendered(out, re, im, plot, opts, m, y + 1, 0)
  {
    var w := re.Length0;
    if opts.doCenterDcZ && 0 < w {
      CenteringPermutes(w);
    }
  }

  /** Row y of the spectrum loop: the w samples of lateral index y. */
  method RenderRow(re: array2<Word>, im: array2<Word>, opts: Options, m: FloatMaths, outMag: array2<Word>, outPha: array2<Word>, y: int)
    requires 0 <= y < re.Length1
    requires outMag != re && outMag != im && outPha != re && outPha != im && outMag != outPha
    requires PartlyRendered(outMag, re, im, Magnitude, opts, m, y, 0)
    requires PartlyRendered(outPha, re, im, Phase, opts, m, y, 0)
    modifies outMag, outPha
    ensures PartlyRendered(outMag, re, im, Magnitude, opts, m, y + 1, 0)
    ensures PartlyRendered(outPha, re, im, Phase, opts, m, y + 1, 0)
  {
    var x := 0;
    while x < re.Length0
      invariant 0 <= x <= re.Length0
      invariant PartlyRendered(outMag, re, im, Magnitude, opts, m, y, x)
      invariant PartlyRendered(outPha, re, im, Phase, opts, m, y, x)
    {
      WriteSample(re, im, Magnitude, opts, m, outMag, y, x);
      WriteSample(re, im, Phase, opts, m, outPha, y, x);
      x := x + 1;
    }
    RowRendered(outMag, re, im, Magnitude, opts, m, y);
    RowRendered(outPha, re, im, Phase, opts, m, y);
  }

  /** Sample (y, x) into one spectrum image: its value at row `OutRow(x)` and column
      `OutCol(y)`, and at the mirror column `outW - ox` when mirroring. */
  method WriteSample(re: array2<Word>, im: array2<Word>, plot: Plot, opts: Options, m: FloatMaths, out: array2<Word>, y: int, x: int)
    requires 0 <= y < re.Length1 && 0 <= x < re.Length0
    requires out != re && out != im
    requires PartlyRendered(out, re, im, plot, opts, m, y, x)
    modifies out
    ensures PartlyRendered(out, re, im, plot, opts, m, y, x + 1)
  {
    var w, h := re.Length0, re.Length1;
    var outW := out.Length0;
    var mirror, center := opts.doMirror, opts.doCenterDcZ;
    var v := Pixel(plot, re[x, y], im[x, y], opts.doLogPw, m);
    var oy := if center then (x + w / 2) % w else x;
    var ox := y + (if mirror then outW / 2 else 0);
    assert outW == OutWidth(h, mirror) && ox == OutCol(y, outW, mirror) && oy == OutRow(x, w, center);
    out[ox, oy] := v;
    if mirror {
      out[outW - ox, oy] := v;
    }
    forall ox', oy' | 0 <= ox' < outW && 0 <= oy' < w
      ensures out[ox', oy'] == if Done(ox', oy', y, x + 1, w, h, opts) then Expected(re, im, plot, opts, m, ox', oy') else 0
    {
      TargetStep(re, im, plot, opts, m, y, x, ox', oy');
      if oy' == oy && (ox' == ox || (mirror && ox' == outW - ox)) {
        assert out[ox', oy'] == v;
      } else {
        assert out[ox', oy'] == old(out[ox', oy']);
      }
    }
  }

  /** The output pixels of sample (y, x) lie in the frame and show that sample. */
  lemma SampleTargets(re: array2<Word>, im: array2<Word>, plot: Plot, opts: Options, m: FloatMaths, y: int, x: int)
    requires re.Length0 == im.Length0 && re.Length1 == im.Length1
    requires 0 <= y < re.Length1 && 0 <= x < re.Length0
    ensures var w, h := re.Length0, re.Length1; var outW := OutWidth(h, opts.doMirror);
      var ox, oy := OutCol(y, outW, opts.doMirror), OutRow(x, w, opts.doCenterDcZ);
      var v := Pixel(plot, re[x, y], im[x, y], opts.doLogPw, m);
      && 0 <= ox < outW && 0 <= oy < w && Expected(re, im, plot, opts, m, ox, oy) == v
      && (opts.doMirror ==> 0 <= outW - ox < outW && Expected(re, im, plot, opts, m, outW - ox, oy) == v)
  {
    var w, h := re.Length0, re.Length1;
    MirrorColumns(y, h, opts.doMirror);
    if opts.doCenterDcZ {
      CenterRow(x, w);
    }
  }

  /** What output (ox, oy) holds after sample (y, x): the sample's value at its own pixels,
      and what it held before everywhere else. */
  lemma TargetStep(re: array2<Word>, im: array2<Word>, plot: Plot, opts: Options, m: FloatMaths, y: int, x: int, ox: int, oy: int)
    requires re.Length0 == im.Length0 && re.Length1 == im.Length1
    requires 0 <= y < re.Length1 && 0 <= x < re.Length0
    requires 0 <= ox < OutWidth(re.Length1, opts.doMirror) && 0 <= oy < re.Length0
    ensures var w, h := re.Length0, re.Length1; var outW := OutWidth(h, opts.doMirror);
      var col, row := OutCol(y, outW, opts.doMirror), OutRow(x, w, opts.doCenterDcZ);
      (if Done(ox, oy, y, x + 1, w, h, opts) then Expected(re, im, plot, opts, m, ox, oy) else 0)
      == if oy == row && (ox == col || (opts.doMirror && ox == outW - col))
         then Pixel(plot, re[x, y], im[x, y], opts.doLogPw, m)
         else if Done(ox, oy, y, x, w, h, opts) then Expected(re, im, plot, opts, m, ox, oy) else 0
  {
    DoneStep(ox, oy, y, x, re.Length0, re.Length1, opts);
    SampleTargets(re, im, plot, opts, m, y, x);
  }

  /** Moving from (y, x) to (y, x + 1) adds exactly the output pixels of sample (y, x): its
      centred row, at its column and, when mirroring, at the mirror column. */
  lemma DoneStep(ox: int, oy: int, y: int, x: int, w: int, h: int, opts: Options)
    requires 0 <= y < h && 0 <= x < w && 0 <= ox < OutWidth(h, opts.doMirror) && 0 <= oy < w
    ensures var outW := OutWidth(h, opts.doMirror); var col := OutCol(y, outW, opts.doMirror);
      Done(ox, oy, y, x + 1, w, h, opts) <==>
        (|| Done(ox, oy, y, x, w, h, opts)
         || (oy == OutRow(x, w, opts.doCenterDcZ) && (ox == col || (opts.doMirror && ox == outW - col))))
  {
    MirrorColumns(y, h, opts.doMirror);
    if opts.doCenterDcZ {
      CenterRow(x, w);
      CenterRowInverse(oy, w);
    }
  }

  /** The slice of band b's magnitude in the spectrum stack. */
  function MagSlice(b: int, phases: bool): int {
    if phases then 2 * b else b
  }

  /** The slice of band b's phase, present only when phases are requested. */
  function PhaseSlice(b: int): int {
    2 * b + 1
  }

  /** `displayOTFs`: the raw stack (the six planes themselves, when requested) and the
      spectrum stack: per band its magnitude slice, then its phase slice when requested. */
  method DisplayOTFs(raw: seq<array2<Word>>, opts: Options, m: FloatMaths) returns (rawSt: seq<array2<Word>>, pwSt: seq<array2<Word>>)
    requires Uniform(raw)
    ensures rawSt == if opts.doDisplayRaw then raw else []
    ensures |pwSt| == if opts.doDisplayPhases then 6 else 3
    ensures forall i :: 0 <= i < |pwSt| ==> fresh(pwSt[i])
    ensures forall b :: 0 <= b < BandCount ==>
      Rendered(pwSt[MagSlice(b, opts.doDisplayPhases)], raw[RealPlane(b)], raw[ImagPlane(b)], Magnitude, opts, m)
    ensures opts.doDisplayPhases ==> forall b :: 0 <= b < BandCount ==>
      Rendered(pwSt[PhaseSlice(b)], raw[RealPlane(b)], raw[ImagPlane(b)], Phase, opts, m)
  {
    rawSt := if opts.doDisplayRaw then raw else [];
    pwSt := [];
    var b := 0;
    while b < BandCount
      invariant 0 <= b <= BandCount
      invariant forall i :: 0 <= i < |pwSt| ==> fresh(pwSt[i])
      invariant ShowsBands(pwSt, raw, opts, m, b)
    {
      var outMag, outPha := RenderBand(raw[2 * b], raw[2 * b + 1], opts, m);
      ShowsNextBand(pwSt, raw, opts, m, b, outMag, outPha);
      if opts.doDisplayPhases {
        pwSt := pwSt + [outMag, outPha];
      } else {
        pwSt := pwSt + [outMag];
      }
      b := b + 1;
    }
  }

  /** The first b bands of the display stack are rendered: their magnitude slices, and their
      phase slices when phases are shown. */
  ghost predicate ShowsBands(pwSt: seq<array2<Word>>, raw: seq<array2<Word>>, opts: Options, m: FloatMaths, b: int)
    reads pwSt, raw
  {
    && Uniform(raw) && 0 <= b <= BandCount
    && |pwSt| == (if opts.doDisplayPhases then 2 * b else b)
    && (forall b' :: 0 <= b' < b ==>
         Rendered(pwSt[MagSlice(b', opts.doDisplayPhases)], raw[RealPlane(b')], raw[ImagPlane(b')], Magnitude, opts, m))
    && (opts.doDisplayPhases ==> forall b' :: 0 <= b' < b ==>
         Rendered(pwSt[PhaseSlice(b')], raw[RealPlane(b')], raw[ImagPlane(b')], Phase, opts, m))
  }

  /** Appending the slices of band b, in the order the band loop adds them, extends the
      rendered prefix by that band. */
  lemma ShowsNextBand(pwSt: seq<array2<Word>>, raw: seq<array2<Word>>, opts: Options, m: FloatMaths, b: int,
                      outMag: array2<Word>, outPha: array2<Word>)
    requires ShowsBands(pwSt, raw, opts, m, b) && b < BandCount
    requires Rendered(outMag, raw[RealPlane(b)], raw[ImagPlane(b)], Magnitude, opts, m)
    requires Rendered(outPha, raw[RealPlane(b)], raw[ImagPlane(b)], Phase, opts, m)
    ensures ShowsBands(pwSt + (if opts.doDisplayPhases then [outMag, outPha] else [outMag]), raw, opts, m, b + 1)
  {
    var next := pwSt + (if opts.doDisplayPhases then [outMag, outPha] else [outMag]);
    forall b' | 0 <= b' < b + 1
      ensures Rendered(next[MagSlice(b', opts.doDisplayPhases)], raw[RealPlane(b')], raw[ImagPlane(b')], Magnitude, opts, m)
    {
      if b' < b {
        assert next[MagSlice(b', opts.doDisplayPhases)] == pwSt[MagSlice(b', opts.doDisplayPhases)];
      } else {
        assert next[MagSlice(b', opts.doDisplayPhases)] == outMag;
      }
    }
    if opts.doDisplayPhases {
      forall b' | 0 <= b' < b + 1
        ensures Rendered(next[PhaseSlice(b')], raw[RealPlane(b')], raw[ImagPlane(b')], Phase, opts, m)
      {
        if b' < b {
          assert next[PhaseSlice(b')] == pwSt[PhaseSlice(b')];
        } else {
          assert next[PhaseSlice(b')] == outPha;
        }
      }
    }
  }

  /** With mirroring the spectrum is symmetric about column h, and column 0 stays 0. */
  lemma MirroredSpectrumSymmetric(out: array2<Word>, re: array2<Word>, im: array2<Word>, plot: Plot, opts: Options, m: FloatMaths, d: int, oy: int)
    requires Rendered(out, re, im, plot, opts, m) && opts.doMirror
    requires 0 <= d < re.Length1 && 0 <= oy < re.Length0
    ensures out[re.Length1 + d, oy] == out[re.Length1 - d, oy]
    ensures out[0, oy] == 0
  {
  }

  /** With centering, row w/2 of the spectrum shows the axial DC samples. */
  lemma CentredRowIsDc(out: array2<Word>, re: array2<Word>, im: array2<Word>, plot: Plot, opts: Options, m: FloatMaths, ox: int)
    requires Rendered(out, re, im, plot, opts, m) && opts.doCenterDcZ
    requires 0 < re.Length0 && 0 <= ox < out.Length0 && ColumnWritten(ox, opts.doMirror)
    ensures 0 <= SourceLateral(ox, re.Length1, opts.doMirror) < re.Length1
    ensures out[ox, re.Length0 / 2] ==
      var sy := SourceLateral(ox, re.Length1, opts.doMirror); Pixel(plot, re[0, sy], im[0, sy], opts.doLogPw, m)
  {
    DcRow(re.Length0);
    CenteringPermutes(re.Length0);
    assert SourceAxial(OutRow(0, re.Length0, true), re.Length0, true) == 0;
  }

  // ---------------------------------------------------------------------------
  // The stored projection

  /** A `FloatBuffer` view (big-endian, the `ByteBuffer` default) of a zero-filled byte array. */
  class FloatBuffer {
    var words: seq<Word>
    var position: int

    ghost predicate Valid()
      reads this
    {
      0 <= position <= |words|
    }

    /** `ByteBuffer.wrap(new byte[4*capacity]).asFloatBuffer()`. */
    constructor Allocate(capacity: nat)
      ensures Valid() && words == seq(capacity, _ => 0) && position == 0
    {
      words := seq(capacity, _ => 0);
      position := 0;
    }

    /** Relative `put(v)`: writes at the position and advances it (the model requires room;
        the source would throw BufferOverflowException). */
    method Put(v: Word)
      requires Valid() && position < |words|
      modifies this
      ensures Valid()
      ensures words == old(words)[old(position) := v] && position == old(position) + 1
    {
      words := words[position := v];
      position := position + 1;
    }

    /** Absolute `put(i, v)`: writes at i and leaves the position alone. */
    method PutAt(i: int, v: Word)
      requires Valid() && 0 <= i < |words|
      modifies this
      ensures Valid()
      ensures words == old(words)[i := v] && position == old(position)
    {
      words := words[i := v];
    }

    /** The backing byte array. */
    function Bytes(): (r: seq<Byte>)
      reads this
      ensures |r| == 4 * |words|
      ensures DecodeWordsBE(r) == words
    {
      BigEndianRoundTrip(words);
      EncodeWordsBE(words)
    }
  }

  /** The float sums of the source: `sum += v` over s in order, starting from 0 (the bit
      pattern of 0.0f), with float32 addition left abstract as `add`. */
  function FoldAdd(add: (Word, Word) -> Word, s: seq<Word>): Word {
    if s == [] then 0 else add(FoldAdd(add, s[..|s| - 1]), s[|s| - 1])
  }

  /** Column xy of a plane: its samples along the axial axis. */
  function Column(p: array2<Word>, xy: int): (s: seq<Word>)
    reads p
    requires 0 <= xy < p.Length1
    ensures |s| == p.Length0 && forall z :: 0 <= z < |s| ==> s[z] == p[z, xy]
  {
    seq(p.Length0, z requires 0 <= z < p.Length0 reads p => p[z, xy])
  }

  /** Sums column xy of p along z, as the innermost projection loop does. */
  method SumColumn(p: array2<Word>, xy: int, add: (Word, Word) -> Word) returns (sum: Word)
    requires 0 <= xy < p.Length1
    ensures sum == FoldAdd(add, Column(p, xy))
  {
    ghost var col := Column(p, xy);
    sum := 0;
    var z := 0;
    while z < p.Length0
      invariant 0 <= z <= p.Length0
      invariant sum == FoldAdd(add, col[..z])
    {
      assert col[..z + 1][..z] == col[..z];
      sum := add(sum, p[z, xy]);
      z := z + 1;
    }
    assert col[..p.Length0] == col;
  }

  /** Word k of band b's 2D projection buffer: the z-sum of lateral sample k / 2 of
      component k % 2. */
  function ProjectionWord(raw: seq<array2<Word>>, b: int, k: int, add: (Word, Word) -> Word): Word
    reads raw
    requires Uniform(raw) && 0 <= b < BandCount && 0 <= k < 2 * raw[0].Length1
  {
    FoldAdd(add, Column(raw[2 * b + k % 2], k / 2))
  }

  /** Band b's 2D projection buffer. */
  function Projection2D(raw: seq<array2<Word>>, b: int, add: (Word, Word) -> Word): (r: seq<Word>)
    reads raw
    requires Uniform(raw) && 0 <= b < BandCount
    ensures |r| == 2 * raw[0].Length1
    ensures forall k :: 0 <= k < |r| ==> r[k] == ProjectionWord(raw, b, k, add)
  {
    seq(2 * raw[0].Length1, k requires 0 <= k < 2 * raw[0].Length1 reads raw => ProjectionWord(raw, b, k, add))
  }

  /** Word k of band b's 3D buffer: component k % 2 at the axial and lateral indices the
      decoder's storage map assigns to k (always in range, by `SlotDecompose`). */
  function VolumeWord(raw: seq<array2<Word>>, b: int, k: int): Word
    reads raw
    requires Uniform(raw) && 0 <= b < BandCount && 0 <= k < 2 * (raw[0].Length0 * raw[0].Length1)
  {
    var w, h := raw[0].Length0, raw[0].Length1;
    var x, y := SlotAxial(k, h), SlotLateral(k, h);
    if 0 <= x < w && 0 <= y < h then raw[2 * b + k % 2][x, y] else 0
  }

  /** Band b's 3D buffer. */
  function Volume3D(raw: seq<array2<Word>>, b: int): (r: seq<Word>)
    reads raw
    requires Uniform(raw) && 0 <= b < BandCount
    ensures |r| == 2 * (raw[0].Length0 * raw[0].Length1)
    ensures forall k :: 0 <= k < |r| ==> r[k] == VolumeWord(raw, b, k)
  {
    seq(2 * (raw[0].Length0 * raw[0].Length1), k requires 0 <= k < 2 * (raw[0].Length0 * raw[0].Length1) reads raw => VolumeWord(raw, b, k))
  }

  /** `saveOTFprojection`, up to the file write: the record the plug-in stores, holding the
      big-endian bytes of each band's 2D projection and, alongside, of its 3D data. */
  method SaveOTFProjection(raw: seq<array2<Word>>, wavelength: int, doSave3d: bool, add: (Word, Word) -> Word) returns (cfg: Conf)
    requires Uniform(raw)
    requires 8 * (raw[0].Length0 * raw[0].Length1) < TwoTo31
    ensures cfg == Metadata(raw[0].Length0, raw[0].Length1, wavelength, doSave3d,
      [EncodeWordsBE(Projection2D(raw, 0, add)), EncodeWordsBE(Projection2D(raw, 1, add)), EncodeWordsBE(Projection2D(raw, 2, add))],
      [EncodeWordsBE(Volume3D(raw, 0)), EncodeWordsBE(Volume3D(raw, 1)), EncodeWordsBE(Volume3D(raw, 2))])
  {
    var w, h := raw[0].Length0, raw[0].Length1;
    var band := ProjectionBytes(raw, add);
    var band3d := VolumeBytes(raw);
    cfg := Metadata(w, h, wavelength, doSave3d, band, band3d);
  }

  /** The `band` arrays of `saveOTFprojection`: three big-endian float buffers of 2h words,
      filled by the projection loop, as bytes. */
  method ProjectionBytes(raw: seq<array2<Word>>, add: (Word, Word) -> Word) returns (band: seq<seq<Byte>>)
    requires Uniform(raw)
    ensures band == [EncodeWordsBE(Projection2D(raw, 0, add)), EncodeWordsBE(Projection2D(raw, 1, add)), EncodeWordsBE(Projection2D(raw, 2, add))]
  {
    var h := raw[0].Length1;
    var fb0 := new FloatBuffer.Allocate(2 * h);
    var fb1 := new FloatBuffer.Allocate(2 * h);
    var fb2 := new FloatBuffer.Allocate(2 * h);
    ProjectBands(raw, [fb0, fb1, fb2], add);
    band := [fb0.Bytes(), fb1.Bytes(), fb2.Bytes()];
  }

  /** The `band3d` arrays of `saveOTFprojection`: three big-endian float buffers of 2wh words,
      filled by the 3D collection loop, as bytes. */
  method VolumeBytes(raw: seq<array2<Word>>) returns (band3d: seq<seq<Byte>>)
    requires Uniform(raw)
    requires 8 * (raw[0].Length0 * raw[0].Length1) < TwoTo31
    ensures band3d == [EncodeWordsBE(Volume3D(raw, 0)), EncodeWordsBE(Volume3D(raw, 1)), EncodeWordsBE(Volume3D(raw, 2))]
  {
    var w, h := raw[0].Length0, raw[0].Length1;
    var v0 := new FloatBuffer.Allocate(2 * (w * h));
    var v1 := new FloatBuffer.Allocate(2 * (w * h));
    var v2 := new FloatBuffer.Allocate(2 * (w * h));
    Collect3DBands(raw, [v0, v1, v2]);
    band3d := [v0.Bytes(), v1.Bytes(), v2.Bytes()];
  }

  /** The 2D projection loop: lateral index outer, then band, then component; each z-sum is
      put at the next position of its band's buffer, which ends up full. */
  method ProjectBands(raw: seq<array2<Word>>, fb: seq<FloatBuffer>, add: (Word, Word) -> Word)
    requires Uniform(raw) && |fb| == 3 && fb[0] != fb[1] && fb[0] != fb[2] && fb[1] != fb[2]
    requires forall i :: 0 <= i < 3 ==> fb[i].Valid() && fb[i].position == 0 && |fb[i].words| == 2 * raw[0].Length1
    modifies fb[0], fb[1], fb[2]
    ensures forall i :: 0 <= i < 3 ==> fb[i].Valid() && fb[i].position == |fb[i].words| && fb[i].words == Projection2D(raw, i, add)
  {
    var h := raw[0].Length1;
    var xy := 0;
    while xy < h
      invariant 0 <= xy <= h
      invariant forall i :: 0 <= i < 3 ==> fb[i].Valid() && |fb[i].words| == 2 * h && fb[i].position == 2 * xy
      invariant forall i, k :: 0 <= i < 3 && 0 <= k < 2 * xy ==> fb[i].words[k] == ProjectionWord(raw, i, k, add)
    {
      ProjectLateral(raw, fb, xy, add);
      xy := xy + 1;
    }
    forall i | 0 <= i < 3 ensures fb[i].words == Projection2D(raw, i, add) {
    }
  }

  /** One lateral index xy of the projection loop: for each band, the z-sums of the real and
      the imaginary part put at positions 2*xy and 2*xy + 1. */
  method ProjectLateral(raw: seq<array2<Word>>, fb: seq<FloatBuffer>, xy: int, add: (Word, Word) -> Word)
    requires Uniform(raw) && |fb| == 3 && fb[0] != fb[1] && fb[0] != fb[2] && fb[1] != fb[2]
    requires 0 <= xy < raw[0].Length1
    requires forall i :: 0 <= i < 3 ==> fb[i].Valid() && |fb[i].words| == 2 * raw[0].Length1 && fb[i].position == 2 * xy
    requires forall i, k :: 0 <= i < 3 && 0 <= k < 2 * xy ==> fb[i].words[k] == ProjectionWord(raw, i, k, add)
    modifies fb[0], fb[1], fb[2]
    ensures forall i :: 0 <= i < 3 ==> fb[i].Valid() && |fb[i].words| == 2 * raw[0].Length1 && fb[i].position == 2 * xy + 2
    ensures forall i, k :: 0 <= i < 3 && 0 <= k < 2 * xy + 2 ==> fb[i].words[k] == ProjectionWord(raw, i, k, add)
  {
    var h := raw[0].Length1;
    var b := 0;
    while b < BandCount
      invariant 0 <= b <= BandCount
      invariant forall i :: 0 <= i < 3 ==> fb[i].Valid() && |fb[i].words| == 2 * h
      invariant forall i :: 0 <= i < 3 ==> fb[i].position == 2 * xy + (if i < b then 2 else 0)
      invariant forall i, k :: 0 <= i < 3 && 0 <= k < fb[i].position ==> fb[i].words[k] == ProjectionWord(raw, i, k, add)
    {
      PutSums(raw, fb[b], b, xy, add);
      b := b + 1;
    }
  }

  /** The component loop for band b at lateral index xy: the z-sums of the real and the
      imaginary part, put at the buffer's next two positions. */
  method PutSums(raw: seq<array2<Word>>, buf: FloatBuffer, b: int, xy: int, add: (Word, Word) -> Word)
    requires Uniform(raw) && 0 <= b < BandCount && 0 <= xy < raw[0].Length1
    requires buf.Valid() && |buf.words| == 2 * raw[0].Length1 && buf.position == 2 * xy
    requires forall k :: 0 <= k < 2 * xy ==> buf.words[k] == ProjectionWord(raw, b, k, add)
    modifies buf
    ensures buf.Valid() && |buf.words| == 2 * raw[0].Length1 && buf.position == 2 * xy + 2
    ensures forall k :: 0 <= k < 2 * xy + 2 ==> buf.words[k] == ProjectionWord(raw, b, k, add)
  {
    var c := 0;
    while c < 2
      invariant 0 <= c <= 2
      invariant buf.Valid() && |buf.words| == 2 * raw[0].Length1 && buf.position == 2 * xy + c
      invariant forall k :: 0 <= k < buf.position ==> buf.words[k] == ProjectionWord(raw, b, k, add)
    {
      var sum := SumColumn(raw[b * 2 + c], xy, add);
      assert (2 * xy + c) % 2 == c && (2 * xy + c) / 2 == xy;
      buf.Put(sum);
      c := c + 1;
    }
  }

  /** The 3D loop: the buffers of the three bands, filled one after the other. */
  method Collect3DBands(raw: seq<array2<Word>>, fb3d: seq<FloatBuffer>)
    requires Uniform(raw) && |fb3d| == 3 && fb3d[0] != fb3d[1] && fb3d[0] != fb3d[2] && fb3d[1] != fb3d[2]
    requires forall i :: 0 <= i < 3 ==> fb3d[i].Valid() && |fb3d[i].words| == 2 * (raw[0].Length0 * raw[0].Length1)
    modifies fb3d[0], fb3d[1], fb3d[2]
    ensures forall i :: 0 <= i < 3 ==> fb3d[i].Valid() && fb3d[i].words == Volume3D(raw, i)
  {
    var b := 0;
    while b < BandCount
      invariant 0 <= b <= BandCount
      invariant forall i :: b <= i < 3 ==> unchanged(fb3d[i])
      invariant forall i :: 0 <= i < b ==> fb3d[i].Valid() && fb3d[i].words == Volume3D(raw, i)
    {
      Collect3D(raw, b, fb3d[b]);
      b := b + 1;
    }
  }

  /** Band b's 3D loop: z outer, then lateral index, then component, each word put at the
      absolute index 2*(z*h + xy) + c; the indices run through [0, 2wh) in order. */
  method Collect3D(raw: seq<array2<Word>>, b: int, out: FloatBuffer)
    requires Uniform(raw) && 0 <= b < BandCount
    requires out.Valid() && |out.words| == 2 * (raw[0].Length0 * raw[0].Length1)
    modifies out
    ensures out.Valid() && out.words == Volume3D(raw, b)
  {
    var w, h := raw[0].Length0, raw[0].Length1;
    var z := 0;
    while z < w
      invariant 0 <= z <= w
      invariant out.Valid() && |out.words| == 2 * (w * h)
      invariant forall k :: 0 <= k < 2 * (z * h) && k < 2 * (w * h) ==> out.words[k] == VolumeWord(raw, b, k)
    {
      PutSlab(raw, b, out, z);
      assert z * h + h == (z + 1) * h;
      z := z + 1;
    }
    assert out.words == Volume3D(raw, b);
  }

  /** One axial index z of band b's 3D loop: the words at 2*(z*h) up to 2*(z*h) + 2*h. */
  method PutSlab(raw: seq<array2<Word>>, b: int, out: FloatBuffer, z: int)
    requires Uniform(raw) && 0 <= b < BandCount && 0 <= z < raw[0].Length0
    requires out.Valid() && |out.words| == 2 * (raw[0].Length0 * raw[0].Length1)
    requires forall k :: 0 <= k < 2 * (z * raw[0].Length1) && k < |out.words| ==> out.words[k] == VolumeWord(raw, b, k)
    modifies out
    ensures out.Valid() && |out.words| == 2 * (raw[0].Length0 * raw[0].Length1)
    ensures forall k :: 0 <= k < 2 * (z * raw[0].Length1) + 2 * raw[0].Length1 && k < |out.words| ==> out.words[k] == VolumeWord(raw, b, k)
  {
    var w, h := raw[0].Length0, raw[0].Length1;
    ghost var base := 2 * (z * h);
    ghost var total := 2 * (w * h);
    var xy := 0;
    while xy < h
      invariant 0 <= xy <= h
      invariant out.Valid() && |out.words| == total
      invariant forall k :: 0 <= k < base + 2 * xy && k < total ==> out.words[k] == VolumeWord(raw, b, k)
    {
      var c := 0;
      while c < 2
        invariant 0 <= c <= 2
        invariant out.Valid() && |out.words| == total
        invariant forall k :: 0 <= k < base + 2 * xy + c && k < total ==> out.words[k] == VolumeWord(raw, b, k)
      {
        VolumeWordAt(raw, b, z, xy, c);
        out.PutAt(2 * (z * h + xy) + c, raw[b * 2 + c][z, xy]);
        c := c + 1;
      }
      xy := xy + 1;
    }
  }

  /** The 3D put index of (z, xy, c) lies in [0, 2wh) and is where `VolumeWord` reads that sample. */
  lemma VolumeWordAt(raw: seq<array2<Word>>, b: int, z: int, xy: int, c: int)
    requires Uniform(raw) && 0 <= b < BandCount
    requires 0 <= z < raw[0].Length0 && 0 <= xy < raw[0].Length1 && 0 <= c < 2
    ensures 2 * (z * raw[0].Length1 + xy) + c == 2 * (z * raw[0].Length1) + 2 * xy + c
    ensures 0 <= 2 * (z * raw[0].Length1) + 2 * xy + c < 2 * (raw[0].Length0 * raw[0].Length1)
    ensures VolumeWord(raw, b, 2 * (z * raw[0].Length1) + 2 * xy + c) == raw[2 * b + c][z, xy]
  {
    SlotInverse(z, xy, c, raw[0].Length0, raw[0].Length1);
  }

  /** The projection holds, at 2*xy + c, the z-sum of the file's samples for (xy, z), z in [0, w). */
  lemma ProjectionOfFile(raw: seq<array2<Word>>, data: seq<Byte>, lay: Layout, b: int, xy: int, c: int, add: (Word, Word) -> Word)
    requires PlanesHold(raw, data, lay) && 0 <= b < BandCount && 0 <= xy < raw[0].Length1 && 0 <= c < 2
    ensures Projection2D(raw, b, add)[2 * xy + c] ==
      FoldAdd(add, seq(lay.header.width, z => Sample(data, lay, b, xy, z, c)))
  {
    assert (2 * xy + c) % 2 == c && (2 * xy + c) / 2 == xy;
    var p := raw[2 * b + c];
    assert (2 * b + c) / 2 == b && (2 * b + c) % 2 == c;
    assert Column(p, xy) == seq(lay.header.width, z => Sample(data, lay, b, xy, z, c));
  }

  /** Composed with `readOTFs` and the decoder, band b's 3D buffer is the decoder's band array. */
  lemma VolumeIsBandStore(raw: seq<array2<Word>>, otf: OTFConverter, data: seq<Byte>, lay: Layout, b: int)
    requires PlanesHold(raw, data, lay) && otf.Holds(data, lay) && 0 <= b < BandCount
    ensures Volume3D(raw, b) == otf.GetBandsData(b)
  {
    var w, h := lay.header.width, lay.header.height;
    forall k | 0 <= k < 2 * (w * h) ensures VolumeWord(raw, b, k) == otf.bandsData[b, k] {
      SlotDecompose(k, w, h);
      assert (2 * b + k % 2) / 2 == b && (2 * b + k % 2) % 2 == k % 2;
    }
  }

  // ---------------------------------------------------------------------------
  // The metadata record

  datatype ConfValue = IntVal(i: int) | DblVal(d: real) | DataVal(bytes: seq<Byte>) | Folder(entries: seq<ConfEntry>)
  datatype ConfEntry = Entry(key: string, value: ConfValue)
  /** A named configuration tree (the `Conf` the plug-in saves). */
  datatype Conf = Conf(name: string, root: seq<ConfEntry>)

  const NumericalAperture: real := 1.4
  const CyclesLateral: real := 0.048828
  const CyclesAxial: real := 0.12307

  /** The value of the first entry called key. */
  function Find(entries: seq<ConfEntry>, key: string): Option<ConfValue> {
    if entries == [] then None
    else if entries[0].key == key then Some(entries[0].value)
    else Find(entries[1..], key)
  }

  /** The value at a path of keys below v. */
  function Lookup(v: ConfValue, path: seq<string>): Option<ConfValue>
    decreases |path|
  {
    if path == [] then Some(v)
    else match v
      case Folder(es) => (match Find(es, path[0]) case None => None case Some(c) => Lookup(c, path[1..]))
      case _ => None
  }

  function Get(cfg: Conf, path: seq<string>): Option<ConfValue> {
    Lookup(Folder(cfg.root), path)
  }

  function BandKey(i: int): string
    requires 0 <= i < 3
  {
    ["band-0", "band-1", "band-2"][i]
  }

  function BandEntries(bands: seq<seq<Byte>>): seq<ConfEntry>
    requires |bands| == 3
  {
    [Entry("band-0", DataVal(bands[0])), Entry("band-1", DataVal(bands[1])), Entry("band-2", DataVal(bands[2]))]
  }

  /** The record `saveOTFprojection` builds: an `otf2d` folder always, an `otf3d` folder only
      when the 3D OTF is stored. */
  function Metadata(w: int, h: int, wavelength: int, doSave3d: bool, band2d: seq<seq<Byte>>, band3d: seq<seq<Byte>>): (cfg: Conf)
    requires |band2d| == 3 && |band3d| == 3
    ensures cfg.name == "fairsim"
    ensures |cfg.root| == if doSave3d then 2 else 1
  {
    Conf("fairsim", if doSave3d then [Otf2d(wavelength, h, band2d), Otf3d(wavelength, w, h, band3d)] else [Otf2d(wavelength, h, band2d)])
  }

  function Otf2d(wavelength: int, h: int, band2d: seq<seq<Byte>>): ConfEntry
    requires |band2d| == 3
  {
    Entry("otf2d", Folder([Entry("NA", DblVal(NumericalAperture)), Entry("emission", IntVal(wavelength)),
      Entry("data", Folder([Entry("bands", IntVal(BandCount)), Entry("cycles", DblVal(CyclesLateral)),
        Entry("samples", IntVal(h))] + BandEntries(band2d)))]))
  }

  function Otf3d(wavelength: int, w: int, h: int, band3d: seq<seq<Byte>>): ConfEntry
    requires |band3d| == 3
  {
    Entry("otf3d", Folder([Entry("NA", DblVal(NumericalAperture)), Entry("emission", IntVal(wavelength)),
      Entry("data", Folder([Entry("bands", IntVal(BandCount)), Entry("samples-axial", IntVal(w)),
        Entry("samples-lateral", IntVal(h)), Entry("cycles-lateral", DblVal(CyclesLateral)),
        Entry("cycles-axial", DblVal(CyclesAxial))] + BandEntries(band3d)))]))
  }

  /** `Find` returns the first entry with the key. */
  lemma {:induction false} FindIndex(es: seq<ConfEntry>, key: string, i: int)
    requires 0 <= i < |es| && es[i].key == key
    requires forall j :: 0 <= j < i ==> es[j].key != key
    ensures Find(es, key) == Some(es[i].value)
  {
    if i > 0 {
      FindIndex(es[1..], key, i - 1);
    }
  }

  /** Entry i is the first one of es called k. */
  predicate FirstWithKey(es: seq<ConfEntry>, k: string, i: int) {
    0 <= i < |es| && es[i].key == k && forall j :: 0 <= j < i ==> es[j].key != k
  }

  /** A path of two keys, each found at the given index of its folder. */
  lemma Lookup2(es: seq<ConfEntry>, k1: string, i1: int, k2: string, i2: int)
    requires FirstWithKey(es, k1, i1) && es[i1].value.Folder? && FirstWithKey(es[i1].value.entries, k2, i2)
    ensures Lookup(Folder(es), [k1]) == Some(es[i1].value)
    ensures Lookup(Folder(es), [k1, k2]) == Some(es[i1].value.entries[i2].value)
  {
    var f := es[i1].value.entries;
    FindIndex(es, k1, i1);
    FindIndex(f, k2, i2);
    assert [k1, k2][0] == k1 && [k1, k2][1..] == [k2] && [k2][1..] == [] && [k1][1..] == [];
    assert Lookup(Folder(f), [k2]) == Lookup(f[i2].value, []);
    assert Lookup(Folder(es), [k1, k2]) == Lookup(Folder(f), [k2]);
  }

  /** A path of three keys, each found at the given index of its folder. */
  lemma Lookup3(es: seq<ConfEntry>, k1: string, i1: int, k2: string, i2: int, k3: string, i3: int)
    requires FirstWithKey(es, k1, i1) && es[i1].value.Folder?
    requires FirstWithKey(es[i1].value.entries, k2, i2) && es[i1].value.entries[i2].value.Folder?
    requires FirstWithKey(es[i1].value.entries[i2].value.entries, k3, i3)
    ensures Lookup(Folder(es), [k1, k2, k3]) == Some(es[i1].value.entries[i2].value.entries[i3].value)
  {
    var f := es[i1].value.entries;
    var d := f[i2].value.entries;
    FindIndex(es, k1, i1);
    FindIndex(f, k2, i2);
    FindIndex(d, k3, i3);
    assert [k1, k2, k3][0] == k1 && [k1, k2, k3][1..] == [k2, k3];
    assert [k2, k3][0] == k2 && [k2, k3][1..] == [k3] && [k3][1..] == [];
    assert Lookup(Folder(d), [k3]) == Lookup(d[i3].value, []);
    assert Lookup(Folder(f), [k2, k3]) == Lookup(Folder(d), [k3]);
    assert Lookup(Folder(es), [k1, k2, k3]) == Lookup(Folder(f), [k2, k3]);
  }

  lemma DataFolderLookup(es: seq<ConfEntry>, bands: seq<seq<Byte>>, offset: int)
    requires |bands| == 3 && 0 <= offset && |es| == offset + 3 && es[offset..] == BandEntries(bands)
    requires forall j :: 0 <= j < offset ==> 0 < |es[j].key| && es[j].key[|es[j].key| - 1] !in "012"
    ensures forall i :: 0 <= i < 3 ==> FirstWithKey(es, BandKey(i), offset + i) && es[offset + i].value == DataVal(bands[i])
  {
    forall i | 0 <= i < 3 ensures FirstWithKey(es, BandKey(i), offset + i) && es[offset + i].value == DataVal(bands[i]) {
      assert "band-0"[5] != "band-1"[5] && "band-0"[5] != "band-2"[5] && "band-1"[5] != "band-2"[5];
      assert BandKey(i)[5] in "012";
      assert es[offset + i] == BandEntries(bands)[i];
    }
  }

  /** The fields of the `otf2d` folder found at index idx of a root folder. */
  lemma Otf2dFields(root: seq<ConfEntry>, idx: int, wavelength: int, h: int, band2d: seq<seq<Byte>>)
    requires |band2d| == 3 && FirstWithKey(root, "otf2d", idx) && root[idx] == Otf2d(wavelength, h, band2d)
    ensures Lookup(Folder(root), ["otf2d", "NA"]) == Some(DblVal(NumericalAperture))
    ensures Lookup(Folder(root), ["otf2d", "emission"]) == Some(IntVal(wavelength))
    ensures Lookup(Folder(root), ["otf2d", "data", "bands"]) == Some(IntVal(BandCount))
    ensures Lookup(Folder(root), ["otf2d", "data", "cycles"]) == Some(DblVal(CyclesLateral))
    ensures Lookup(Folder(root), ["otf2d", "data", "samples"]) == Some(IntVal(h))
    ensures forall i :: 0 <= i < 3 ==> Lookup(Folder(root), ["otf2d", "data", BandKey(i)]) == Some(DataVal(band2d[i]))
  {
    var f := root[idx].value.entries;
    var d := f[2].value.entries;
    Lookup2(root, "otf2d", idx, "NA", 0);
    Lookup2(root, "otf2d", idx, "emission", 1);
    assert FirstWithKey(f, "data", 2);
    Lookup3(root, "otf2d", idx, "data", 2, "bands", 0);
    Lookup3(root, "otf2d", idx, "data", 2, "cycles", 1);
    Lookup3(root, "otf2d", idx, "data", 2, "samples", 2);
    assert d[3..] == BandEntries(band2d);
    DataFolderLookup(d, band2d, 3);
    forall i | 0 <= i < 3 ensures Lookup(Folder(root), ["otf2d", "data", BandKey(i)]) == Some(DataVal(band2d[i])) {
      Lookup3(root, "otf2d", idx, "data", 2, BandKey(i), 3 + i);
    }
  }

  /** The fields of the `otf3d` folder found at index idx of a root folder. */
  lemma Otf3dFields(root: seq<ConfEntry>, idx: int, wavelength: int, w: int, h: int, band3d: seq<seq<Byte>>)
    requires |band3d| == 3 && FirstWithKey(root, "otf3d", idx) && root[idx] == Otf3d(wavelength, w, h, band3d)
    ensures Lookup(Folder(root), ["otf3d"]).Some?
    ensures Lookup(Folder(root), ["otf3d", "NA"]) == Some(DblVal(NumericalAperture))
    ensures Lookup(Folder(root), ["otf3d", "emission"]) == Some(IntVal(wavelength))
    ensures Lookup(Folder(root), ["otf3d", "data", "bands"]) == Some(IntVal(BandCount))
    ensures Lookup(Folder(root), ["otf3d", "data", "samples-axial"]) == Some(IntVal(w))
    ensures Lookup(Folder(root), ["otf3d", "data", "samples-lateral"]) == Some(IntVal(h))
    ensures Lookup(Folder(root), ["otf3d", "data", "cycles-lateral"]) == Some(DblVal(CyclesLateral))
    ensures Lookup(Folder(root), ["otf3d", "data", "cycles-axial"]) == Some(DblVal(CyclesAxial))
    ensures forall i :: 0 <= i < 3 ==> Lookup(Folder(root), ["otf3d", "data", BandKey(i)]) == Some(DataVal(band3d[i]))
  {
    var f := root[idx].value.entries;
    var d := f[2].value.entries;
    Lookup2(root, "otf3d", idx, "NA", 0);
    Lookup2(root, "otf3d", idx, "emission", 1);
    assert FirstWithKey(f, "data", 2);
    assert "samples-axial"[8] != "samples-lateral"[8];
    assert "cycles-lateral"[7] != "cycles-axial"[7];
    Lookup3(root, "otf3d", idx, "data", 2, "bands", 0);
    Lookup3(root, "otf3d", idx, "data", 2, "samples-axial", 1);
    Lookup3(root, "otf3d", idx, "data", 2, "samples-lateral", 2);
    Lookup3(root, "otf3d", idx, "data", 2, "cycles-lateral", 3);
    Lookup3(root, "otf3d", idx, "data", 2, "cycles-axial", 4);
    assert d[5..] == BandEntries(band3d);
    DataFolderLookup(d, band3d, 5);
    forall i | 0 <= i < 3 ensures Lookup(Folder(root), ["otf3d", "data", BandKey(i)]) == Some(DataVal(band3d[i])) {
      Lookup3(root, "otf3d", idx, "data", 2, BandKey(i), 5 + i);
    }
  }

  /** The fields of the stored record: NA 1.4, the emission wavelength, 3 bands, the lateral
      cycles and the sample count h with the three 2D band payloads under `otf2d`; under
      `otf3d`, present exactly when the 3D OTF is stored, the axial and lateral sample counts
      and cycles and the three 3D payloads. */
  lemma MetadataFields(w: int, h: int, wavelength: int, doSave3d: bool, band2d: seq<seq<Byte>>, band3d: seq<seq<Byte>>)
    requires |band2d| == 3 && |band3d| == 3
    ensures var cfg := Metadata(w, h, wavelength, doSave3d, band2d, band3d);
      && cfg.name == "fairsim"
      && Get(cfg, ["otf2d", "NA"]) == Some(DblVal(NumericalAperture))
      && Get(cfg, ["otf2d", "emission"]) == Some(IntVal(wavelength))
      && Get(cfg, ["otf2d", "data", "bands"]) == Some(IntVal(BandCount))
      && Get(cfg, ["otf2d", "data", "cycles"]) == Some(DblVal(CyclesLateral))
      && Get(cfg, ["otf2d", "data", "samples"]) == Some(IntVal(h))
      && (forall i :: 0 <= i < 3 ==> Get(cfg, ["otf2d", "data", BandKey(i)]) == Some(DataVal(band2d[i])))
      && (Get(cfg, ["otf3d"]).Some? <==> doSave3d)
      && (doSave3d ==>
        && Get(cfg, ["otf3d", "NA"]) == Some(DblVal(NumericalAperture))
        && Get(cfg, ["otf3d", "emission"]) == Some(IntVal(wavelength))
        && Get(cfg, ["otf3d", "data", "bands"]) == Some(IntVal(BandCount))
        && Get(cfg, ["otf3d", "data", "samples-axial"]) == Some(IntVal(w))
        && Get(cfg, ["otf3d", "data", "samples-lateral"]) == Some(IntVal(h))
        && Get(cfg, ["otf3d", "data", "cycles-lateral"]) == Some(DblVal(CyclesLateral))
        && Get(cfg, ["otf3d", "data", "cycles-axial"]) == Some(DblVal(CyclesAxial))
        && forall i :: 0 <= i < 3 ==> Get(cfg, ["otf3d", "data", BandKey(i)]) == Some(DataVal(band3d[i])))
  {
    var root := Metadata(w, h, wavelength, doSave3d, band2d, band3d).root;
    Otf2dFields(root, 0, wavelength, h, band2d);
    if doSave3d {
      assert "otf2d"[3] != "otf3d"[3];
      assert FirstWithKey(root, "otf3d", 1);
      Otf3dFields(root, 1, wavelength, w, h, band3d);
    } else {
      assert "otf2d"[3] != "otf3d"[3];
      assert Find(root, "otf3d") == None;
    }
  }
}
