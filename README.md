# OMX tools: OTF decoding, OTF transforms and SIM stack splitting

This project is a Dafny model of the core of the `de.bio_photonics.omxtools` ImageJ plug-ins.
Proofs accompany the model.

- **`OtfConverter`** (`otf_converter.dfy`) decodes an OMX optical-transfer-function file.
  - The header uses the MRC/Deltavision layout. Its fields are little-endian `int`s and
    floats at fixed byte offsets.
  - One validation rule applies: 3 images of pixel type 4 (complex float32).
  - Pixel data starts at the extended-header size plus 1024. It is read with a
    sequential little-endian cursor, 3 bands of width × height (re, im) pairs, in file order:
    lateral `y` outer, axial `x` inner.
  - Bands are stored transposed at `(x*height + y)*2`. The accessors `getReal`/`getImag`
    take the lateral coordinate first.
  - The decoder is a class over a 3 × `2*w*h` `array2` of raw float32 words, filled by a
    `LEByteBuffer` cursor class.
- **`OtfReader`** (`otf_reader.dfy`) covers what the OTF reader plug-in does with the store.
  - `readOTFs` copies the store into six planes indexed `[axial, lateral]`.
  - `displayOTFs` computes the index map of the power spectra: DC centering of the axial
    axis, and mirroring of the lateral axis onto a doubled width. The magnitude and phase
    values stay abstract.
  - `saveOTFprojection`:
    - sums the axial axis into per-band interleaved (re, im) float buffers, filled by
      relative `put`s;
    - repacks the full 3D data with absolute `put`s;
    - builds the `fairsim` metadata tree around the big-endian bytes of those buffers.
  - The dialog rule that storing the 3D OTF also stores the 2D one.
- **`OmxSplitter`** (`omx_splitter.dfy`) covers the OMX stack splitter.
  - A stack holds 15 images per z-plane: 3 angles, each holding all its z-planes of 5
    phases in turn.
  - The size and index checks stop the plug-in with a message.
  - `get2Dstack` cuts out one z-plane, optionally zero-padded into an f-times larger frame.
  - `seperateAngles` makes one stack per angle whose slices are the 5-phase sums made by
    `sumUp`.
- **`ZeissSplitter`** (`zeiss_splitter.dfy`) covers the Zeiss splitter.
  - A stack holds 25 images per z-plane, stored phase-major with the z-planes innermost.
  - It is cut into the 25 images of one z-plane, angle-major.
- **Shared modules.**
  - `Words` (`words.dfy`): bytes, 32-bit words, Java `int` arithmetic, and little- and
    big-endian encodings.
  - `ImageStacks` (`image_stacks.dfy`): image processors as `array2<real>` indexed
    `[x, y]`, and `duplicate`.
  - `Results` (`results.dfy`): `Result` and `Option`.

Float32 values are their raw 32-bit patterns. They are never interpreted, except where
the source does arithmetic on them:
- `hypot`, `atan2` and the floored `log` of the display are abstract functions, passed in a `FloatMaths` value;
- the float addition of the projection is an abstract `add`, and its sums are left folds of it from 0;
- the splitters' pixel sums are sums of reals.

Java exceptions and the plug-ins' message boxes become `Failure` values of `Result`.

Three facts about the code shape the model:
- **Order of the pixel data in the file.** The code reads the pixel data as
  `[band][height][width][re, im]`: lateral rows, with the axial samples inside each row.
  The transposition happens only in the store.
- **No export check.** `saveOTFprojection` has no check on the band count. It always reads
  three bands from the six planes it is given.
- **Truncated files.** A file too short for its pixel data fails with the
  `BufferUnderflowException` of `getFloat`. The model reports this as the `TruncatedData` failure.

## Model

| member | source | states |
|---|---|---|
| OtfConverter.Check | src/main/java/de/bio_photonics/omxtools/OTFConverter.java:42-84 | fails with HeaderTruncated iff the buffer is shorter than the 98 header bytes read, with NotOmxOtf iff the header is not 3 images of type 4. On success the layout holds the decoded header and a start of extHeader + 1024 (Java int), and the whole 3-band payload fits the buffer. BadDataStart iff the header is an OMX OTF but the start lies outside the buffer. TruncatedData means the start is inside the buffer but the payload is not |
| OtfConverter.DecodeHeader | src/main/java/de/bio_photonics/omxtools/OTFConverter.java:50-60 | the header fields from the absolute little-endian reads at 0, 4, 8, 12 and 92 (Java ints, so always in the int range) and the pixel-size words at 44 and 40; HeaderRoundTrip and HeaderFromPrefix fix its meaning |
| OtfConverter.HeaderRoundTrip | src/main/java/de/bio_photonics/omxtools/OTFConverter.java:49-60 | a header written with width, height, image count and type as little-endian ints at 0, 4, 8 and 12, the pixel sizes at 40 and 44 and the extended-header size at 92 decodes to exactly those fields |
| OtfConverter.HeaderFromPrefix | src/main/java/de/bio_photonics/omxtools/OTFConverter.java:49-60 | the decoded header depends on the first 98 bytes only |
| OtfConverter.ValidationIgnoresPixels | src/main/java/de/bio_photonics/omxtools/OTFConverter.java:67-69 | acceptance depends only on the image-count and pixel-type words at bytes 8-15, and a rejected file is rejected whatever its other bytes, before any pixel is read |
| OtfConverter.CheckAfterStart | src/main/java/de/bio_photonics/omxtools/OTFConverter.java:72-84 | once the header is accepted and the start lies in the buffer, decoding succeeds exactly when the 24*w*h payload bytes after the start are present |
| OtfConverter.SlotInverse | src/main/java/de/bio_photonics/omxtools/OTFConverter.java:81-82 | the slot (x*height + y)*2 + c lies in [0, 2wh), gives back x, y and c, and equals the accessor index 2*(y + x*height) + c |
| OtfConverter.SlotDecompose | src/main/java/de/bio_photonics/omxtools/OTFConverter.java:76-84 | every index of a band array is the slot of one in-range (x, y) plus its component |
| OtfConverter.StorageMapBijective | src/main/java/de/bio_photonics/omxtools/OTFConverter.java:76-84 | the storage map is a bijection from [0,w)×[0,h) onto the even indices of [0, 2wh), so every slot of a band is written exactly once |
| OtfConverter.OffsetBound | src/main/java/de/bio_photonics/omxtools/OTFConverter.java:72-84 | component c of band b, sample (y, x), lies at start + 8*(b*w*h + y*w + x) + 4c, inside the payload |
| OtfConverter.SamplesInBounds | src/main/java/de/bio_photonics/omxtools/OTFConverter.java:72-84 | for an accepted file every sample the loops read is inside the buffer |
| OtfConverter.LEByteBuffer.Wrap | src/main/java/de/bio_photonics/omxtools/OTFConverter.java:41-46 | a little-endian cursor over the file bytes, at position 0 |
| OtfConverter.LEByteBuffer.SetPosition | src/main/java/de/bio_photonics/omxtools/OTFConverter.java:73 | the cursor moves to p exactly when 0 <= p <= length, and otherwise reports failure and stays |
| OtfConverter.LEByteBuffer.NextFloat | src/main/java/de/bio_photonics/omxtools/OTFConverter.java:81-82 | returns the little-endian word at the cursor and advances by 4 when 4 bytes remain, and otherwise fails without moving |
| OtfConverter.OTFConverter.constructor | src/main/java/de/bio_photonics/omxtools/OTFConverter.java:50-76 | copies the header fields and allocates 3 zeroed bands of width*height*2 words |
| OtfConverter.OTFConverter.Read | src/main/java/de/bio_photonics/omxtools/OTFConverter.java:32-85 | fails exactly when Check fails, with the same error, so no partial store escapes; on success every slot k of band b holds the file word of sample (k/2 % h, k/2 / h), component k % 2 |
| OtfConverter.OTFConverter.ReadBand | src/main/java/de/bio_photonics/omxtools/OTFConverter.java:78-84 | reads one band's w*h pairs in file order into their transposed slots, leaves the other bands alone and leaves the cursor at the next band |
| OtfConverter.OTFConverter.ReadRow | src/main/java/de/bio_photonics/omxtools/OTFConverter.java:79-83 | reads lateral row y, all axial x, extending the filled part of the band by that row |
| OtfConverter.OTFConverter.ReadPair | src/main/java/de/bio_photonics/omxtools/OTFConverter.java:81-82 | the two getFloat calls of sample (y, x): on success slot (x*height + y)*2 and the one after it hold the sample's stored words, the cursor stands at the next sample, and no other slot of any band changes; failure means the payload is truncated |
| OtfConverter.OTFConverter.GetBandsData | src/main/java/de/bio_photonics/omxtools/OTFConverter.java:136-138 | band b as a sequence, element for element |
| OtfConverter.OTFConverter.GetSamplesLateral | src/main/java/de/bio_photonics/omxtools/OTFConverter.java:140-142 | returns height: the source calls the file's height the lateral count (the swap is intended, since getReal/getImag take lateral first), and the band length is 2 * axial * lateral |
| OtfConverter.OTFConverter.GetSamplesAxial | src/main/java/de/bio_photonics/omxtools/OTFConverter.java:144-146 | returns width, the axial count, non-negative |
| OtfConverter.OTFConverter.GetNrBands | src/main/java/de/bio_photonics/omxtools/OTFConverter.java:148-150 | the image count, which is 3 after validation, matching the band array |
| OtfConverter.OTFConverter.GetReal | src/main/java/de/bio_photonics/omxtools/OTFConverter.java:89-91 | reads slot Slot(axial, lateral, height), the slot the decoder filled with the real part of file sample (lateral, axial); GetRealIsFileSample gives the file word |
| OtfConverter.OTFConverter.GetImag | src/main/java/de/bio_photonics/omxtools/OTFConverter.java:93-95 | reads the slot after Slot(axial, lateral, height), where the imaginary part of that sample is stored; GetRealIsFileSample gives the file word |
| OtfConverter.OTFConverter.GetCyclesPerMicronLateral | src/main/java/de/bio_photonics/omxtools/OTFConverter.java:152-154 | returns the lateral pixel-size word (read from byte 44), under the source's cycles-per-micron name |
| OtfConverter.OTFConverter.GetCyclesPerMicronAxial | src/main/java/de/bio_photonics/omxtools/OTFConverter.java:156-158 | returns the axial pixel-size word (read from byte 40), under the source's cycles-per-micron name |
| OtfConverter.GettersAreHeaderFields | src/main/java/de/bio_photonics/omxtools/OTFConverter.java:50-60 | for a decoded file, getSamplesLateral is the int at byte 4 (height), getSamplesAxial the int at 0 (width), getNrBands the int at 8 (which is 3), and the two cycles getters the words at 44 and 40 |
| OtfConverter.GetRealIsFileSample | src/main/java/de/bio_photonics/omxtools/OTFConverter.java:76-95 | getReal(b, y, x) and getImag(b, y, x) return the two little-endian words the file holds for band b, sample (y, x): the transposed store and the swapped accessor cancel out |
| Words.ToInt32 | src/main/java/de/bio_photonics/omxtools/OTFConverter.java:50-56 | a word read as a Java int lies in the int range and is congruent to the word mod 2^32 |
| Words.Wrap32 | src/main/java/de/bio_photonics/omxtools/OTFConverter.java:72 | Java int addition: the result is in range, congruent to the exact sum, and equal to it when no overflow happens |
| Words.EncodeWordsBE | src/main/java/de/bio_photonics/omxtools/OTF_Reader.java:228-235 | the bytes behind a big-endian float buffer: 4 per word, each word decodable at 4i |
| Words.BigEndianRoundTrip | src/main/java/de/bio_photonics/omxtools/OTF_Reader.java:228-235 | decoding the bytes of a big-endian float buffer gives back its words |
| OtfReader.ApplyDialog | src/main/java/de/bio_photonics/omxtools/OTF_Reader.java:314-322 | each checkbox sets its option; storing the 3D OTF forces storing the projection, and the projection is stored only when one of the two boxes is ticked |
| OtfReader.UnchangedDialogKeepsOptions | src/main/java/de/bio_photonics/omxtools/OTF_Reader.java:296-322 | the dialog opens showing the current options and a wavelength of 515; accepted unchanged, it keeps every option that already satisfies "3D implies projection" and resets the wavelength to 515 |
| OtfReader.DefaultsAreDialogFixedPoint | src/main/java/de/bio_photonics/omxtools/OTF_Reader.java:31-38 | `DefaultOptions` holds the field defaults (mirror, log scale and DC centring on; raw, phases, projection and 3D off; 515 nm), which satisfy the dialog rule, so the unchanged dialog returns them |
| OtfReader.ReadOTFs | src/main/java/de/bio_photonics/omxtools/OTF_Reader.java:181-203 | fails exactly when decoding fails; otherwise six fresh w×h planes, plane 2b at (x, y) holding the file's real word of band b, sample (y, x), and plane 2b+1 its imaginary word |
| OtfReader.FillBand | src/main/java/de/bio_photonics/omxtools/OTF_Reader.java:190-199 | the two planes of one band, filled from getReal/getImag(band, y, x) |
| OtfReader.FillRow | src/main/java/de/bio_photonics/omxtools/OTF_Reader.java:195-198 | the x loop of one lateral row y writes getReal/getImag(band, y, x) at (x, y); given that these accessors return the file samples of row y (AccessorIsSample), rows up to y hold the file samples |
| OtfReader.AccessorsGiveSample | src/main/java/de/bio_photonics/omxtools/OTF_Reader.java:195-198 | on a decoded file, the getReal/getImag(band, y, x) calls of the copy loop are in bounds and return components 0 and 1 of file sample (y, x) |
| OtfReader.CenteringPermutes | src/main/java/de/bio_photonics/omxtools/OTF_Reader.java:141 | for w > 0, (x + w/2) % w is a permutation of [0, w), with (oy + w - w/2) % w as its inverse both ways |
| OtfReader.DcRow | src/main/java/de/bio_photonics/omxtools/OTF_Reader.java:141 | with centering the axial DC sample lands on row w/2; without centering the row is x |
| OtfReader.MirrorColumns | src/main/java/de/bio_photonics/omxtools/OTF_Reader.java:143-153 | with mirroring, lateral y goes to column y + h in [h, 2h) and to column h - y in [1, h], without it to column y; those are the only columns showing y |
| OtfReader.RenderBand | src/main/java/de/bio_photonics/omxtools/OTF_Reader.java:121-155 | the magnitude and phase images of a band are fresh, 2h (or h) by w, and hold at every written cell the value of the sample that the index maps send there, 0 in column 0 when mirroring |
| OtfReader.RenderRow | src/main/java/de/bio_photonics/omxtools/OTF_Reader.java:127-154 | writing lateral row y extends the rendered part of both images by exactly the columns showing y |
| OtfReader.WriteSample | src/main/java/de/bio_photonics/omxtools/OTF_Reader.java:128-153 | one sample (y, x) fills exactly the cells whose row and column lead back to it: row OutRow(x), column y (+ h), and the mirror column when mirroring |
| OtfReader.DisplayOTFs | src/main/java/de/bio_photonics/omxtools/OTF_Reader.java:101-166 | the raw stack is the six planes when requested and empty otherwise. The spectrum stack has 3 or 6 slices: per band its magnitude, then its phase when phases are requested, each rendered from planes 2b and 2b+1 |
| OtfReader.MirroredSpectrumSymmetric | src/main/java/de/bio_photonics/omxtools/OTF_Reader.java:143-153 | a mirrored spectrum is symmetric about column h, and its column 0 stays 0 |
| OtfReader.CentredRowIsDc | src/main/java/de/bio_photonics/omxtools/OTF_Reader.java:141-147 | with centering, row w/2 of the spectrum shows axial sample 0 |
| OtfReader.FloatBuffer.Allocate | src/main/java/de/bio_photonics/omxtools/OTF_Reader.java:228-234 | a zeroed buffer of the given capacity, positioned at 0 |
| OtfReader.FloatBuffer.Put | src/main/java/de/bio_photonics/omxtools/OTF_Reader.java:250 | a relative put stores at the position and advances it by one |
| OtfReader.FloatBuffer.PutAt | src/main/java/de/bio_photonics/omxtools/OTF_Reader.java:259 | an absolute put stores at i and keeps the position |
| OtfReader.FloatBuffer.Bytes | src/main/java/de/bio_photonics/omxtools/OTF_Reader.java:228-235 | the backing byte array holds 4 bytes per word and decodes big-endian back to the words |
| OtfReader.SumColumn | src/main/java/de/bio_photonics/omxtools/OTF_Reader.java:240-248 | the running sum from 0 over z in [0, w) of plane (z, xy) is the left fold of the float addition |
| OtfReader.Projection2D | src/main/java/de/bio_photonics/omxtools/OTF_Reader.java:238-252 | band b's projection has 2h words, word 2xy + c being the axial sum of plane 2b+c at lateral xy |
| OtfReader.Volume3D | src/main/java/de/bio_photonics/omxtools/OTF_Reader.java:254-260 | band b's 3D data has 2wh words, word k holding plane 2b + k%2 at the (z, xy) the storage map sends to k |
| OtfReader.ProjectBands | src/main/java/de/bio_photonics/omxtools/OTF_Reader.java:239-252 | after the lateral loop each band's 2D buffer is exactly full (2h sequential puts) and holds that band's projection |
| OtfReader.ProjectLateral | src/main/java/de/bio_photonics/omxtools/OTF_Reader.java:243-251 | one lateral step appends the two sums of each band to its buffer |
| OtfReader.PutSums | src/main/java/de/bio_photonics/omxtools/OTF_Reader.java:244-251 | puts the re and im sums of one band at lateral xy |
| OtfReader.Collect3DBands | src/main/java/de/bio_photonics/omxtools/OTF_Reader.java:255-260 | each band's 3D buffer ends up holding that band's 3D data |
| OtfReader.Collect3D | src/main/java/de/bio_photonics/omxtools/OTF_Reader.java:256-260 | the z loop of one band fills its whole 3D buffer |
| OtfReader.PutSlab | src/main/java/de/bio_photonics/omxtools/OTF_Reader.java:257-259 | one axial z fills indices [2zh, 2zh + 2h) with plane 2b+c at (z, xy) and keeps what was already filled |
| OtfReader.VolumeWordAt | src/main/java/de/bio_photonics/omxtools/OTF_Reader.java:259 | the 3D put index 2*(z*h + xy) + c is in [0, 2wh) and its word is plane 2b+c at (z, xy) |
| OtfReader.ProjectionOfFile | src/main/java/de/bio_photonics/omxtools/OTF_Reader.java:238-252 | for planes read from a file, projection word 2xy + c is the fold over axial z of the file's component c of band b at (xy, z) |
| OtfReader.VolumeIsBandStore | src/main/java/de/bio_photonics/omxtools/OTF_Reader.java:254-260 | for planes read from a file, band b's 3D buffer equals the decoder's bandsData[b] element for element |
| OtfReader.ProjectionBytes | src/main/java/de/bio_photonics/omxtools/OTF_Reader.java:228-252 | the three `band` byte arrays after the projection loop: the big-endian bytes of Projection2D for bands 0, 1 and 2 |
| OtfReader.VolumeBytes | src/main/java/de/bio_photonics/omxtools/OTF_Reader.java:229-260 | the three `band3d` byte arrays after the 3D collection loop: the big-endian bytes of Volume3D for bands 0, 1 and 2 |
| OtfReader.SaveOTFProjection | src/main/java/de/bio_photonics/omxtools/OTF_Reader.java:207-283 | the metadata record it builds holds the big-endian bytes of the three projections and, when wanted, of the three 3D bands |
| OtfReader.Metadata | src/main/java/de/bio_photonics/omxtools/OTF_Reader.java:215-282 | the record is named fairsim and has the otf2d folder, plus otf3d exactly when 3D is stored |
| OtfReader.Otf2dFields | src/main/java/de/bio_photonics/omxtools/OTF_Reader.java:216-264 | otf2d holds NA 1.4, the emission wavelength, and data with bands 3, cycles 0.048828, samples h and band-0..2 |
| OtfReader.Otf3dFields | src/main/java/de/bio_photonics/omxtools/OTF_Reader.java:266-282 | otf3d holds NA 1.4, the emission, and data with bands 3, samples-axial w, samples-lateral h, cycles-lateral 0.048828, cycles-axial 0.12307 and band-0..2 |
| OtfReader.MetadataFields | src/main/java/de/bio_photonics/omxtools/OTF_Reader.java:215-282 | every field of the record read back by its key path, and otf3d present if and only if 3D is stored |
| ImageStacks.Duplicate | src/main/java/de/bio_photonics/omxtools/OMX_Splitter.java:109 | a fresh image of the same size and pixels |
| OmxSplitter.AcceptStackIsPositiveMultiple | src/main/java/de/bio_photonics/omxtools/OMX_Splitter.java:28-32 | the size test passes exactly for positive multiples of 15 |
| OmxSplitter.AcceptIndexNamesPlane | src/main/java/de/bio_photonics/omxtools/OMX_Splitter.java:65-68 | an index passes exactly when idx - 1 names one of the numImages/15 z-planes, of which there is at least one |
| OmxSplitter.Refuse | src/main/java/de/bio_photonics/omxtools/OMX_Splitter.java:21-68 | each refusal holds exactly when its check is the first to fail: NoActiveImage iff there is no image; NotMultipleOf15 iff there is one and its size fails; NotGrayscale iff the size passes and the type is not grayscale; IndexOutOfRange iff those pass, the task is a 2D slice and the index fails. The plug-in goes ahead exactly when all checks pass |
| OmxSplitter.MessagesDistinct | src/main/java/de/bio_photonics/omxtools/OMX_Splitter.java:23-66 | `Message` gives the text shown for each refusal, and two refusals show the same text exactly when they are the same refusal |
| OmxSplitter.Get2DPosLayout | src/main/java/de/bio_photonics/omxtools/OMX_Splitter.java:107 | for 15*zDepth images, angle*numImages/3 + slice*5 + pha is (angle*zDepth + slice)*5 + pha, inside the stack |
| OmxSplitter.Get2DPosDistinct | src/main/java/de/bio_photonics/omxtools/OMX_Splitter.java:105-109 | the 15 positions read for one z-plane are in [0, numImages) and pairwise distinct |
| OmxSplitter.LayoutInverse | src/main/java/de/bio_photonics/omxtools/OMX_Splitter.java:144 | every image index has an in-range angle, z-plane and phase whose layout position it is |
| OmxSplitter.LayoutInjective | src/main/java/de/bio_photonics/omxtools/OMX_Splitter.java:107 | distinct (angle, z-plane, phase) have distinct layout positions |
| OmxSplitter.BlocksPartition | src/main/java/de/bio_photonics/omxtools/OMX_Splitter.java:141-146 | the 5-image blocks summed per (angle, z-plane) partition the stack: each image is in one block, and in no other |
| OmxSplitter.PadPlacementInFrame | src/main/java/de/bio_photonics/omxtools/OMX_Splitter.java:111-116 | for f >= 1 the padded position x + (f-1)*(n/2) stays inside [0, f*n) |
| OmxSplitter.PadSlice | src/main/java/de/bio_photonics/omxtools/OMX_Splitter.java:111-121 | a fresh f*w by f*h frame holding the 16-bit store of input pixel (x, y) at (x + (f-1)*(w/2), y + (f-1)*(h/2)) and 0 elsewhere |
| OmxSplitter.CutAngle | src/main/java/de/bio_photonics/omxtools/OMX_Splitter.java:106-123 | the 5 phase images of one angle, each a duplicate or a padded copy of the image at its position |
| OmxSplitter.Get2DStack | src/main/java/de/bio_photonics/omxtools/OMX_Splitter.java:95-128 | 15 fresh slices, slice j being image Get2DPos(j/5, j%5, slice) duplicated or zero-padded, so angle-major then phase |
| OmxSplitter.SumUp | src/main/java/de/bio_photonics/omxtools/OMX_Splitter.java:155-174 | a fresh image of the stack's size whose pixel (x, y) is the sum from zero of images n .. n+m-1 at (x, y) |
| OmxSplitter.AddInto | src/main/java/de/bio_photonics/omxtools/OMX_Splitter.java:165-168 | adds one image into the running sum, pixel by pixel |
| OmxSplitter.SeperateAngles | src/main/java/de/bio_photonics/omxtools/OMX_Splitter.java:131-151 | 3 stacks of numImages/15 fresh slices; slice z of angle ang is the sum of images (ang*zDepth + z)*5 .. +4, inside the stack |
| OmxSplitter.SumPlane | src/main/java/de/bio_photonics/omxtools/OMX_Splitter.java:142-145 | one z-plane's 5-phase sum for each of the 3 angles |
| OmxSplitter.Run | src/main/java/de/bio_photonics/omxtools/OMX_Splitter.java:18-92 | refuses exactly as Refuse says, with its refusal. Otherwise a 2D slice gives the 15 slices of Get2DStack for z-plane idx - 1, and angle separation gives the 3 summed stacks of SeperateAngles |
| ZeissSplitter.Refuse | src/main/java/de/bio_photonics/omxtools/Zeiss_Splitter.java:21-52 | each refusal holds exactly when its check is the first to fail: NoActiveImage iff there is no image; NotMultipleOf25 iff there is one and its size fails (fewer than 25 or not a multiple of 25); NotGrayscale iff the size passes and the type is not grayscale; IndexOutOfRange iff those pass and the index is outside 1..numImages/25. The cut goes ahead exactly when all checks pass |
| ZeissSplitter.MessagesDistinct | src/main/java/de/bio_photonics/omxtools/Zeiss_Splitter.java:23-50 | `Message` gives the text shown for each refusal, and two refusals show the same text exactly when they are the same refusal |
| ZeissSplitter.PosInStack | src/main/java/de/bio_photonics/omxtools/Zeiss_Splitter.java:69-74 | pha*(zLen*5) + angle*zLen + slice is (5*pha + angle)*zLen + slice and lies in [0, 25*zLen) |
| ZeissSplitter.PosInverse | src/main/java/de/bio_photonics/omxtools/Zeiss_Splitter.java:74 | every image index is the position of one in-range angle, phase and z-plane |
| ZeissSplitter.PosInjective | src/main/java/de/bio_photonics/omxtools/Zeiss_Splitter.java:74 | distinct (angle, phase, z-plane) have distinct positions |
| ZeissSplitter.Get2DStackPicksPlane | src/main/java/de/bio_photonics/omxtools/Zeiss_Splitter.java:72-76 | the 25 images picked for a z-plane lie in the stack, belong to that z-plane and are pairwise distinct |
| ZeissSplitter.CopyAngle | src/main/java/de/bio_photonics/omxtools/Zeiss_Splitter.java:73-76 | duplicates of the 5 phase images of one angle |
| ZeissSplitter.Get2DStack | src/main/java/de/bio_photonics/omxtools/Zeiss_Splitter.java:62-80 | 25 fresh slices of the input's size; slot 5*angle + pha is a copy of image Pos(angle, pha, slice) |
| ZeissSplitter.Run | src/main/java/de/bio_photonics/omxtools/Zeiss_Splitter.java:18-59 | refuses exactly as Refuse says, with its refusal, and otherwise returns the 25 slices of z-plane idx - 1 |

## Left out

- File and user-interface plumbing is left out, because it is I/O rather than logic. That
  covers:
  - the file choosers, `RandomAccessFile` reading (the decoder takes the loaded bytes),
    `GenericDialog` and `showDialog`, and cancelled dialogs;
  - `ImagePlus.show`, `WindowManager` (the active image is an `Option` parameter), the
    `run` of the OTF reader plug-in, and `main`;
  - the `(int)` cast of the dialogs' numeric fields (the index, pad factor and wavelength
    are `int` parameters);
  - the slice labels of the stacks.
- `Conf.saveFile` and its errors are left out: `Conf` is a foreign class. The model builds
  only the key/value tree that would be saved.
- Floating point is not modelled: float words are never interpreted.
  - `hypot`, `atan2` and the `log` with the `1e-3` floor are abstract functions in
    `FloatMaths`.
  - The float addition of the projection is an abstract function.
  - `float` to `double` widening in the getters is not modelled.
- OmxSplitter.SumUp: sums in exact reals, not with float32 rounding.
- OmxSplitter.PadSlice: the `ShortProcessor` conversion of a stored pixel is an abstract
  `store16` function. Its truncation and clamping are not modelled.
- `fadeEdges` is left out: it uses trigonometry and is never called.
- The global logger and the endian stamp at bytes 96-97 are left out: they only log. The
  stamp is counted only in the 98-byte header length.
- OtfConverter.OTFConverter.Read: requires `DimensionsFit`. Negative dimensions and an
  overflowing `width*height*2` array size are excluded rather than modelled.
- OtfReader.ReadOTFs: requires `DimensionsFit`, for the same reason.
- OtfReader.SaveOTFProjection: requires `8*w*h` to fit a Java `int`, since the byte-array
  size `2*4*h*w` is not modelled wrapping.
- OtfReader.VolumeBytes: requires `8*w*h` to fit a Java `int`, for the same reason.
- OtfReader.FloatBuffer.Put: requires room in the buffer. `saveOTFprojection` makes exactly
  capacity-many puts, so its `BufferOverflowException` is never reached.
- OmxSplitter.Run: requires a pad factor of at least 1 only when padding and every check
  passes (an accepted index). Refused calls are modelled for any pad factor; only after
  acceptance does the Java code fail inside `ShortProcessor`/`setf` with a runtime
  exception for a smaller factor, which is not modelled.
- OmxSplitter.Run: also requires all slices of the stack to have one size, as an ImageJ
  stack guarantees.
- OmxSplitter.SeperateAngles: computes the three sums of a z-plane and then appends them,
  where the source appends each sum as it is computed. The resulting stacks are the same;
  the order of the appends is not modelled.
