/** The OMX stack splitter: a stack of 15 images per z-plane (3 angles, each holding its
    z-planes of 5 phases in turn) is either cut down to the 15 images of one z-plane,
    optionally zero-padded, or split into one stack per angle with the 5 phases summed. */
module OmxSplitter {
  import opened Words
  import opened Results
  import opened ImageStacks

  const Angles: int := 3
  const Phases: int := 5
  /** Images per z-plane: 3 angles of 5 phases. */
  const PerPlane: int := 15

  datatype Refusal = NoActiveImage | NotMultipleOf15 | NotGrayscale | IndexOutOfRange

  /** The message the plug-in shows for each refusal. */
  function Message(r: Refusal): string {
    match r
    case NoActiveImage => "No active image stack selected"
    case NotMultipleOf15 => "OMX stack should be n*15 Images"
    case NotGrayscale => "OMX stack should be a grayscale image"
    case IndexOutOfRange => "Index out of range"
  }

  /** Each refusal shows its own text, so the message tells the user which check failed. */
  lemma MessagesDistinct(r1: Refusal, r2: Refusal)
    ensures Message(r1) == Message(r2) <==> r1 == r2
  {
  }

  /** The size test of `run`. */
  predicate AcceptStack(numImages: int) {
    !(numImages < 3 || numImages % PerPlane != 0)
  }

  /** The test on the 1-based slice index of the dialog. */
  predicate AcceptIndex(idx: int, numImages: int) {
    !(idx <= 0 || idx > numImages / PerPlane)
  }

  /** A stack size passes exactly when it is a positive multiple of 15. */
  lemma AcceptStackIsPositiveMultiple(numImages: nat)
    ensures AcceptStack(numImages) <==> numImages > 0 && numImages % PerPlane == 0
  {
  }

  /** An accepted index names one of the numImages / 15 z-planes. */
  lemma AcceptIndexNamesPlane(idx: int, numImages: nat)
    requires AcceptStack(numImages)
    ensures AcceptIndex(idx, numImages) <==> 0 <= idx - 1 < numImages / PerPlane
    ensures numImages / PerPlane >= 1
  {
  }

  /** The stack index of phase pha of angle `angle` in z-plane `slice` of `get2Dstack`. */
  function Get2DPos(angle: int, pha: int, slice: int, numImages: int): int {
    angle * numImages / 3 + slice * Phases + pha
  }

  /** The stack layout: image (ang*zDepth + z)*5 + p is phase p of angle ang in z-plane z. */
  function Layout(ang: int, z: int, p: int, zDepth: int): int {
    (ang * zDepth + z) * Phases + p
  }

  /** `get2Dstack` reads the stack in the layout `seperateAngles` sums over, in range. */
  lemma {:induction false} Get2DPosLayout(angle: int, pha: int, slice: int, zDepth: int)
    requires 0 <= angle < Angles && 0 <= pha < Phases && 0 <= slice < zDepth
    ensures Get2DPos(angle, pha, slice, PerPlane * zDepth) == Layout(angle, slice, pha, zDepth)
    ensures 0 <= Layout(angle, slice, pha, zDepth) < PerPlane * zDepth
  {
    assert angle * (PerPlane * zDepth) == (angle * Phases * zDepth) * 3;
    DivModUnique(angle * (PerPlane * zDepth), angle * Phases * zDepth, 0, 3);
    assert Layout(angle, slice, pha, zDepth) == angle * zDepth * Phases + slice * Phases + pha;
    MulMonotone(angle + 1, Angles, zDepth);
    MulMonotone(angle * zDepth + slice + 1, Angles * zDepth, Phases);
  }

  /** Every image index of a 15*zDepth stack has exactly one (angle, z-plane, phase). */
  lemma {:induction false} LayoutInverse(i: int, zDepth: int)
    requires 0 <= i < PerPlane * zDepth
    ensures var ang, z, p := i / (Phases * zDepth), (i / Phases) % zDepth, i % Phases;
      0 <= ang < Angles && 0 <= z < zDepth && 0 <= p < Phases && Layout(ang, z, p, zDepth) == i
  {
    var q := i / Phases;
    var p := i % Phases;
    assert i == q * Phases + p;
    var ang := q / zDepth;
    var z := q % zDepth;
    assert q == ang * zDepth + z;
    DivModUnique(i, ang, z * Phases + p, Phases * zDepth);
    assert q < Angles * zDepth;
    if ang >= Angles {
      MulMonotone(Angles, ang, zDepth);
    }
  }

  lemma {:induction false} LayoutInjective(a1: int, z1: int, p1: int, a2: int, z2: int, p2: int, zDepth: int)
    requires 0 <= a1 < Angles && 0 <= z1 < zDepth && 0 <= p1 < Phases
    requires 0 <= a2 < Angles && 0 <= z2 < zDepth && 0 <= p2 < Phases
    requires Layout(a1, z1, p1, zDepth) == Layout(a2, z2, p2, zDepth)
    ensures a1 == a2 && z1 == z2 && p1 == p2
  {
    DivModUnique(Layout(a1, z1, p1, zDepth), a1 * zDepth + z1, p1, Phases);
    DivModUnique(Layout(a2, z2, p2, zDepth), a2 * zDepth + z2, p2, Phases);
    DivModUnique(a1 * zDepth + z1, a1, z1, zDepth);
    DivModUnique(a2 * zDepth + z2, a2, z2, zDepth);
  }

  /** The 15 positions `get2Dstack` reads for one z-plane are in range and pairwise distinct. */
  lemma Get2DPosDistinct(slice: int, zDepth: int)
    requires 0 <= slice < zDepth
    ensures forall j :: 0 <= j < PerPlane ==> 0 <= Get2DPos(j / Phases, j % Phases, slice, PerPlane * zDepth) < PerPlane * zDepth
    ensures forall j, k :: 0 <= j < k < PerPlane ==>
      Get2DPos(j / Phases, j % Phases, slice, PerPlane * zDepth) != Get2DPos(k / Phases, k % Phases, slice, PerPlane * zDepth)
  {
    forall j | 0 <= j < PerPlane
      ensures 0 <= Get2DPos(j / Phases, j % Phases, slice, PerPlane * zDepth) < PerPlane * zDepth
    {
      Get2DPosLayout(j / Phases, j % Phases, slice, zDepth);
    }
    forall j, k | 0 <= j < k < PerPlane
      ensures Get2DPos(j / Phases, j % Phases, slice, PerPlane * zDepth) != Get2DPos(k / Phases, k % Phases, slice, PerPlane * zDepth)
    {
      Get2DPosLayout(j / Phases, j % Phases, slice, zDepth);
      Get2DPosLayout(k / Phases, k % Phases, slice, zDepth);
      if Layout(j / Phases, slice, j % Phases, zDepth) == Layout(k / Phases, slice, k % Phases, zDepth) {
        LayoutInjective(j / Phases, slice, j % Phases, k / Phases, slice, k % Phases, zDepth);
      }
    }
  }

  /** The 5-image blocks `seperateAngles` sums, one per (angle, z-plane), partition the stack:
      image i is in the block of angle i / (5*zDepth) and z-plane (i / 5) % zDepth, and in no other. */
  lemma BlocksPartition(i: int, zDepth: int)
    requires 0 <= i < PerPlane * zDepth
    ensures var ang, z := i / (Phases * zDepth), (i / Phases) % zDepth;
      0 <= ang < Angles && 0 <= z < zDepth && Layout(ang, z, 0, zDepth) <= i < Layout(ang, z, 0, zDepth) + Phases
    ensures forall ang, z :: 0 <= ang < Angles && 0 <= z < zDepth && Layout(ang, z, 0, zDepth) <= i < Layout(ang, z, 0, zDepth) + Phases ==>
      ang == i / (Phases * zDepth) && z == (i / Phases) % zDepth
  {
    LayoutInverse(i, zDepth);
    forall ang, z | 0 <= ang < Angles && 0 <= z < zDepth && Layout(ang, z, 0, zDepth) <= i < Layout(ang, z, 0, zDepth) + Phases
      ensures ang == i / (Phases * zDepth) && z == (i / Phases) % zDepth
    {
      var p := i - Layout(ang, z, 0, zDepth);
      LayoutInjective(ang, z, p, i / (Phases * zDepth), (i / Phases) % zDepth, i % Phases, zDepth);
    }
  }

  // ---------------------------------------------------------------------------
  // get2Dstack

  /** Where zero padding by f puts the first pixel of an axis of n pixels. */
  function PadOffset(f: int, n: int): int {
    (f - 1) * (n / 2)
  }

  /** Pixel (x, y) of the padded frame: the 16-bit store of the source pixel placed there,
      0 where no source pixel falls. */
  function PaddedPixel(src: Image, f: int, store16: real -> real, x: int, y: int): real
    reads src
  {
    var sx, sy := x - PadOffset(f, src.Length0), y - PadOffset(f, src.Length1);
    if 0 <= sx < src.Length0 && 0 <= sy < src.Length1 then store16(src[sx, sy]) else 0.0
  }

  /** sp is the zero-padded copy of src: f*w by f*h, holding `PaddedPixel` everywhere. */
  ghost predicate Padded(sp: Image, src: Image, f: int, store16: real -> real)
    reads sp, src
  {
    && sp.Length0 == f * src.Length0 && sp.Length1 == f * src.Length1
    && forall x, y :: 0 <= x < sp.Length0 && 0 <= y < sp.Length1 ==> sp[x, y] == PaddedPixel(src, f, store16, x, y)
  }

  /** For f >= 1 a placed pixel stays inside the padded frame. */
  lemma {:induction false} PadPlacementInFrame(x: int, n: int, f: int)
    requires 1 <= f && 0 <= x < n
    ensures 0 <= x + PadOffset(f, n) < f * n
    ensures 0 <= PadOffset(f, n)
  {
    MulMonotone(n / 2, n, f - 1);
    MulMonotone(0, f - 1, n / 2);
    assert (f - 1) * n + n == f * n;
  }

  /** img is what `get2Dstack` makes of stack image pos: its duplicate, or its zero-padded copy. */
  ghost predicate Cut(img: Image, st: seq<Image>, pos: int, zeroPad: bool, f: int, store16: real -> real)
    reads img, st
  {
    && 0 <= pos < |st|
    && if zeroPad then Padded(img, st[pos], f, store16) else Copied(img, st[pos])
  }

  /** `get2Dstack`: the 15 images of z-plane `slice`, angle-major, then phase; duplicated, or
      zero-padded into an f-times larger 16-bit frame. The input stack is left alone. */
  method Get2DStack(in3Dstack: seq<Image>, slice: int, zeroPad: bool, f: int, store16: real -> real) returns (newStack: seq<Image>)
    requires |in3Dstack| % PerPlane == 0 && 0 <= slice < |in3Dstack| / PerPlane
    requires zeroPad ==> 1 <= f
    ensures |newStack| == PerPlane
    ensures forall j :: 0 <= j < PerPlane ==> fresh(newStack[j])
    ensures forall j :: 0 <= j < PerPlane ==>
      Cut(newStack[j], in3Dstack, Get2DPos(j / Phases, j % Phases, slice, |in3Dstack|), zeroPad, f, store16)
  {
    newStack := [];
    var angle := 0;
    while angle < Angles
      invariant 0 <= angle <= Angles
      invariant |newStack| == Phases * angle
      invariant forall j :: 0 <= j < |newStack| ==> fresh(newStack[j])
      invariant forall j :: 0 <= j < |newStack| ==>
        Cut(newStack[j], in3Dstack, Get2DPos(j / Phases, j % Phases, slice, |in3Dstack|), zeroPad, f, store16)
    {
      var phases := CutAngle(in3Dstack, angle, slice, zeroPad, f, store16);
      forall j | Phases * angle <= j < Phases * angle + Phases
        ensures j / Phases == angle && j % Phases == j - Phases * angle
      {
        DivModUnique(j, angle, j - Phases * angle, Phases);
      }
      newStack := newStack + phases;
      angle := angle + 1;
    }
  }

  /** The phase loop of `get2Dstack` for one angle: the 5 images of that angle in z-plane `slice`. */
  method CutAngle(in3Dstack: seq<Image>, angle: int, slice: int, zeroPad: bool, f: int, store16: real -> real) returns (phases: seq<Image>)
    requires |in3Dstack| % PerPlane == 0 && 0 <= slice < |in3Dstack| / PerPlane && 0 <= angle < Angles
    requires zeroPad ==> 1 <= f
    ensures |phases| == Phases
    ensures forall p :: 0 <= p < Phases ==> fresh(phases[p])
    ensures forall p :: 0 <= p < Phases ==>
      Cut(phases[p], in3Dstack, Get2DPos(angle, p, slice, |in3Dstack|), zeroPad, f, store16)
  {
    var numImages := |in3Dstack|;
    phases := [];
    var pha := 0;
    while pha < Phases
      invariant 0 <= pha <= Phases
      invariant |phases| == pha
      invariant forall p :: 0 <= p < pha ==> fresh(phases[p])
      invariant forall p :: 0 <= p < pha ==> Cut(phases[p], in3Dstack, Get2DPos(angle, p, slice, numImages), zeroPad, f, store16)
    {
      var pos := (angle * numImages / 3) + (slice * 5) + pha;
      Get2DPosLayout(angle, pha, slice, numImages / PerPlane);
      var img;
      if !zeroPad {
        img := Duplicate(in3Dstack[pos]);
      } else {
        img := PadSlice(in3Dstack[pos], f, store16);
      }
      phases := phases + [img];
      pha := pha + 1;
    }
  }

  /** The zero-padding branch for one image: a zero f*w by f*h frame with each pixel of src
      stored at (x + (f-1)*(w/2), y + (f-1)*(h/2)). */
  method PadSlice(src: Image, f: int, store16: real -> real) returns (sp: Image)
    requires 1 <= f
    ensures fresh(sp) && Padded(sp, src, f, store16)
  {
    var w, h := src.Length0, src.Length1;
    MulMonotone(0, f, w);
    MulMonotone(0, f, h);
    sp := new real[w * f, h * f]((_, _) => 0.0);
    var ox, oy := (f - 1) * (w / 2), (f - 1) * (h / 2);
    var y := 0;
    while y < h
      invariant 0 <= y <= h
      invariant forall x', y' :: 0 <= x' < sp.Length0 && 0 <= y' < sp.Length1 ==>
        sp[x', y'] == if y' - oy < y then PaddedPixel(src, f, store16, x', y') else 0.0
    {
      PadPlacementInFrame(y, h, f);
      var x := 0;
      while x < w
        invariant 0 <= x <= w
        invariant forall x', y' :: 0 <= x' < sp.Length0 && 0 <= y' < sp.Length1 ==>
          sp[x', y'] == if y' - oy < y || (y' - oy == y && x' - ox < x) then PaddedPixel(src, f, store16, x', y') else 0.0
      {
        PadPlacementInFrame(x, w, f);
        sp[x + ox, y + oy] := store16(src[x, y]);
        x := x + 1;
      }
      y := y + 1;
    }
  }

  // ---------------------------------------------------------------------------
  // seperateAngles and sumUp

  /** Pixel (x, y) summed over images lo .. hi-1, starting from zero. */
  function PixelSum(st: seq<Image>, lo: int, hi: int, x: int, y: int): real
    reads st
    requires SameSize(st) && 0 < |st| && 0 <= x < st[0].Length0 && 0 <= y < st[0].Length1
    requires hi <= lo || (0 <= lo && hi <= |st|)
    decreases hi - lo
  {
    if hi <= lo then 0.0 else PixelSum(st, lo, hi - 1, x, y) + st[hi - 1][x, y]
  }

  /** r is the sum of images n .. n+m-1 of st, pixel by pixel, in the images' frame. */
  ghost predicate IsBlockSum(r: Image, st: seq<Image>, n: int, m: int)
    reads r, st
    requires SameSize(st) && 0 < |st| && (m <= 0 || (0 <= n && n + m <= |st|))
  {
    && r.Length0 == st[0].Length0 && r.Length1 == st[0].Length1
    && forall x, y :: 0 <= x < r.Length0 && 0 <= y < r.Length1 ==> r[x, y] == PixelSum(st, n, n + m, x, y)
  }

  /** `sumUp`: a new float image holding the sum of images n .. n+m-1. */
  method SumUp(st: seq<Image>, n: int, m: int) returns (ret: Image)
    requires SameSize(st) && 0 < |st| && (m <= 0 || (0 <= n && n + m <= |st|))
    ensures fresh(ret) && IsBlockSum(ret, st, n, m)
  {
    var w, h := st[0].Length0, st[0].Length1;
    ret := new real[w, h]((_, _) => 0.0);
    var i := n;
    while i < n + m
      invariant m <= 0 || n <= i <= n + m
      invariant forall x, y :: 0 <= x < w && 0 <= y < h ==> ret[x, y] == PixelSum(st, n, if m <= 0 then n else i, x, y)
    {
      AddInto(ret, st[i]);
      i := i + 1;
    }
  }

  /** The body of the sum loop for one image: `ret.setf(x, y, ret.getf(x, y) + cur.getf(x, y))`
      over the frame, rows outer. */
  method AddInto(ret: Image, cur: Image)
    requires ret != cur && ret.Length0 == cur.Length0 && ret.Length1 == cur.Length1
    modifies ret
    ensures forall x, y :: 0 <= x < ret.Length0 && 0 <= y < ret.Length1 ==> ret[x, y] == old(ret[x, y]) + cur[x, y]
  {
    var w, h := ret.Length0, ret.Length1;
    var y := 0;
    while y < h
      invariant 0 <= y <= h
      invariant forall x', y' :: 0 <= x' < w && 0 <= y' < h ==>
        ret[x', y'] == if y' < y then old(ret[x', y']) + cur[x', y'] else old(ret[x', y'])
    {
      var x := 0;
      while x < w
        invariant 0 <= x <= w
        invariant forall x', y' :: 0 <= x' < w && 0 <= y' < h ==>
          ret[x', y'] == if y' < y || (y' == y && x' < x) then old(ret[x', y']) + cur[x', y'] else old(ret[x', y'])
      {
        ret[x, y] := ret[x, y] + cur[x, y];
        x := x + 1;
      }
      y := y + 1;
    }
  }

  /** The block of 5 images at Layout(a, z, 0, zDepth) lies in the stack, and r is its sum. */
  ghost predicate PhaseSum(r: Image, inStack: seq<Image>, a: int, z: int)
    reads r, inStack
    requires SameSize(inStack)
  {
    var lo := Layout(a, z, 0, |inStack| / PerPlane);
    && 0 < |inStack| && 0 <= lo && lo + Phases <= |inStack|
    && IsBlockSum(r, inStack, lo, Phases)
  }

  /** `seperateAngles`: one stack per angle, of numImages / 15 slices; slice z of angle ang
      sums the 5 phases at (ang*zDepth + z)*5. */
  method SeperateAngles(inStack: seq<Image>) returns (ret: seq<seq<Image>>)
    requires SameSize(inStack)
    ensures |ret| == Angles
    ensures forall ang :: 0 <= ang < Angles ==> |ret[ang]| == |inStack| / PerPlane
    ensures forall ang, z :: 0 <= ang < Angles && 0 <= z < |ret[ang]| ==>
      fresh(ret[ang][z]) && PhaseSum(ret[ang][z], inStack, ang, z)
  {
    var zDepth := |inStack| / PerPlane;
    ret := [[], [], []];
    var z := 0;
    while z < zDepth
      invariant 0 <= z <= zDepth
      invariant |ret| == Angles && forall a :: 0 <= a < Angles ==> |ret[a]| == z
      invariant forall a, z' :: 0 <= a < Angles && 0 <= z' < |ret[a]| ==>
        fresh(ret[a][z']) && PhaseSum(ret[a][z'], inStack, a, z')
    {
      var sums := SumPlane(inStack, z);
      ret := [ret[0] + [sums[0]], ret[1] + [sums[1]], ret[2] + [sums[2]]];
      z := z + 1;
    }
  }

  /** The angle loop of `seperateAngles` for z-plane z: the phase sum of each angle, in angle order. */
  method SumPlane(inStack: seq<Image>, z: int) returns (sums: seq<Image>)
    requires SameSize(inStack) && 0 <= z < |inStack| / PerPlane
    ensures |sums| == Angles
    ensures forall a :: 0 <= a < Angles ==> fresh(sums[a]) && PhaseSum(sums[a], inStack, a, z)
  {
    var zDepth := |inStack| / PerPlane;
    sums := [];
    var ang := 0;
    while ang < Angles
      invariant 0 <= ang <= Angles && |sums| == ang
      invariant forall a :: 0 <= a < ang ==> fresh(sums[a]) && PhaseSum(sums[a], inStack, a, z)
    {
      Get2DPosLayout(ang, Phases - 1, z, zDepth);
      Get2DPosLayout(ang, 0, z, zDepth);
      var s := SumUp(inStack, (ang * zDepth + z) * 5, 5);
      sums := sums + [s];
      ang := ang + 1;
    }
  }

  // ---------------------------------------------------------------------------
  // run

  /** The choice of the first dialog, with the answers of the second one for a 2D slice. */
  datatype Task = TwoDSlice(idx: int, zeroPad: bool, padf: int) | SeparateAngles

  datatype Output = Plane(stack: seq<Image>) | AngleStacks(stacks: seq<seq<Image>>)

  /** The checks of `run` in their order; None when the task goes ahead. */
  function Refuse(active: Option<seq<Image>>, imageType: ImageType, task: Task): (r: Option<Refusal>)
    ensures r == Some(NoActiveImage) <==> active.None?
    ensures r == Some(NotMultipleOf15) <==> active.Some? && !AcceptStack(|active.value|)
    ensures r == Some(NotGrayscale) <==> active.Some? && AcceptStack(|active.value|) && !IsGrayscale(imageType)
    ensures r == Some(IndexOutOfRange) <==> (active.Some? && AcceptStack(|active.value|) && IsGrayscale(imageType)
      && task.TwoDSlice? && !AcceptIndex(task.idx, |active.value|))
    ensures r.None? <==> (active.Some? && AcceptStack(|active.value|) && IsGrayscale(imageType)
      && (task.TwoDSlice? ==> AcceptIndex(task.idx, |active.value|)))
  {
    if active.None? then Some(NoActiveImage)
    else if !AcceptStack(|active.value|) then Some(NotMultipleOf15)
    else if !IsGrayscale(imageType) then Some(NotGrayscale)
    else if task.TwoDSlice? && !AcceptIndex(task.idx, |active.value|) then Some(IndexOutOfRange)
    else None
  }

  /** `run`: refuses as `Refuse` says, else cuts out z-plane idx - 1 or splits the angles. */
  method Run(active: Option<seq<Image>>, imageType: ImageType, task: Task, store16: real -> real) returns (r: Result<Output, Refusal>)
    requires active.Some? ==> SameSize(active.value)
    requires task.TwoDSlice? && task.zeroPad && Refuse(active, imageType, task).None? ==> 1 <= task.padf
    ensures r.Failure? <==> Refuse(active, imageType, task).Some?
    ensures r.Failure? ==> Some(r.error) == Refuse(active, imageType, task)
    ensures r.Success? && task.TwoDSlice? ==> var st := active.value;
      && r.value.Plane? && |r.value.stack| == PerPlane
      && (forall j :: 0 <= j < PerPlane ==> fresh(r.value.stack[j]))
      && forall j :: 0 <= j < PerPlane ==>
        Cut(r.value.stack[j], st, Get2DPos(j / Phases, j % Phases, task.idx - 1, |st|), task.zeroPad, task.padf, store16)
    ensures r.Success? && task.SeparateAngles? ==> var st := active.value;
      && r.value.AngleStacks? && |r.value.stacks| == Angles
      && (forall ang :: 0 <= ang < Angles ==> |r.value.stacks[ang]| == |st| / PerPlane)
      && forall ang, z :: 0 <= ang < Angles && 0 <= z < |r.value.stacks[ang]| ==>
        fresh(r.value.stacks[ang][z]) && PhaseSum(r.value.stacks[ang][z], st, ang, z)
  {
    var refusal := Refuse(active, imageType, task);
    if refusal.Some? {
      return Failure(refusal.value);
    }
    var st := active.value;
    match task
    case TwoDSlice(idx, zeroPad, padf) =>
      var res := Get2DStack(st, idx - 1, zeroPad, padf, store16);
      r := Success(Plane(res));
    case SeparateAngles =>
      var res := SeperateAngles(st);
      r := Success(AngleStacks(res));
  }
}
