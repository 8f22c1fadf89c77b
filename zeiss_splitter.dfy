/** The Zeiss stack splitter: a stack of 25 images per z-plane (5 angles of 5 phases), stored
    phase-major with the z-planes innermost, is cut down to the 25 images of one z-plane,
    angle-major. */
module ZeissSplitter {
  import opened Words
  import opened Results
  import opened ImageStacks

  const Angles: int := 5
  const Phases: int := 5
  /** Images per z-plane: 5 angles of 5 phases. */
  const PerPlane: int := 25

  datatype Refusal = NoActiveImage | NotMultipleOf25 | NotGrayscale | IndexOutOfRange

  /** The message the plug-in shows for each refusal. */
  function Message(r: Refusal): string {
    match r
    case NoActiveImage => "No active image stack selected"
    case NotMultipleOf25 => "Zeiss stack should be n*25 Images"
    case NotGrayscale => "Zeiss stack should be a grayscale image"
    case IndexOutOfRange => "Index out of range"
  }

  /** Each refusal shows its own text, so the message tells the user which check failed. */
  lemma MessagesDistinct(r1: Refusal, r2: Refusal)
    ensures Message(r1) == Message(r2) <==> r1 == r2
  {
  }

  /** The size test of `run`. */
  predicate AcceptStack(numImages: int) {
    !(numImages < 25 || numImages % PerPlane != 0)
  }

  /** The test on the 1-based slice index of the dialog. */
  predicate AcceptIndex(idx: int, numImages: int) {
    !(idx <= 0 || idx > numImages / PerPlane)
  }

  /** The stack index of phase pha of angle `angle` in z-plane `slice`, for zLen z-planes. */
  function Pos(angle: int, pha: int, slice: int, zLen: int): int {
    pha * (zLen * 5) + angle * zLen + slice
  }

  /** Pos is (5*pha + angle)*zLen + slice, so it lies in the stack. */
  lemma {:induction false} PosInStack(angle: int, pha: int, slice: int, zLen: int)
    requires 0 <= angle < Angles && 0 <= pha < Phases && 0 <= slice < zLen
    ensures Pos(angle, pha, slice, zLen) == (Phases * pha + angle) * zLen + slice
    ensures 0 <= Pos(angle, pha, slice, zLen) < PerPlane * zLen
  {
    assert Pos(angle, pha, slice, zLen) == (Phases * pha + angle) * zLen + slice;
    MulMonotone(Phases * pha + angle + 1, PerPlane, zLen);
  }

  /** Every image of a 25*zLen stack is at Pos of exactly one (angle, phase, z-plane): the
      z-plane is i % zLen, the phase (i / zLen) / 5 and the angle (i / zLen) % 5. */
  lemma {:induction false} PosInverse(i: int, zLen: int)
    requires 0 <= i < PerPlane * zLen
    ensures var q := i / zLen;
      var angle, pha, slice := q % Phases, q / Phases, i % zLen;
      0 <= angle < Angles && 0 <= pha < Phases && 0 <= slice < zLen && Pos(angle, pha, slice, zLen) == i
  {
    var q := i / zLen;
    assert i == q * zLen + i % zLen;
    if q >= PerPlane {
      MulMonotone(PerPlane, q, zLen);
    }
    assert q == Phases * (q / Phases) + q % Phases;
    PosInStack(q % Phases, q / Phases, i % zLen, zLen);
  }

  lemma {:induction false} PosInjective(a1: int, p1: int, s1: int, a2: int, p2: int, s2: int, zLen: int)
    requires 0 <= a1 < Angles && 0 <= p1 < Phases && 0 <= s1 < zLen
    requires 0 <= a2 < Angles && 0 <= p2 < Phases && 0 <= s2 < zLen
    requires Pos(a1, p1, s1, zLen) == Pos(a2, p2, s2, zLen)
    ensures a1 == a2 && p1 == p2 && s1 == s2
  {
    PosInStack(a1, p1, s1, zLen);
    PosInStack(a2, p2, s2, zLen);
    DivModUnique(Pos(a1, p1, s1, zLen), Phases * p1 + a1, s1, zLen);
    DivModUnique(Pos(a2, p2, s2, zLen), Phases * p2 + a2, s2, zLen);
    DivModUnique(Phases * p1 + a1, p1, a1, Phases);
    DivModUnique(Phases * p2 + a2, p2, a2, Phases);
  }

  /** The 25 images `get2Dstack` picks for z-plane `slice` are distinct images of that z-plane:
      output j is angle j / 5, phase j % 5, and the picked index is congruent to slice. */
  lemma Get2DStackPicksPlane(slice: int, zLen: int)
    requires 0 <= slice < zLen
    ensures forall j :: 0 <= j < PerPlane ==>
      var i := Pos(j / Phases, j % Phases, slice, zLen);
      0 <= i < PerPlane * zLen && i % zLen == slice
    ensures forall j, k :: 0 <= j < k < PerPlane ==>
      Pos(j / Phases, j % Phases, slice, zLen) != Pos(k / Phases, k % Phases, slice, zLen)
  {
    forall j | 0 <= j < PerPlane
      ensures var i := Pos(j / Phases, j % Phases, slice, zLen);
        0 <= i < PerPlane * zLen && i % zLen == slice
    {
      PosInStack(j / Phases, j % Phases, slice, zLen);
      DivModUnique(Pos(j / Phases, j % Phases, slice, zLen), Phases * (j % Phases) + j / Phases, slice, zLen);
    }
    forall j, k | 0 <= j < k < PerPlane
      ensures Pos(j / Phases, j % Phases, slice, zLen) != Pos(k / Phases, k % Phases, slice, zLen)
    {
      if Pos(j / Phases, j % Phases, slice, zLen) == Pos(k / Phases, k % Phases, slice, zLen) {
        PosInjective(j / Phases, j % Phases, slice, k / Phases, k % Phases, slice, zLen);
      }
    }
  }

  /** `get2Dstack`: duplicates of the 25 images of z-plane `slice`, angle-major, then phase. */
  method Get2DStack(in3Dstack: seq<Image>, slice: int) returns (newStack: seq<Image>)
    requires 0 <= slice < |in3Dstack| / PerPlane
    ensures |newStack| == PerPlane
    ensures forall j :: 0 <= j < PerPlane ==> fresh(newStack[j])
    ensures forall j :: 0 <= j < PerPlane ==> var i := Pos(j / Phases, j % Phases, slice, |in3Dstack| / PerPlane);
      0 <= i < |in3Dstack| && Copied(newStack[j], in3Dstack[i])
  {
    var zLen := |in3Dstack| / 25;
    newStack := [];
    var angle := 0;
    while angle < Angles
      invariant 0 <= angle <= Angles
      invariant |newStack| == Phases * angle
      invariant forall j :: 0 <= j < |newStack| ==> fresh(newStack[j])
      invariant forall j :: 0 <= j < |newStack| ==> var i := Pos(j / Phases, j % Phases, slice, zLen);
        0 <= i < |in3Dstack| && Copied(newStack[j], in3Dstack[i])
    {
      var phases := CopyAngle(in3Dstack, angle, slice);
      forall j | Phases * angle <= j < Phases * angle + Phases
        ensures j / Phases == angle && j % Phases == j - Phases * angle
      {
        DivModUnique(j, angle, j - Phases * angle, Phases);
      }
      newStack := newStack + phases;
      angle := angle + 1;
    }
  }

  /** The phase loop of `get2Dstack` for one angle. */
  method CopyAngle(in3Dstack: seq<Image>, angle: int, slice: int) returns (phases: seq<Image>)
    requires 0 <= slice < |in3Dstack| / PerPlane && 0 <= angle < Angles
    ensures |phases| == Phases
    ensures forall p :: 0 <= p < Phases ==> fresh(phases[p])
    ensures forall p :: 0 <= p < Phases ==> var i := Pos(angle, p, slice, |in3Dstack| / PerPlane);
      0 <= i < |in3Dstack| && Copied(phases[p], in3Dstack[i])
  {
    var zLen := |in3Dstack| / 25;
    phases := [];
    var pha := 0;
    while pha < Phases
      invariant 0 <= pha <= Phases && |phases| == pha
      invariant forall p :: 0 <= p < pha ==> fresh(phases[p])
      invariant forall p :: 0 <= p < pha ==> var i := Pos(angle, p, slice, zLen);
        0 <= i < |in3Dstack| && Copied(phases[p], in3Dstack[i])
    {
      var pos := pha * (zLen * 5) + (angle * zLen) + slice;
      PosInStack(angle, pha, slice, zLen);
      var img := Duplicate(in3Dstack[pos]);
      phases := phases + [img];
      pha := pha + 1;
    }
  }

  /** The checks of `run` in their order; None when the cut goes ahead. */
  function Refuse(active: Option<seq<Image>>, imageType: ImageType, idx: int): (r: Option<Refusal>)
    ensures r == Some(NoActiveImage) <==> active.None?
    ensures r == Some(NotMultipleOf25) <==> active.Some? && !AcceptStack(|active.value|)
    ensures r == Some(NotGrayscale) <==> active.Some? && AcceptStack(|active.value|) && !IsGrayscale(imageType)
    ensures r == Some(IndexOutOfRange) <==> (active.Some? && AcceptStack(|active.value|) && IsGrayscale(imageType)
      && !AcceptIndex(idx, |active.value|))
    ensures r.None? <==> (active.Some? && AcceptStack(|active.value|) && IsGrayscale(imageType)
      && AcceptIndex(idx, |active.value|))
  {
    if active.None? then Some(NoActiveImage)
    else if !AcceptStack(|active.value|) then Some(NotMultipleOf25)
    else if !IsGrayscale(imageType) then Some(NotGrayscale)
    else if !AcceptIndex(idx, |active.value|) then Some(IndexOutOfRange)
    else None
  }

  /** `run`: refuses as `Refuse` says, else cuts out z-plane idx - 1. */
  method Run(active: Option<seq<Image>>, imageType: ImageType, idx: int) returns (r: Result<seq<Image>, Refusal>)
    ensures r.Failure? <==> Refuse(active, imageType, idx).Some?
    ensures r.Failure? ==> Some(r.error) == Refuse(active, imageType, idx)
    ensures r.Success? ==> var st := active.value;
      && |r.value| == PerPlane
      && (forall j :: 0 <= j < PerPlane ==> fresh(r.value[j]))
      && forall j :: 0 <= j < PerPlane ==> var i := Pos(j / Phases, j % Phases, idx - 1, |st| / PerPlane);
        0 <= i < |st| && Copied(r.value[j], st[i])
  {
    var refusal := Refuse(active, imageType, idx);
    if refusal.Some? {
      return Failure(refusal.value);
    }
    var res := Get2DStack(active.value, idx - 1);
    r := Success(res);
  }
}
