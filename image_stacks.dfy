/** Image stacks as the splitters see them: each slice is an image processor whose pixels
    are read with `getf`, held as reals and indexed [x, y]; slice i of the model is the
    stack's processor i + 1. */
module ImageStacks {

  type Image = array2<real>

  /** All slices of the stack have one width and one height. */
  predicate SameSize(st: seq<Image>) {
    forall i, j :: 0 <= i < |st| && 0 <= j < |st| ==> st[i].Length0 == st[j].Length0 && st[i].Length1 == st[j].Length1
  }

  /** The image types an ImageJ image can have. */
  datatype ImageType = Gray8 | Gray16 | Gray32 | Color256 | ColorRgb

  predicate IsGrayscale(t: ImageType) {
    t == Gray8 || t == Gray16 || t == Gray32
  }

  /** Pixel (x, y) of b is pixel (x, y) of a, over a's frame. */
  ghost predicate Copied(b: Image, a: Image)
    reads a, b
  {
    && b.Length0 == a.Length0 && b.Length1 == a.Length1
    && forall x, y :: 0 <= x < a.Length0 && 0 <= y < a.Length1 ==> b[x, y] == a[x, y]
  }

  /** `ImageProcessor.duplicate()`: a new processor with the same size and pixels. */
  method Duplicate(a: Image) returns (d: Image)
    ensures fresh(d) && Copied(d, a)
  {
    d := new real[a.Length0, a.Length1]((x, y) reads a => if 0 <= x < a.Length0 && 0 <= y < a.Length1 then a[x, y] else 0.0);
  }
}
