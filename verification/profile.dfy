/** A user's profile picture (`Profilis`): the centred crop box and the
    decision, on save, to crop a large picture to a square and shrink it. */
module Profile {

  /** The largest side a stored profile picture keeps. */
  const MaxSide: nat := 300

  datatype Size = Size(width: nat, height: nat)

  /** A crop box in the image library's order: left, upper, right, lower. */
  datatype Box = Box(left: int, upper: int, right: int, lower: int) {
    function Width(): int { right - left }
    function Height(): int { lower - upper }

    predicate Inside(img: Size) {
      0 <= left && 0 <= upper && right <= img.width && lower <= img.height
    }
  }

  function Min(a: nat, b: nat): (r: nat)
    ensures r <= a && r <= b && (r == a || r == b)
  {
    if a <= b then a else b
  }

  /** Integer halving rounded towards negative infinity, the rounding of
      Python's `x // 2`. Dafny's `/` has the same rounding for a positive
      divisor. */
  function FloorHalf(x: int): (r: int)
    ensures 2 * r <= x < 2 * r + 2
  {
    x / 2
  }

  /** The box of the given size centred in the image. */
  function CropCenter(img: Size, cropWidth: int, cropHeight: int): (b: Box)
    ensures b.Width() == cropWidth && b.Height() == cropHeight
    ensures b.left >= 0 <==> cropWidth <= img.width
    ensures b.upper >= 0 <==> cropHeight <= img.height
    ensures cropWidth <= img.width && cropHeight <= img.height ==> b.Inside(img)
    ensures b.left <= img.width - b.right <= b.left + 1
    ensures b.upper <= img.height - b.lower <= b.upper + 1
  {
    Box(FloorHalf(img.width - cropWidth), FloorHalf(img.height - cropHeight),
        FloorHalf(img.width + cropWidth), FloorHalf(img.height + cropHeight))
  }

  /** A picture is cropped and shrunk when either side exceeds the maximum. */
  predicate NeedsResize(img: Size) {
    img.height > MaxSide || img.width > MaxSide
  }

  /** The side of a square picture after shrinking it to fit the maximum:
      shrinking never enlarges, and keeps a square square. */
  function ThumbnailSide(side: nat): (r: nat)
    ensures r <= MaxSide && r <= side
    ensures side <= MaxSide ==> r == side
    ensures side >= MaxSide ==> r == MaxSide
  {
    if side <= MaxSide then side else MaxSide
  }

  /** What saving a profile does to its picture: nothing, or crop `box`
      and store a picture of size `stored`. */
  datatype SaveEffect = Kept | Cropped(box: Box, stored: Size)

  function Save(img: Size): (e: SaveEffect)
    ensures e.Cropped? <==> NeedsResize(img)
    ensures e.Cropped? ==>
      var side := Min(img.width, img.height);
      e.box.Width() == side && e.box.Height() == side && e.box.Inside(img)
  {
    if NeedsResize(img) then
      var side := Min(img.width, img.height);
      var box := CropCenter(img, side, side);
      Cropped(box, Size(ThumbnailSide(box.Width()), ThumbnailSide(box.Height())))
    else
      Kept
  }

  /** The size of the picture left on disk after saving. */
  function StoredSize(img: Size): (r: Size)
    ensures r.width <= MaxSide && r.height <= MaxSide
    ensures !NeedsResize(img) ==> r == img
    ensures NeedsResize(img) ==> r.width == r.height
  {
    match Save(img)
    case Kept => img
    case Cropped(_, stored) => stored
  }

  /** The stored picture differs from the upload exactly when a side exceeds
      the maximum. */
  lemma ResizeIffSizeChanges(img: Size)
    ensures NeedsResize(img) <==> StoredSize(img) != img
  {
  }

  /** Saving again leaves a stored picture alone. */
  lemma SaveIdempotent(img: Size)
    ensures Save(StoredSize(img)) == Kept
  {
  }
}
