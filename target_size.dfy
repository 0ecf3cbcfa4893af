/** The target-size rule of the resize command (`getTargetSize`).
    Dimensions are exact reals standing in for `CGFloat`; the source does no rounding. */
module TargetSize {
  import opened Wrappers

  /** A width and a height, as `NSSize`. */
  datatype Size = Size(width: real, height: real) {

    /** Both dimensions multiplied by `k`. */
    function Scaled(k: real): Size {
      Size(width * k, height * k)
    }
  }

  /** `s` has the width:height ratio of `image` (cross-multiplied, so no division). */
  predicate SameAspect(s: Size, image: Size) {
    s.width * image.height == s.height * image.width
  }

  /** The size an image of size `image` is drawn into. The four cases are tried in
      order: both `width` and `height` given, only `width`, only `height`, neither.
      The only thing demanded of the caller is that the branch taken does not
      divide by zero. */
  function GetTargetSize(width: Option<int>, height: Option<int>, scale: real, image: Size): (r: Size)
    requires width.Some? && height.None? ==> image.width != 0.0
    requires width.None? && height.Some? ==> image.height != 0.0
    // a given dimension is used exactly, whatever the source size and the scale
    ensures width.Some? ==> r.width == width.value as real
    ensures height.Some? ==> r.height == height.value as real
    // unless both are given, the aspect ratio of the source is kept
    ensures width.None? || height.None? ==> SameAspect(r, image)
    // with neither given, only the scale factor matters
    ensures width.None? && height.None? ==> r == image.Scaled(scale)
  {
    if width.Some? && height.Some? then
      Size(width.value as real, height.value as real)
    else if width.Some? then
      var scaleFactor := width.value as real / image.width;
      Size(width.value as real, image.height * scaleFactor)
    else if height.Some? then
      var scaleFactor := height.value as real / image.height;
      Size(image.width * scaleFactor, height.value as real)
    else
      Size(image.width * scale, image.height * scale)
  }

  /** At the default scale 1.0 and with no width or height, the image keeps its size. */
  lemma DefaultScaleKeepsSize(image: Size)
    ensures GetTargetSize(None, None, 1.0, image) == image
  {
  }

  /** With only a width, the target is the one and only size of that width with the
      source's aspect ratio: its height is sourceHeight * width / sourceWidth. */
  lemma WidthOnlyIsUniqueAspectKeepingSize(width: int, scale: real, image: Size, s: Size)
    requires image.width != 0.0
    ensures s == GetTargetSize(Some(width), None, scale, image)
        <==> s.width == width as real && SameAspect(s, image)
    ensures GetTargetSize(Some(width), None, scale, image).height == image.height * (width as real) / image.width
  {
  }

  /** With only a height, the target is the one and only size of that height with the
      source's aspect ratio: its width is sourceWidth * height / sourceHeight. */
  lemma HeightOnlyIsUniqueAspectKeepingSize(height: int, scale: real, image: Size, s: Size)
    requires image.height != 0.0
    ensures s == GetTargetSize(None, Some(height), scale, image)
        <==> s.height == height as real && SameAspect(s, image)
    ensures GetTargetSize(None, Some(height), scale, image).width == image.width * (height as real) / image.height
  {
  }
}
