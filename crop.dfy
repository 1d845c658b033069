/**
 * `cropToBBox`, which the face-detection screen, the face-enrollment screen and the
 * settings screen each define with identical text, and the "last detected face wins"
 * loop that the two enrollment screens share.
 */
module Crop {
  import opened Wrappers
  import opened Graphics

  /**
   * The admissibility test of `cropToBBox`, term for term. Note that it bounds the
   * box's bottom edge by the image's WIDTH (and, through `top + height`, also by the
   * image's height).
   */
  predicate Admissible(image: Bitmap, box: Rect)
    ensures Admissible(image, box) <==>
              (box.left >= 0 && box.top >= 0 && box.right <= image.Width()
               && box.bottom <= image.Width() && box.bottom <= image.Height())
  {
    box.top >= 0 && box.bottom <= image.Width() && box.top + box.Height() <= image.Height()
    && box.left >= 0 && box.left + box.Width() <= image.Width()
  }

  /** The box lies within the image: what the test is meant to guard. */
  predicate InsideImage(image: Bitmap, box: Rect) {
    0 <= box.left && box.right <= image.Width() && 0 <= box.top && box.bottom <= image.Height()
  }

  /** `cropToBBox(image, boundingBox, 0)`: the region under the box, or null. */
  function CropToBBox(image: Bitmap, box: Rect): (r: Option<Bitmap>)
    ensures r.Some? <==> (box.left >= 0 && box.top >= 0 && box.right <= image.Width()
                          && box.bottom <= image.Width() && box.bottom <= image.Height())
    ensures r.Some? ==> r.value == Region(image, box)
  {
    var shift := 0;
    if Admissible(image, box) then
      Some(CreateBitmap(image, box.left, box.top + shift, box.Width(), box.Height()))
    else
      None
  }

  /** Every crop that is taken lies within the image, and has the box's size. */
  lemma CropIsInside(image: Bitmap, box: Rect)
    requires CropToBBox(image, box).Some?
    ensures InsideImage(image, box)
    ensures CropToBBox(image, box).value.Width() == box.Width()
    ensures CropToBBox(image, box).value.Height() == box.Height()
  {
  }

  /** For a landscape or square image the test is exactly "inside the image". */
  lemma CropCompleteForLandscape(image: Bitmap, box: Rect)
    requires image.Height() <= image.Width()
    ensures CropToBBox(image, box).Some? <==> InsideImage(image, box)
  {
  }

  /**
   * For a portrait image the width comparison rejects boxes that are inside the image:
   * a 100x200 picture and a box from (10, 120) to (60, 180).
   */
  lemma CropRejectsPortraitInterior()
    ensures var image, box := Picture(0, 100, 200), Rect(10, 120, 60, 180);
            InsideImage(image, box) && CropToBBox(image, box).None?
  {
  }

  /**
   * The enrollment screens' loop: `croppedFaceBitmap` is overwritten for every face,
   * so only the last face's crop survives, even when it is null and an earlier one
   * was not.
   */
  method CropLastFace(image: Bitmap, faces: seq<Rect>) returns (cropped: Option<Bitmap>)
    ensures cropped == if |faces| == 0 then None else CropToBBox(image, faces[|faces| - 1])
  {
    cropped := None;
    for i := 0 to |faces|
      invariant cropped == if i == 0 then None else CropToBBox(image, faces[i - 1])
    {
      cropped := CropToBBox(image, faces[i]);
    }
  }
}
