/** The two decision rules of `DeduplioApp`: `is_image_duplicate` and
    `is_image_cropped`, reduced to comparisons over what the image libraries
    return. A rule's Python return value is `True`, `False` or `None`;
    `None` is written `None` here and `True`/`False` are `Some(true)`/`Some(false)`. */
module Rules {
  import opened Wrappers

  /** Default `hamming_distance` of `is_image_duplicate`. */
  const DefaultHammingDistance: nat := 5

  /** Lowest maximum template-match score that `is_image_cropped` accepts. */
  const CropThreshold: real := 0.75

  /** Python truthiness of a rule's result: only `True` passes an `if`. */
  predicate Truthy(r: Option<bool>) {
    r == Some(true)
  }

  /** `is_image_duplicate`: `hashDiff` is `phash(img_1) - phash(img_2)`, the number
      of differing bits of the two perceptual hashes. Returns `True` below the
      threshold and otherwise falls off the end of the function. */
  function IsImageDuplicate(hashDiff: nat, hammingDistance: nat): (r: Option<bool>)
    ensures Truthy(r) <==> hashDiff < hammingDistance
    ensures r != Some(false)
  {
    if hashDiff < hammingDistance then Some(true) else None
  }

  /** Shape of a grayscale image as OpenCV reports it: (rows, columns). */
  datatype Shape = Shape(rows: nat, cols: nat)

  /** What `cv.matchTemplate(img, template, cv.TM_CCOEFF_NORMED).max()` produced:
      a score, or an exception (OpenCV raises, for one, when the template is
      larger than the image). */
  datatype MatchOutcome = Score(maxScore: real) | Raised

  /** `is_image_cropped(img, template)` once both files have been read:
      equal shapes are never a crop; otherwise the score decides, a low score
      falls off the end (None) and an exception inside the `try` gives False. */
  function IsImageCropped(img: Shape, template: Shape, m: MatchOutcome): (r: Option<bool>)
    ensures img == template ==> r == Some(false)
    ensures Truthy(r) <==> img != template && m.Score? && m.maxScore >= CropThreshold
    ensures r == None <==> img != template && m.Score? && m.maxScore < CropThreshold
    ensures r == Some(false) <==> img == template || m.Raised?
  {
    if img == template then Some(false)
    else match m
      case Raised => Some(false)
      case Score(s) => if s >= CropThreshold then Some(true) else None
  }
}
