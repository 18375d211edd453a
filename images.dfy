/** Image shapes through the normaliser: `to_gray` and `resize_to_min`
    (tools/compare_latest_pair.py, lines 22-25).

    Pixel values are kept symbolic: an image's content is a term saying which
    library call produced it from what, so colour conversion and interpolation
    stay abstract while the shapes are exact. */
module Images {

  /** A 2-D array (`ndim == 2`), or a 3-D array with this many channels. */
  datatype Layout = Plane | Interleaved(channels: nat)

  /** Where an image's pixels come from. `Resampled` records the `(w, h)`
      argument of `cv2.resize` in the library's own order. */
  datatype Pixels =
    | Decoded(file: string)
    | Resampled(src: Pixels, w: nat, h: nat)
    | Luma(src: Pixels)

  datatype Image = Image(height: nat, width: nat, layout: Layout, pixels: Pixels)

  /** What `cv2.imread` returns for a readable file: a 3-channel BGR image. */
  function Read(file: string, height: nat, width: nat): Image {
    Image(height, width, Interleaved(3), Decoded(file))
  }

  /** `cv2.cvtColor(_, COLOR_BGR2GRAY)` accepts 3- and 4-channel input. */
  predicate GrayConvertible(img: Image) {
    img.layout.Plane? || img.layout.channels == 3 || img.layout.channels == 4
  }

  /** `to_gray`: a 2-D image is returned as it is; any other becomes a 2-D image
      of the same height and width. */
  function ToGray(img: Image): (g: Image)
    requires GrayConvertible(img)
    ensures g.layout == Plane && g.height == img.height && g.width == img.width
    ensures img.layout == Plane ==> g == img
    ensures img.layout != Plane ==> g.pixels == Luma(img.pixels)
  {
    if img.layout == Plane then img
    else Image(img.height, img.width, Plane, Luma(img.pixels))
  }

  lemma ToGrayIdempotent(img: Image)
    requires GrayConvertible(img)
    ensures ToGray(ToGray(img)) == ToGray(img)
  {
  }

  function Min(a: nat, b: nat): nat {
    if a <= b then a else b
  }

  /** `cv2.resize(img, (w, h))`: `h` rows of `w` columns, as many channels as
      before, except that a single channel comes back as a 2-D array. */
  function Resize(img: Image, w: nat, h: nat): (r: Image)
    requires w > 0 && h > 0 && img.height > 0 && img.width > 0
    ensures r.height == h && r.width == w
    ensures r.pixels == Resampled(img.pixels, w, h)
  {
    var layout := if img.layout == Interleaved(1) then Plane else img.layout;
    Image(h, w, layout, Resampled(img.pixels, w, h))
  }

  /** `resize_to_min`: both images resized to the smaller height and the smaller
      width of the two. */
  function ResizeToMin(a: Image, b: Image): (r: (Image, Image))
    requires a.height > 0 && a.width > 0 && b.height > 0 && b.width > 0
    ensures r.0.height == r.1.height == Min(a.height, b.height)
    ensures r.0.width == r.1.width == Min(a.width, b.width)
    ensures r.0.pixels == Resampled(a.pixels, r.0.width, r.0.height)
    ensures r.1.pixels == Resampled(b.pixels, r.1.width, r.1.height)
    ensures GrayConvertible(a) ==> GrayConvertible(r.0)
    ensures GrayConvertible(b) ==> GrayConvertible(r.1)
  {
    var h := Min(a.height, b.height);
    var w := Min(a.width, b.width);
    (Resize(a, w, h), Resize(b, w, h))
  }

  /** The image pair `ssim_diff` compares (lines 37-38): resized to the common
      minimum, then converted to gray. */
  function Normalize(a: Image, b: Image): (r: (Image, Image))
    requires a.height > 0 && a.width > 0 && b.height > 0 && b.width > 0
    requires GrayConvertible(a) && GrayConvertible(b)
    ensures r.0.layout == Plane && r.1.layout == Plane
    ensures r.0.height == r.1.height == Min(a.height, b.height)
    ensures r.0.width == r.1.width == Min(a.width, b.width)
  {
    var (ra, rb) := ResizeToMin(a, b);
    (ToGray(ra), ToGray(rb))
  }

  /** Resizing to the common minimum is symmetric in its two arguments. */
  lemma ResizeToMinSymmetric(a: Image, b: Image)
    requires a.height > 0 && a.width > 0 && b.height > 0 && b.width > 0
    ensures ResizeToMin(b, a) == (ResizeToMin(a, b).1, ResizeToMin(a, b).0)
  {
  }
}
