/** `ImageResizer` (api/src/images/resizer.py): the size rule of `resize_image`, the format map
    and the resize ratio, and `resize` run sequentially. An image is represented by its size
    and its bytes; decoding, resampling and encoding (PIL) are the parameters of an
    ImageLibrary. */
module Resizer {
  import opened Common
  import Strings
  import Paths

  /** `(width, height)`, as PIL's `image.size`. */
  datatype Size = Size(width: int, height: int)

  /** One entry of `thumbnails_data`: `{"file", "height", "width"}`; None is an unset dimension. */
  datatype ThumbnailSpec = ThumbnailSpec(height: Option<int>, width: Option<int>, file: string)

  datatype ImageFormat = JPEG | PNG

  /** `open(bytes)` is the size of the image PIL decodes, or None when PIL cannot identify it;
      `save(bytes, size, format)` the encoded result of resampling the image to `size` with
      ANTIALIAS and saving it in `format` (optimize, quality 80), or None when PIL cannot
      write the image in that format (a palette or RGBA image as JPEG, say). */
  datatype ImageLibrary = ImageLibrary(
    open: Bytes -> Option<Size>,
    save: (Bytes, Size, ImageFormat) -> Option<Bytes>)

  /** The exceptions `resize_image` can raise. */
  datatype ResizeError =
    | Unidentified      // REDIS.get gave nothing, or PIL cannot decode the bytes
    | ZeroDivision      // a ratio over an original dimension of 0
    | NoRatio           // `int(s * None)`: the only given target is 0, so `height_ratio or width_ratio` is None
    | NonPositiveSize   // PIL refuses to resize to a width or height below 1
    | UnknownFormat     // `save` with format None
    | EncodeFailed      // OSError from `save`: the image's mode cannot be written in the format

  /** What `resize_image` returns, `(file, {"width", "height"}, bytes)`, or what it raises. */
  datatype ResizeOutcome = Resized(file: string, size: Size, data: Bytes) | Failed(error: ResizeError)

  /** `new / orig` as an exact fraction; `den` is never 0. */
  datatype Ratio = Ratio(num: int, den: int)

  /** `__get_format`: ".jpg" and ".jpeg" map to JPEG and ".png" to PNG, in any letter case. */
  function GetFormat(extension: string): (f: Option<ImageFormat>)
    ensures f == Some(JPEG) <==> Strings.Lower(extension) in {".jpg", ".jpeg"}
    ensures f == Some(PNG) <==> Strings.Lower(extension) == ".png"
    ensures f.Some? || Strings.Lower(extension) !in {".jpg", ".jpeg", ".png"}
  {
    var e := Strings.Lower(extension);
    if e == ".jpg" || e == ".jpeg" then Some(JPEG)
    else if e == ".png" then Some(PNG)
    else None
  }

  /** `__get_resize_ratio`: `height_ratio or width_ratio`, where a ratio is None for an unset
      target and a ratio of 0 counts as false. Either division raises ZeroDivisionError on an
      original dimension of 0. */
  function GetResizeRatio(base: Size, newHeight: Option<int>, newWidth: Option<int>): (r: Result<Option<Ratio>, ResizeError>)
    ensures r.Failure? <==> (newHeight.Some? && base.height == 0) || (newWidth.Some? && base.width == 0)
    ensures r.Failure? ==> r.error == ZeroDivision
    ensures r.Success? && r.value.Some? ==> r.value.value.den != 0
    // a given, non-zero height decides
    ensures r.Success? && newHeight.Some? && newHeight.value != 0 ==>
      r.value == Some(Ratio(newHeight.value, base.height))
    // otherwise the width decides, and there is no ratio when it is not given
    ensures r.Success? && (newHeight.None? || newHeight.value == 0) ==>
      (r.value.None? <==> newWidth.None?) &&
      (newWidth.Some? ==> r.value == Some(Ratio(newWidth.value, base.width)))
  {
    if (newHeight.Some? && base.height == 0) || (newWidth.Some? && base.width == 0) then Failure(ZeroDivision)
    else
      var heightRatio := if newHeight.None? then None else Some(Ratio(newHeight.value, base.height));
      var widthRatio := if newWidth.None? then None else Some(Ratio(newWidth.value, base.width));
      if heightRatio.Some? && heightRatio.value.num != 0 then Success(heightRatio) else Success(widthRatio)
  }

  /** Python's `int(x)` of the quotient `a / b`: truncation toward zero. */
  function TruncDiv(a: int, b: int): int
    requires b != 0
  {
    if (a >= 0) == (b > 0) then (if a >= 0 then a / b else (-a) / (-b))
    else -(if a >= 0 then a / (-b) else (-a) / b)
  }

  /** `int(s * ratio)` for one dimension `s`, computed exactly. */
  function Scale(s: int, r: Ratio): int
    requires r.den != 0
  {
    TruncDiv(s * r.num, r.den)
  }

  /** PIL's `resize` refuses a target width or height below 1. */
  function PilResize(target: Size): Result<Size, ResizeError> {
    if target.width < 1 || target.height < 1 then Failure(NonPositiveSize) else Success(target)
  }

  /** The size rule of `resize_image`: both targets given, exactly that size; one given, both
      dimensions scaled by target / original and truncated; neither given, unchanged. */
  function ResizedSize(base: Size, height: Option<int>, width: Option<int>): (r: Result<Size, ResizeError>)
  {
    if height.Some? && width.Some? then PilResize(Size(width.value, height.value))
    else if height.Some? || width.Some? then
      match GetResizeRatio(base, height, width)
      case Failure(e) => Failure(e)
      case Success(None) => Failure(NoRatio)
      case Success(Some(ratio)) => PilResize(Size(Scale(base.width, ratio), Scale(base.height, ratio)))
    else Success(base)
  }

  /** `resize_image(image_uuid, file, height, width)` against the cache contents. */
  function ResizeImage(lib: ImageLibrary, cache: map<string, Bytes>, imageUuid: string, spec: ThumbnailSpec): (r: ResizeOutcome)
    ensures r.Resized? <==>
      && imageUuid in cache && lib.open(cache[imageUuid]).Some?
      && ResizedSize(lib.open(cache[imageUuid]).value, spec.height, spec.width).Success?
      && GetFormat(Paths.Extension(spec.file)).Some?
      && lib.save(cache[imageUuid], ResizedSize(lib.open(cache[imageUuid]).value, spec.height, spec.width).value,
                  GetFormat(Paths.Extension(spec.file)).value).Some?
    ensures r.Resized? ==>
      && r.file == spec.file
      && ResizedSize(lib.open(cache[imageUuid]).value, spec.height, spec.width) == Success(r.size)
      && Some(r.data) == lib.save(cache[imageUuid], r.size, GetFormat(Paths.Extension(spec.file)).value)
    // what it raises, in the order the source meets it
    ensures r.Failed? && (imageUuid !in cache || lib.open(cache[imageUuid]).None?) ==> r.error == Unidentified
    ensures r.Failed? && imageUuid in cache && lib.open(cache[imageUuid]).Some? ==>
      var sized := ResizedSize(lib.open(cache[imageUuid]).value, spec.height, spec.width);
      var format := GetFormat(Paths.Extension(spec.file));
      && (sized.Failure? ==> r.error == sized.error)
      && (sized.Success? && format.None? ==> r.error == UnknownFormat)
      && (sized.Success? && format.Some? ==> r.error == EncodeFailed)
  {
    if imageUuid !in cache then Failed(Unidentified)
    else
      match lib.open(cache[imageUuid])
      case None => Failed(Unidentified)
      case Some(base) =>
        match ResizedSize(base, spec.height, spec.width)
        case Failure(e) => Failed(e)
        case Success(size) =>
          match GetFormat(Paths.Extension(spec.file))
          case None => Failed(UnknownFormat)
          case Some(format) =>
            match lib.save(cache[imageUuid], size, format)
            case None => Failed(EncodeFailed)
            case Some(data) => Resized(spec.file, size, data)
  }

  /** `ImageResizer(image_uuid, thumbnails_data)`. */
  datatype ImageResizer = ImageResizer(imageUuid: string, thumbnailsData: seq<ThumbnailSpec>)

  /** `resize`, run one spec after another: one outcome per entry of `thumbnails_data`, in the
      order of the entries. The source runs the entries in a process pool and yields them in
      the order they complete, which this model does not fix. */
  method Resize(lib: ImageLibrary, cache: map<string, Bytes>, resizer: ImageResizer) returns (results: seq<ResizeOutcome>)
    ensures |results| == |resizer.thumbnailsData|
    ensures forall k :: 0 <= k < |results| ==>
      results[k] == ResizeImage(lib, cache, resizer.imageUuid, resizer.thumbnailsData[k])
  {
    results := [];
    var i := 0;
    while i < |resizer.thumbnailsData|
      invariant 0 <= i <= |resizer.thumbnailsData|
      invariant |results| == i
      invariant forall k :: 0 <= k < i ==>
        results[k] == ResizeImage(lib, cache, resizer.imageUuid, resizer.thumbnailsData[k])
    {
      results := results + [ResizeImage(lib, cache, resizer.imageUuid, resizer.thumbnailsData[i])];
      i := i + 1;
    }
  }

  /** Both targets given: exactly that size, whatever the original aspect. */
  lemma BothGivenExact(base: Size, height: int, width: int)
    requires height >= 1 && width >= 1
    ensures ResizedSize(base, Some(height), Some(width)) == Success(Size(width, height))
  {
  }

  /** Neither target given: the original size. */
  lemma NeitherGivenUnchanged(base: Size)
    ensures ResizedSize(base, None, None) == Success(base)
  {
  }

  lemma DivExact(a: nat, b: nat)
    requires b > 0
    ensures (a * b) / b == a
  {
    var q := (a * b) / b;
    var m := (a * b) % b;
    assert (a - q) * b == m;
    MulBelowFactor(a - q, b);
  }

  lemma MulBelowFactor(x: int, b: int)
    requires b > 0 && 0 <= x * b < b
    ensures x == 0
  {
    if x > 0 {
      MulAtLeastFactor(x, b);
    } else if x < 0 {
      MulAtLeastFactor(-x, b);
    }
  }

  lemma MulAtLeastFactor(x: int, b: int)
    requires x >= 1 && b >= 0
    ensures x * b >= b
  {
    assert x * b == (x - 1) * b + b;
  }

  /** Only the height given: the height becomes the target exactly and the width is the
      truncated `width * target / height`, so the aspect ratio is kept up to one pixel of
      truncation. */
  lemma HeightOnlyKeepsAspect(base: Size, target: int)
    requires base.width >= 1 && base.height >= 1 && target >= 1
    requires ResizedSize(base, Some(target), None).Success?
    ensures var r := ResizedSize(base, Some(target), None).value;
      && r.height == target
      && r.width * base.height <= base.width * target < (r.width + 1) * base.height
  {
    var r := ResizedSize(base, Some(target), None).value;
    DivExact(target, base.height);
    assert base.height * target == target * base.height;
    assert r.width == (base.width * target) / base.height;
  }

  /** Only the width given: the width becomes the target exactly and the height is the
      truncated `height * target / width`. */
  lemma WidthOnlyKeepsAspect(base: Size, target: int)
    requires base.width >= 1 && base.height >= 1 && target >= 1
    requires ResizedSize(base, None, Some(target)).Success?
    ensures var r := ResizedSize(base, None, Some(target)).value;
      && r.width == target
      && r.height * base.width <= base.height * target < (r.height + 1) * base.width
  {
    var r := ResizedSize(base, None, Some(target)).value;
    DivExact(target, base.width);
    assert base.width * target == target * base.width;
    assert r.height == (base.height * target) / base.width;
  }

  /** One target given and not positive: `resize_image` raises, either because the ratio is 0
      (and `0.0 or None` is None) or because the scaled size is below 1. */
  lemma NonPositiveTargetRaises(base: Size, target: int)
    requires base.width >= 1 && base.height >= 1 && target <= 0
    ensures ResizedSize(base, Some(target), None).Failure?
    ensures ResizedSize(base, None, Some(target)).Failure?
  {
  }

  /** The sizes in the resizer's test: an 800x800 original with specs (200, 200), height 300,
      width 400 and none. */
  lemma SquareOriginalExample()
    ensures ResizedSize(Size(800, 800), Some(200), Some(200)) == Success(Size(200, 200))
    ensures ResizedSize(Size(800, 800), Some(300), None) == Success(Size(300, 300))
    ensures ResizedSize(Size(800, 800), None, Some(400)) == Success(Size(400, 400))
    ensures ResizedSize(Size(800, 800), None, None) == Success(Size(800, 800))
  {
  }
}
