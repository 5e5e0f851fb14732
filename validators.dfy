/** `img_extension_validator` (api/src/core/validators.py): an uploaded file must have the
    extension ".jpg" or ".png", in any letter case. */
module Validators {
  import opened Common
  import Strings
  import Paths
  import Resizer

  datatype ValidationError = UnsupportedExtension(extension: string)

  /** `valid_extensions` as the code has it. */
  const ValidExtensions: seq<string> := [".jpg", ".png"]

  /** `img_extension_validator(value)` for a file named `name`: passes, or raises
      ValidationError naming the lower-cased extension. */
  function ImgExtensionValidator(name: string): (r: Outcome<ValidationError>)
    ensures r.Pass? <==> Strings.Lower(Paths.Extension(name)) in {".jpg", ".png"}
    ensures r.Fail? ==> r.error == UnsupportedExtension(Strings.Lower(Paths.Extension(name)))
  {
    var ext := Strings.Lower(Paths.Extension(name));
    if ext in ValidExtensions then Pass else Fail(UnsupportedExtension(ext))
  }

  /** Every name the validator passes has an extension the resizer can encode, so a validated
      upload never makes `resize_image` raise for its format. */
  lemma AcceptedNamesHaveFormat(name: string)
    requires ImgExtensionValidator(name).Pass?
    ensures Resizer.GetFormat(Paths.Extension(name)).Some?
  {
  }

  /** `splitext` of a name made of a plain stem, a dot and an extension. */
  lemma ExtensionIs(name: string, stem: string, e: string)
    requires name == stem + "." + e
    requires '/' !in stem && '/' !in e && '.' !in e
    requires |stem| > 0 && stem[0] != '.'
    ensures Paths.Extension(name) == "." + e
  {
    Paths.ExtensionOfStem(stem, e);
  }

    /** A lower-case name of the validator's tests passes. */
  lemma JpgAccepted()
    ensures ImgExtensionValidator("filename.jpg").Pass?
  {
    Strings.LowerOfLowercase(".jpg");
    AcceptedWithStem("filename.jpg", "filename", ".jpg");
  }

  /** The letter case of the extension does not matter. */
  lemma UpperCaseAccepted()
    ensures ImgExtensionValidator("filename.PNG").Pass?
  {
    assert Strings.Lower(".PNG") == ".png";
    AcceptedWithStem("filename.PNG", "filename", ".PNG");
  }

  /** Only the part after the last dot counts. */
  lemma SeveralDotsAccepted()
    ensures ImgExtensionValidator("a.tar.png").Pass?
  {
    Strings.LowerOfLowercase(".png");
    AcceptedWithStem("a.tar.png", "a.tar", ".png");
  }

  /** A name made of a plain stem and an extension that lower-cases to a valid one passes. */
  lemma AcceptedWithStem(name: string, stem: string, ext: string)
    requires name == stem + ext
    requires |ext| > 0 && ext[0] == '.' && '.' !in ext[1..]
    requires '/' !in stem && '/' !in ext
    requires |stem| > 0 && stem[0] != '.'
    requires Strings.Lower(ext) in ValidExtensions
    ensures ImgExtensionValidator(name).Pass?
  {
    var e := ext[1..];
    assert ext == "." + e;
    ExtensionIs(name, stem, e);
  }

    /** Another extension is refused, and the error names it. */
  lemma GifRejected()
    ensures ImgExtensionValidator("filename.gif") == Fail(UnsupportedExtension(".gif"))
  {
    ExtensionIs("filename.gif", "filename", "gif");
    Strings.LowerOfLowercase(".gif");
  }

  /** Names without an extension are refused with an empty one: `splitext` ignores leading
      dots and needs a dot. */
  lemma NoExtensionRejected()
    ensures ImgExtensionValidator(".png") == Fail(UnsupportedExtension(""))
    ensures ImgExtensionValidator("png") == Fail(UnsupportedExtension(""))
  {
    Paths.NoExtensionExamples();
    assert Strings.Lower("") == "";
  }

  /** As written, the code rejects ".jpeg", which its own test lists as valid and which the
      resizer's format map supports. */
  lemma JpegRejected()
    ensures ImgExtensionValidator("filename.jpeg") == Fail(UnsupportedExtension(".jpeg"))
    ensures Resizer.GetFormat(".jpeg") == Some(Resizer.JPEG)
  {
    ExtensionIs("filename.jpeg", "filename", "jpeg");
    Strings.LowerOfLowercase(".jpeg");
  }

  /** The evidently intended list: the three extensions of the test and of the format map. */
  const IntendedExtensions: seq<string> := [".jpg", ".jpeg", ".png"]

  function IntendedImgExtensionValidator(name: string): (r: Outcome<ValidationError>)
    ensures r.Fail? ==> r.error == UnsupportedExtension(Strings.Lower(Paths.Extension(name)))
  {
    var ext := Strings.Lower(Paths.Extension(name));
    if ext in IntendedExtensions then Pass else Fail(UnsupportedExtension(ext))
  }

  /** With the intended list, the validator passes exactly the names the resizer can encode,
      ".jpeg" included. */
  lemma IntendedAcceptsExactlyEncodable(name: string)
    ensures IntendedImgExtensionValidator(name).Pass? <==> Resizer.GetFormat(Paths.Extension(name)).Some?
    ensures IntendedImgExtensionValidator("filename.jpeg").Pass?
  {
    JpegRejected();
  }
}
