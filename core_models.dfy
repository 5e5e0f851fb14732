/** The records of the core (api/src/core/models/image.py, with the shapes of Tier,
    ThumbnailSize and User from core/models/tier.py and core/models/user.py) and the
    upload-path builders of Image and Thumbnail. */
module CoreModels {
  import opened Common
  import Paths
  import Strings

  /** A row of `ThumbnailSize`: both dimensions are nullable integers. */
  datatype ThumbnailSize = ThumbnailSize(height: Option<int>, width: Option<int>)

  /** A `Tier` with its related `sizes`, in the order the database returns them. */
  datatype Tier = Tier(hasOgImageAccess: bool, canGenerateExpireLink: bool, sizes: seq<ThumbnailSize>)

  /** Users compare by identity; a user stands for its primary key. */
  type UserId = string

  datatype User = User(id: UserId, tier: Option<Tier>)

  /** An `Image` row. `ogFile` is the stored path of the original, None when it was not kept. */
  datatype Image = Image(uuid: string, name: string, ogFile: Option<string>, uploadedBy: UserId)

  /** `Image.folder_name` and `Thumbnail.folder_name`. */
  const ImageFolder: string := "original_images"
  const ThumbnailFolder: string := "thumbnails"

  /** `Image.get_upload_to(filename)`: the storage's `get_valid_name(filename)` (a parameter)
      joined onto the originals folder. */
  function ImageGetUploadTo(validName: string -> string, filename: string): (path: string)
    ensures Paths.RelativeName(validName(filename)) ==> path == ImageFolder + "/" + validName(filename)
  {
    Paths.Join(ImageFolder, validName(filename))
  }

  /** `Thumbnail.generate_upload_to(image_uuid, filename)`: usable without an instance. */
  function ThumbnailGenerateUploadTo(imageUuid: string, filename: string): (path: string)
    ensures Paths.PlainComponent(imageUuid) && Paths.RelativeName(filename) ==>
      path == ThumbnailFolder + "/" + imageUuid + "/" + filename
  {
    Paths.Join3(ThumbnailFolder, imageUuid, filename)
  }

  /** What the module-level `get_upload_to(instance, filename)` is given: an Image being
      saved, or a Thumbnail of the image `image`. */
  datatype UploadInstance = ImageInstance | ThumbnailInstance(image: Image)

  /** `Thumbnail.get_upload_to(filename)`: the class-level path for the owning image. */
  function ThumbnailGetUploadTo(image: Image, filename: string): (path: string)
    ensures path == ThumbnailGenerateUploadTo(image.uuid, filename)
  {
    Paths.Join3(ThumbnailFolder, image.uuid, filename)
  }

  /** The module-level `get_upload_to`: it hands over to the instance's own method. */
  function GetUploadTo(validName: string -> string, instance: UploadInstance, filename: string): (path: string)
    ensures instance.ImageInstance? ==> path == ImageGetUploadTo(validName, filename)
    ensures instance.ThumbnailInstance? ==> path == ThumbnailGenerateUploadTo(instance.image.uuid, filename)
  {
    match instance
    case ImageInstance => ImageGetUploadTo(validName, filename)
    case ThumbnailInstance(image) => ThumbnailGetUploadTo(image, filename)
  }

  /** `Thumbnail.generate_absolute_url(request, image_uuid, filename)`. `absolute` stands for
      the storage's `url` followed by `request.build_absolute_uri`; only the path is modelled. */
  function GenerateAbsoluteUrl(absolute: string -> string, imageUuid: string, filename: string): (url: string)
    ensures url == absolute(ThumbnailGenerateUploadTo(imageUuid, filename))
  {
    absolute(Paths.Join3(ThumbnailFolder, imageUuid, filename))
  }

  /** The URL handed out for a thumbnail names the very path a Thumbnail of that image is
      uploaded to. */
  lemma UrlNamesUploadPath(absolute: string -> string, validName: string -> string, image: Image, filename: string)
    ensures GenerateAbsoluteUrl(absolute, image.uuid, filename) ==
      absolute(GetUploadTo(validName, ThumbnailInstance(image), filename))
  {
  }

  /** A thumbnail path is the folder, a slash, and the uuid and the file name joined by a
      slash. */
  lemma ThumbnailPathShape(imageUuid: string, filename: string)
    requires Paths.PlainComponent(imageUuid) && Paths.RelativeName(filename)
    ensures ThumbnailGenerateUploadTo(imageUuid, filename) == ThumbnailFolder + "/" + (imageUuid + "/" + filename)
  {
    assert ThumbnailFolder + "/" + imageUuid + "/" + filename == ThumbnailFolder + "/" + (imageUuid + "/" + filename);
  }

  /** Distinct (image, file name) pairs get distinct thumbnail paths, as long as the uuid is a
      single path component and the file name is relative. */
  lemma ThumbnailPathsInjective(u1: string, f1: string, u2: string, f2: string)
    requires Paths.PlainComponent(u1) && Paths.PlainComponent(u2)
    requires Paths.RelativeName(f1) && Paths.RelativeName(f2)
    requires ThumbnailGenerateUploadTo(u1, f1) == ThumbnailGenerateUploadTo(u2, f2)
    ensures u1 == u2 && f1 == f2
  {
    ThumbnailPathShape(u1, f1);
    ThumbnailPathShape(u2, f2);
    var prefix := ThumbnailFolder + "/";
    var s1 := u1 + "/" + f1;
    var s2 := u2 + "/" + f2;
    assert s1 == (prefix + s1)[|prefix|..];
    assert s2 == (prefix + s2)[|prefix|..];
    Strings.SplitAtFirst(u1, '/', f1, u2, f2);
  }

  /** An original and a thumbnail never share a path: the folders differ in their first
      character. */
  lemma OriginalAndThumbnailPathsDisjoint(validName: string -> string, filename: string, imageUuid: string, thumbName: string)
    requires Paths.RelativeName(validName(filename))
    requires Paths.PlainComponent(imageUuid) && Paths.RelativeName(thumbName)
    ensures ImageGetUploadTo(validName, filename) != ThumbnailGenerateUploadTo(imageUuid, thumbName)
  {
    assert ImageGetUploadTo(validName, filename)[0] == 'o';
    assert ThumbnailGenerateUploadTo(imageUuid, thumbName)[0] == 't';
  }
}
