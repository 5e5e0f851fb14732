# Image API core in Dafny

This project models the decision rules of an image-hosting API: users upload images and get
back thumbnails at the sizes their account tier allows. The app is built on Django and DRF, with
Celery for background jobs and Redis as the image cache. Owners can also hand out links to the
original file that stop working after a chosen number of seconds. The model covers:

- **Tokens** (`images/tokens.py`): the expiring-link token scheme. A token is the base-36
  expiry instant and every fourth hex digit of an HMAC over the file name and that instant,
  wrapped in base64url. `check_token` parses the token, tries the primary secret and then
  the fallback secrets, and refuses tokens whose instant has passed. Django's
  `int_to_base36`/`base36_to_int` are modelled concretely in **Base36**.
- **Resizer** (`images/resizer.py`): the size rule of `resize_image`, the extension-to-format
  map and the resize ratio. `resize` is modelled as one outcome per requested thumbnail.
- **ImageSerializers** (`images/serializers/image.py`): the expire-time bounds, the expiring
  link, the thumbnail plan of a tier, the upload producer `create` and `get_thumbnails`.
  `create` saves the image, caches the upload and queues the job.
- **ThumbnailsCreatorTask** (`images/tasks/thumbnails_creator_task.py`): the worker. It saves
  each resized thumbnail in turn, stops at the first failure, swallows the exception and always
  deletes the cached upload.
- **LegacyTasks** (`images/tasks.py`): the earlier worker, identical except that the exception
  propagates once the cache key is deleted.
- **Permissions** (`images/permissions.py`): object ownership and the expiring-link check.
- **Validators** (`core/validators.py`): the upload extension check.
- **CoreModels** (`core/models/image.py`): the records and the upload-path builders.
- **Storage** (`core/storage.py`): the storage that overwrites a name instead of renaming.
- Helpers: **Paths** (`os.path.splitext` and `os.path.join`), **Strings** (`str(int)`, ASCII
  `lower`, `split`), **Common** (Option, Result, Outcome, bytes).

The parts that lie outside the program are parameters:

- The HMAC, the base64url/UTF-8 codec and the clock. The codec's round trip (section 5 of
  RFC 4648) is the predicate `Tokens.CodecRoundTrips`, which lemmas take as a precondition.
- PIL's decoding and encoding (`Resizer.ImageLibrary`).
- The storage's `get_valid_name` and `url`, and `build_absolute_uri`.
- The URL reversal of `generate_expire_img_url`.
- The database checks of the thumbnail serializer (`ThumbnailsCreatorTask.SaveChecks`).

Redis is a `map<string, Bytes>` field, the Celery queue is a `seq<Job>` field, and created rows
are `seq` fields, each on the class whose methods update it. State that changes in place is
modelled as classes: the two serializers, the two workers and the storage. Everything else is
functions and lemmas.

Two points where the model follows the code as written:

- A scaled dimension is `int(s * scale_ratio)` (`images/resizer.py:65`), so `Resizer.Scale`
  truncates toward zero rather than rounding to the nearest pixel.
- The validator's list has only ".jpg" and ".png" (`core/validators.py:9`), so a ".jpeg"
  upload is refused. Its test names ".jpg, .jpeg or .png" as valid
  (`core/tests/test_validators.py:9,12`), and the resizer maps ".jpeg" to JPEG
  (`images/resizer.py:85`). See Findings.

## Model

| member | source | states |
|---|---|---|
| Base36.RoundTrip | api/src/images/tokens.py:41-46 | `int_to_base36` accepts every natural number. `base36_to_int` reads the encoding back to the same number, for every value below 36^13. |
| Base36.TooLargeRefused | api/src/images/tokens.py:46-48 | From 36^13 on, `base36_to_int` refuses the encoding: it is longer than 13 characters. |
| Base36.EncodeHasNoDash | api/src/images/tokens.py:41 | The base-36 encoding never contains '-', so splitting a token on '-' cannot cut the timestamp. |
| Base36.EncodeInjective | api/src/images/tokens.py:73 | Distinct instants have distinct base-36 encodings. |
| Base36.ParsedBelowLimit | api/src/images/tokens.py:46 | Whatever `base36_to_int` accepts is below 36^13. |
| Tokens.Secrets | api/src/images/tokens.py:51 | The search order starts with the primary secret, followed by the fallbacks. |
| Tokens.EveryFourth | api/src/images/tokens.py:79-81 | `h[::4]` has ceil(len/4) characters, and character i is character 4i of the digest. |
| Tokens.MakeToken | api/src/images/tokens.py:15-28 | Raises OverflowError iff `timedelta(seconds=expire_time)` or the expiry date falls outside the `timedelta` or `datetime` range. Raises ValueError iff the expiry instant is representable but negative (before 2001). Otherwise the token is the encoding of the plaintext signed with the primary secret at that instant. |
| Tokens.SplitTokenPlaintext | api/src/images/tokens.py:73-90 | A plaintext splits on '-' into exactly two parts: the base-36 instant and the truncated HMAC of the file name followed by the decimal instant. |
| Tokens.CheckToken | api/src/images/tokens.py:30-64 | Refuses an empty file name or token, input that does not decode, and a plaintext that does not split into two parts. An accepted token always has a readable base-36 timestamp. |
| Tokens.CheckTokenAcceptsExactly | api/src/images/tokens.py:30-64 | `check_token` accepts iff, with both arguments non-empty, the token decodes to the plaintext recomputed under one of the configured secrets. That plaintext must be for this file name and for an instant that is not yet past and below 36^13. |
| Tokens.MintedTokenAccepted | api/src/images/tokens.py:15-64 | Round trip: a token minted for a non-empty name is accepted for that name at every clock up to and including its expiry instant. |
| Tokens.MintedTokenExpires | api/src/images/tokens.py:61-62 | One second after the expiry instant the same token is refused. |
| Tokens.MintedInstantFits | api/src/images/tokens.py:15-28 | Every instant `make_token` writes is below 36^13, so `base36_to_int` always reads it back: the 13-digit limit never refuses a minted token. |
| Tokens.RotatedSecretStillAccepted | api/src/images/tokens.py:51-58 | A token minted under a secret that has since moved to the fallbacks is still accepted. |
| Tokens.AcceptedForOtherNameNeedsDigestCollision | api/src/images/tokens.py:51-58 | A token minted for one name is accepted for another only if, under some configured secret, the two truncated digests collide. |
| Tokens.AcceptedTimestampIsCanonical | api/src/images/tokens.py:41-58 | An accepted token spells its instant in canonical base 36: lower case and no leading zeros. |
| Tokens.HashValueAmbiguous | api/src/images/tokens.py:85-90 | `f"{filename}{timestamp}"` is ambiguous: ("a1", 23) and ("a", 123) hash the same input. |
| Resizer.GetFormat | api/src/images/resizer.py:80-87 | ".jpg" and ".jpeg" give JPEG and ".png" gives PNG, in any letter case. Every other extension gives no format. |
| Resizer.GetResizeRatio | api/src/images/resizer.py:89-102 | Raises ZeroDivisionError iff a given target is over an original dimension of 0. Otherwise a given, non-zero height gives newheight / height; else the width gives newwidth / width, and there is no ratio iff the width is not given. |
| Resizer.BothGivenExact | api/src/images/resizer.py:60-61 | Both targets given (and positive): the result is exactly (width, height), whatever the original aspect. |
| Resizer.HeightOnlyKeepsAspect | api/src/images/resizer.py:62-66 | Only the height given: the height becomes the target, and the width is `width * target / height` truncated. |
| Resizer.WidthOnlyKeepsAspect | api/src/images/resizer.py:62-66 | Only the width given: the width becomes the target, and the height is `height * target / width` truncated. |
| Resizer.NeitherGivenUnchanged | api/src/images/resizer.py:67-69 | Neither target given: the original size. |
| Resizer.NonPositiveTargetRaises | api/src/images/resizer.py:62-66 | A single target of 0 or below makes `resize_image` raise. This happens either through `0.0 or None` or because the scaled size is below one pixel. |
| Resizer.SquareOriginalExample | api/src/images/resizer.py:60-69 | An 800x800 original becomes 200x200, 300x300, 400x400 and 800x800 for the four specs of the resizer's test. |
| Resizer.ResizeImage | api/src/images/resizer.py:45-78 | Returns a result iff the key is cached, the bytes decode, the size rule succeeds, the extension has a format and PIL can write the image in it. The result has the input `file`, the size rule's size, and the bytes of saving the decoded image at that size in that format. Otherwise it raises, in the source's order: unidentified image, the size rule's error, unknown format, then the encoder's OSError. |
| Resizer.Resize | api/src/images/resizer.py:26-43 | Exactly one outcome per entry of `thumbnails_data`, the k-th being `resize_image` of the k-th entry. |
| Validators.ImgExtensionValidator | api/src/core/validators.py:5-14 | Passes iff the lower-cased `splitext` extension is ".jpg" or ".png". Otherwise the error names the lower-cased extension. |
| Validators.AcceptedNamesHaveFormat | api/src/core/validators.py:8-10 | Every name the validator passes has a format the resizer can save. |
| Validators.JpgAccepted | api/src/core/validators.py:8-10 | "filename.jpg" passes. |
| Validators.UpperCaseAccepted | api/src/core/validators.py:10 | "filename.PNG" passes: the comparison is on the lower-cased extension. |
| Validators.SeveralDotsAccepted | api/src/core/validators.py:8 | "a.tar.png" passes: only the part after the last dot counts. |
| Validators.GifRejected | api/src/core/validators.py:10-14 | "filename.gif" is refused with ".gif". |
| Validators.NoExtensionRejected | api/src/core/validators.py:8-14 | ".png" and "png" are refused with the empty extension. |
| Validators.JpegRejected | api/src/core/validators.py:9 | As written, ".jpeg" is refused, though the resizer has a format for it. |
| Validators.IntendedAcceptsExactlyEncodable | api/src/core/validators.py:9 | With ".jpeg" added to the list, the validator passes exactly the names the resizer can encode. |
| Paths.SplitExtSpec | api/src/core/validators.py:8 | `splitext` gives back the path when its parts are joined. A non-empty extension is a dot followed by neither dots nor slashes, preceded in its component by a character that is not a dot. |
| Paths.ExtensionExamples | api/src/core/validators.py:8 | The extension of "a.tar.png" is ".png" and that of "photo.JPG" is ".JPG". |
| Paths.NoExtensionExamples | api/src/core/validators.py:8 | ".png", "..png", "png" and "dir.d/file" have no extension. |
| CoreModels.ImageGetUploadTo | api/src/core/models/image.py:60-66 | For a relative valid name, the path is "original_images/" followed by `get_valid_name(filename)`. |
| CoreModels.ThumbnailGenerateUploadTo | api/src/core/models/image.py:95-111 | For a uuid with no slash and a relative file name, the path is "thumbnails/" + uuid + "/" + file name. |
| CoreModels.ThumbnailGetUploadTo | api/src/core/models/image.py:113-116 | The instance path is the class path for the owning image's uuid. |
| CoreModels.GetUploadTo | api/src/core/models/image.py:18-21 | The module-level function hands over to the instance's own method, for both kinds of record. |
| CoreModels.GenerateAbsoluteUrl | api/src/core/models/image.py:97-105 | The URL is built from the very path `generate_upload_to` gives. |
| CoreModels.UrlNamesUploadPath | api/src/core/models/image.py:103-116 | The URL handed out for a thumbnail names the path that thumbnail's file is uploaded to. |
| CoreModels.ThumbnailPathsInjective | api/src/core/models/image.py:107-111 | Distinct (uuid, file name) pairs give distinct thumbnail paths. |
| CoreModels.OriginalAndThumbnailPathsDisjoint | api/src/core/models/image.py:60-111 | No original shares its path with a thumbnail. |
| Storage.AfterGetAvailableName | api/src/core/storage.py:17-19 | After the call `name` does not exist, and every other path exists iff it did before. |
| Storage.OverwriteStorage.GetAvailableName | api/src/core/storage.py:11-19 | Returns `name` unchanged and removes it from the file set if present. Nothing else changes. |
| Storage.AbsentNameRemovesNothing | api/src/core/storage.py:17-18 | A name that does not exist leaves the file set as it is. |
| Storage.PresentNameRemovesOne | api/src/core/storage.py:17-18 | A name that exists is the one and only file removed. |
| Storage.GetAvailableNameIdempotent | api/src/core/storage.py:11-19 | Two calls with the same name leave the same files as one. |
| Permissions.HasObjectPermission | api/src/images/permissions.py:7-19 | Raises iff the object has no owner attribute, and then an AttributeError naming that attribute. Otherwise grants iff that attribute equals the requesting user. |
| Permissions.ImageOwnerGrantsUploader | api/src/images/permissions.py:22-28 | `IsImageOwner` grants exactly the image's `uploaded_by`. |
| Permissions.ObjectOwnerOnImageRaises | api/src/images/permissions.py:14-19 | The generic class on an Image raises, because an Image has no `owner`. |
| Permissions.HasPermission | api/src/images/permissions.py:38-46 | Denies without consulting `check_token` iff `token` or `path` is missing or empty. Otherwise it calls `check_token(path, token)` once, path first, and returns its answer. |
| Permissions.MintedLinkGranted | api/src/images/permissions.py:38-46 | A link minted for a stored path is let through up to and including its expiry second. |
| Permissions.MintedLinkExpires | api/src/images/permissions.py:38-46 | After its expiry second the same link is refused. |
| ImageSerializers.ValidateExpireTime | api/src/images/serializers/image.py:62-70 | Returns the value unchanged iff it lies in [300, 30000], both ends included. Otherwise it raises the validation error. |
| ImageSerializers.ExpireTimeExamples | api/src/images/serializers/image.py:62-70 | 300 and 30000 pass; 299, 30001 and -100 fail. |
| ImageSerializers.ExpiringImageSerializer.CreateExpiringImgLink | api/src/images/serializers/image.py:85-100 | No original raises NotFound and leaves `url` unset. Otherwise `url` becomes the link for the token minted for `og_file.name`, and an error of `make_token` (overflow, negative instant) is raised instead. |
| ImageSerializers.ValidatedLinkLifetime | api/src/images/serializers/image.py:62-100 | A link minted for a validated expire time is granted iff the clock is at most mint time plus `expire_time`. |
| ImageSerializers.LinkLivesFiveMinutes | api/src/images/serializers/image.py:65 | Every link is granted for at least the first 300 seconds. |
| ImageSerializers.SizeLabel | api/src/images/serializers/image.py:174-175 | A dimension prints as "auto" iff it is missing or 0, and no label contains '/', '.' or 'x'. |
| ImageSerializers.ThumbnailFileName | api/src/images/serializers/image.py:180 | Whenever the plan's extension comes from `splitext`, the file name has exactly that extension. |
| ImageSerializers.FileNameShape | api/src/images/serializers/image.py:180 | The file name is "thumbnail-", the width label, "x", the height label and the extension. |
| ImageSerializers.Distinct | api/src/images/serializers/image.py:172 | `.distinct()` keeps the same sizes, no two equal, and never more than it was given. |
| ImageSerializers.GetThumbnailsData | api/src/images/serializers/image.py:160-181 | No tier gives an empty plan. Otherwise a size is in the tier iff some entry copies it, and no two entries share a (height, width). Each entry's file name is built from its size and the extension. |
| ImageSerializers.PlanEmptyIff | api/src/images/serializers/image.py:166-173 | The plan is empty iff the user has no tier or the tier has no sizes. |
| ImageSerializers.SizeLabelInjective | api/src/images/serializers/image.py:174-175 | Two dimensions that are neither missing nor 0 print alike only when they are equal. |
| ImageSerializers.FileNamesInjective | api/src/images/serializers/image.py:174-180 | Sizes without zero dimensions get distinct file names, so their thumbnails never overwrite each other. |
| ImageSerializers.ZeroAndMissingCollide | api/src/images/serializers/image.py:174-175 | (0, 200) and (None, 200) get the same file name, because `or` treats 0 as missing. |
| ImageSerializers.PlannedNamesValid | api/src/images/serializers/image.py:160-189 | For an upload that passed the validator, every planned file name has the upload's extension, passes the validator, and has a format. |
| ImageSerializers.IntendedPlannedNamesValid | api/src/images/serializers/image.py:160-189 | With ".jpeg" added to the validator's list, a ".jpeg" upload passes, and so does every file name planned for it, each with a format. |
| ImageSerializers.ImageCreateSerializer.Create | api/src/images/serializers/image.py:183-213 | Saves one Image. The original is dropped iff the user has no tier or no original access. With a non-empty plan it caches the upload under the uuid and then enqueues one job with the plan. With an empty plan it does neither. It always stores the plan as the serializer's thumbnails. |
| ImageSerializers.ImageCreateSerializer.GetThumbnails | api/src/images/serializers/image.py:137-158 | Empty without an object or before `create`. Otherwise it returns the same entries with only `file` replaced by the thumbnail's absolute URL, and the stored entries are updated in place. |
| ThumbnailsCreatorTask.FieldChecks | api/src/core/models/image.py:84-92 | The file-name check the task runs under is the model field's extension validator. |
| ThumbnailsCreatorTask.Record | api/src/images/tasks/thumbnails_creator_task.py:39-54 | The saved record has `image` the task's uuid, the reported height and width, and the yielded file name and bytes. |
| ThumbnailsCreatorTask.ThumbnailsCreator.SaveImage | api/src/images/tasks/thumbnails_creator_task.py:39-54 | A record that validates is appended and its bytes stored at its upload path. Otherwise it raises and nothing changes. |
| ThumbnailsCreatorTask.FirstFailure | api/src/images/tasks/thumbnails_creator_task.py:27-34 | Some exception ends the loop early iff fewer results are saved than were yielded. |
| ThumbnailsCreatorTask.ThumbnailsCreator.SaveAll | api/src/images/tasks/thumbnails_creator_task.py:27-32 | Saves the results in turn up to the first one that raised or did not validate, and returns that exception. |
| ThumbnailsCreatorTask.ThumbnailsCreator.Run | api/src/images/tasks/thumbnails_creator_task.py:18-37 | Always returns. The rows, files and journal are those of the saves before the first failure, followed by one deletion of the cached upload. |
| ThumbnailsCreatorTask.CleanupOnceAndLast | api/src/images/tasks/thumbnails_creator_task.py:35-37 | A run's journal deletes the cache key exactly once, as its last entry, after every save. |
| ThumbnailsCreatorTask.NothingSavedAfterFailure | api/src/images/tasks/thumbnails_creator_task.py:27-34 | No result after one that raised is saved. |
| ThumbnailsCreatorTask.SavedInOrder | api/src/images/tasks/thumbnails_creator_task.py:31-32 | The k-th saved record is the record of the k-th yielded result, for the task's image, and it validated. |
| ThumbnailsCreatorTask.EverythingSavedWithoutFailure | api/src/images/tasks/thumbnails_creator_task.py:31-32 | When every result is an image that validates, every one is saved and nothing is raised. |
| ThumbnailsCreatorTask.StoreFilesKeepsAndAdds | api/src/images/tasks/thumbnails_creator_task.py:53-54 | Saving keeps every existing file and writes one under the path of each save; the last save of a path decides its bytes. |
| ThumbnailsCreatorTask.UrlNamesStoredFile | api/src/core/models/image.py:97-116 | The URL the API returns for a plan entry names the file the worker stores for it. |
| LegacyTasks.LegacyOutcome | api/src/images/tasks.py:27-45 | A legacy run returns iff every result is saved. Otherwise it raises the first failure. |
| LegacyTasks.LegacyThumbnailsCreator.SaveInTurn | api/src/images/tasks.py:28-42 | The `try` body: saves in turn up to the first failure and returns its exception. |
| LegacyTasks.LegacyThumbnailsCreator.Run | api/src/images/tasks.py:17-45 | Makes the same saves as the live task and deletes the cache key once, after them. It raises iff a result failed. |
| LegacyTasks.LegacyRaisesWhenLiveSwallows | api/src/images/tasks.py:27-45 | A run with a failed result raises, and at most the results before it were saved. |

## Left out

- Concurrency: `resize` runs the thumbnails in a process pool and yields them as they
  complete (`images/resizer.py:32-43`). `Resizer.Resize` gives them in plan order. The save
  loops (`SaveAll`, `SaveInTurn`) and their lemmas take the results as a parameter and hold
  for any order; the `Run` methods use plan order.
- PIL is not modelled: decoding, resampling, ANTIALIAS, encoding, quality and optimize. An
  image is its size and opaque bytes, given by `Resizer.ImageLibrary`. Whether the encoder can
  write an image's mode in a format (a palette or RGBA image as JPEG, a CMYK image as PNG)
  is a parameter too: `save` returns None there, and `resize_image` raises.
- Validators.ImgExtensionValidator: `str.lower()` is modelled on ASCII letters only. Whether a
  name passes is exact, because ".jpg" and ".png" are ASCII, but for an extension with a
  non-ASCII capital (".PNĞ", say) the extension named in the error keeps that letter.
- Float arithmetic in `__get_resize_ratio` is not modelled. The ratio is an exact fraction, so
  the model computes `int(s * ratio)` without float rounding error.
- `salted_hmac`, base64url, UTF-8 and the clock are parameters of the token scheme. The clock
  is whole seconds since 2001, as `_num_seconds` gives it; its microseconds are not modelled,
  so `int()`'s truncation of a fractional instant is not either.
  `constant_time_compare` is plain equality; its timing property is out of scope.
- Tokens.CheckToken: `base36_to_int` is Python's `int(s, 36)`, which also accepts surrounding
  whitespace, a sign and underscores. The model accepts both letter cases but not those forms.
  Such spellings are refused anyway, because they never match the recomputed plaintext
  (`Tokens.AcceptedTimestampIsCanonical`).
- The Redis client, the Celery app and registration, and `on_failure` logging are not modelled.
  The cache is a map, the queue a sequence, and the logged exception is the returned one.
  `max_retries = 0` is the constant `MaxRetries`, and retries are not modelled.
- The URL ends of links are parameters: `reverse`, `build_absolute_uri` and the storage's `url`.
- ThumbnailsCreatorTask.IsValid: whether the image's primary key exists and whether the bytes
  are an image PIL can open are parameters of `SaveChecks`. The file-name check is a parameter
  too, and it is the extension validator when the task runs with `FieldChecks`. Keeping it a
  parameter keeps the save loop's proof small.
- LegacyTasks.LegacyThumbnailsCreator.Run runs with the same `SaveChecks` as the live task.
  `images/tasks.py` imports `ThumbnailSerializer` from `images.serializers`, and which of the
  two definitions of that name it gets is not part of this model.
- ImageSerializers.Distinct: `.distinct()` leaves the order to the database. The model keeps
  each size at its first occurrence.
- ImageSerializers.ImageCreateSerializer.Create: `super().create` is an append to the Image
  table. The name, the uuid and the user are inputs, and model-level validation is not run again.
- ImageSerializers.ImageCreateSerializer.Create assumes an in-memory upload: the content is
  always readable. `file.file.getvalue()` (`images/serializers/image.py:203`) exists only on
  an in-memory file; an upload that Django's handlers wrote to a temporary file would raise
  AttributeError there, after the Image row is saved. The upload settings are not part of
  this model, so that error path is not modelled.
- ImageSerializers.ImageCreateSerializer.GetThumbnails: the source is a generator that updates
  each dict as it is consumed. The model consumes it fully in one call.
- Permissions.HasObjectPermission: users compare by primary key, and an object is given by its
  user-valued attributes.
- The default storage's renaming on collision (`get_valid_name`/`get_available_name` of
  `FileSystemStorage`) is not modelled. `get_valid_name` is a parameter.
- `ImageSerializer` (both copies), `ThumbnailSerializer`, admin, URLs, views,
  `wait_for_db` and the load-test script are framework configuration or I/O, and are not
  modelled.

## Findings

| source | as written | input that shows it | evidently intended | confidence | as-written member | corrected member |
|---|---|---|---|---|---|---|
| api/src/core/validators.py:9 | `valid_extensions = [".jpg", ".png"]` refuses ".jpeg" | an upload named "filename.jpeg", which the validator test lists as valid and the resizer can save as JPEG | accept ".jpeg" too, so the validator passes exactly the extensions the resizer encodes | high, not executed | Validators.JpegRejected | Validators.IntendedAcceptsExactlyEncodable |

The rest of the model keeps the validator as written wherever it models what the program
does: `ThumbnailsCreatorTask.FieldChecks` and `ImageSerializers.PlannedNamesValid`. The
intended validator is what `ImageSerializers.IntendedPlannedNamesValid` carries through
the thumbnail plan.
