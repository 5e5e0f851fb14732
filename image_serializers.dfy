/** `ExpiringImageSerializer` and `ImageCreateSerializer` (api/src/images/serializers/image.py):
    the expire-time rule, the expiring link, the thumbnail plan of a user's tier, and the
    upload producer that stores the image, caches it and queues the thumbnail job. */
module ImageSerializers {
  import opened Common
  import Strings
  import Paths
  import Tokens
  import Resizer
  import CoreModels
  import Validators
  import Permissions

  /** The bounds `validate_expire_time` enforces, in seconds. */
  const MinExpireTime: int := 300
  const MaxExpireTime: int := 30000

  datatype SerializerError =
    | ExpireTimeOutOfRange  // ValidationError from validate_expire_time
    | NotFound              // exceptions.NotFound from create_expiring_img_link
    | TokenRaised(error: Tokens.TokenError)

  /** `validate_expire_time(value)`: the value itself if it lies in [300, 30000], both ends
      included, and a ValidationError otherwise. */
  function ValidateExpireTime(value: int): (r: Result<int, SerializerError>)
    ensures r.Success? <==> MinExpireTime <= value <= MaxExpireTime
    ensures r.Success? ==> r.value == value
    ensures r.Failure? ==> r.error == ExpireTimeOutOfRange
  {
    if !(MinExpireTime <= value <= MaxExpireTime) then Failure(ExpireTimeOutOfRange) else Success(value)
  }

  lemma ExpireTimeExamples()
    ensures ValidateExpireTime(300) == Success(300) && ValidateExpireTime(30000) == Success(30000)
    ensures ValidateExpireTime(299).Failure? && ValidateExpireTime(30001).Failure?
    ensures ValidateExpireTime(-100).Failure?
  {
  }

  /** `image.og_file` as a truth value: a file field with an empty name is false. */
  predicate HasOgFile(image: CoreModels.Image) {
    image.ogFile.Some? && image.ogFile.value != ""
  }

  /** The serializer that hands out an expiring link: `validated_data["expire_time"]` and the
      `url` it adds. */
  class ExpiringImageSerializer {
    var expireTime: int
    var url: Option<string>

    constructor(expireTime0: int)
      ensures expireTime == expireTime0 && url == None
    {
      expireTime := expireTime0;
      url := None;
    }

    /** `create_expiring_img_link(image)` at clock `now`. `linkFor(token, path)` stands for
        `generate_expire_img_url`, the reversed view URL with the token and the path. */
    method CreateExpiringImgLink(ctx: Tokens.TokenContext, linkFor: (string, string) -> string, now: int, image: CoreModels.Image)
      returns (r: Outcome<SerializerError>)
      modifies this
      ensures expireTime == old(expireTime)
      ensures !HasOgFile(image) ==> r == Fail(NotFound) && url == old(url)
      ensures HasOgFile(image) ==>
        match Tokens.MakeToken(ctx, image.ogFile.value, expireTime, now)
        case Failure(e) => r == Fail(TokenRaised(e)) && url == old(url)
        case Success(token) => r == Pass && url == Some(linkFor(token, image.ogFile.value))
    {
      if !HasOgFile(image) {
        return Fail(NotFound);
      }
      var filename := image.ogFile.value;
      var token := Tokens.MakeToken(ctx, filename, expireTime, now);
      if token.Failure? {
        return Fail(TokenRaised(token.error));
      }
      url := Some(linkFor(token.value, filename));
      r := Pass;
    }
  }

  /** A link minted for a validated expire time opens the original file from the moment it is
      minted until `expire_time` seconds later, the last second included, and is refused after. */
  lemma ValidatedLinkLifetime(ctx: Tokens.TokenContext, expireTime: int, mintNow: int, filename: string, now: int)
    requires Tokens.CodecRoundTrips(ctx)
    requires ValidateExpireTime(expireTime).Success?
    requires 0 <= mintNow && mintNow + MaxExpireTime <= Tokens.MaxInstant
    requires filename != ""
    ensures Tokens.MakeToken(ctx, filename, expireTime, mintNow).Success?
    ensures var token := Tokens.MakeToken(ctx, filename, expireTime, mintNow).value;
      Permissions.HasPermission(ctx, map["token" := token, "path" := filename], now).granted
      <==> now <= mintNow + expireTime
  {
    if now <= mintNow + expireTime {
      Permissions.MintedLinkGranted(ctx, filename, expireTime, mintNow, now);
    } else {
      Permissions.MintedLinkExpires(ctx, filename, expireTime, mintNow, now);
    }
  }

  /** Every link lives for at least five minutes. */
  lemma LinkLivesFiveMinutes(ctx: Tokens.TokenContext, expireTime: int, mintNow: int, filename: string, now: int)
    requires Tokens.CodecRoundTrips(ctx)
    requires ValidateExpireTime(expireTime).Success?
    requires 0 <= mintNow && mintNow + MaxExpireTime <= Tokens.MaxInstant
    requires filename != ""
    requires now <= mintNow + MinExpireTime
    ensures Tokens.MakeToken(ctx, filename, expireTime, mintNow).Success?
    ensures var token := Tokens.MakeToken(ctx, filename, expireTime, mintNow).value;
      Permissions.HasPermission(ctx, map["token" := token, "path" := filename], now).granted
  {
    ValidatedLinkLifetime(ctx, expireTime, mintNow, filename, now);
  }

  // ---------------------------------------------------------------------------------------
  // The thumbnail plan

  /** `size[...] or "auto"` printed by the f-string: a missing or zero dimension is "auto",
      any other is its decimal form. */
  function SizeLabel(d: Option<int>): (text: string)
    ensures text == "auto" <==> d.None? || d.value == 0
    ensures '/' !in text && '.' !in text && 'x' !in text
  {
    if d.None? || d.value == 0 then "auto"
    else
      var s := Strings.IntToDecimal(d.value);
      assert s[0] != 'a';
      s
  }

  /** The part of a thumbnail's file name before the extension. */
  function FileNameStem(size: CoreModels.ThumbnailSize): (stem: string)
    ensures |stem| > 0 && '/' !in stem && '.' !in stem
  {
    var w := SizeLabel(size.width);
    var h := SizeLabel(size.height);
    assert forall i :: 0 <= i < |w| ==> w[i] != '/' && w[i] != '.';
    assert forall i :: 0 <= i < |h| ==> h[i] != '/' && h[i] != '.';
    "thumbnail-" + w + "x" + h
  }

  /** `f"thumbnail-{width}x{height}{extension}"`. */
  function ThumbnailFileName(size: CoreModels.ThumbnailSize, extension: string): (name: string)
    ensures Paths.IsExtension(extension) ==> Paths.Extension(name) == extension
  {
    var stem := FileNameStem(size);
    if Paths.IsExtension(extension) then
      Paths.ExtensionAfterStem(stem, extension);
      stem + extension
    else
      stem + extension
  }

  /** The sizes without repeats, each kept at its first occurrence. (`.distinct()` leaves the
      order to the database; this is one order it may use.) */
  function Distinct(sizes: seq<CoreModels.ThumbnailSize>): (r: seq<CoreModels.ThumbnailSize>)
    ensures forall s :: s in r <==> s in sizes
    ensures forall i, j :: 0 <= i < j < |r| ==> r[i] != r[j]
    ensures |r| <= |sizes|
    decreases |sizes|
  {
    if |sizes| == 0 then []
    else
      var d := Distinct(sizes[..|sizes| - 1]);
      var last := sizes[|sizes| - 1];
      assert forall s :: s in sizes <==> s in sizes[..|sizes| - 1] || s == last by {
        assert sizes == sizes[..|sizes| - 1] + [last];
      }
      if last in d then d else d + [last]
  }

  /** The size pair an entry was made for. */
  function SizeOf(entry: Resizer.ThumbnailSpec): CoreModels.ThumbnailSize {
    CoreModels.ThumbnailSize(entry.height, entry.width)
  }

  /** One dict the generator yields: the size copied as it is, and its file name. */
  function PlanEntry(size: CoreModels.ThumbnailSize, extension: string): (e: Resizer.ThumbnailSpec)
    ensures SizeOf(e) == size && e.file == ThumbnailFileName(size, extension)
  {
    Resizer.ThumbnailSpec(size.height, size.width, ThumbnailFileName(size, extension))
  }

  /** One plan entry per size of `sizes`, in order. */
  function PlanOf(sizes: seq<CoreModels.ThumbnailSize>, extension: string): (plan: seq<Resizer.ThumbnailSpec>)
    ensures |plan| == |sizes|
    ensures forall k :: 0 <= k < |plan| ==> plan[k] == PlanEntry(sizes[k], extension)
  {
    seq(|sizes|, i requires 0 <= i < |sizes| => PlanEntry(sizes[i], extension))
  }

  /** `list(get_thumbnails_data(user, extension))`: nothing for a user without a tier,
      otherwise one entry per distinct (height, width) of the tier's sizes. */
  function GetThumbnailsData(user: CoreModels.User, extension: string): (plan: seq<Resizer.ThumbnailSpec>)
    ensures user.tier.None? ==> plan == []
    ensures user.tier.Some? ==>
      (forall size :: size in user.tier.value.sizes <==> exists k :: 0 <= k < |plan| && SizeOf(plan[k]) == size)
    ensures forall i, j :: 0 <= i < j < |plan| ==> SizeOf(plan[i]) != SizeOf(plan[j])
    ensures forall k :: 0 <= k < |plan| ==> plan[k].file == ThumbnailFileName(SizeOf(plan[k]), extension)
  {
    if user.tier.None? then []
    else
      var d := Distinct(user.tier.value.sizes);
      var plan := PlanOf(d, extension);
      assert forall size :: size in d ==> exists k :: 0 <= k < |plan| && SizeOf(plan[k]) == size by {
        forall size | size in d ensures exists k :: 0 <= k < |plan| && SizeOf(plan[k]) == size {
          var k :| 0 <= k < |d| && d[k] == size;
          assert SizeOf(plan[k]) == size;
        }
      }
      plan
  }

  /** The plan is empty exactly when the user has no tier or the tier has no sizes, so an
      upload queues work exactly for users with thumbnail sizes. */
  lemma PlanEmptyIff(user: CoreModels.User, extension: string)
    ensures |GetThumbnailsData(user, extension)| == 0 <==> user.tier.None? || |user.tier.value.sizes| == 0
  {
    if user.tier.Some? && |user.tier.value.sizes| > 0 {
      var size := user.tier.value.sizes[0];
      assert size in user.tier.value.sizes;
    }
  }

  /** The labels of dimensions that are set and non-zero are told apart. */
  lemma SizeLabelInjective(a: Option<int>, b: Option<int>)
    requires a.None? || a.value != 0
    requires b.None? || b.value != 0
    requires SizeLabel(a) == SizeLabel(b)
    ensures a == b
  {
    if a.Some? && b.Some? {
      Strings.IntToDecimalInjective(a.value, b.value);
    }
  }

  /** Sizes without zero dimensions get distinct file names, so their thumbnails never
      overwrite one another. */
  lemma FileNamesInjective(s1: CoreModels.ThumbnailSize, s2: CoreModels.ThumbnailSize, extension: string)
    requires s1.height.None? || s1.height.value != 0
    requires s1.width.None? || s1.width.value != 0
    requires s2.height.None? || s2.height.value != 0
    requires s2.width.None? || s2.width.value != 0
    requires ThumbnailFileName(s1, extension) == ThumbnailFileName(s2, extension)
    ensures s1 == s2
  {
    var w1 := SizeLabel(s1.width);
    var w2 := SizeLabel(s2.width);
    var h1 := SizeLabel(s1.height);
    var h2 := SizeLabel(s2.height);
    FileNameShape(s1, extension);
    FileNameShape(s2, extension);
    Strings.StripAround("thumbnail-", w1 + "x" + h1, w2 + "x" + h2, extension);
    Strings.SplitAtFirst(w1, 'x', h1, w2, h2);
    SizeLabelInjective(s1.width, s2.width);
    SizeLabelInjective(s1.height, s2.height);
  }

  /** A thumbnail file name is the prefix, the two labels around an `x`, and the extension. */
  lemma FileNameShape(size: CoreModels.ThumbnailSize, extension: string)
    ensures ThumbnailFileName(size, extension) ==
      "thumbnail-" + (SizeLabel(size.width) + "x" + SizeLabel(size.height)) + extension
  {
    var w := SizeLabel(size.width);
    var h := SizeLabel(size.height);
    assert "thumbnail-" + w + "x" + h == "thumbnail-" + (w + "x" + h);
  }

  /** A tier listing both (None, 200) and (0, 200) plans two entries with the same file name:
      `or` treats 0 like a missing value. */
  lemma ZeroAndMissingCollide(extension: string)
    ensures ThumbnailFileName(CoreModels.ThumbnailSize(Some(0), Some(200)), extension) ==
      ThumbnailFileName(CoreModels.ThumbnailSize(None, Some(200)), extension)
  {
  }

  /** An upload that passed the extension validator yields a plan whose every file name
      passes it too and has a format the resizer can save. */
  lemma PlannedNamesValid(user: CoreModels.User, uploadName: string)
    requires Validators.ImgExtensionValidator(uploadName).Pass?
    ensures var plan := GetThumbnailsData(user, Paths.Extension(uploadName));
      forall k :: 0 <= k < |plan| ==>
        Paths.Extension(plan[k].file) == Paths.Extension(uploadName) &&
        Validators.ImgExtensionValidator(plan[k].file).Pass? &&
        Resizer.GetFormat(Paths.Extension(plan[k].file)).Some?
  {
    Paths.ExtensionIsExtension(uploadName);
  }

  /** The same with the validator's evidently intended list: a ".jpeg" upload is accepted, and
      so is every file name planned for it. */
  lemma IntendedPlannedNamesValid(user: CoreModels.User, uploadName: string)
    requires Validators.IntendedImgExtensionValidator(uploadName).Pass?
    ensures var plan := GetThumbnailsData(user, Paths.Extension(uploadName));
      forall k :: 0 <= k < |plan| ==>
        Paths.Extension(plan[k].file) == Paths.Extension(uploadName) &&
        Validators.IntendedImgExtensionValidator(plan[k].file).Pass? &&
        Resizer.GetFormat(Paths.Extension(plan[k].file)).Some?
  {
    Paths.ExtensionIsExtension(uploadName);
    Validators.IntendedAcceptsExactlyEncodable(uploadName);
    var plan := GetThumbnailsData(user, Paths.Extension(uploadName));
    forall k | 0 <= k < |plan|
      ensures Validators.IntendedImgExtensionValidator(plan[k].file).Pass?
    {
      Validators.IntendedAcceptsExactlyEncodable(plan[k].file);
    }
  }

  // ---------------------------------------------------------------------------------------
  // The upload producer

  /** The uploaded file: its name as sent and its bytes. */
  datatype Upload = Upload(name: string, content: Bytes)

  /** The arguments of `thumbnails_creator.delay`. */
  datatype Job = Job(imageUuid: string, thumbnailsData: seq<Resizer.ThumbnailSpec>)

  /** The outside effects of `create`, in the order they happen. */
  datatype CreateEffect = CacheSet(key: string, value: Bytes) | Enqueued(job: Job)

  /** Whether `create` keeps the original: the user's tier must grant access to it. */
  predicate KeepsOriginal(user: CoreModels.User) {
    user.tier.Some? && user.tier.value.hasOgImageAccess
  }

  /** `r` holds the first `|r|` entries of `entries`, each with its file replaced by the
      thumbnail's absolute URL. */
  predicate UrlsFor(absolute: string -> string, uuid: string, entries: seq<Resizer.ThumbnailSpec>, r: seq<Resizer.ThumbnailSpec>) {
    && |r| <= |entries|
    && forall k :: 0 <= k < |r| ==>
         && SizeOf(r[k]) == SizeOf(entries[k])
         && r[k].file == CoreModels.GenerateAbsoluteUrl(absolute, uuid, entries[k].file)
  }

  lemma UrlsForStep(absolute: string -> string, uuid: string, entries: seq<Resizer.ThumbnailSpec>, r: seq<Resizer.ThumbnailSpec>)
    requires UrlsFor(absolute, uuid, entries, r) && |r| < |entries|
    ensures UrlsFor(absolute, uuid, entries,
      r + [entries[|r|].(file := CoreModels.GenerateAbsoluteUrl(absolute, uuid, entries[|r|].file))])
  {
  }

  /** `ImageCreateSerializer` with what it touches: the image cache, the task queue, the
      Image table, the effects in order, and `_validated_data["thumbnails"]` (None until
      `create` has set it). */
  class ImageCreateSerializer {
    var cache: map<string, Bytes>
    var queue: seq<Job>
    var images: seq<CoreModels.Image>
    var log: seq<CreateEffect>
    var thumbnails: Option<seq<Resizer.ThumbnailSpec>>

    constructor(cache0: map<string, Bytes>, queue0: seq<Job>, images0: seq<CoreModels.Image>)
      ensures cache == cache0 && queue == queue0 && images == images0
      ensures log == [] && thumbnails == None
    {
      cache := cache0;
      queue := queue0;
      images := images0;
      log := [];
      thumbnails := None;
    }

    /** `create(validated_data)` for `user`, saving an Image named `name` with primary key
        `uuid`. `validName` is the default storage's `get_valid_name`. */
    method Create(validName: string -> string, user: CoreModels.User, name: string, upload: Upload, uuid: string)
      returns (image: CoreModels.Image)
      modifies this
      ensures image.uuid == uuid && image.name == name && image.uploadedBy == user.id
      ensures image.ogFile.None? <==> !KeepsOriginal(user)
      ensures image.ogFile.Some? ==> image.ogFile.value == CoreModels.ImageGetUploadTo(validName, upload.name)
      ensures images == old(images) + [image]
      ensures var plan := GetThumbnailsData(user, Paths.Extension(upload.name));
        && thumbnails == Some(plan)
        && (|plan| > 0 ==>
              && cache == old(cache)[uuid := upload.content]
              && queue == old(queue) + [Job(uuid, plan)]
              && log == old(log) + [CacheSet(uuid, upload.content), Enqueued(Job(uuid, plan))])
        && (|plan| == 0 ==> cache == old(cache) && queue == old(queue) && log == old(log))
    {
      var extension := Paths.Extension(upload.name);
      var ogFile: Option<string> := Some(CoreModels.ImageGetUploadTo(validName, upload.name));
      if user.tier.None? || !user.tier.value.hasOgImageAccess {
        ogFile := None;
      }
      image := CoreModels.Image(uuid, name, ogFile, user.id);
      images := images + [image];
      var plan := GetThumbnailsData(user, extension);
      if |plan| > 0 {
        cache := cache[uuid := upload.content];
        log := log + [CacheSet(uuid, upload.content)];
        var job := Job(uuid, plan);
        queue := queue + [job];
        log := log + [Enqueued(job)];
      }
      thumbnails := Some(plan);
    }

    /** `get_thumbnails(obj)`, with `absolute` as in CoreModels.GenerateAbsoluteUrl: nothing
        without an object or before `create`; otherwise every planned entry, its `file`
        replaced in place by the thumbnail's absolute URL. */
    method GetThumbnails(obj: Option<CoreModels.Image>, absolute: string -> string)
      returns (r: seq<Resizer.ThumbnailSpec>)
      modifies this
      ensures cache == old(cache) && queue == old(queue) && images == old(images) && log == old(log)
      ensures obj.None? || old(thumbnails).None? ==> r == [] && thumbnails == old(thumbnails)
      ensures obj.Some? && old(thumbnails).Some? ==>
        && thumbnails == Some(r)
        && |r| == |old(thumbnails).value|
        && forall k :: 0 <= k < |r| ==>
             && SizeOf(r[k]) == SizeOf(old(thumbnails).value[k])
             && r[k].file == CoreModels.GenerateAbsoluteUrl(absolute, obj.value.uuid, old(thumbnails).value[k].file)
    {
      if obj.None? || thumbnails.None? {
        return [];
      }
      var entries := thumbnails.value;
      var uuid := obj.value.uuid;
      r := [];
      var i := 0;
      assert r + entries[i..] == entries;
      while i < |entries|
        invariant 0 <= i <= |entries|
        invariant |r| == i
        invariant UrlsFor(absolute, uuid, entries, r)
        invariant thumbnails == Some(r + entries[i..])
        invariant cache == old(cache) && queue == old(queue) && images == old(images) && log == old(log)
      {
        var data := entries[i].(file := CoreModels.GenerateAbsoluteUrl(absolute, uuid, entries[i].file));
        UrlsForStep(absolute, uuid, entries, r);
        thumbnails := Some(r + [data] + entries[i + 1..]);
        r := r + [data];
        i := i + 1;
      }
      assert entries[i..] == [];
      assert r + entries[i..] == r;
    }
  }
}
