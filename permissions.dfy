/** The permission classes of api/src/images/permissions.py: object ownership, and the
    expiring-link check that guards the token view. */
module Permissions {
  import opened Common
  import CoreModels
  import Tokens

  /** `IsObjectOwner` and its subclass `IsImageOwner`, which differ only in the owner field. */
  datatype ObjectPermission = IsObjectOwner | IsImageOwner

  /** `object_owner_field`. */
  function OwnerField(p: ObjectPermission): string {
    match p
    case IsObjectOwner => "owner"
    case IsImageOwner => "uploaded_by"
  }

  /** `getattr` on a missing attribute raises AttributeError. */
  datatype AttributeError = AttributeError(name: string)

  /** The user-valued attributes of an Image: only `uploaded_by`. */
  function ImageAttributes(image: CoreModels.Image): (attrs: map<string, CoreModels.UserId>)
    ensures attrs.Keys == {"uploaded_by"} && attrs["uploaded_by"] == image.uploadedBy
  {
    map["uploaded_by" := image.uploadedBy]
  }

  /** `has_object_permission(request, view, obj)`, with `obj` given by its attributes:
      `getattr(obj, owner_field) == request.user`. */
  function HasObjectPermission(p: ObjectPermission, attrs: map<string, CoreModels.UserId>, user: CoreModels.UserId): (r: Result<bool, AttributeError>)
    ensures r.Failure? <==> OwnerField(p) !in attrs
    ensures r.Failure? ==> r.error == AttributeError(OwnerField(p))
    ensures r.Success? ==> r.value == (attrs[OwnerField(p)] == user)
  {
    var field := OwnerField(p);
    if field in attrs then Success(attrs[field] == user) else Failure(AttributeError(field))
  }

  /** `IsImageOwner` grants exactly the uploader of the image. */
  lemma ImageOwnerGrantsUploader(image: CoreModels.Image, user: CoreModels.UserId)
    ensures HasObjectPermission(IsImageOwner, ImageAttributes(image), user) == Success(image.uploadedBy == user)
  {
  }

  /** The generic class applied to an Image raises: an Image has no `owner` attribute. */
  lemma ObjectOwnerOnImageRaises(image: CoreModels.Image, user: CoreModels.UserId)
    ensures HasObjectPermission(IsObjectOwner, ImageAttributes(image), user).Failure?
  {
  }

  /** What `IsExpiringImageTokenValid.has_permission` decides, and the `(path, token)` it
      passed to `check_token`, None when it did not call it. */
  datatype Decision = Decision(granted: bool, checked: Option<(string, string)>)

  /** `view.kwargs.get(key)` taken as a truth value: missing and empty are both false. */
  predicate Present(kwargs: map<string, string>, key: string) {
    key in kwargs && kwargs[key] != ""
  }

  /** `IsExpiringImageTokenValid.has_permission(request, view)` at clock `now`: deny when the
      `token` or the `path` URL argument is missing or empty; otherwise ask `check_token` once,
      path first. */
  function HasPermission(ctx: Tokens.TokenContext, kwargs: map<string, string>, now: int): (d: Decision)
    ensures d.checked.None? <==> !Present(kwargs, "token") || !Present(kwargs, "path")
    ensures d.checked.None? ==> !d.granted
    ensures d.checked.Some? ==>
      d.checked.value == (kwargs["path"], kwargs["token"]) &&
      d.granted == Tokens.CheckToken(ctx, kwargs["path"], kwargs["token"], now)
  {
    if !Present(kwargs, "token") || !Present(kwargs, "path") then Decision(false, None)
    else
      var token := kwargs["token"];
      var path := kwargs["path"];
      Decision(Tokens.CheckToken(ctx, path, token, now), Some((path, token)))
  }

  /** A link minted for a stored file opens it up to and including its expiry second. */
  lemma MintedLinkGranted(ctx: Tokens.TokenContext, path: string, expireTime: int, mintNow: int, now: int)
    requires Tokens.CodecRoundTrips(ctx)
    requires path != ""
    requires Tokens.Mintable(mintNow, expireTime)
    requires now <= Tokens.ExpireAt(mintNow, expireTime)
    ensures Tokens.MakeToken(ctx, path, expireTime, mintNow).Success?
    ensures var token := Tokens.MakeToken(ctx, path, expireTime, mintNow).value;
      HasPermission(ctx, map["token" := token, "path" := path], now).granted
  {
    Tokens.MintedTokenAccepted(ctx, path, expireTime, mintNow, now);
    var token := Tokens.MakeToken(ctx, path, expireTime, mintNow).value;
    assert token != "";
  }

  /** After its expiry second the same link is refused, though `check_token` is consulted. */
  lemma MintedLinkExpires(ctx: Tokens.TokenContext, path: string, expireTime: int, mintNow: int, now: int)
    requires Tokens.CodecRoundTrips(ctx)
    requires Tokens.Mintable(mintNow, expireTime)
    requires now > Tokens.ExpireAt(mintNow, expireTime)
    ensures Tokens.MakeToken(ctx, path, expireTime, mintNow).Success?
    ensures var token := Tokens.MakeToken(ctx, path, expireTime, mintNow).value;
      !HasPermission(ctx, map["token" := token, "path" := path], now).granted
  {
    Tokens.MintedTokenExpires(ctx, path, expireTime, mintNow, now);
  }
}
