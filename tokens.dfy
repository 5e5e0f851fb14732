/** The expiring-link token scheme of `ExpiringImageTokenGenerator` (api/src/images/tokens.py).

    A token is base64url(UTF-8(b36 + "-" + h)) where b36 is the expiry instant in base 36 and h
    is every fourth hexadecimal character of an HMAC over the file name and the decimal expiry
    instant. The HMAC, the base64url/UTF-8 codec and the clock are parameters: the first two
    are fields of a TokenContext, the clock is an argument in whole seconds, as Django's
    `_num_seconds(_now())` gives it. */
module Tokens {
  import opened Common
  import opened Strings
  import Base36

  /** A lower-case hexadecimal digit, as `hexdigest()` produces. */
  type HexDigit = c: char | ('0' <= c <= '9') || ('a' <= c <= 'f') witness '0'

  /** What the generator is configured with. `hmac(secret, message)` stands for
      `salted_hmac(key_salt, message, secret=secret, algorithm=algorithm).hexdigest()`;
      `encode` for UTF-8 then `urlsafe_b64encode`, `decode` for `urlsafe_b64decode` then UTF-8,
      None where either raises. */
  datatype TokenContext = TokenContext(
    secret: string,
    fallbacks: seq<string>,
    hmac: (string, string) -> seq<HexDigit>,
    encode: string -> string,
    decode: string -> Option<string>)

  /** What section 5 of RFC 4648 promises of base64url over UTF-8: decoding an encoding gives the
      text back, and only the empty text encodes to the empty string. */
  ghost predicate CodecRoundTrips(ctx: TokenContext) {
    && (forall s :: ctx.decode(ctx.encode(s)) == Some(s))
    && (forall s :: ctx.encode(s) == [] ==> s == [])
  }

  /** The secrets `check_token` tries, in order: the primary, then the fallbacks. */
  function Secrets(ctx: TokenContext): (s: seq<string>)
    ensures |s| == 1 + |ctx.fallbacks| && s[0] == ctx.secret && s[1..] == ctx.fallbacks
  {
    [ctx.secret] + ctx.fallbacks
  }

  /** `h[::4]`: characters 0, 4, 8, ... of `h`. */
  function EveryFourth(h: seq<HexDigit>): (r: seq<HexDigit>)
    ensures |r| == (|h| + 3) / 4
    ensures forall i :: 0 <= i < |r| ==> r[i] == h[4 * i]
    decreases |h|
  {
    if |h| == 0 then [] else [h[0]] + EveryFourth(h[if |h| < 4 then |h| else 4..])
  }

  /** `_make_hash_value`: the file name followed by the decimal timestamp. */
  function HashValue(filename: string, timestamp: nat): string {
    filename + IntToDecimal(timestamp)
  }

  /** `_make_token_with_timestamp` for a non-negative timestamp: the plaintext of a token. */
  function TokenWithTimestamp(ctx: TokenContext, filename: string, timestamp: nat, secret: string): string {
    Base36.Encode(timestamp) + "-" + EveryFourth(ctx.hmac(secret, HashValue(filename, timestamp)))
  }

  /** `_get_expire_date` followed by `_num_seconds`: the expiry instant of a token minted at
      `now`. */
  function ExpireAt(now: int, expireTime: int): int {
    now + expireTime
  }

  /** `datetime.min` and the last whole second of `datetime.max`, in `_num_seconds` terms
      (seconds since 2001-01-01 00:00). */
  const MinInstant: int := -63113904000
  const MaxInstant: int := 252423993599

  /** The whole seconds a `timedelta` holds: from -999999999 days to 999999999 days 23:59:59. */
  const MinTimedelta: int := -86399999913600
  const MaxTimedelta: int := 86399999999999

  /** `self._now() + datetime.timedelta(seconds=expire_time)` raises no OverflowError: the
      delta fits a `timedelta` and the sum fits a `datetime`. */
  predicate ExpiryRepresentable(now: int, expireTime: int) {
    && MinTimedelta <= expireTime <= MaxTimedelta
    && MinInstant <= ExpireAt(now, expireTime) <= MaxInstant
  }

  /** `make_token` returns: the expiry date exists and is not before 2001, so `int_to_base36`
      accepts its instant. */
  predicate Mintable(now: int, expireTime: int) {
    ExpiryRepresentable(now, expireTime) && 0 <= ExpireAt(now, expireTime)
  }

  datatype TokenError =
    | Overflow             // OverflowError from `_get_expire_date`
    | NegativeBase36Input  // ValueError from `int_to_base36`

  /** `make_token(filename, expire_time)` at clock `now`, signed with the primary secret.
      `_get_expire_date` raises OverflowError when the delta or the expiry date is out of
      range; `int_to_base36` raises ValueError when the expiry instant is negative. */
  function MakeToken(ctx: TokenContext, filename: string, expireTime: int, now: int): (r: Result<string, TokenError>)
    ensures r == Failure(Overflow) <==> !ExpiryRepresentable(now, expireTime)
    ensures r == Failure(NegativeBase36Input) <==>
      ExpiryRepresentable(now, expireTime) && ExpireAt(now, expireTime) < 0
    ensures r.Success? <==> Mintable(now, expireTime)
    ensures r.Success? ==>
      r.value == ctx.encode(TokenWithTimestamp(ctx, filename, ExpireAt(now, expireTime), ctx.secret))
  {
    if !ExpiryRepresentable(now, expireTime) then Failure(Overflow)
    else
      var ts := ExpireAt(now, expireTime);
      match Base36.IntToBase36(ts)
      case None => Failure(NegativeBase36Input)
      case Some(_) => Success(ctx.encode(TokenWithTimestamp(ctx, filename, ts, ctx.secret)))
  }

  /** The last representable instant fits in 13 base-36 digits. */
  lemma MaxInstantBelowLimit()
    ensures MaxInstant < Base36.Limit()
  {
    assert Base36.Pow36(8) == 2821109907456 by {
      assert Base36.Pow36(4) == 1679616 by {
        assert Base36.Pow36(2) == 1296;
      }
    }
    Base36.PowMonotone(8, Base36.MaxInputLength);
  }

  /** Every instant `make_token` writes is one `base36_to_int` reads back: below 36^13. */
  lemma MintedInstantFits(ctx: TokenContext, filename: string, expireTime: int, now: int)
    requires MakeToken(ctx, filename, expireTime, now).Success?
    ensures 0 <= ExpireAt(now, expireTime) < Base36.Limit()
  {
    MaxInstantBelowLimit();
  }

  /** The `for ... else` search of `check_token`: does some secret, tried in order, recompute
      exactly `plain`? */
  function SignedBySome(ctx: TokenContext, filename: string, ts: nat, plain: string, secrets: seq<string>): (r: bool)
    ensures r <==> exists s :: s in secrets && TokenWithTimestamp(ctx, filename, ts, s) == plain
    decreases |secrets|
  {
    if |secrets| == 0 then false
    else (TokenWithTimestamp(ctx, filename, ts, secrets[0]) == plain
          || SignedBySome(ctx, filename, ts, plain, secrets[1..]))
  }

  /** `check_token(filename, token)` at clock `now`. Every malformed input gives false. */
  function CheckToken(ctx: TokenContext, filename: string, token: string, now: int): (ok: bool)
    ensures filename == "" || token == "" ==> !ok
    ensures ctx.decode(token).None? ==> !ok
    ensures ok ==> |Split(ctx.decode(token).value, '-')| == 2
    ensures ok ==> Base36.Base36ToInt(Split(ctx.decode(token).value, '-')[0]).Some?
  {
    if filename == "" || token == "" then false
    else
      match ctx.decode(token)
      case None => false
      case Some(plain) =>
        var parts := Split(plain, '-');
        if |parts| != 2 then false
        else
          match Base36.Base36ToInt(parts[0])
          case None => false
          case Some(ts) =>
            if !SignedBySome(ctx, filename, ts, plain, Secrets(ctx)) then false
            else if now - ts > 0 then false
            else true
  }

  /** A plaintext splits on '-' into the base-36 timestamp and the hash. */
  lemma SplitTokenPlaintext(ctx: TokenContext, filename: string, ts: nat, secret: string)
    ensures Split(TokenWithTimestamp(ctx, filename, ts, secret), '-') ==
      [Base36.Encode(ts), EveryFourth(ctx.hmac(secret, HashValue(filename, ts)))]
  {
    var h: string := EveryFourth(ctx.hmac(secret, HashValue(filename, ts)));
    Base36.EncodeHasNoDash(ts);
    assert '-' !in h by {
      forall i | 0 <= i < |h| ensures h[i] != '-' {
        var d: HexDigit := EveryFourth(ctx.hmac(secret, HashValue(filename, ts)))[i];
        assert h[i] == d;
      }
    }
    SplitPair(Base36.Encode(ts), '-', h);
  }

  /** The token decodes to the plaintext recomputed under one of the configured secrets, for this
      file name and an expiry instant that is not yet past and fits in 13 base-36 digits. */
  ghost predicate LiveSignature(ctx: TokenContext, filename: string, token: string, now: int) {
    exists ts: nat, s ::
      s in Secrets(ctx) && now <= ts < Base36.Limit() && ctx.decode(token) == Some(TokenWithTimestamp(ctx, filename, ts, s))
  }

  /** Exactly which tokens `check_token` accepts: non-empty inputs and a live signature. */
  lemma CheckTokenAcceptsExactly(ctx: TokenContext, filename: string, token: string, now: int)
    ensures CheckToken(ctx, filename, token, now) <==>
      filename != "" && token != "" && LiveSignature(ctx, filename, token, now)
  {
    if CheckToken(ctx, filename, token, now) {
      AcceptedHasLiveSignature(ctx, filename, token, now);
    }
    if filename != "" && token != "" && LiveSignature(ctx, filename, token, now) {
      LiveSignatureAccepted(ctx, filename, token, now);
    }
  }

  lemma AcceptedHasLiveSignature(ctx: TokenContext, filename: string, token: string, now: int)
    requires CheckToken(ctx, filename, token, now)
    ensures LiveSignature(ctx, filename, token, now)
  {
    var plain := ctx.decode(token).value;
    var ts := Base36.Base36ToInt(Split(plain, '-')[0]).value;
    Base36.ParsedBelowLimit(Split(plain, '-')[0]);
    assert SignedBySome(ctx, filename, ts, plain, Secrets(ctx));
    var s :| s in Secrets(ctx) && TokenWithTimestamp(ctx, filename, ts, s) == plain;
    assert now <= ts < Base36.Limit();
    assert ctx.decode(token) == Some(TokenWithTimestamp(ctx, filename, ts, s));
  }

  lemma LiveSignatureAccepted(ctx: TokenContext, filename: string, token: string, now: int)
    requires filename != "" && token != ""
    requires LiveSignature(ctx, filename, token, now)
    ensures CheckToken(ctx, filename, token, now)
  {
    var ts: nat, s :| s in Secrets(ctx) && now <= ts < Base36.Limit()
      && ctx.decode(token) == Some(TokenWithTimestamp(ctx, filename, ts, s));
    var plain := TokenWithTimestamp(ctx, filename, ts, s);
    SplitTokenPlaintext(ctx, filename, ts, s);
    var parts := Split(plain, '-');
    assert |parts| == 2 && parts[0] == Base36.Encode(ts);
    Base36.RoundTrip(ts);
    assert Base36.Base36ToInt(parts[0]) == Some(ts);
    assert SignedBySome(ctx, filename, ts, plain, Secrets(ctx));
    assert now - ts <= 0;
  }

  /** Round trip: a token minted at `mintNow` with an unchanged configuration is accepted for
      its file name at every clock up to and including its expiry instant. */
  lemma MintedTokenAccepted(ctx: TokenContext, filename: string, expireTime: int, mintNow: int, now: int)
    requires CodecRoundTrips(ctx)
    requires filename != ""
    requires Mintable(mintNow, expireTime)
    requires now <= ExpireAt(mintNow, expireTime)
    ensures MakeToken(ctx, filename, expireTime, mintNow).Success?
    ensures CheckToken(ctx, filename, MakeToken(ctx, filename, expireTime, mintNow).value, now)
  {
    MintedInstantFits(ctx, filename, expireTime, mintNow);
    var ts := ExpireAt(mintNow, expireTime);
    var plain := TokenWithTimestamp(ctx, filename, ts, ctx.secret);
    var token := MakeToken(ctx, filename, expireTime, mintNow).value;
    assert ctx.decode(token) == Some(plain);
    assert plain != [];
    assert token != [];
    CheckTokenAcceptsExactly(ctx, filename, token, now);
  }

  /** Expiry: once the clock is past the embedded instant, the token is refused, whoever signed
      it. The boundary second itself is still accepted (see MintedTokenAccepted). */
  lemma MintedTokenExpires(ctx: TokenContext, filename: string, expireTime: int, mintNow: int, now: int)
    requires CodecRoundTrips(ctx)
    requires Mintable(mintNow, expireTime)
    requires now > ExpireAt(mintNow, expireTime)
    ensures MakeToken(ctx, filename, expireTime, mintNow).Success?
    ensures !CheckToken(ctx, filename, MakeToken(ctx, filename, expireTime, mintNow).value, now)
  {
    MintedInstantFits(ctx, filename, expireTime, mintNow);
    var ts := ExpireAt(mintNow, expireTime);
    var plain := TokenWithTimestamp(ctx, filename, ts, ctx.secret);
    var token := MakeToken(ctx, filename, expireTime, mintNow).value;
    assert ctx.decode(token) == Some(plain);
    SplitTokenPlaintext(ctx, filename, ts, ctx.secret);
    Base36.RoundTrip(ts);
  }

  /** Key rotation: a token minted under an old primary secret is still accepted once that
      secret has moved to the fallbacks, with the rest of the configuration unchanged. */
  lemma RotatedSecretStillAccepted(
    ctx: TokenContext, rotated: TokenContext, filename: string, expireTime: int, mintNow: int, now: int)
    requires CodecRoundTrips(ctx)
    requires rotated.hmac == ctx.hmac && rotated.decode == ctx.decode
    requires ctx.secret in rotated.fallbacks
    requires filename != ""
    requires Mintable(mintNow, expireTime)
    requires now <= ExpireAt(mintNow, expireTime)
    ensures MakeToken(ctx, filename, expireTime, mintNow).Success?
    ensures CheckToken(rotated, filename, MakeToken(ctx, filename, expireTime, mintNow).value, now)
  {
    MintedInstantFits(ctx, filename, expireTime, mintNow);
    var ts := ExpireAt(mintNow, expireTime);
    var token := MakeToken(ctx, filename, expireTime, mintNow).value;
    var plain := TokenWithTimestamp(ctx, filename, ts, ctx.secret);
    assert ctx.decode(token) == Some(plain);
    assert token != [];
    assert TokenWithTimestamp(rotated, filename, ts, ctx.secret) == plain;
    assert ctx.secret in Secrets(rotated);
    CheckTokenAcceptsExactly(rotated, filename, token, now);
  }

  /** Binding to the file name: a token minted for `filename` is accepted for another name only
      if, under some configured secret, the truncated digest of the other name's hash value
      equals that of the minted one. */
  lemma AcceptedForOtherNameNeedsDigestCollision(
    ctx: TokenContext, filename: string, other: string, expireTime: int, mintNow: int, now: int)
    requires CodecRoundTrips(ctx)
    requires MakeToken(ctx, filename, expireTime, mintNow).Success?
    requires CheckToken(ctx, other, MakeToken(ctx, filename, expireTime, mintNow).value, now)
    ensures var ts := ExpireAt(mintNow, expireTime);
      exists s :: s in Secrets(ctx) &&
        EveryFourth(ctx.hmac(s, HashValue(other, ts))) == EveryFourth(ctx.hmac(ctx.secret, HashValue(filename, ts)))
  {
    MintedInstantFits(ctx, filename, expireTime, mintNow);
    var ts := ExpireAt(mintNow, expireTime);
    var token := MakeToken(ctx, filename, expireTime, mintNow).value;
    var plain := TokenWithTimestamp(ctx, filename, ts, ctx.secret);
    assert ctx.decode(token) == Some(plain);
    CheckTokenAcceptsExactly(ctx, other, token, now);
    var ts': nat, s :| s in Secrets(ctx) && now <= ts' < Base36.Limit()
      && ctx.decode(token) == Some(TokenWithTimestamp(ctx, other, ts', s));
    SplitTokenPlaintext(ctx, filename, ts, ctx.secret);
    SplitTokenPlaintext(ctx, other, ts', s);
    Base36.EncodeInjective(ts, ts');
  }

  /** An accepted token spells its timestamp canonically: any other spelling that
      `base36_to_int` would also read (capital letters, leading zeros) is refused, because the
      recomputed plaintext never contains it. */
  lemma AcceptedTimestampIsCanonical(ctx: TokenContext, filename: string, token: string, now: int)
    requires CheckToken(ctx, filename, token, now)
    ensures var parts := Split(ctx.decode(token).value, '-');
      parts[0] == Base36.Encode(Base36.Base36ToInt(parts[0]).value)
  {
    var plain := ctx.decode(token).value;
    var ts := Base36.Base36ToInt(Split(plain, '-')[0]).value;
    var s :| s in Secrets(ctx) && TokenWithTimestamp(ctx, filename, ts, s) == plain;
    SplitTokenPlaintext(ctx, filename, ts, s);
  }

  /** The hash value is ambiguous: moving digits between the end of the file name and the start
      of the timestamp gives the same HMAC input. */
  lemma HashValueAmbiguous()
    ensures HashValue("a1", 23) == HashValue("a", 123)
  {
    assert IntToDecimal(23) == "23";
    assert IntToDecimal(123) == "123";
  }
}
