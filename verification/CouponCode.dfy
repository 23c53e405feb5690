/** `CouponCodeGenerator`: plain coupon codes, their parsing, and their encryption. */
module CouponCode {
  import Base62
  import Base64Url
  import FernetToken

  /** `CouponConfig`, after `initialize`. */
  datatype Config = Config(prefix: string, suffixLength: int)

  // ----- Generation -------------------------------------------------------------------

  /** Seconds and milliseconds of an instant, as the code splits and rejoins them. */
  function UniqueTimestamp(ms: int): (t: int)
    ensures t == 1000 * ms
  {
    var seconds, milliseconds := ms / 1000, ms % 1000;
    seconds * 1000000 + milliseconds * 1000
  }

  /** The random suffix is an input. */
  function Code(c: Config, session: nat, user: nat, ms: nat, suffix: string): string {
    c.prefix + Base62.Encoded(session) + Base62.Encoded(user) + Base62.Encoded(UniqueTimestamp(ms)) + suffix
  }

  /** The number of characters drawn for a requested length. */
  function Drawn(length: int): nat { if length < 0 then 0 else length }

  method GenerateUniqueCode(c: Config, session: nat, user: nat, ms: nat, suffix: string, rnd: real -> real)
    returns (code: string)
    requires Base62.RoundsToNearest(rnd)
    requires session < Base62.TWO_53 && user < Base62.TWO_53 && 1000 * ms < Base62.TWO_53
    ensures code == Code(c, session, user, ms, suffix)
    ensures code == c.prefix + Base62.Encoded(session) + Base62.Encoded(user) + Base62.Encoded(1000 * ms) + suffix
  {
    var sessionEncoded := Base62.Encode(session, rnd);
    var userEncoded := Base62.Encode(user, rnd);
    var timestampEncoded := Base62.Encode(UniqueTimestamp(ms), rnd);
    code := c.prefix + sessionEncoded + userEncoded + timestampEncoded + suffix;
  }

  lemma SamePrefixSameRest(p: string, s: string, t: string)
    ensures p + s == p + t ==> s == t
  {
    assert (p + s)[|p|..] == s && (p + t)[|p|..] == t;
  }

  lemma SameTailSameHead(s: string, t: string, x: string, y: string)
    requires |x| == |y| && s + x == t + y
    ensures s == t && x == y
  {
    assert |s| == |t|;
    assert (s + x)[..|s|] == s && (t + y)[..|t|] == t;
    assert (s + x)[|s|..] == x && (t + y)[|t|..] == y;
  }

  /** Two codes of one session and user are equal only if they were made in the same
      millisecond with the same suffix. */
  lemma CodesDiffer(c: Config, session: nat, user: nat, ms: nat, ms': nat, suffix: string, suffix': string)
    requires |suffix| == |suffix'|
    ensures Code(c, session, user, ms, suffix) == Code(c, session, user, ms', suffix')
       <==> ms == ms' && suffix == suffix'
  {
    var head := c.prefix + Base62.Encoded(session) + Base62.Encoded(user);
    var t, t' := Base62.Encoded(UniqueTimestamp(ms)), Base62.Encoded(UniqueTimestamp(ms'));
    assert Code(c, session, user, ms, suffix) == head + (t + suffix);
    assert Code(c, session, user, ms', suffix') == head + (t' + suffix');
    if Code(c, session, user, ms, suffix) == Code(c, session, user, ms', suffix') {
      SamePrefixSameRest(head, t + suffix, t' + suffix');
      SameTailSameHead(t, t', suffix, suffix');
      Base62.EncodedInjective(UniqueTimestamp(ms), UniqueTimestamp(ms'));
    }
  }

  /** Without separators, what decides is the run of digits: two pairs of a session and a
      user share their codes exactly when their digits, put together, are the same. */
  lemma CodesCoincide(c: Config, s: nat, u: nat, s': nat, u': nat, ms: nat, suffix: string)
    ensures Code(c, s, u, ms, suffix) == Code(c, s', u', ms, suffix)
       <==> Base62.Encoded(s) + Base62.Encoded(u) == Base62.Encoded(s') + Base62.Encoded(u')
  {
    var t := Base62.Encoded(UniqueTimestamp(ms));
    var x, x' := Base62.Encoded(s) + Base62.Encoded(u), Base62.Encoded(s') + Base62.Encoded(u');
    Regroup(c.prefix, Base62.Encoded(s), Base62.Encoded(u), t);
    Regroup(c.prefix, Base62.Encoded(s'), Base62.Encoded(u'), t);
    assert Code(c, s, u, ms, suffix) == c.prefix + (x + t) + suffix;
    assert Code(c, s', u', ms, suffix) == c.prefix + (x' + t) + suffix;
    Sandwich(c.prefix, x, x', t, suffix);
  }

  lemma Sandwich(p: string, x: string, y: string, t: string, z: string)
    ensures p + (x + t) + z == p + (y + t) + z <==> x == y
  {
    if p + (x + t) + z == p + (y + t) + z {
      SameTailSameHead(p + (x + t), p + (y + t), z, z);
      SamePrefixSameRest(p, x + t, y + t);
      SameTailSameHead(x, y, t, t);
    }
  }

  /** And that happens for every session number of two digits or more that does not end in
      zero: its last digit can be read as the first one of the user's. */
  lemma PartsRunTogether(c: Config, s: nat, u: nat, ms: nat, suffix: string) returns (u': nat)
    requires s >= 62 && s % 62 != 0
    ensures Code(c, s, u, ms, suffix) == Code(c, s / 62, u', ms, suffix) && s / 62 != s
  {
    var d := Base62.Digit(s % 62);
    u' := Prefixed(s % 62, u);
    LastDigit(s);
    assert Base62.Encoded(s / 62) + [d] + Base62.Encoded(u) == Base62.Encoded(s / 62) + ([d] + Base62.Encoded(u));
    CodesCoincide(c, s, u, s / 62, u', ms, suffix);
  }

  /** The number whose digits are those of `u` after the digit `i`. */
  lemma Prefixed(i: int, u: nat) returns (u': nat)
    requires 0 < i < 62
    ensures Base62.Encoded(u') == [Base62.Digit(i)] + Base62.Encoded(u)
  {
    var tail := [Base62.Digit(i)] + Base62.Encoded(u);
    Base62.IndexOfDigit(i);
    Base62.DecodeEncode(u);
    assert tail[0] != '0';
    Base62.DigitsOfValue(tail);
    u' := Base62.Value(tail);
  }

  lemma LastDigit(s: nat)
    requires s >= 62
    ensures Base62.Encoded(s) == Base62.Encoded(s / 62) + [Base62.Digit(s % 62)]
  {
  }

  // ----- Parsing ----------------------------------------------------------------------------

  function Clamp(i: int, length: nat): (r: nat)
    ensures r <= length
  {
    if i < 0 then 0 else if i > length then length else i
  }

  /** `substring`: bounds are clamped, and swapped if they are out of order. */
  function Substring(s: string, start: int, end: int): string {
    var a, b := Clamp(start, |s|), Clamp(end, |s|);
    if a <= b then s[a..b] else s[b..a]
  }

  datatype Parsed = InvalidPrefix | Parsed(prefix: string, middle: string, suffix: string)

  function ParseCouponCode(c: Config, code: string): Parsed {
    var prefix := Substring(code, 0, 3);
    if prefix != c.prefix then InvalidPrefix
    else Parsed(prefix, Substring(code, 3, |code| - c.suffixLength), Substring(code, |code| - c.suffixLength, |code|))
  }

  function Middle(session: nat, user: nat, ms: nat): string {
    Base62.Encoded(session) + Base62.Encoded(user) + Base62.Encoded(UniqueTimestamp(ms))
  }

  /** Every code has at least one character for each of its three numbers. */
  lemma CodeParts(c: Config, session: nat, user: nat, ms: nat, suffix: string)
    ensures Code(c, session, user, ms, suffix) == c.prefix + Middle(session, user, ms) + suffix
    ensures |Middle(session, user, ms)| >= 3
  {
    Base62.DecodeEncode(session);
    Base62.DecodeEncode(user);
    Base62.DecodeEncode(UniqueTimestamp(ms));
    Regroup(c.prefix, Base62.Encoded(session), Base62.Encoded(user), Base62.Encoded(UniqueTimestamp(ms)));
  }

  lemma Regroup(p: string, x: string, y: string, z: string)
    ensures p + x + y + z == p + (x + y + z)
  {
  }

  /** A generated code parses exactly when the configured prefix has three characters,
      and then into its own parts exactly when its suffix has the configured length. */
  lemma ParseGenerated(c: Config, session: nat, user: nat, ms: nat, suffix: string)
    ensures var parsed := ParseCouponCode(c, Code(c, session, user, ms, suffix));
      && (parsed.Parsed? <==> |c.prefix| == 3)
      && (parsed == Parsed(c.prefix, Middle(session, user, ms), suffix)
          <==> |c.prefix| == 3 && |suffix| == Drawn(c.suffixLength))
  {
    CodeParts(c, session, user, ms, suffix);
    if |c.prefix| == 3 {
      ParseParts(c, Middle(session, user, ms), suffix);
    } else {
      OtherPrefix(c, Code(c, session, user, ms, suffix));
    }
  }

  lemma OtherPrefix(c: Config, code: string)
    requires |code| >= 3 && |c.prefix| != 3
    ensures ParseCouponCode(c, code) == InvalidPrefix
  {
    assert |Substring(code, 0, 3)| == 3;
  }

  /** The configured length decides where the suffix starts. */
  lemma ParseParts(c: Config, middle: string, suffix: string)
    requires |c.prefix| == 3
    ensures var parsed := ParseCouponCode(c, c.prefix + middle + suffix);
      parsed.Parsed? && (parsed == Parsed(c.prefix, middle, suffix) <==> |suffix| == Drawn(c.suffixLength))
  {
    var code := c.prefix + middle + suffix;
    assert code[..3] == c.prefix;
    var cut := |code| - c.suffixLength;
    if |suffix| == Drawn(c.suffixLength) {
      assert Clamp(cut, |code|) == |c.prefix + middle|;
      assert code[|c.prefix + middle|..] == suffix;
      assert code[3..|c.prefix + middle|] == middle;
    } else {
      assert |Substring(code, cut, |code|)| == |code| - Clamp(cut, |code|);
    }
  }

  // ----- With encryption -----------------------------------------------------------------------

  /** `generateAndEncrypt`, then `decryptCode`, then `parseCouponCode`: the plain code
      comes back, and with the default suffix length so do its parts. */
  lemma GenerateEncryptDecryptParse(
    c: Config, p: FernetToken.Primitives, session: nat, user: nat, ms: nat, suffix: string,
    key: seq<Base64Url.Byte>, iv: seq<Base64Url.Byte>)
    requires FernetToken.CipherOk(p) && FernetToken.DigestOk(p) && |key| == 32 && |iv| == 16
    requires ms / 1000 < 0x1_0000_0000_0000_0000
    requires p.fromUtf8(p.toUtf8(Code(c, session, user, ms, suffix))) == Code(c, session, user, ms, suffix)
    requires |suffix| == Drawn(c.suffixLength)
    ensures var plain := Code(c, session, user, ms, suffix);
      var r := FernetToken.Decrypt(p, FernetToken.Encrypt(p, plain, key, ms / 1000, iv), key);
      && r == FernetToken.Ok(plain)
      && (ParseCouponCode(c, r.plain).Parsed? <==> |c.prefix| == 3)
      && (|c.prefix| == 3 ==> ParseCouponCode(c, r.plain).suffix == suffix)
  {
    FernetToken.DecryptEncrypt(p, Code(c, session, user, ms, suffix), key, ms / 1000, iv);
    ParseGenerated(c, session, user, ms, suffix);
  }
}
