/** `CouponEncryption`: the layout of an encrypted coupon code.

    version (0x80) | timestamp, 8 bytes | IV, 16 bytes | ciphertext | HMAC, 32 bytes,
    all in unpadded base64url.  The primitives are parameters. */
module FernetToken {
  import opened Schema
  import opened Base64Url

  const VERSION: Byte := 0x80
  const IV_START := 9
  const CIPHERTEXT_START := 25
  const HMAC_LENGTH := 32

  /** The platform's primitives.  `decrypt` is None where the decipher throws: a key or
      IV of the wrong length, an incomplete block, bad padding. */
  datatype Primitives = Primitives(
    encrypt: (seq<Byte>, seq<Byte>, seq<Byte>) -> seq<Byte>,
    decrypt: (seq<Byte>, seq<Byte>, seq<Byte>) -> Option<seq<Byte>>,
    hmac: (seq<Byte>, seq<Byte>) -> seq<Byte>,
    toUtf8: string -> seq<Byte>,
    fromUtf8: seq<Byte> -> string)

  /** AES-128-CBC with padding: decryption inverts encryption, and takes whole blocks only. */
  ghost predicate CipherOk(p: Primitives) {
    && (forall k: seq<Byte>, iv: seq<Byte>, m: seq<Byte> :: |k| == 16 && |iv| == 16 ==>
          p.decrypt(k, iv, p.encrypt(k, iv, m)) == Some(m))
    && (forall k: seq<Byte>, iv: seq<Byte>, c: seq<Byte> :: p.decrypt(k, iv, c).Some? ==>
          |k| == 16 && |iv| == 16 && |c| > 0 && |c| % 16 == 0)
  }

  /** HMAC-SHA256 yields 32 bytes. */
  ghost predicate DigestOk(p: Primitives) {
    forall k: seq<Byte>, m: seq<Byte> :: |p.hmac(k, m)| == HMAC_LENGTH
  }

  // ----- Buffers ------------------------------------------------------------------------

  /** An index of `subarray`: negative ones count from the end, all are clamped. */
  function Clamped(i: int, length: nat): (r: nat)
    ensures r <= length
  {
    if i < 0 then (if length + i < 0 then 0 else length + i) else if i > length then length else i
  }

  function Subarray(b: seq<Byte>, start: int, end: int): seq<Byte> {
    var s, e := Clamped(start, |b|), Clamped(end, |b|);
    if s < e then b[s..e] else []
  }

  /** `writeBigUInt64BE`, for any width. */
  function BigEndian(n: nat, width: nat): (b: seq<Byte>)
    ensures |b| == width
  {
    if width == 0 then [] else BigEndian(n / 256, width - 1) + [n % 256]
  }

  function FromBigEndian(b: seq<Byte>): nat {
    if b == [] then 0 else 256 * FromBigEndian(b[..|b| - 1]) + b[|b| - 1]
  }

  function Power256(width: nat): (r: nat)
    ensures r >= 1
  {
    if width == 0 then 1 else 256 * Power256(width - 1)
  }

  /** The timestamp can be read back. */
  lemma {:induction false} BigEndianReads(n: nat, width: nat)
    requires n < Power256(width)
    ensures FromBigEndian(BigEndian(n, width)) == n
    decreases width
  {
    if width > 0 {
      BigEndianReads(n / 256, width - 1);
      assert BigEndian(n, width)[..width - 1] == BigEndian(n / 256, width - 1);
    }
  }

  /** Big-endian: the first byte weighs most. */
  lemma {:induction false} FirstByteWeighsMost(b: seq<Byte>)
    requires b != []
    ensures FromBigEndian(b) == b[0] * Power256(|b| - 1) + FromBigEndian(b[1..])
    decreases |b|
  {
    var n := |b| - 1;
    if n > 0 {
      var front, tail := b[..n], b[1..];
      FirstByteWeighsMost(front);
      assert tail[..n - 1] == front[1..];
      FirstByteStep(b[0], Power256(n - 1), FromBigEndian(front[1..]), b[n]);
    }
  }

  lemma FirstByteStep(first: nat, weight: nat, middle: nat, last: nat)
    ensures 256 * (first * weight + middle) + last == first * (256 * weight) + (256 * middle + last)
  {
  }

  // ----- Tokens ---------------------------------------------------------------------------

  function SigningKey(key: seq<Byte>): seq<Byte> { Subarray(key, 0, 16) }

  function EncryptionKey(key: seq<Byte>): seq<Byte> { Subarray(key, 16, 32) }

  function Signed(p: Primitives, key: seq<Byte>, body: seq<Byte>): seq<Byte> {
    body + p.hmac(SigningKey(key), body)
  }

  /** `now` is the time in seconds; it must fit the eight bytes it is written to. */
  function Encrypt(p: Primitives, plain: string, key: seq<Byte>, now: nat, iv: seq<Byte>): string
    requires now < 0x1_0000_0000_0000_0000
  {
    var ciphertext := p.encrypt(EncryptionKey(key), iv, p.toUtf8(plain));
    Encode(Signed(p, key, [VERSION] + BigEndian(now, 8) + iv + ciphertext))
  }

  datatype Result = Ok(plain: string) | InvalidVersion | InvalidHmac | InvalidCiphertext

  function DecryptBytes(p: Primitives, token: seq<Byte>, key: seq<Byte>): Result {
    if |token| == 0 || token[0] != VERSION then InvalidVersion
    else
      var iv := Subarray(token, IV_START, CIPHERTEXT_START);
      var received := Subarray(token, |token| - HMAC_LENGTH, |token|);
      var ciphertext := Subarray(token, CIPHERTEXT_START, |token| - HMAC_LENGTH);
      var body := Subarray(token, 0, |token| - HMAC_LENGTH);
      if p.hmac(SigningKey(key), body) != received then InvalidHmac
      else
        match p.decrypt(EncryptionKey(key), iv, ciphertext)
        case None => InvalidCiphertext
        case Some(m) => Ok(p.fromUtf8(m))
  }

  function Decrypt(p: Primitives, code: string, key: seq<Byte>): Result {
    DecryptBytes(p, Decode(code), key)
  }

  // ----- What decryption accepts ------------------------------------------------------------

  predicate IsLayout(p: Primitives, token: seq<Byte>, key: seq<Byte>, time: seq<Byte>, iv: seq<Byte>, c: seq<Byte>) {
    |time| == 8 && |iv| == 16 && token == Signed(p, key, [VERSION] + time + iv + c)
  }

  /** The slices of a well laid out token are its parts. */
  lemma SlicesAreParts(p: Primitives, token: seq<Byte>, key: seq<Byte>, time: seq<Byte>, iv: seq<Byte>, c: seq<Byte>)
    requires DigestOk(p) && IsLayout(p, token, key, time, iv, c)
    ensures |token| == CIPHERTEXT_START + |c| + HMAC_LENGTH && token[0] == VERSION
    ensures Subarray(token, 1, IV_START) == time
    ensures Subarray(token, IV_START, CIPHERTEXT_START) == iv
    ensures Subarray(token, CIPHERTEXT_START, |token| - HMAC_LENGTH) == c
    ensures Subarray(token, 0, |token| - HMAC_LENGTH) == [VERSION] + time + iv + c
    ensures Subarray(token, |token| - HMAC_LENGTH, |token|) == p.hmac(SigningKey(key), [VERSION] + time + iv + c)
  {
    var body := [VERSION] + time + iv + c;
    assert |p.hmac(SigningKey(key), body)| == HMAC_LENGTH;
    assert body[1..9] == time && body[9..25] == iv && body[25..] == c;
    assert token[..|body|] == body;
    assert token[1..9] == body[1..9] && token[9..25] == body[9..25] && token[25..|body|] == body[25..];
  }

  /** The token has the layout, its signature is right, and its ciphertext decrypts to `plain`. */
  predicate Carries(
    p: Primitives, token: seq<Byte>, key: seq<Byte>, plain: string, time: seq<Byte>, iv: seq<Byte>, c: seq<Byte>)
  {
    && IsLayout(p, token, key, time, iv, c)
    && p.decrypt(EncryptionKey(key), iv, c).Some?
    && p.fromUtf8(p.decrypt(EncryptionKey(key), iv, c).value) == plain
  }

  lemma AcceptedIsLong(token: seq<Byte>)
    requires |Subarray(token, CIPHERTEXT_START, |token| - HMAC_LENGTH)| > 0
    ensures |token| > CIPHERTEXT_START + HMAC_LENGTH || CIPHERTEXT_START < |token| < HMAC_LENGTH
  {
  }

  /** A token long enough is put together from its slices. */
  lemma PartsOfLong(token: seq<Byte>, n: nat)
    requires n == |token| - HMAC_LENGTH && n >= CIPHERTEXT_START
    ensures Subarray(token, IV_START, CIPHERTEXT_START) == token[9..25]
    ensures Subarray(token, CIPHERTEXT_START, n) == token[25..n]
    ensures Subarray(token, 0, n) == token[..n] == [token[0]] + token[1..9] + token[9..25] + token[25..n]
    ensures token == token[..n] + Subarray(token, n, |token|)
  {
    assert token[1..n] == token[1..9] + token[9..n];
    assert token[9..n] == token[9..25] + token[25..n];
    assert token[..n] == [token[0]] + token[1..n];
    assert Subarray(token, n, |token|) == token[n..];
  }

  lemma AcceptedCarries(p: Primitives, token: seq<Byte>, key: seq<Byte>, plain: string)
    returns (time: seq<Byte>, iv: seq<Byte>, c: seq<Byte>)
    requires CipherOk(p) && DigestOk(p) && DecryptBytes(p, token, key) == Ok(plain)
    ensures Carries(p, token, key, plain, time, iv, c)
  {
    var n := |token| - HMAC_LENGTH;
    iv, c := Subarray(token, IV_START, CIPHERTEXT_START), Subarray(token, CIPHERTEXT_START, n);
    assert p.decrypt(EncryptionKey(key), iv, c).Some? && |c| > 0;
    AcceptedIsLong(token);
    SignatureIsLong(p, token, key, n);
    PartsOfLong(token, n);
    time := token[1..9];
  }

  lemma SignatureIsLong(p: Primitives, token: seq<Byte>, key: seq<Byte>, n: int)
    requires DigestOk(p) && n == |token| - HMAC_LENGTH
    requires p.hmac(SigningKey(key), Subarray(token, 0, n)) == Subarray(token, n, |token|)
    ensures |token| >= HMAC_LENGTH
  {
    assert |p.hmac(SigningKey(key), Subarray(token, 0, n))| == HMAC_LENGTH;
  }

  /** Decryption succeeds exactly on tokens of this layout, signed with the first half of
      the key, whose ciphertext the second half decrypts.  Everything shorter, and
      everything whose slices would overlap, is refused. */
  lemma AcceptsExactlyTheLayout(p: Primitives, token: seq<Byte>, key: seq<Byte>, plain: string)
    requires CipherOk(p) && DigestOk(p)
    ensures DecryptBytes(p, token, key) == Ok(plain) <==>
      exists time: seq<Byte>, iv: seq<Byte>, c: seq<Byte> :: Carries(p, token, key, plain, time, iv, c)
  {
    if DecryptBytes(p, token, key) == Ok(plain) {
      var time, iv, c := AcceptedCarries(p, token, key, plain);
    }
    forall time: seq<Byte>, iv: seq<Byte>, c: seq<Byte> | Carries(p, token, key, plain, time, iv, c)
      ensures DecryptBytes(p, token, key) == Ok(plain)
    {
      SlicesAreParts(p, token, key, time, iv, c);
    }
  }

  /** Byte by byte: an encrypted code is the version 0x80, the eight bytes of the time, the
      IV, what the second half of the key encrypts the text to, and the digest of all that
      under the first half. */
  lemma TokenInBytes(p: Primitives, plain: string, key: seq<Byte>, now: nat, iv: seq<Byte>)
    requires |key| == 32 && |iv| == 16 && now < 0x1_0000_0000_0000_0000
    ensures var body := [0x80] + BigEndian(now, 8) + iv + p.encrypt(key[16..32], iv, p.toUtf8(plain));
      Decode(Encrypt(p, plain, key, now, iv)) == body + p.hmac(key[0..16], body)
  {
    DecodeEncode(Signed(p, key, [VERSION] + BigEndian(now, 8) + iv + p.encrypt(key[16..32], iv, p.toUtf8(plain))));
  }

  /** And decryption reads it so: a token of 57 bytes or more is accepted exactly if it starts
      with 0x80, its last 32 bytes are the digest of the rest under the first half of the key,
      and what lies between the first 25 bytes and the digest decrypts under the second half
      with bytes 9 to 24 as the IV. */
  lemma DecryptInBytes(p: Primitives, token: seq<Byte>, key: seq<Byte>)
    requires |key| == 32 && |token| >= 57
    ensures var n := |token| - 32;
      DecryptBytes(p, token, key) ==
        if token[0] != 0x80 then InvalidVersion
        else if p.hmac(key[0..16], token[..n]) != token[n..] then InvalidHmac
        else
          var m := p.decrypt(key[16..32], token[9..25], token[25..n]);
          if m.None? then InvalidCiphertext else Ok(p.fromUtf8(m.value))
  {
    var n := |token| - 32;
    assert Subarray(token, 0, n) == token[..n] && Subarray(token, n, |token|) == token[n..];
  }

  // ----- Round trip -----------------------------------------------------------------------------

  /** Every code encrypted with a 32-byte key decrypts to itself, at any time and with
      any IV, provided its text survives UTF-8. */
  lemma DecryptEncrypt(p: Primitives, plain: string, key: seq<Byte>, now: nat, iv: seq<Byte>)
    requires CipherOk(p) && DigestOk(p) && |key| == 32 && |iv| == 16 && now < 0x1_0000_0000_0000_0000
    requires p.fromUtf8(p.toUtf8(plain)) == plain
    ensures Decrypt(p, Encrypt(p, plain, key, now, iv), key) == Ok(plain)
  {
    var c := p.encrypt(EncryptionKey(key), iv, p.toUtf8(plain));
    var token := Signed(p, key, [VERSION] + BigEndian(now, 8) + iv + c);
    DecodeEncode(token);
    assert |EncryptionKey(key)| == 16;
    assert Carries(p, token, key, plain, BigEndian(now, 8), iv, c);
    AcceptsExactlyTheLayout(p, token, key, plain);
  }

  /** The time of encryption can be read from the code. */
  lemma TimestampReads(p: Primitives, plain: string, key: seq<Byte>, now: nat, iv: seq<Byte>)
    requires DigestOk(p) && |iv| == 16 && now < 0x1_0000_0000_0000_0000
    ensures FromBigEndian(Subarray(Decode(Encrypt(p, plain, key, now, iv)), 1, IV_START)) == now
  {
    var c := p.encrypt(EncryptionKey(key), iv, p.toUtf8(plain));
    var token := Signed(p, key, [VERSION] + BigEndian(now, 8) + iv + c);
    DecodeEncode(token);
    SlicesAreParts(p, token, key, BigEndian(now, 8), iv, c);
    assert Power256(2) == 256 * Power256(1) == 0x1_0000;
    assert Power256(4) == 256 * Power256(3) == 0x1_0000 * Power256(2);
    assert Power256(6) == 256 * Power256(5) == 0x1_0000 * Power256(4);
    assert Power256(8) == 256 * Power256(7) == 0x1_0000 * Power256(6);
    BigEndianReads(now, 8);
  }
}
