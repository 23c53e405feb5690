/** `base64urlEncode` and `base64urlDecode`: the standard base64 of the platform,
    turned into the unpadded URL-safe form (section 5 of RFC 4648) and back. */
module Base64Url {

  type Byte = x: int | 0 <= x < 256

  // ----- The alphabet ---------------------------------------------------------------

  function Letter(i: int): char
    requires 0 <= i < 64
  {
    if i < 26 then ('A' as int + i) as char
    else if i < 52 then ('a' as int + (i - 26)) as char
    else if i < 62 then ('0' as int + (i - 52)) as char
    else if i == 62 then '+' else '/'
  }

  /** Table 1 of RFC 4648. */
  const ALPHABET: string := "ABCDEFGHIJKLMNOPQRSTUVWXYZ" + "abcdefghijklmnopqrstuvwxyz" + "0123456789+/"

  lemma LettersAreTheAlphabet(i: int)
    requires 0 <= i < 64
    ensures |ALPHABET| == 64 && ALPHABET[i] == Letter(i)
  {
    if i < 26 {
      assert "ABCDEFGHIJKLMNOPQRSTUVWXYZ"[i] == Letter(i);
    } else if i < 52 {
      assert "abcdefghijklmnopqrstuvwxyz"[i - 26] == Letter(i);
    } else {
      assert "0123456789+/"[i - 52] == Letter(i);
    }
  }

  predicate IsLetter(c: char) {
    'A' <= c <= 'Z' || 'a' <= c <= 'z' || '0' <= c <= '9' || c == '+' || c == '/'
  }

  function Sextet(c: char): (i: int)
    requires IsLetter(c)
    ensures 0 <= i < 64 && Letter(i) == c
  {
    if 'A' <= c <= 'Z' then c as int - 'A' as int
    else if 'a' <= c <= 'z' then c as int - 'a' as int + 26
    else if '0' <= c <= '9' then c as int - '0' as int + 52
    else if c == '+' then 62 else 63
  }

  lemma SextetOfLetter(i: int)
    requires 0 <= i < 64
    ensures IsLetter(Letter(i)) && Sextet(Letter(i)) == i
  {
  }

  // ----- Standard base64, with padding (section 4 of RFC 4648) ------------------------------

  /** `buffer.toString('base64')`. */
  function Standard(b: seq<Byte>): string {
    if |b| == 0 then ""
    else if |b| == 1 then [Letter(b[0] / 4), Letter(b[0] % 4 * 16)] + "=="
    else if |b| == 2 then
      [Letter(b[0] / 4), Letter(b[0] % 4 * 16 + b[1] / 16), Letter(b[1] % 16 * 4)] + "="
    else Group(b[0], b[1], b[2]) + Standard(b[3..])
  }

  function Group(x: Byte, y: Byte, z: Byte): (s: string)
    ensures |s| == 4
  {
    [Letter(x / 4), Letter(x % 4 * 16 + y / 16), Letter(y % 16 * 4 + z / 64), Letter(z % 64)]
  }

  /** `Buffer.from(s, 'base64')`: characters outside the alphabet, padding included,
      are skipped; bits that do not fill a byte are dropped.  (The URL-safe pair, which
      the platform also reads, never reaches it.) */
  function FromBase64(s: string): seq<Byte> {
    Bytes(Letters(s))
  }

  function Letters(s: string): (r: string)
    ensures forall i :: 0 <= i < |r| ==> IsLetter(r[i])
  {
    if s == "" then ""
    else if IsLetter(s[0]) then [s[0]] + Letters(s[1..]) else Letters(s[1..])
  }

  function Bytes(s: string): seq<Byte>
    requires forall i :: 0 <= i < |s| ==> IsLetter(s[i])
  {
    if |s| < 2 then []
    else
      var first := Sextet(s[0]) * 4 + Sextet(s[1]) / 16;
      if |s| == 2 then [first]
      else
        var second := Sextet(s[1]) % 16 * 16 + Sextet(s[2]) / 4;
        if |s| == 3 then [first, second]
        else [first, second, Sextet(s[2]) % 4 * 64 + Sextet(s[3])] + Bytes(s[4..])
  }

  // ----- The URL-safe form ---------------------------------------------------------------------

  /** `replace(/from/g, to)` for single characters. */
  function Replaced(s: string, from: char, to: char): (r: string)
    ensures |r| == |s| && forall i :: 0 <= i < |s| ==> r[i] == if s[i] == from then to else s[i]
  {
    if s == "" then "" else [if s[0] == from then to else s[0]] + Replaced(s[1..], from, to)
  }

  function Without(s: string, c: char): string {
    if s == "" then "" else if s[0] == c then Without(s[1..], c) else [s[0]] + Without(s[1..], c)
  }

  function Encode(b: seq<Byte>): string {
    Without(Replaced(Replaced(Standard(b), '+', '-'), '/', '_'), '=')
  }

  /** How many characters n falls short of a multiple of four. */
  function Missing(n: nat): (m: nat)
    ensures m < 4 && (m == 0 <==> n % 4 == 0)
    ensures m > 0 ==> (n + 1) % 4 == (n % 4 + 1) % 4
  {
    if n % 4 == 0 then 0 else 4 - n % 4
  }

  /** The padding that completes n characters to a multiple of four. */
  function Padding(n: nat): string
    decreases Missing(n)
  {
    if n % 4 == 0 then "" else "=" + Padding(n + 1)
  }

  function Repadded(s: string): string {
    var base64 := Replaced(Replaced(s, '-', '+'), '_', '/');
    base64 + Padding(|base64|)
  }

  function Decode(s: string): seq<Byte> {
    FromBase64(Repadded(s))
  }

  method Base64urlDecode(s: string) returns (b: seq<Byte>)
    ensures b == Decode(s)
  {
    var base64 := Replaced(Replaced(s, '-', '+'), '_', '/');
    while |base64| % 4 != 0
      invariant base64 + Padding(|base64|) == Repadded(s)
      decreases Missing(|base64|)
    {
      assert base64 + Padding(|base64|) == (base64 + "=") + Padding(|base64| + 1);
      base64 := base64 + "=";
    }
    assert base64 + "" == base64;
    b := FromBase64(base64);
  }

  // ----- Round trip -----------------------------------------------------------------------------

  predicate AllLetters(s: string) { forall i :: 0 <= i < |s| ==> IsLetter(s[i]) }

  /** The four fields of six bits in three bytes, and the bytes again. */
  lemma Recombine(x: Byte, y: Byte, z: Byte)
    ensures var p, q := x % 4 * 16 + y / 16, y % 16 * 4 + z / 64;
      && 0 <= x / 4 < 64 && 0 <= p < 64 && 0 <= q < 64 && 0 <= z % 64 < 64
      && x / 4 * 4 + p / 16 == x && p % 16 * 16 + q / 4 == y && q % 4 * 64 + z % 64 == z
  {
    var p, q := x % 4 * 16 + y / 16, y % 16 * 4 + z / 64;
    assert p / 16 == x % 4 && p % 16 == y / 16;
    assert q / 4 == y % 16 && q % 4 == z / 64;
  }

  lemma GroupLetters(x: Byte, y: Byte, z: Byte)
    ensures var g := Group(x, y, z);
      && AllLetters(g)
      && Sextet(g[0]) * 4 + Sextet(g[1]) / 16 == x
      && Sextet(g[1]) % 16 * 16 + Sextet(g[2]) / 4 == y
      && Sextet(g[2]) % 4 * 64 + Sextet(g[3]) == z
  {
    Recombine(x, y, z);
    SextetOfLetter(x / 4);
    SextetOfLetter(x % 4 * 16 + y / 16);
    SextetOfLetter(y % 16 * 4 + z / 64);
    SextetOfLetter(z % 64);
  }

  /** The letters of the standard form: it without its padding. */
  function Core(b: seq<Byte>): (s: string)
    ensures AllLetters(s)
    ensures |s| == (4 * |b| + 2) / 3
  {
    if |b| == 0 then ""
    else if |b| == 1 then GroupLetters(b[0], 0, 0); Group(b[0], 0, 0)[..2]
    else if |b| == 2 then GroupLetters(b[0], b[1], 0); Group(b[0], b[1], 0)[..3]
    else GroupLetters(b[0], b[1], b[2]); Group(b[0], b[1], b[2]) + Core(b[3..])
  }

  lemma PaddingPeriod(n: nat)
    ensures Padding(n + 4) == Padding(n)
    decreases Missing(n)
  {
    if n % 4 != 0 {
      PaddingPeriod(n + 1);
    }
  }

  lemma ShortPadding()
    ensures Padding(2) == "==" && Padding(3) == "="
  {
    assert Padding(4) == "";
    assert Padding(3) == "=" + Padding(4);
    assert Padding(2) == "=" + Padding(3);
  }

  /** Standard base64 is the letters followed by the padding their number calls for. */
  lemma {:induction false} StandardIsPadded(b: seq<Byte>)
    ensures Standard(b) == Core(b) + Padding(|Core(b)|)
    decreases |b|
  {
    ShortPadding();
    if |b| == 1 {
      assert Core(b) == [Letter(b[0] / 4), Letter(b[0] % 4 * 16)];
    } else if |b| == 2 {
      assert Core(b) == [Letter(b[0] / 4), Letter(b[0] % 4 * 16 + b[1] / 16), Letter(b[1] % 16 * 4)];
    } else if |b| >= 3 {
      PadRest(Group(b[0], b[1], b[2]), b[3..]);
    }
  }

  lemma {:induction false} PadRest(group: string, rest: seq<Byte>)
    requires |group| == 4
    ensures group + Standard(rest) == (group + Core(rest)) + Padding(|group + Core(rest)|)
    decreases |rest| + 1
  {
    StandardIsPadded(rest);
    PaddingPeriod(|Core(rest)|);
    var core, pads := Core(rest), Padding(|Core(rest)|);
    assert group + (core + pads) == (group + core) + pads;
  }

  lemma BytesOfGroup(x: Byte, y: Byte, z: Byte, rest: string)
    requires AllLetters(rest)
    ensures AllLetters(Group(x, y, z) + rest) && Bytes(Group(x, y, z) + rest) == [x, y, z] + Bytes(rest)
  {
    GroupLetters(x, y, z);
    var group := Group(x, y, z);
    var s := group + rest;
    assert s[4..] == rest;
    assert s[0] == group[0] && s[1] == group[1] && s[2] == group[2] && s[3] == group[3];
  }

  lemma BytesOfOne(x: Byte)
    ensures Bytes(Core([x])) == [x]
  {
    GroupLetters(x, 0, 0);
    assert Core([x]) == Group(x, 0, 0)[..2];
  }

  lemma BytesOfTwo(x: Byte, y: Byte)
    ensures Bytes(Core([x, y])) == [x, y]
  {
    GroupLetters(x, y, 0);
    assert Core([x, y]) == Group(x, y, 0)[..3];
  }

  lemma BytesOfLonger(x: Byte, y: Byte, z: Byte, rest: seq<Byte>)
    requires Bytes(Core(rest)) == rest
    ensures Bytes(Core([x, y, z] + rest)) == [x, y, z] + rest
  {
    assert ([x, y, z] + rest)[3..] == rest;
    assert Core([x, y, z] + rest) == Group(x, y, z) + Core(rest);
    BytesOfGroup(x, y, z, Core(rest));
  }

  lemma {:induction false} BytesOfCore(b: seq<Byte>)
    ensures Bytes(Core(b)) == b
    decreases |b|
  {
    if |b| == 0 {
      assert Core(b) == "";
    } else if |b| == 1 {
      BytesOfOne(b[0]);
      assert b == [b[0]];
    } else if |b| == 2 {
      BytesOfTwo(b[0], b[1]);
      assert b == [b[0], b[1]];
    } else {
      var rest := b[3..];
      assert b == [b[0], b[1], b[2]] + rest;
      BytesOfCore(rest);
      BytesOfLonger(b[0], b[1], b[2], rest);
    }
  }

  predicate AllPads(s: string) { forall i :: 0 <= i < |s| ==> s[i] == '=' }

  lemma {:induction false} PaddingIsPads(n: nat)
    ensures AllPads(Padding(n))
    decreases Missing(n)
  {
    if n % 4 != 0 {
      PaddingIsPads(n + 1);
    }
  }

  /** Removing padding, or skipping it, leaves the part before it. */
  lemma {:induction false} PadsVanish(s: string, pads: string)
    requires '=' !in s && AllPads(pads)
    ensures Without(s + pads, '=') == s
    ensures AllLetters(s) ==> Letters(s + pads) == s
    decreases |s| + |pads|
  {
    var t := s + pads;
    if s != "" {
      assert t[1..] == s[1..] + pads;
      PadsVanish(s[1..], pads);
      assert s == [s[0]] + s[1..];
    } else if pads != "" {
      assert t == pads && t[1..] == s + pads[1..];
      PadsVanish(s, pads[1..]);
    }
  }

  function Url(s: string): (r: string)
    ensures |r| == |s|
    ensures forall i :: 0 <= i < |s| ==> r[i] == if s[i] == '+' then '-' else if s[i] == '/' then '_' else s[i]
  {
    Replaced(Replaced(s, '+', '-'), '/', '_')
  }

  lemma EncodeIsUrlCore(b: seq<Byte>)
    ensures Encode(b) == Url(Core(b))
  {
    var core, pads := Core(b), Padding(|Core(b)|);
    StandardIsPadded(b);
    PaddingIsPads(|core|);
    assert Url(core + pads) == Url(core) + pads;
    PadsVanish(Url(core), pads);
  }

  /** Two of the test vectors of section 10 of RFC 4648: "f" and "foobar". */
  lemma KnownVectors()
    ensures Standard([0x66]) == "Zg=="
    ensures Standard([0x66, 0x6F, 0x6F, 0x62, 0x61, 0x72]) == "Zm9vYmFy"
  {
    var b: seq<Byte> := [0x66, 0x6F, 0x6F, 0x62, 0x61, 0x72];
    KnownGroups();
    assert b[3..] == [0x62, 0x61, 0x72];
    assert b[3..][3..] == [];
    assert Standard(b[3..]) == Group(0x62, 0x61, 0x72) + Standard([]);
    assert Standard(b) == Group(0x66, 0x6F, 0x6F) + Standard(b[3..]);
  }

  lemma KnownGroups()
    ensures Group(0x66, 0x6F, 0x6F) == "Zm9v" && Group(0x62, 0x61, 0x72) == "YmFy"
  {
    assert Letter(25) == 'Z' && Letter(38) == 'm' && Letter(61) == '9' && Letter(47) == 'v';
    assert Letter(24) == 'Y' && Letter(5) == 'F' && Letter(50) == 'y';
  }

  predicate IsUrlSafe(c: char) {
    'A' <= c <= 'Z' || 'a' <= c <= 'z' || '0' <= c <= '9' || c == '-' || c == '_'
  }

  /** Section 5 of RFC 4648 without padding: URL-safe characters only, four for every
      three bytes, rounded up. */
  lemma EncodeIsUrlSafe(b: seq<Byte>)
    ensures |Encode(b)| == (4 * |b| + 2) / 3
    ensures forall i :: 0 <= i < |Encode(b)| ==> IsUrlSafe(Encode(b)[i])
  {
    EncodeIsUrlCore(b);
  }

  /** Decoding restores the standard padded form (section 3.2 of RFC 4648) before it
      decodes, whatever the length. */
  lemma RepaddingRestores(b: seq<Byte>)
    ensures Repadded(Encode(b)) == Standard(b)
  {
    EncodeIsUrlCore(b);
    StandardIsPadded(b);
    var core := Core(b);
    assert Replaced(Replaced(Url(core), '-', '+'), '_', '/') == core;
  }

  lemma DecodeEncode(b: seq<Byte>)
    ensures Decode(Encode(b)) == b
  {
    RepaddingRestores(b);
    StandardIsPadded(b);
    PaddingIsPads(|Core(b)|);
    PadsVanish(Core(b), Padding(|Core(b)|));
    BytesOfCore(b);
  }
}
