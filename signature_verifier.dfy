/**
 * Request authentication: HMAC-SHA256 of the raw body under the shared secret, rendered as
 * lowercase hexadecimal, compared with the presented signature in constant time.
 * Strings that are hashed or compared are modelled by their UTF-8 bytes; the hex digest is
 * ASCII, so its bytes are its character codes.
 */
module SignatureVerifier {
  import opened Base

  // ----- Hex rendering (the Formatter "%02x" loop) -----

  /** A byte read as unsigned, 0..255, as "%02x" formats a negative Java byte. */
  function Unsigned(b: jbyte): (u: int)
    ensures 0 <= u < 256
    ensures (u - b as int) % 256 == 0
  {
    (b as int) % 256
  }

  /** The Java byte whose unsigned reading is `u`. */
  function Signed(u: int): (b: jbyte)
    requires 0 <= u < 256
    ensures Unsigned(b) == u
  {
    if u < 128 then u as jbyte else (u - 256) as jbyte
  }

  predicate IsLowerHex(c: char) {
    '0' <= c <= '9' || 'a' <= c <= 'f'
  }

  function HexDigit(d: int): (c: char)
    requires 0 <= d < 16
    ensures IsLowerHex(c)
  {
    if d < 10 then ('0' as int + d) as char else ('a' as int + d - 10) as char
  }

  /** The two lowercase digits "%02x" prints for one byte: high nibble, then low nibble. */
  function HexByte(b: jbyte): string {
    [HexDigit(Unsigned(b) / 16), HexDigit(Unsigned(b) % 16)]
  }

  /** Lowercase hex rendering of a byte sequence, two characters per byte. */
  function Hex(bs: seq<jbyte>): string
    decreases |bs|
  {
    if bs == [] then "" else Hex(bs[..|bs| - 1]) + HexByte(bs[|bs| - 1])
  }

  lemma {:induction false} HexAt(bs: seq<jbyte>)
    ensures |Hex(bs)| == 2 * |bs|
    ensures forall i :: 0 <= i < |bs| ==>
      Hex(bs)[2 * i] == HexDigit(Unsigned(bs[i]) / 16) && Hex(bs)[2 * i + 1] == HexDigit(Unsigned(bs[i]) % 16)
  {
    if bs != [] {
      HexAt(bs[..|bs| - 1]);
    }
  }

  /** `toHexString` output: twice as long as the digest, and only the characters 0-9 and a-f. */
  lemma HexShape(bs: seq<jbyte>)
    ensures |Hex(bs)| == 2 * |bs|
    ensures forall i :: 0 <= i < |Hex(bs)| ==> IsLowerHex(Hex(bs)[i])
  {
    HexAt(bs);
    forall i | 0 <= i < |Hex(bs)| ensures IsLowerHex(Hex(bs)[i]) {
      assert i == 2 * (i / 2) || i == 2 * (i / 2) + 1;
    }
  }

  /** The Formatter loop of `toHexString`: one "%02x" per byte, appended in order. */
  method ToHexString(bytes: seq<jbyte>) returns (hex: string)
    ensures hex == Hex(bytes)
    ensures |hex| == 2 * |bytes|
  {
    hex := "";
    for i := 0 to |bytes|
      invariant hex == Hex(bytes[..i])
    {
      assert bytes[..i + 1][..i] == bytes[..i];
      hex := hex + HexByte(bytes[i]);
    }
    assert bytes[..|bytes|] == bytes;
    HexAt(bytes);
  }

  // ----- Decoding a hex signature (the inverse of the rendering) -----

  /** The byte `String.getBytes(UTF_8)` gives for an ASCII character. */
  function AsciiBytes(s: string): (r: seq<jbyte>)
    requires forall i :: 0 <= i < |s| ==> s[i] as int < 128
    ensures |r| == |s|
    ensures forall i :: 0 <= i < |s| ==> r[i] as int == s[i] as int
  {
    seq(|s|, i requires 0 <= i < |s| => s[i] as int as jbyte)
  }

  predicate IsHexByte(b: jbyte) {
    '0' as int <= b as int <= '9' as int || 'a' as int <= b as int <= 'f' as int
  }

  function Nibble(b: jbyte): (d: int)
    requires IsHexByte(b)
    ensures 0 <= d < 16
    ensures HexDigit(d) as int == b as int
  {
    if b as int <= '9' as int then b as int - '0' as int else b as int - 'a' as int + 10
  }

  /**
   * Reads a signature back as digest bytes: `Some` exactly when it is an even number of
   * lowercase hex digits, each pair giving one byte (high nibble first).
   */
  function DecodeHex(sig: seq<jbyte>): (r: Option<seq<jbyte>>)
    ensures r.Some? ==> |sig| == 2 * |r.value|
  {
    if |sig| % 2 == 0 && forall i :: 0 <= i < |sig| ==> IsHexByte(sig[i]) then
      Some(seq(|sig| / 2, i requires 0 <= i < |sig| / 2 => Signed(16 * Nibble(sig[2 * i]) + Nibble(sig[2 * i + 1]))))
    else
      None
  }

  /** The bytes of the lowercase hex rendering of `digest`. */
  function HexBytes(digest: seq<jbyte>): (r: seq<jbyte>)
    ensures |r| == 2 * |digest|
  {
    HexShape(digest);
    AsciiBytes(Hex(digest))
  }

  /** The byte of a rendered digit reads back as that digit. */
  lemma NibbleOfDigit(d: int, x: jbyte)
    requires 0 <= d < 16 && x as int == HexDigit(d) as int
    ensures IsHexByte(x) && Nibble(x) == d
  {
  }

  /** The two rendered digits of a byte read back as that byte. */
  lemma DecodePair(b: jbyte, hi: jbyte, lo: jbyte)
    requires hi as int == HexDigit(Unsigned(b) / 16) as int && lo as int == HexDigit(Unsigned(b) % 16) as int
    ensures IsHexByte(hi) && IsHexByte(lo) && Signed(16 * Nibble(hi) + Nibble(lo)) == b
  {
    NibbleOfDigit(Unsigned(b) / 16, hi);
    NibbleOfDigit(Unsigned(b) % 16, lo);
  }

  /** The two bytes of the rendering at pair `i`: the digits of the `i`-th digest byte. */
  lemma HexBytesAt(digest: seq<jbyte>, i: int)
    requires 0 <= i < |digest|
    ensures HexBytes(digest)[2 * i] as int == HexDigit(Unsigned(digest[i]) / 16) as int
    ensures HexBytes(digest)[2 * i + 1] as int == HexDigit(Unsigned(digest[i]) % 16) as int
  {
    HexAt(digest);
  }

  /** Every byte of the rendering is a lowercase hex digit. */
  lemma HexBytesAreDigits(digest: seq<jbyte>)
    ensures forall k :: 0 <= k < |HexBytes(digest)| ==> IsHexByte(HexBytes(digest)[k])
  {
    forall k | 0 <= k < |HexBytes(digest)| ensures IsHexByte(HexBytes(digest)[k]) {
      var i := k / 2;
      HexBytesAt(digest, i);
      assert k == 2 * i || k == 2 * i + 1;
    }
  }

  /** Decoding the rendering of any digest gives the digest back. */
  lemma {:induction false} DecodeHexBytes(digest: seq<jbyte>)
    ensures DecodeHex(HexBytes(digest)) == Some(digest)
  {
    var s := HexBytes(digest);
    HexBytesAreDigits(digest);
    var r := DecodeHex(s);
    assert r.Some?;
    forall i | 0 <= i < |digest| ensures r.value[i] == digest[i] {
      HexBytesAt(digest, i);
      DecodePair(digest[i], s[2 * i], s[2 * i + 1]);
    }
    assert |r.value| == |digest|;
    assert r.value == digest;
  }

  /** A signature that decodes has hex digits at pair `i`, and the `i`-th byte is their value. */
  lemma DecodedAt(sig: seq<jbyte>, i: int)
    requires DecodeHex(sig).Some? && 0 <= i < |DecodeHex(sig).value|
    ensures IsHexByte(sig[2 * i]) && IsHexByte(sig[2 * i + 1])
    ensures DecodeHex(sig).value[i] == Signed(16 * Nibble(sig[2 * i]) + Nibble(sig[2 * i + 1]))
  {
  }

  /** A pair of hex digits decodes to the byte whose rendering is that pair. */
  lemma RenderPair(hi: jbyte, lo: jbyte)
    requires IsHexByte(hi) && IsHexByte(lo)
    ensures var b := Signed(16 * Nibble(hi) + Nibble(lo));
      HexDigit(Unsigned(b) / 16) as int == hi as int && HexDigit(Unsigned(b) % 16) as int == lo as int
  {
    var u := 16 * Nibble(hi) + Nibble(lo);
    assert Unsigned(Signed(u)) == u;
    assert u / 16 == Nibble(hi) && u % 16 == Nibble(lo);
  }

  /** A signature that decodes to `digest` agrees with its rendering at position `k`. */
  lemma DecodedAgreesAt(sig: seq<jbyte>, digest: seq<jbyte>, k: int)
    requires DecodeHex(sig) == Some(digest) && 0 <= k < |sig|
    ensures sig[k] == HexBytes(digest)[k]
  {
    var i := k / 2;
    DecodedAt(sig, i);
    HexBytesAt(digest, i);
    RenderPair(sig[2 * i], sig[2 * i + 1]);
    assert k == 2 * i || k == 2 * i + 1;
  }

  /** The rendering is the only signature that decodes to a given digest. */
  lemma DecodeHexOnlyFromRendering(sig: seq<jbyte>, digest: seq<jbyte>)
    requires DecodeHex(sig) == Some(digest)
    ensures sig == HexBytes(digest)
  {
    forall k | 0 <= k < |sig| ensures sig[k] == HexBytes(digest)[k] {
      DecodedAgreesAt(sig, digest, k);
    }
  }

  /** Distinct digests never share a rendering: `toHexString` is injective. */
  lemma HexInjective(a: seq<jbyte>, b: seq<jbyte>)
    requires HexBytes(a) == HexBytes(b)
    ensures a == b
  {
    DecodeHexBytes(a);
    DecodeHexBytes(b);
  }

  // ----- Constant-time comparison (MessageDigestComparator.isEqual) -----

  /**
   * Java's `int` bit operations on 32-bit patterns, read as unsigned numbers:
   * bitwise exclusive-or and inclusive-or, one binary digit at a time.
   */
  function Xor(x: nat, y: nat): nat
    decreases x + y
  {
    if x == 0 && y == 0 then 0 else 2 * Xor(x / 2, y / 2) + (x + y) % 2
  }

  function Or(x: nat, y: nat): nat
    decreases x + y
  {
    if x == 0 && y == 0 then 0 else 2 * Or(x / 2, y / 2) + (if x % 2 == 1 || y % 2 == 1 then 1 else 0)
  }

  /** Java's promotion of a byte to `int`: the sign-extended 32-bit pattern. */
  function Widen(b: jbyte): nat {
    if b >= 0 then b as int else b as int + 0x1_0000_0000
  }

  lemma {:induction false} XorZero(x: nat, y: nat)
    ensures Xor(x, y) == 0 <==> x == y
    decreases x + y
  {
    if x != 0 || y != 0 {
      XorZero(x / 2, y / 2);
    }
  }

  lemma {:induction false} OrZero(x: nat, y: nat)
    ensures Or(x, y) == 0 <==> x == 0 && y == 0
    decreases x + y
  {
    if x != 0 || y != 0 {
      OrZero(x / 2, y / 2);
    }
  }

  /** One step of the comparison loop: the accumulator stays zero exactly while the bytes agree. */
  lemma AccumulateStep(result: nat, a: jbyte, b: jbyte)
    ensures Or(result, Xor(Widen(a), Widen(b))) == 0 <==> result == 0 && a == b
  {
    XorZero(Widen(a), Widen(b));
    OrZero(result, Xor(Widen(a), Widen(b)));
  }

  /**
   * Equal lengths first, then an OR-accumulated XOR over every index with no early exit.
   * `visited` counts the indices the loop examined.
   */
  method IsEqual(digest1: seq<jbyte>, digest2: seq<jbyte>) returns (equal: bool, ghost visited: nat)
    ensures equal <==> digest1 == digest2
    ensures |digest1| != |digest2| ==> visited == 0
    ensures |digest1| == |digest2| ==> visited == |digest1|
  {
    if |digest1| != |digest2| {
      return false, 0;
    }
    var result: nat := 0;
    visited := 0;
    for i := 0 to |digest1|
      invariant visited == i
      invariant result == 0 <==> forall k :: 0 <= k < i ==> digest1[k] == digest2[k]
    {
      AccumulateStep(result, digest1[i], digest2[i]);
      result := Or(result, Xor(Widen(digest1[i]), Widen(digest2[i])));
      visited := visited + 1;
    }
    assert (forall k :: 0 <= k < |digest1| ==> digest1[k] == digest2[k]) <==> digest1 == digest2;
    equal := result == 0;
  }

  // ----- verifySignature -----

  /**
   * The crypto provider: the HMAC-SHA256 function (key, message) and whether the provider
   * supplies the algorithm and accepts the key (otherwise `NoSuchAlgorithmException` or
   * `InvalidKeyException`).
   */
  datatype Crypto = Crypto(hmacSha256: (seq<jbyte>, seq<jbyte>) -> seq<jbyte>, providerAvailable: bool)

  /**
   * What `verifySignature` does: return a boolean, or let an `IllegalArgumentException`
   * escape (an empty key is refused by the key specification before the catch applies).
   */
  datatype Outcome = Returns(valid: bool) | ThrowsIllegalArgument

  /** The signature a correct sender presents for `body` under `secret`. */
  function ExpectedSignature(crypto: Crypto, secret: seq<jbyte>, body: seq<jbyte>): seq<jbyte> {
    HexBytes(crypto.hmacSha256(secret, body))
  }

  /** Specification of `verifySignature`; `None` arguments are Java nulls. */
  function Verification(rawBody: Option<seq<jbyte>>, signature: Option<seq<jbyte>>, apiSecret: Option<seq<jbyte>>,
                        crypto: Crypto): (r: Outcome)
    ensures rawBody.None? || signature.None? || apiSecret.None? ==> r == Returns(false)
    ensures r.ThrowsIllegalArgument? <==> apiSecret.Some? && apiSecret.value == [] && rawBody.Some? && signature.Some?
    ensures !crypto.providerAvailable ==> r != Returns(true)
  {
    if rawBody.None? || signature.None? || apiSecret.None? then Returns(false)
    else if |apiSecret.value| == 0 then ThrowsIllegalArgument
    else if !crypto.providerAvailable then Returns(false)
    else Returns(signature.value == ExpectedSignature(crypto, apiSecret.value, rawBody.value))
  }

  method VerifySignature(rawBody: Option<seq<jbyte>>, signature: Option<seq<jbyte>>, apiSecret: Option<seq<jbyte>>,
                         crypto: Crypto) returns (r: Outcome)
    ensures r == Verification(rawBody, signature, apiSecret, crypto)
  {
    if rawBody.None? || signature.None? || apiSecret.None? {
      return Returns(false);
    }
    if |apiSecret.value| == 0 {
      return ThrowsIllegalArgument;
    }
    if !crypto.providerAvailable {
      return Returns(false);
    }
    var digest := crypto.hmacSha256(apiSecret.value, rawBody.value);
    var calculated := ToHexString(digest);
    HexShape(digest);
    var equal, _ := IsEqual(AsciiBytes(calculated), signature.value);
    r := Returns(equal);
  }

  /**
   * With all three inputs present, a non-empty secret and a working provider, a signature is
   * accepted exactly when it decodes, as lowercase hex, to the HMAC of the body.
   */
  lemma AcceptedIffDecodesToHmac(body: seq<jbyte>, sig: seq<jbyte>, secret: seq<jbyte>, crypto: Crypto)
    requires secret != [] && crypto.providerAvailable
    ensures Verification(Some(body), Some(sig), Some(secret), crypto) == Returns(true)
        <==> DecodeHex(sig) == Some(crypto.hmacSha256(secret, body))
  {
    var mac := crypto.hmacSha256(secret, body);
    DecodeHexBytes(mac);
    if DecodeHex(sig) == Some(mac) {
      DecodeHexOnlyFromRendering(sig, mac);
    }
  }

  /** A signature of the wrong length, or with any byte outside 0-9a-f (an upper-case digest, say), is rejected. */
  lemma RejectsMalformedSignature(body: seq<jbyte>, sig: seq<jbyte>, secret: seq<jbyte>, crypto: Crypto)
    requires |sig| != 2 * |crypto.hmacSha256(secret, body)| || exists i :: 0 <= i < |sig| && !IsHexByte(sig[i])
    ensures Verification(Some(body), Some(sig), Some(secret), crypto) != Returns(true)
  {
    var mac := crypto.hmacSha256(secret, body);
    DecodeHexBytes(mac);
    assert sig != HexBytes(mac);
  }

  /** A signature that differs from the expected one in a single position is rejected. */
  lemma RejectsOneByteChange(body: seq<jbyte>, secret: seq<jbyte>, crypto: Crypto, k: int, b: jbyte)
    requires 0 <= k < |ExpectedSignature(crypto, secret, body)|
    requires b != ExpectedSignature(crypto, secret, body)[k]
    ensures Verification(Some(body), Some(ExpectedSignature(crypto, secret, body)[k := b]), Some(secret), crypto) != Returns(true)
  {
    var expected := ExpectedSignature(crypto, secret, body);
    assert expected[k := b][k] != expected[k];
  }
}
