/** The Base64urlUInt form of RSA key parameters: the big-endian octets of an integer in
    base64url without padding, as section 2 and sections 6.3.1.1 and 6.3.1.2 of RFC 7518
    and section 5 of RFC 4648 ask. */
module Base64UrlUint {
  import opened Wrappers

  type Octet = b: int | 0 <= b < 256

  type Sextet = v: int | 0 <= v < 64

  // ---------- Integers and octets ----------

  /** `int.bit_length` */
  function BitLength(n: nat): nat {
    if n == 0 then 0 else 1 + BitLength(n / 2)
  }

  /** The octets that `to_bytes` is asked for. */
  function OctetCount(n: nat): nat { (BitLength(n) + 7) / 8 }

  /** `int.to_bytes(length, "big")`, which fails on overflow. */
  function ToBytes(n: nat, length: nat): Option<seq<Octet>> {
    if length == 0 then (if n == 0 then Some([]) else None)
    else
      match ToBytes(n / 256, length - 1)
      case Some(front) => Some(front + [n % 256])
      case None => None
  }

  function FromBytes(raw: seq<Octet>): nat {
    if raw == [] then 0 else 256 * FromBytes(raw[..|raw| - 1]) + raw[|raw| - 1]
  }

  lemma BitLengthOfShift(n: nat)
    requires n >= 256
    ensures BitLength(n) == 8 + BitLength(n / 256)
  {
    var a := n / 2; var b := a / 2; var c := b / 2; var d := c / 2;
    var e := d / 2; var f := e / 2; var g := f / 2;
    assert g / 2 == n / 256;
    assert BitLength(n) == 1 + BitLength(a) == 2 + BitLength(b);
    assert BitLength(b) == 1 + BitLength(c) == 2 + BitLength(d);
    assert BitLength(d) == 1 + BitLength(e) == 2 + BitLength(f);
    assert BitLength(f) == 1 + BitLength(g) == 2 + BitLength(g / 2);
  }

  lemma {:induction false} BitLengthMonotone(m: nat, n: nat)
    requires m <= n
    ensures BitLength(m) <= BitLength(n)
  {
    if m == 0 {
    } else {
      BitLengthMonotone(m / 2, n / 2);
    }
  }

  lemma BitLengthOfOctet(n: nat)
    requires 0 < n < 256
    ensures 1 <= BitLength(n) <= 8
  {
    BitLengthMonotone(n, 255);
    assert BitLength(255) == 8 by {
      assert BitLength(15) == 4;
      assert BitLength(255) == 4 + BitLength(15);
    }
  }

  lemma OctetCountSteps(n: nat)
    requires n > 0
    ensures OctetCount(n) == 1 + OctetCount(n / 256)
  {
    if n >= 256 { BitLengthOfShift(n); } else { BitLengthOfOctet(n); assert n / 256 == 0; }
  }

  /** The requested length always suffices, and the first octet is never zero. */
  lemma {:induction false} OctetsAreMinimal(n: nat)
    ensures var bytes := ToBytes(n, OctetCount(n));
            && bytes.Some? && |bytes.value| == OctetCount(n)
            && (n > 0 ==> bytes.value != [] && bytes.value[0] != 0)
            && FromBytes(bytes.value) == n
  {
    if n == 0 {
    } else {
      OctetCountSteps(n);
      OctetsAreMinimal(n / 256);
      var front := ToBytes(n / 256, OctetCount(n / 256)).value;
      assert ToBytes(n, OctetCount(n)) == Some(front + [n % 256]);
      assert (front + [n % 256])[..|front|] == front;
    }
  }

  /** Any octets with the value n, if they do not start with zero, are exactly those octets. */
  lemma {:induction false} MinimalOctetsAreUnique(raw: seq<Octet>)
    requires raw == [] || raw[0] != 0
    ensures ToBytes(FromBytes(raw), OctetCount(FromBytes(raw))) == Some(raw)
    ensures raw != [] ==> FromBytes(raw) > 0
  {
    if raw == [] {
    } else {
      var front, last, n := raw[..|raw| - 1], raw[|raw| - 1], FromBytes(raw);
      MinimalOctetsAreUnique(front);
      assert n / 256 == FromBytes(front) && n % 256 == last;
      OctetCountSteps(n);
      assert raw == front + [last];
    }
  }

  // ---------- base64url ----------

  /** Section 5 of RFC 4648: A-Z, a-z, 0-9, '-' and '_'. */
  function Digit(v: Sextet): char {
    if v < 26 then 'A' + v as char
    else if v < 52 then 'a' + (v - 26) as char
    else if v < 62 then '0' + (v - 52) as char
    else if v == 62 then '-' else '_'
  }

  function Value(c: char): Option<Sextet> {
    if 'A' <= c <= 'Z' then Some((c - 'A') as int)
    else if 'a' <= c <= 'z' then Some((c - 'a') as int + 26)
    else if '0' <= c <= '9' then Some((c - '0') as int + 52)
    else if c == '-' then Some(62) else if c == '_' then Some(63) else None
  }

  lemma DigitValue(v: Sextet)
    ensures Value(Digit(v)) == Some(v) && Digit(v) != '='
  {
  }

  /** `urlsafe_b64encode`: three octets to four digits, the last group padded with '='. */
  function Encode(raw: seq<Octet>): string {
    if raw == [] then ""
    else if |raw| == 1 then [Digit(raw[0] / 4), Digit(raw[0] % 4 * 16), '=', '=']
    else if |raw| == 2 then
      [Digit(raw[0] / 4), Digit(raw[0] % 4 * 16 + raw[1] / 16), Digit(raw[1] % 16 * 4), '=']
    else
      [Digit(raw[0] / 4), Digit(raw[0] % 4 * 16 + raw[1] / 16), Digit(raw[1] % 16 * 4 + raw[2] / 64),
       Digit(raw[2] % 64)]
      + Encode(raw[3..])
  }

  /** `rstrip(b"=")` */
  function Unpad(s: string): string {
    if s != [] && s[|s| - 1] == '=' then Unpad(s[..|s| - 1]) else s
  }

  function Joined(a: Sextet, b: Sextet, c: Sextet, d: Sextet): seq<Octet> {
    [a * 4 + b / 16, b % 16 * 16 + c / 4, c % 4 * 64 + d]
  }

  /** The strict inverse: groups of four digits, a last group of two or three whose spare bits are zero. */
  function Decode(s: string): Option<seq<Octet>> {
    if s == [] then Some([])
    else if |s| == 1 then None
    else
      match (Value(s[0]), Value(s[1]))
      case (Some(a), Some(b)) =>
        if |s| == 2 then (if b % 16 == 0 then Some([a * 4 + b / 16]) else None)
        else
          (match Value(s[2])
           case None => None
           case Some(c) =>
             if |s| == 3 then
               (if c % 4 == 0 then Some([a * 4 + b / 16, b % 16 * 16 + c / 4]) else None)
             else
               match (Value(s[3]), Decode(s[4..]))
               case (Some(d), Some(rest)) => Some(Joined(a, b, c, d) + rest)
               case _ => None)
      case _ => None
  }

  lemma {:induction false} UnpadAppends(front: string, tail: string)
    requires Unpad(tail) != []
    ensures Unpad(front + tail) == front + Unpad(tail)
  {
    if tail[|tail| - 1] == '=' {
      UnpadAppends(front, tail[..|tail| - 1]);
      assert (front + tail)[..|front + tail| - 1] == front + tail[..|tail| - 1];
    }
  }

  lemma OneOctet(x: Octet)
    ensures Unpad(Encode([x])) == [Digit(x / 4), Digit(x % 4 * 16)]
    ensures Decode(Unpad(Encode([x]))) == Some([x])
  {
    var code := Encode([x]);
    DigitValue(x / 4);
    DigitValue(x % 4 * 16);
    assert code[..3] == code[..2] + ['='] && code[..3][..2] == code[..2];
    assert Unpad(code) == Unpad(code[..3]) == Unpad(code[..2]) == code[..2];
  }

  lemma TwoOctets(x: Octet, y: Octet)
    ensures Unpad(Encode([x, y])) == [Digit(x / 4), Digit(x % 4 * 16 + y / 16), Digit(y % 16 * 4)]
    ensures Decode(Unpad(Encode([x, y]))) == Some([x, y])
  {
    var code := Encode([x, y]);
    DigitValue(x / 4);
    DigitValue(x % 4 * 16 + y / 16);
    DigitValue(y % 16 * 4);
    assert Unpad(code) == Unpad(code[..3]) == code[..3];
    assert code[..3] == [Digit(x / 4), Digit(x % 4 * 16 + y / 16), Digit(y % 16 * 4)];
  }

  function Group(x: Octet, y: Octet, z: Octet): string {
    [Digit(x / 4), Digit(x % 4 * 16 + y / 16), Digit(y % 16 * 4 + z / 64), Digit(z % 64)]
  }

  lemma JoinUndoesSplit(x: Octet, y: Octet, z: Octet)
    ensures Joined(x / 4, x % 4 * 16 + y / 16, y % 16 * 4 + z / 64, z % 64) == [x, y, z]
  {
  }

  lemma DecodeGroup(a: Sextet, b: Sextet, c: Sextet, d: Sextet, rest: string)
    ensures Decode([Digit(a), Digit(b), Digit(c), Digit(d)] + rest)
         == match Decode(rest) case Some(more) => Some(Joined(a, b, c, d) + more) case None => None
  {
    var s := [Digit(a), Digit(b), Digit(c), Digit(d)] + rest;
    assert s[4..] == rest;
    DigitValue(a);
    DigitValue(b);
    DigitValue(c);
    DigitValue(d);
  }

  lemma UnpadGroup(x: Octet, y: Octet, z: Octet, rest: string)
    requires rest == [] || Unpad(rest) != []
    ensures Unpad(Group(x, y, z) + rest) == Group(x, y, z) + Unpad(rest)
  {
    if rest == [] {
      DigitValue(z % 64);
      assert Group(x, y, z) + rest == Group(x, y, z) == Group(x, y, z) + Unpad(rest);
    } else {
      UnpadAppends(Group(x, y, z), rest);
    }
  }

  lemma ThreeOctets(x: Octet, y: Octet, z: Octet, more: seq<Octet>)
    requires Decode(Unpad(Encode(more))) == Some(more)
    requires Encode(more) == [] || Unpad(Encode(more)) != []
    ensures Unpad(Encode([x, y, z] + more)) == Group(x, y, z) + Unpad(Encode(more))
    ensures Decode(Unpad(Encode([x, y, z] + more))) == Some([x, y, z] + more)
  {
    assert ([x, y, z] + more)[3..] == more;
    UnpadGroup(x, y, z, Encode(more));
    JoinUndoesSplit(x, y, z);
    DecodeGroup(x / 4, x % 4 * 16 + y / 16, y % 16 * 4 + z / 64, z % 64, Unpad(Encode(more)));
  }

  /** Padding aside, the text has ceil(4k/3) digits for k octets and decodes to those octets. */
  lemma {:induction false} EncodingDecodes(raw: seq<Octet>)
    ensures |Unpad(Encode(raw))| == (4 * |raw| + 2) / 3
    ensures Decode(Unpad(Encode(raw))) == Some(raw)
  {
    if |raw| == 1 {
      OneOctet(raw[0]);
      assert raw == [raw[0]];
    } else if |raw| == 2 {
      TwoOctets(raw[0], raw[1]);
      assert raw == [raw[0], raw[1]];
    } else if |raw| >= 3 {
      EncodingDecodes(raw[3..]);
      assert raw == [raw[0], raw[1], raw[2]] + raw[3..];
      ThreeOctets(raw[0], raw[1], raw[2], raw[3..]);
    }
  }

  // ---------- The key parameters ----------

  function Base64UrlUIntOf(n: nat): string {
    match ToBytes(n, OctetCount(n))
    case Some(raw) => Unpad(Encode(raw))
    case None => "" // never taken: OctetsAreMinimal
  }

  function ReadUInt(s: string): Option<nat> {
    match Decode(s)
    case Some(raw) => Some(FromBytes(raw))
    case None => None
  }

  /** Reading back gives the integer; its octets are as few as possible; the length is ceil(4k/3).
      A positive integer never gives the empty text; zero does, where RFC 7518 asks for "AA". */
  lemma UIntRoundTrip(n: nat)
    ensures ReadUInt(Base64UrlUIntOf(n)) == Some(n)
    ensures |Base64UrlUIntOf(n)| == (4 * OctetCount(n) + 2) / 3
    ensures Decode(Base64UrlUIntOf(n)).Some? && |Decode(Base64UrlUIntOf(n)).value| == OctetCount(n)
    ensures n > 0 ==> Base64UrlUIntOf(n) != [] && Decode(Base64UrlUIntOf(n)).value != []
                      && Decode(Base64UrlUIntOf(n)).value[0] != 0
    ensures Base64UrlUIntOf(0) == ""
  {
    OctetsAreMinimal(n);
    EncodingDecodes(ToBytes(n, OctetCount(n)).value);
    if n > 0 { OctetCountSteps(n); }
  }

  /** No shorter octet string has the same value. */
  lemma {:induction false} NoFewerOctets(n: nat, raw: seq<Octet>)
    requires FromBytes(raw) == n
    ensures |raw| >= OctetCount(n)
  {
    if raw == [] {
    } else if n > 0 {
      OctetCountSteps(n);
      NoFewerOctets(n / 256, raw[..|raw| - 1]);
    }
  }

  lemma UIntInjective(m: nat, n: nat)
    requires Base64UrlUIntOf(m) == Base64UrlUIntOf(n)
    ensures m == n
  {
    UIntRoundTrip(m);
    UIntRoundTrip(n);
  }

  datatype PublicNumbers = PublicNumbers(n: nat, e: nat)

  datatype Jwk = Jwk(kty: string, use: string, alg: string, kid: string, n: string, e: string)

  function JwksOf(numbers: PublicNumbers, keyId: string): seq<Jwk> {
    [Jwk("RSA", "sig", "RS256", keyId, Base64UrlUIntOf(numbers.n), Base64UrlUIntOf(numbers.e))]
  }

  /** The published key set determines the key: modulus and exponent read back, and no other key publishes the same. */
  lemma JwksDeterminesKey(a: PublicNumbers, b: PublicNumbers, keyId: string)
    ensures var key := JwksOf(a, keyId)[0];
            ReadUInt(key.n) == Some(a.n) && ReadUInt(key.e) == Some(a.e)
    ensures JwksOf(a, keyId) == JwksOf(b, keyId) <==> a == b
  {
    UIntRoundTrip(a.n);
    UIntRoundTrip(a.e);
    if JwksOf(a, keyId) == JwksOf(b, keyId) {
      assert JwksOf(a, keyId)[0] == JwksOf(b, keyId)[0];
      UIntInjective(a.n, b.n);
      UIntInjective(a.e, b.e);
    }
  }

  // ---------- Fixed points of the formats ----------

  /** The alphabet of section 5 of RFC 4648: upper case, lower case, digits, '-' and '_', each range consecutive. */
  lemma AlphabetIs(v: Sextet)
    ensures Digit(0) == 'A' && Digit(26) == 'a' && Digit(52) == '0' && Digit(62) == '-' && Digit(63) == '_'
    ensures v < 61 && v != 25 && v != 51 ==> Digit(v + 1) as int == Digit(v) as int + 1
  {
  }

  /** The test vectors of section 10 of RFC 4648, for one octet, two, and more than a group. */
  lemma TestVectors()
    ensures Encode([0x66]) == "Zg==" && Encode([0x66, 0x6F]) == "Zm8="
    ensures Encode([0x66, 0x6F, 0x6F, 0x62, 0x61]) == "Zm9vYmE="
  {
    assert [0x66, 0x6F, 0x6F, 0x62, 0x61][3..] == [0x62, 0x61];
  }

  lemma OctetsOfExponent()
    ensures FromBytes([1, 0, 1]) == 65537
  {
    var raw: seq<Octet> := [1, 0, 1];
    assert raw[..2] == [1, 0] && [1, 0][..1] == [1] && [1][..0] == [];
    assert FromBytes([1]) == 1 && FromBytes([1, 0]) == 256;
  }

  lemma TextOfExponent()
    ensures Unpad(Encode([1, 0, 1])) == "AQAB"
  {
    assert [1, 0, 1][3..] == [];
  }

  /** The usual public exponent, most significant octet first. */
  lemma UsualExponent()
    ensures Base64UrlUIntOf(65537) == "AQAB"
  {
    OctetsOfExponent();
    TextOfExponent();
    MinimalOctetsAreUnique([1, 0, 1]);
  }

  /** What the published key says besides its numbers. */
  lemma JwksIs(numbers: PublicNumbers, keyId: string)
    ensures var keys := JwksOf(numbers, keyId);
            && |keys| == 1 && keys[0].kid == keyId
            && keys[0].kty == "RSA" && keys[0].use == "sig" && keys[0].alg == "RS256"
  {
  }
}
