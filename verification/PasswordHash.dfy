/**
 The self-describing Argon2id hash string (pkg/crypter/argon2_hasher.go). The key derivation is a
 function parameter whose None stands for the panic of argon2.IDKey on parameters it refuses.
 */
module PasswordHash {
  import opened Wrappers
  import opened Strings
  import Base64

  type Bytes = Base64.Bytes
  type Word32 = x: int | 0 <= x < 0x1_0000_0000
  type Word8 = x: int | 0 <= x < 256

  // password, salt, iterations, memory, parallelism, length of the result
  type Kdf = (Bytes, Bytes, nat, nat, nat, nat) -> Option<Bytes>

  ghost predicate Lawful(kdf: Kdf) {
    forall p, s, t, m, l, n :: kdf(p, s, t, m, l, n).Some? ==> |kdf(p, s, t, m, l, n).value| == n
  }

  const VERSION: nat := 19
  const MAX_WORD32: nat := 0xFFFF_FFFF
  const MAX_WORD8: nat := 255
  const MAX_INT64: nat := 0x7FFF_FFFF_FFFF_FFFF

  datatype Hasher = Hasher(memory: Word32, iterations: Word32, parallelism: Word8, saltLength: Word32, keyLength: Word32)

  datatype Decoded = Decoded(memory: Word32, iterations: Word32, parallelism: Word8, salt: Bytes, sum: Bytes)

  // Printing and scanning numbers as fmt does for %d.

  predicate Digit(c: char) {
    '0' <= c <= '9'
  }

  function Decimal(n: nat): string {
    if n < 10 then ['0' + n as char] else Decimal(n / 10) + ['0' + (n % 10) as char]
  }

  predicate AllDigits(s: string) {
    forall i :: 0 <= i < |s| ==> Digit(s[i])
  }

  function DigitValue(c: char): nat
    requires Digit(c)
  {
    c as int - '0' as int
  }

  function Parse(digits: string): nat
    requires AllDigits(digits)
  {
    if digits == "" then 0 else
    Parse(digits[..|digits| - 1]) * 10 + DigitValue(digits[|digits| - 1])
  }

  function DigitCount(s: string): (n: nat)
    ensures n <= |s| && AllDigits(s[..n])
  {
    if s == "" || !Digit(s[0]) then 0 else
    var n := DigitCount(s[1..]) + 1;
    assert s[..n] == [s[0]] + s[1..][..n - 1];
    n
  }

  /** What fmt skips before a number; a line feed is an error there, as it is to the digits. */
  predicate Blank(c: char) {
    var x := c as int;
    || x == 9 || 11 <= x <= 13 || x == 32 || x == 0x85 || x == 0xA0 || x == 0x1680
    || 0x2000 <= x <= 0x200A || x == 0x2028 || x == 0x2029 || x == 0x202F || x == 0x205F || x == 0x3000
  }

  function SkipBlanks(s: string): string {
    if s != "" && Blank(s[0]) then SkipBlanks(s[1..]) else s
  }

  datatype Scan = Scan(value: int, rest: string)

  function ScanDigits(s: string, max: nat): (r: Option<Scan>)
    ensures r.Some? ==> 0 <= r.value.value <= max
  {
    var n := DigitCount(s);
    if n == 0 || Parse(s[..n]) > max then None else Some(Scan(Parse(s[..n]), s[n..]))
  }

  function ScanUnsigned(s: string, max: nat): (r: Option<Scan>)
    ensures r.Some? ==> 0 <= r.value.value <= max
  {
    ScanDigits(SkipBlanks(s), max)
  }

  function ScanInt(s: string): Option<Scan> {
    var t := SkipBlanks(s);
    var negative := t != "" && t[0] == '-';
    var digits := if t != "" && (t[0] == '-' || t[0] == '+') then t[1..] else t;
    match ScanDigits(digits, if negative then MAX_INT64 + 1 else MAX_INT64)
    case None => None
    case Some(d) => Some(Scan(if negative then -d.value else d.value, d.rest))
  }

  function ScanLiteral(s: string, literal: string): Option<string> {
    if literal <= s then Some(s[|literal|..]) else None
  }

  function ScanVersion(s: string): Option<int> {
    match ScanLiteral(s, "v=")
    case None => None
    case Some(t) =>
      match ScanInt(t)
      case None => None
      case Some(v) => Some(v.value)
  }

  /** A literal, then an unsigned number up to max */
  function ScanField(s: string, literal: string, max: nat): (r: Option<Scan>)
    ensures r.Some? ==> 0 <= r.value.value <= max
  {
    match ScanLiteral(s, literal)
    case None => None
    case Some(t) => ScanUnsigned(t, max)
  }

  function ScanParams(s: string): Option<(Word32, Word32, Word8)> {
    match ScanField(s, "m=", MAX_WORD32)
    case None => None
    case Some(m) =>
      match ScanField(m.rest, ",t=", MAX_WORD32)
      case None => None
      case Some(t) =>
        match ScanField(t.rest, ",p=", MAX_WORD8)
        case None => None
        case Some(p) => Some((m.value, t.value, p.value))
  }

  function Decode(encoded: string): Option<Decoded> {
    DecodeParts(Split(encoded, '$'))
  }

  function DecodeParts(parts: seq<string>): Option<Decoded> {
    if |parts| != 6 || parts[1] != "argon2id" || ScanVersion(parts[2]) != Some(VERSION) then None else
    match ScanParams(parts[3])
    case None => None
    case Some((m, t, p)) =>
      match (Base64.Decode(parts[4], false), Base64.Decode(parts[5], false))
      case (Some(salt), Some(sum)) => Some(Decoded(m, t, p, salt, sum))
      case _ => None
  }

  function Params(h: Hasher): string {
    ("m=" + Decimal(h.memory)) + (",t=" + Decimal(h.iterations)) + (",p=" + Decimal(h.parallelism))
  }

  function Encoded(h: Hasher, salt: Bytes, sum: Bytes): string {
    "$argon2id$v=" + Decimal(VERSION) + "$" + Params(h) + "$" + Base64.Encode(salt, false) + "$" + Base64.Encode(sum, false)
  }

  /** The random salt is a parameter. */
  function Hash(kdf: Kdf, h: Hasher, salt: Bytes, plain: Bytes): Option<string>
    requires |salt| == h.saltLength
  {
    match kdf(plain, salt, h.iterations, h.memory, h.parallelism, h.keyLength)
    case None => None
    case Some(sum) => Some(Encoded(h, salt, sum))
  }

  datatype Verdict = Accepted | Rejected | Panicked

  function Verify(kdf: Kdf, plain: Bytes, hashed: string): Verdict {
    match Decode(hashed)
    case None => Rejected
    case Some(d) =>
      match kdf(plain, d.salt, d.iterations, d.memory, d.parallelism, |d.sum|)
      case None => Panicked
      case Some(candidate) => if candidate == d.sum then Accepted else Rejected
  }

  lemma {:induction false} DecimalDigits(n: nat)
    ensures Decimal(n) != "" && AllDigits(Decimal(n))
  {
    if n >= 10 {
      DecimalDigits(n / 10);
    }
  }

  lemma {:induction false} ParseDecimal(n: nat)
    requires AllDigits(Decimal(n))
    ensures Parse(Decimal(n)) == n
  {
    var s := Decimal(n);
    if n >= 10 {
      DecimalDigits(n / 10);
      ParseDecimal(n / 10);
      assert s[..|s| - 1] == Decimal(n / 10);
    } else {
      assert s[..|s| - 1] == "";
    }
  }

  lemma {:induction false} DigitsThenRest(digits: string, rest: string)
    requires AllDigits(digits)
    requires rest != "" ==> !Digit(rest[0])
    ensures DigitCount(digits + rest) == |digits|
  {
    if digits == "" {
      assert digits + rest == rest;
    } else {
      assert (digits + rest)[1..] == digits[1..] + rest;
      DigitsThenRest(digits[1..], rest);
    }
  }

  lemma DigitsPrinted(n: nat, rest: string, max: nat)
    requires rest != "" ==> !Digit(rest[0])
    ensures ScanDigits(Decimal(n) + rest, max) == if n <= max then Some(Scan(n, rest)) else None
  {
    var s := Decimal(n) + rest;
    DecimalDigits(n);
    ParseDecimal(n);
    DigitsThenRest(Decimal(n), rest);
    assert s[..|Decimal(n)|] == Decimal(n) && s[|Decimal(n)|..] == rest;
  }

  lemma ScanPrinted(n: nat, rest: string, max: nat)
    requires rest != "" ==> !Digit(rest[0])
    ensures ScanUnsigned(Decimal(n) + rest, max) == if n <= max then Some(Scan(n, rest)) else None
  {
    var s := Decimal(n) + rest;
    DecimalDigits(n);
    assert s[0] == Decimal(n)[0];
    assert SkipBlanks(s) == s;
    DigitsPrinted(n, rest, max);
  }

  /** The version is read as a signed number, which has to fit, and what follows it is left. */
  lemma SignedIsScanned(n: nat, rest: string)
    requires rest != "" ==> !Digit(rest[0])
    ensures ScanInt(Decimal(n) + rest) == if n <= MAX_INT64 then Some(Scan(n, rest)) else None
    ensures ScanInt("-" + (Decimal(n) + rest)) == if n <= MAX_INT64 + 1 then Some(Scan(-(n as int), rest)) else None
    ensures ScanInt("+" + (Decimal(n) + rest)) == if n <= MAX_INT64 then Some(Scan(n, rest)) else None
  {
    var s := Decimal(n) + rest;
    DecimalDigits(n);
    assert Digit(s[0]) by {
      assert s[0] == Decimal(n)[0];
    }
    DigitsPrinted(n, rest, MAX_INT64);
    DigitsPrinted(n, rest, MAX_INT64 + 1);
    assert ("-" + s)[1..] == s && ("+" + s)[1..] == s;
  }

  lemma ScanPrintedField(literal: string, n: nat, rest: string, max: nat)
    requires n <= max && (rest != "" ==> !Digit(rest[0]))
    ensures ScanField(literal + Decimal(n) + rest, literal, max) == Some(Scan(n, rest))
  {
    var s := literal + Decimal(n) + rest;
    assert s[|literal|..] == Decimal(n) + rest;
    ScanPrinted(n, rest, max);
  }

  lemma ScanPrintedParams(h: Hasher)
    ensures ScanParams(Params(h)) == Some((h.memory, h.iterations, h.parallelism))
  {
    var m, t, p := "m=" + Decimal(h.memory), ",t=" + Decimal(h.iterations), ",p=" + Decimal(h.parallelism);
    assert p + "" == p;
    ScanPrintedField(",p=", h.parallelism, "", MAX_WORD8);
    ScanPrintedField(",t=", h.iterations, p, MAX_WORD32);
    ScanPrintedField("m=", h.memory, t + p, MAX_WORD32);
    Regroup(m, t, p);
  }

  lemma Regroup(a: string, b: string, c: string)
    ensures a + b + c == a + (b + c)
  {
  }

  lemma ParamsHaveNoSeparator(h: Hasher)
    ensures '$' !in Params(h)
  {
    DecimalDigits(h.memory);
    DecimalDigits(h.iterations);
    DecimalDigits(h.parallelism);
  }

  /** The six segments of a hash string are found again. */
  lemma SplitEncoded(h: Hasher, salt: Bytes, sum: Bytes)
    ensures Split(Encoded(h, salt, sum), '$') ==
            ["", "argon2id", "v=19", Params(h), Base64.Encode(salt, false), Base64.Encode(sum, false)]
  {
    var a, b := Base64.Encode(salt, false), Base64.Encode(sum, false);
    var parts := ["", "argon2id", "v=19", Params(h), a, b];
    Base64.NoSeparators(salt, false);
    Base64.NoSeparators(sum, false);
    ParamsHaveNoSeparator(h);
    SplitJoin(parts, '$');
    EncodedIsJoin(h, a, b, parts);
  }

  lemma EncodedIsJoin(h: Hasher, a: string, b: string, parts: seq<string>)
    requires parts == ["", "argon2id", "v=19", Params(h), a, b]
    ensures "$argon2id$v=" + Decimal(VERSION) + "$" + Params(h) + "$" + a + "$" + b == Join(parts, '$')
  {
    JoinSix(parts, '$');
    assert Decimal(VERSION) == "19";
    assert "$argon2id$v=" + "19" == "" + ['$'] + "argon2id" + ['$'] + "v=19";
  }

  lemma JoinSix(p: seq<string>, c: char)
    requires |p| == 6
    ensures Join(p, c) == p[0] + [c] + p[1] + [c] + p[2] + [c] + p[3] + [c] + p[4] + [c] + p[5]
  {
    JoinTwo(p[4..], c);
    assert p[3..][1..] == p[4..] && p[2..][1..] == p[3..] && p[1..][1..] == p[2..];
    assert Join(p[3..], c) == p[3] + [c] + (p[4] + [c] + p[5]);
    assert Join(p[2..], c) == p[2] + [c] + Join(p[3..], c);
    assert Join(p[1..], c) == p[1] + [c] + Join(p[2..], c);
  }

  lemma JoinTwo(p: seq<string>, c: char)
    requires |p| == 2
    ensures Join(p, c) == p[0] + [c] + p[1]
  {
    assert Join(p[1..], c) == p[1];
  }

  lemma DecodeGoodParts(parts: seq<string>, d: Decoded)
    requires |parts| == 6 && parts[1] == "argon2id" && ScanVersion(parts[2]) == Some(VERSION)
    requires ScanParams(parts[3]) == Some((d.memory, d.iterations, d.parallelism))
    requires Base64.Decode(parts[4], false) == Some(d.salt) && Base64.Decode(parts[5], false) == Some(d.sum)
    ensures DecodeParts(parts) == Some(d)
  {
  }

  lemma DecodeOwnParts(h: Hasher, salt: Bytes, sum: Bytes)
    ensures DecodeParts(["", "argon2id", "v=19", Params(h), Base64.Encode(salt, false), Base64.Encode(sum, false)])
            == Some(Decoded(h.memory, h.iterations, h.parallelism, salt, sum))
  {
    ScanPrintedParams(h);
    Base64.RoundTrip(salt, false);
    Base64.RoundTrip(sum, false);
    VersionScans();
    DecodeGoodParts(["", "argon2id", "v=19", Params(h), Base64.Encode(salt, false), Base64.Encode(sum, false)],
                    Decoded(h.memory, h.iterations, h.parallelism, salt, sum));
  }

  lemma DecodeEncoded(h: Hasher, salt: Bytes, sum: Bytes)
    ensures Decode(Encoded(h, salt, sum)) == Some(Decoded(h.memory, h.iterations, h.parallelism, salt, sum))
  {
    SplitEncoded(h, salt, sum);
    DecodeOwnParts(h, salt, sum);
  }

  lemma VersionScans()
    ensures ScanVersion("v=19") == Some(VERSION)
  {
    assert "v=19"[2..] == "19" && "19"[1..] == "9" && "9"[1..] == "";
    assert DigitCount("9") == 1;
    assert DigitCount("19") == 2;
    assert "19"[..2] == "19" && "19"[..1] == "1" && "1"[..0] == "";
    assert Parse("1") == 1;
    assert Parse("19") == 19;
  }

  /** The cost parameters are printed in the order and under the letters of the common format. */
  lemma ParamsText(h: Hasher)
    ensures Split(Params(h), ',') == ["m=" + Decimal(h.memory), "t=" + Decimal(h.iterations), "p=" + Decimal(h.parallelism)]
  {
    DecimalDigits(h.memory);
    DecimalDigits(h.iterations);
    DecimalDigits(h.parallelism);
    var parts := ["m=" + Decimal(h.memory), "t=" + Decimal(h.iterations), "p=" + Decimal(h.parallelism)];
    assert parts[1..] == [parts[1], parts[2]];
    JoinTwo(parts[1..], ',');
    assert Join(parts, ',') == parts[0] + [','] + (parts[1] + [','] + parts[2]);
    assert Params(h) == Join(parts, ',');
    SplitJoin(parts, ',');
  }

  lemma MemoryText()
    ensures Decimal(65536) == "65536"
  {
    assert Decimal(65) == "65";
    assert Decimal(655) == Decimal(65) + "5";
    assert Decimal(6553) == Decimal(655) + "3";
  }

  /** The example of the documentation. */
  lemma DocumentedParams(h: Hasher)
    requires h.memory == 65536 && h.iterations == 3 && h.parallelism == 2
    ensures Params(h) == "m=65536,t=3,p=2"
  {
    MemoryText();
    assert Decimal(3) == "3" && Decimal(2) == "2";
  }

  /** Which texts are hash strings, for any segments without a dollar sign. */
  lemma DecodeIff(parts: seq<string>, d: Decoded)
    requires parts != [] && Lacks(parts, '$')
    ensures Decode(Join(parts, '$')) == Some(d) <==>
            && |parts| == 6 && parts[1] == "argon2id" && ScanVersion(parts[2]) == Some(19)
            && ScanParams(parts[3]) == Some((d.memory, d.iterations, d.parallelism))
            && Base64.Decode(parts[4], false) == Some(d.salt) && Base64.Decode(parts[5], false) == Some(d.sum)
  {
    SplitJoin(parts, '$');
  }

  /** Any stored text: it accepts a password exactly when it is a hash string and the password derives its sum. */
  lemma VerifyIff(kdf: Kdf, plain: Bytes, hashed: string)
    ensures Verify(kdf, plain, hashed) == Accepted <==>
            exists d :: Decode(hashed) == Some(d)
                        && kdf(plain, d.salt, d.iterations, d.memory, d.parallelism, |d.sum|) == Some(d.sum)
    ensures Verify(kdf, plain, hashed) == Panicked <==>
            exists d :: Decode(hashed) == Some(d)
                        && kdf(plain, d.salt, d.iterations, d.memory, d.parallelism, |d.sum|) == None
  {
  }

  /**
   A hash string verifies whatever the verifying hasher's own parameters are, and it accepts
   exactly the passwords that derive the same key as the hashed one.
   */
  lemma VerifyHashIff(kdf: Kdf, h: Hasher, salt: Bytes, plain: Bytes, other: Bytes)
    requires Lawful(kdf) && |salt| == h.saltLength && Hash(kdf, h, salt, plain).Some?
    ensures Verify(kdf, plain, Hash(kdf, h, salt, plain).value) == Accepted
    ensures Verify(kdf, other, Hash(kdf, h, salt, plain).value) == Accepted <==>
            kdf(other, salt, h.iterations, h.memory, h.parallelism, h.keyLength)
            == kdf(plain, salt, h.iterations, h.memory, h.parallelism, h.keyLength)
  {
    var sum := kdf(plain, salt, h.iterations, h.memory, h.parallelism, h.keyLength).value;
    DecodeEncoded(h, salt, sum);
  }

  /** Cost parameters, salt and sum can be read off the string: two strings agree only if they do. */
  lemma EncodedInjective(h: Hasher, g: Hasher, salt: Bytes, salt': Bytes, sum: Bytes, sum': Bytes)
    requires Encoded(h, salt, sum) == Encoded(g, salt', sum')
    ensures salt == salt' && sum == sum'
    ensures h.memory == g.memory && h.iterations == g.iterations && h.parallelism == g.parallelism
  {
    DecodeEncoded(h, salt, sum);
    DecodeEncoded(g, salt', sum');
  }
}
