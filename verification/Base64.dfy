/**
 The standard base64 alphabet (section 4 of RFC 4648), padded or without padding (section 3.2), as
 the hash strings and ciphertexts of pkg/crypter use it. Decoding is Go's: line breaks are skipped
 and stray low bits of the last character are not looked at.
 */
module Base64 {
  import opened Wrappers

  type Byte = x: int | 0 <= x < 256
  type Bytes = seq<Byte>

  function Letter(x: nat): char
    requires x < 64
  {
    if x < 26 then 'A' + x as char
    else if x < 52 then 'a' + (x - 26) as char
    else if x < 62 then '0' + (x - 52) as char
    else if x == 62 then '+' else '/'
  }

  function Value(c: char): (r: Option<nat>)
    ensures r.Some? ==> r.value < 64 && Letter(r.value) == c
  {
    if 'A' <= c <= 'Z' then Some(c as int - 'A' as int)
    else if 'a' <= c <= 'z' then Some(c as int - 'a' as int + 26)
    else if '0' <= c <= '9' then Some(c as int - '0' as int + 52)
    else if c == '+' then Some(62)
    else if c == '/' then Some(63)
    else None
  }

  lemma ValueOfLetter(x: nat)
    requires x < 64
    ensures Value(Letter(x)) == Some(x)
  {
  }

  function Pad(padded: bool, n: nat): string {
    if padded then seq(n, _ => '=') else ""
  }

  function EncodeTail(bs: Bytes, padded: bool): string
    requires |bs| < 3
  {
    if |bs| == 0 then ""
    else if |bs| == 1 then [Letter(bs[0] / 4), Letter(bs[0] % 4 * 16)] + Pad(padded, 2)
    else [Letter(bs[0] / 4), Letter(bs[0] % 4 * 16 + bs[1] / 16), Letter(bs[1] % 16 * 4)] + Pad(padded, 1)
  }

  function EncodeTriple(a: Byte, b: Byte, c: Byte): string {
    [Letter(a / 4), Letter(a % 4 * 16 + b / 16), Letter(b % 16 * 4 + c / 64), Letter(c % 64)]
  }

  function Encode(bs: Bytes, padded: bool): string {
    if |bs| < 3 then EncodeTail(bs, padded)
    else EncodeTriple(bs[0], bs[1], bs[2]) + Encode(bs[3..], padded)
  }

  function SkipBreaks(s: string): string {
    if s == "" then "" else
    var rest := SkipBreaks(s[1..]);
    if s[0] == '\r' || s[0] == '\n' then rest else [s[0]] + rest
  }

  function DecodePair(s: string): Option<Bytes>
    requires |s| >= 2
  {
    match (Value(s[0]), Value(s[1]))
    case (Some(a), Some(b)) => Some([a * 4 + b / 16])
    case _ => None
  }

  function DecodeThree(s: string): Option<Bytes>
    requires |s| >= 3
  {
    if DecodePair(s).None? || Value(s[2]).None? then None
    else Some(DecodePair(s).value + [Value(s[1]).value % 16 * 16 + Value(s[2]).value / 4])
  }

  function DecodeFour(s: string): Option<Bytes>
    requires |s| >= 4
  {
    if DecodeThree(s).None? || Value(s[3]).None? then None
    else Some(DecodeThree(s).value + [Value(s[2]).value % 4 * 64 + Value(s[3]).value])
  }

  /** The quanta of a string without line breaks. */
  function DecodeQuanta(s: string, padded: bool): Option<Bytes> {
    if s == "" then Some([])
    else if padded && |s| == 4 && s[2] == '=' && s[3] == '=' then DecodePair(s)
    else if padded && |s| == 4 && s[3] == '=' then DecodeThree(s)
    else if !padded && |s| == 2 then DecodePair(s)
    else if !padded && |s| == 3 then DecodeThree(s)
    else if |s| < 4 then None
    else
      match (DecodeFour(s), DecodeQuanta(s[4..], padded))
      case (Some(head), Some(rest)) => Some(head + rest)
      case _ => None
  }

  function Decode(s: string, padded: bool): Option<Bytes> {
    DecodeQuanta(SkipBreaks(s), padded)
  }

  /** Only letters of the alphabet and, when padded, the padding sign. */
  predicate InAlphabet(s: string, padded: bool) {
    forall i :: 0 <= i < |s| ==> Value(s[i]).Some? || (padded && s[i] == '=')
  }

  lemma {:induction false} EncodeInAlphabet(bs: Bytes, padded: bool)
    ensures InAlphabet(Encode(bs, padded), padded)
  {
    if |bs| >= 3 {
      EncodeInAlphabet(bs[3..], padded);
      TripleRoundTrip(bs[0], bs[1], bs[2]);
    } else {
      TailInAlphabet(bs, padded);
    }
  }

  lemma TailInAlphabet(bs: Bytes, padded: bool)
    requires |bs| < 3
    ensures InAlphabet(EncodeTail(bs, padded), padded)
  {
  }

  lemma UpperCase()
    ensures seq(26, i requires 0 <= i < 26 => Letter(i)) == "ABCDEFGHIJKLMNOPQRSTUVWXYZ"
  {
  }

  lemma LowerCase()
    ensures seq(26, i requires 0 <= i < 26 => Letter(26 + i)) == "abcdefghijklmnopqrstuvwxyz"
  {
  }

  lemma DigitsAndSigns()
    ensures seq(12, i requires 0 <= i < 12 => Letter(52 + i)) == "0123456789+/"
  {
  }

  /** The letters are those of table 1 of RFC 4648, in its order. */
  lemma Alphabet()
    ensures seq(26, i requires 0 <= i < 26 => Letter(i)) == "ABCDEFGHIJKLMNOPQRSTUVWXYZ"
    ensures seq(26, i requires 0 <= i < 26 => Letter(26 + i)) == "abcdefghijklmnopqrstuvwxyz"
    ensures seq(12, i requires 0 <= i < 12 => Letter(52 + i)) == "0123456789+/"
  {
    UpperCase();
    LowerCase();
    DigitsAndSigns();
  }

  /** The letters are the last digits of a number to base 64, and the rest of it is given by the letters before. */
  predicate Spells(s: string, n: nat) {
    if s == "" then n == 0 else Value(s[|s| - 1]) == Some(n % 64) && Spells(s[..|s| - 1], n / 64)
  }

  lemma SpellsLast(s: string, x: nat, n: nat)
    requires Spells(s, n) && x < 64
    ensures Spells(s + [Letter(x)], 64 * n + x)
  {
    ValueOfLetter(x);
    assert (s + [Letter(x)])[..|s|] == s;
  }

  /** The number that bytes make, most significant first. */
  function Number(bs: Bytes): nat {
    if bs == [] then 0 else 256 * Number(bs[..|bs| - 1]) + (bs[|bs| - 1] as int)
  }

  lemma NumberOfThree(a: Byte, b: Byte, c: Byte)
    ensures Number([a]) == a && Number([a, b]) == 256 * (a as int) + b
    ensures Number([a, b, c]) == 256 * (256 * (a as int) + b) + c
  {
    assert [a][..0] == [] && [a, b][..1] == [a] && [a, b, c][..2] == [a, b];
  }

  lemma TwoSpell(a: Byte, low: nat)
    requires low < 16
    ensures Spells([Letter(a / 4), Letter(a % 4 * 16 + low)], 16 * (a as int) + low)
  {
    SpellsLast("", a / 4, 0);
    assert "" + [Letter(a / 4)] == [Letter(a / 4)];
    SpellsLast([Letter(a / 4)], a % 4 * 16 + low, a / 4);
    assert [Letter(a / 4)] + [Letter(a % 4 * 16 + low)] == [Letter(a / 4), Letter(a % 4 * 16 + low)];
  }

  lemma ThreeSpell(a: Byte, b: Byte, low: nat)
    requires low < 4
    ensures Spells([Letter(a / 4), Letter(a % 4 * 16 + b / 16), Letter(b % 16 * 4 + low)], 4 * (256 * (a as int) + b) + low)
  {
    TwoSpell(a, b / 16);
    var two := [Letter(a / 4), Letter(a % 4 * 16 + b / 16)];
    SpellsLast(two, b % 16 * 4 + low, 16 * (a as int) + b / 16);
    assert two + [Letter(b % 16 * 4 + low)] == [two[0], two[1], Letter(b % 16 * 4 + low)];
  }

  lemma FourSpell(a: Byte, b: Byte, c: Byte)
    ensures Spells(EncodeTriple(a, b, c), Number([a, b, c]))
  {
    ThreeSpell(a, b, c / 64);
    NumberOfThree(a, b, c);
    var three := [Letter(a / 4), Letter(a % 4 * 16 + b / 16), Letter(b % 16 * 4 + c / 64)];
    SpellsLast(three, c % 64, 4 * (256 * (a as int) + b) + c / 64);
    assert three + [Letter(c % 64)] == EncodeTriple(a, b, c);
  }

  /**
   Section 4 of RFC 4648: three bytes are four letters that make the same number to base 64; one or
   two bytes at the end are two or three letters, with zeros for the missing low bits, and padding.
   */
  predicate Spelled(bs: Bytes, text: string, padded: bool) {
    match |bs| {
      case 0 => text == ""
      case 1 => |text| >= 2 && Spells(text[..2], 16 * Number(bs)) && text[2..] == if padded then "==" else ""
      case 2 => |text| >= 3 && Spells(text[..3], 4 * Number(bs)) && text[3..] == if padded then "=" else ""
      case _ => |text| >= 4 && Spells(text[..4], Number(bs[..3])) && Spelled(bs[3..], text[4..], padded)
    }
  }

  lemma {:induction false} EncodeSpells(bs: Bytes, padded: bool)
    ensures Spelled(bs, Encode(bs, padded), padded)
  {
    if |bs| == 1 {
      OneSpelled(bs[0], padded);
      assert bs == [bs[0]];
    } else if |bs| == 2 {
      TwoSpelled(bs[0], bs[1], padded);
      assert bs == [bs[0], bs[1]];
    } else if |bs| >= 3 {
      FourSpell(bs[0], bs[1], bs[2]);
      EncodeSpells(bs[3..], padded);
      assert bs[..3] == [bs[0], bs[1], bs[2]];
      var head, rest := EncodeTriple(bs[0], bs[1], bs[2]), Encode(bs[3..], padded);
      assert (head + rest)[..4] == head && (head + rest)[4..] == rest;
    }
  }

  lemma OneSpelled(a: Byte, padded: bool)
    ensures Spelled([a], EncodeTail([a], padded), padded)
  {
    TwoSpell(a, 0);
    NumberOfThree(a, 0, 0);
    assert EncodeTail([a], padded)[..2] == [Letter(a / 4), Letter(a % 4 * 16)];
  }

  lemma TwoSpelled(a: Byte, b: Byte, padded: bool)
    ensures Spelled([a, b], EncodeTail([a, b], padded), padded)
  {
    ThreeSpell(a, b, 0);
    NumberOfThree(a, b, 0);
    assert EncodeTail([a, b], padded)[..3] == [Letter(a / 4), Letter(a % 4 * 16 + b / 16), Letter(b % 16 * 4)];
  }

  /** So neither the hash string's separator nor the cipher's can occur. */
  lemma NoSeparators(bs: Bytes, padded: bool)
    ensures '$' !in Encode(bs, padded) && ':' !in Encode(bs, padded)
    ensures '\r' !in Encode(bs, padded) && '\n' !in Encode(bs, padded)
  {
    EncodeInAlphabet(bs, padded);
  }

  lemma Regroup(a: Byte, b: Byte, c: Byte)
    ensures (a % 4 * 16 + b / 16) / 16 == a % 4 && (a % 4 * 16 + b / 16) % 16 == b / 16
    ensures (b % 16 * 4 + c / 64) / 4 == b % 16 && (b % 16 * 4 + c / 64) % 4 == c / 64
    ensures a / 4 * 4 + a % 4 == a && b / 16 * 16 + b % 16 == b && c / 64 * 64 + c % 64 == c
  {
  }

  lemma TripleRoundTrip(a: Byte, b: Byte, c: Byte)
    ensures DecodeFour(EncodeTriple(a, b, c)) == Some([a, b, c])
    ensures InAlphabet(EncodeTriple(a, b, c), false)
  {
    ValueOfLetter(a / 4);
    ValueOfLetter(a % 4 * 16 + b / 16);
    ValueOfLetter(b % 16 * 4 + c / 64);
    ValueOfLetter(c % 64);
    Regroup(a, b, c);
    var s := EncodeTriple(a, b, c);
    assert DecodePair(s) == Some([a]);
    assert DecodeThree(s) == Some([a] + [b]);
    assert DecodeFour(s) == Some([a] + [b] + [c]);
    assert [a] + [b] + [c] == [a, b, c];
  }

  lemma TailRoundTrip(bs: Bytes, padded: bool)
    requires |bs| < 3
    ensures DecodeQuanta(EncodeTail(bs, padded), padded) == Some(bs)
  {
    if |bs| == 1 {
      ValueOfLetter(bs[0] / 4);
      ValueOfLetter(bs[0] % 4 * 16);
      Regroup(bs[0], 0, 0);
      assert bs == [bs[0]];
    } else if |bs| == 2 {
      ValueOfLetter(bs[0] / 4);
      ValueOfLetter(bs[0] % 4 * 16 + bs[1] / 16);
      ValueOfLetter(bs[1] % 16 * 4);
      Regroup(bs[0], bs[1], 0);
      assert DecodePair(EncodeTail(bs, padded)) == Some([bs[0]]);
      assert bs == [bs[0]] + [bs[1]];
    }
  }

  lemma {:induction false} QuantaRoundTrip(bs: Bytes, padded: bool)
    ensures DecodeQuanta(Encode(bs, padded), padded) == Some(bs)
  {
    if |bs| < 3 {
      TailRoundTrip(bs, padded);
    } else {
      var head, rest := EncodeTriple(bs[0], bs[1], bs[2]), Encode(bs[3..], padded);
      QuantaRoundTrip(bs[3..], padded);
      TripleRoundTrip(bs[0], bs[1], bs[2]);
      FourThenRest(head, rest, padded, [bs[0], bs[1], bs[2]], bs[3..]);
      assert [bs[0], bs[1], bs[2]] + bs[3..] == bs;
    }
  }

  lemma FourThenRest(head: string, rest: string, padded: bool, first: Bytes, others: Bytes)
    requires |head| == 4 && InAlphabet(head, false)
    requires DecodeFour(head) == Some(first) && DecodeQuanta(rest, padded) == Some(others)
    ensures DecodeQuanta(head + rest, padded) == Some(first + others)
  {
    var s := head + rest;
    assert s[3] == head[3] && s[3] != '=';
    assert s[4..] == rest;
    assert s[0] == head[0] && s[1] == head[1] && s[2] == head[2];
  }

  lemma {:induction false} NothingToSkip(s: string)
    requires '\r' !in s && '\n' !in s
    ensures SkipBreaks(s) == s
  {
    if s != "" {
      NothingToSkip(s[1..]);
    }
  }

  lemma {:induction false} SkipConcat(a: string, b: string)
    ensures SkipBreaks(a + b) == SkipBreaks(a) + SkipBreaks(b)
  {
    if a == "" {
      assert a + b == b;
    } else {
      assert (a + b)[1..] == a[1..] + b;
      SkipConcat(a[1..], b);
    }
  }

  /** A line break anywhere in the text does not matter. */
  lemma BreaksAreSkipped(a: string, c: char, b: string, padded: bool)
    requires c == '\r' || c == '\n'
    ensures Decode(a + [c] + b, padded) == Decode(a + b, padded)
  {
    SkipConcat(a + [c], b);
    SkipConcat(a, [c]);
    SkipConcat(a, b);
    assert [c][1..] == "";
    assert SkipBreaks(a) + "" == SkipBreaks(a);
  }

  lemma RoundTrip(bs: Bytes, padded: bool)
    ensures Decode(Encode(bs, padded), padded) == Some(bs)
  {
    NoSeparators(bs, padded);
    NothingToSkip(Encode(bs, padded));
    QuantaRoundTrip(bs, padded);
  }

  predicate Letters(s: string) {
    forall i :: 0 <= i < |s| ==> Value(s[i]).Some?
  }

  /** Whole groups of letters, or all but the last one or two of them and padding; without padding any number but one too many. */
  predicate WellFormed(s: string, padded: bool) {
    if padded then
      && |s| % 4 == 0
      && (Letters(s) || (|s| >= 4 && ((Letters(s[..|s| - 1]) && s[|s| - 1] == '=')
                                      || (Letters(s[..|s| - 2]) && s[|s| - 2..] == "=="))))
    else
      |s| % 4 != 1 && Letters(s)
  }

  lemma LettersConcat(a: string, b: string)
    ensures Letters(a + b) <==> Letters(a) && Letters(b)
  {
    if Letters(a + b) {
      forall i | 0 <= i < |a| ensures Value(a[i]).Some? { assert (a + b)[i] == a[i]; }
      forall i | 0 <= i < |b| ensures Value(b[i]).Some? { assert (a + b)[|a| + i] == b[i]; }
    }
  }

  lemma LettersSplit(s: string, n: nat)
    requires 4 <= n <= |s|
    ensures Letters(s[..n]) <==> Letters(s[..4]) && Letters(s[4..][..n - 4])
  {
    assert s[..n] == s[..4] + s[4..][..n - 4];
    LettersConcat(s[..4], s[4..][..n - 4]);
  }

  lemma WellFormedLater(s: string, padded: bool)
    requires |s| > 4
    ensures WellFormed(s, padded) <==> Letters(s[..4]) && WellFormed(s[4..], padded)
  {
    var n, t := |s|, s[4..];
    LettersSplit(s, n);
    assert s[..n] == s && t[..n - 4] == t;
    if padded && n % 4 == 0 {
      LettersSplit(s, n - 1);
      LettersSplit(s, n - 2);
      assert s[n - 2..] == t[n - 6..];
    }
  }

  lemma FourDecodes(s: string, padded: bool)
    requires |s| == 4
    ensures DecodeQuanta(s, padded).Some? <==> WellFormed(s, padded)
  {
    FourDecode(s);
    assert s[4..] == "" && s[..4] == s == [s[0], s[1], s[2], s[3]];
    assert s[..2] == [s[0], s[1]] && s[..3] == [s[0], s[1], s[2]] && s[2..] == [s[2], s[3]];
  }

  /** A text without line breaks decodes exactly when it is well formed. */
  lemma {:induction false} DecodesIff(s: string, padded: bool)
    ensures DecodeQuanta(s, padded).Some? <==> WellFormed(s, padded)
  {
    if |s| > 4 {
      FourDecode(s);
      DecodesIff(s[4..], padded);
      WellFormedLater(s, padded);
    } else if |s| == 4 {
      FourDecodes(s, padded);
    }
  }

  lemma FourDecode(s: string)
    requires |s| >= 4
    ensures DecodeFour(s).Some? <==> Letters(s[..4])
  {
    assert Letters(s[..4]) <==> Value(s[0]).Some? && Value(s[1]).Some? && Value(s[2]).Some? && Value(s[3]).Some? by {
      assert s[..4] == [s[0], s[1], s[2], s[3]];
    }
  }
}
