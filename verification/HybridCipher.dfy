/**
 The ciphertext formats of pkg/crypter: AES-GCM with the nonce in front (aes_crypter.go:38-59), a
 key agreement followed by a repeating-key XOR (ecc_crypter.go:35-95), and their combination
 "wrapped key:data" (hybrid_crypter.go:157-205). The primitives are function parameters.
 */
module HybridCipher {
  import opened Wrappers
  import Base64
  import Strings

  type Byte = Base64.Byte
  type Bytes = Base64.Bytes

  const PUBLIC_SIZE: nat := 65
  const NONCE_SIZE: nat := 12
  const KEY_SIZE: nat := 32

  /** P-256, SHA-256 and AES-GCM as far as the formats depend on them. */
  datatype Suite = Suite(
    validPrivate: Bytes -> bool,
    publicOf: Bytes -> Bytes,
    agree: (Bytes, Bytes) -> Option<Bytes>,
    digest: Bytes -> Bytes,
    validKey: Bytes -> bool,
    seal: (Bytes, Bytes, Bytes) -> Bytes,
    open: (Bytes, Bytes, Bytes) -> Option<Bytes>)

  /** Both sides agree on a secret, digests are 32 bytes long, and open inverts seal. */
  ghost predicate Lawful(s: Suite) {
    && (forall k :: |s.publicOf(k)| == PUBLIC_SIZE)
    && (forall a, b :: s.validPrivate(a) && s.validPrivate(b) ==>
          s.agree(a, s.publicOf(b)).Some? && s.agree(a, s.publicOf(b)) == s.agree(b, s.publicOf(a)))
    && (forall x :: |s.digest(x)| == KEY_SIZE)
    && (forall k, n, p :: s.open(k, n, s.seal(k, n, p)) == Some(p))
  }

  /** The exclusive or of the low bits of two numbers. */
  function XorBits(a: nat, b: nat, bits: nat): (r: nat) {
    if bits == 0 then 0 else (if a % 2 == b % 2 then 0 else 1) + 2 * XorBits(a / 2, b / 2, bits - 1)
  }

  function Pow2(n: nat): nat {
    if n == 0 then 1 else 2 * Pow2(n - 1)
  }

  lemma {:induction false} XorBounded(a: nat, b: nat, bits: nat)
    ensures XorBits(a, b, bits) < Pow2(bits)
  {
    if bits > 0 {
      XorBounded(a / 2, b / 2, bits - 1);
    }
  }

  lemma {:induction false} XorTwice(a: nat, b: nat, bits: nat)
    requires a < Pow2(bits)
    ensures XorBits(XorBits(a, b, bits), b, bits) == a
  {
    if bits > 0 {
      var low, high := if a % 2 == b % 2 then 0 else 1, XorBits(a / 2, b / 2, bits - 1);
      LowBit(low, high);
      XorTwice(a / 2, b / 2, bits - 1);
    }
  }

  lemma LowBit(low: nat, high: nat)
    requires low < 2
    ensures (low + 2 * high) % 2 == low && (low + 2 * high) / 2 == high
  {
  }

  /** Bit i of a number. */
  function Bit(a: nat, i: nat): nat {
    if i == 0 then a % 2 else Bit(a / 2, i - 1)
  }

  /** Each bit is set exactly when one of the two numbers has it. */
  lemma {:induction false} XorBit(a: nat, b: nat, bits: nat, i: nat)
    requires i < bits
    ensures Bit(XorBits(a, b, bits), i) == (Bit(a, i) + Bit(b, i)) % 2
  {
    LowBit(if a % 2 == b % 2 then 0 else 1, XorBits(a / 2, b / 2, bits - 1));
    if i > 0 {
      XorBit(a / 2, b / 2, bits - 1, i - 1);
    }
  }

  function Xor(a: Byte, b: Byte): Byte {
    XorBounded(a, b, 8);
    assert Pow2(8) == 256;
    XorBits(a, b, 8)
  }

  /** message[i] ^ key[i % 32] */
  function XorCyclic(message: Bytes, key: Bytes): (r: Bytes)
    requires |key| == KEY_SIZE
  {
    seq(|message|, i requires 0 <= i < |message| => Xor(message[i], key[i % KEY_SIZE]))
  }

  lemma XorCyclicTwice(message: Bytes, key: Bytes)
    requires |key| == KEY_SIZE
    ensures XorCyclic(XorCyclic(message, key), key) == message
  {
    assert Pow2(8) == 256;
    forall i | 0 <= i < |message| ensures XorCyclic(XorCyclic(message, key), key)[i] == message[i] {
      XorTwice(message[i], key[i % KEY_SIZE], 8);
    }
  }

  /** Each byte is masked, bit by bit, with the byte of the key at its position, the key repeating every 32 bytes. */
  ghost predicate Masks(message: Bytes, key: Bytes, out: Bytes)
    requires |key| == KEY_SIZE
  {
    && |out| == |message|
    && forall i, bit :: 0 <= i < |message| && 0 <= bit < 8 ==>
         Bit(out[i], bit) == (Bit(message[i], bit) + Bit(key[i % KEY_SIZE], bit)) % 2
  }

  lemma XorCyclicMasks(message: Bytes, key: Bytes)
    requires |key| == KEY_SIZE
    ensures Masks(message, key, XorCyclic(message, key))
  {
    forall i, bit | 0 <= i < |message| && 0 <= bit < 8
      ensures Bit(XorCyclic(message, key)[i], bit) == (Bit(message[i], bit) + Bit(key[i % KEY_SIZE], bit)) % 2
    {
      XorBit(message[i], key[i % KEY_SIZE], 8, bit);
    }
  }

  /** The loop of both directions. */
  method XorLoop(message: Bytes, key: Bytes) returns (out: array<Byte>)
    requires |key| == KEY_SIZE
    ensures fresh(out) && out[..] == XorCyclic(message, key)
  {
    out := new Byte[|message|];
    for i := 0 to |message|
      invariant forall j :: 0 <= j < i ==> out[j] == XorCyclic(message, key)[j]
    {
      out[i] := Xor(message[i], key[i % KEY_SIZE]);
    }
  }

  // AES: nonce followed by the sealed text.

  function SealFrame(s: Suite, key: Bytes, nonce: Bytes, plain: Bytes): Option<Bytes> {
    if s.validKey(key) then Some(nonce + s.seal(key, nonce, plain)) else None
  }

  function OpenFrame(s: Suite, key: Bytes, frame: Bytes): Option<Bytes> {
    if !s.validKey(key) || |frame| < NONCE_SIZE then None
    else s.open(key, frame[..NONCE_SIZE], frame[NONCE_SIZE..])
  }

  // ECC: ephemeral public key followed by the XORed message, in base64.

  function Wrap(s: Suite, publicKey: Bytes, ephemeral: Bytes, message: Bytes): Option<string>
    requires Lawful(s)
  {
    match s.agree(ephemeral, publicKey)
    case None => None
    case Some(secret) => Some(Base64.Encode(s.publicOf(ephemeral) + XorCyclic(message, s.digest(secret)), true))
  }

  function Unwrap(s: Suite, privateKey: Bytes, text: string): Option<Bytes>
    requires Lawful(s)
  {
    match Base64.Decode(text, true)
    case None => None
    case Some(data) =>
      if |data| < PUBLIC_SIZE then None else
      match s.agree(privateKey, data[..PUBLIC_SIZE])
      case None => None
      case Some(secret) => Some(XorCyclic(data[PUBLIC_SIZE..], s.digest(secret)))
  }

  datatype Crypter = Crypter(privateKey: Bytes, aesKey: Bytes)

  /** nonce and ephemeral key are what the random source delivers. */
  function Encrypt(s: Suite, c: Crypter, nonce: Bytes, ephemeral: Bytes, plain: Bytes): Option<string>
    requires Lawful(s)
  {
    match (SealFrame(s, c.aesKey, nonce, plain), Wrap(s, s.publicOf(c.privateKey), ephemeral, c.aesKey))
    case (Some(frame), Some(wrapped)) => Some(wrapped + ":" + Base64.Encode(frame, true))
    case _ => None
  }

  /** The two parts around the first colon */
  function Decrypt(s: Suite, c: Crypter, text: string): Option<Bytes>
    requires Lawful(s)
  {
    var i := Strings.Index(text, ':');
    if i == |text| then None else
    match (Unwrap(s, c.privateKey, text[..i]), Base64.Decode(text[i + 1..], true))
    case (Some(key), Some(frame)) => OpenFrame(s, key, frame)
    case _ => None
  }

  lemma FrameRoundTrip(s: Suite, key: Bytes, nonce: Bytes, plain: Bytes)
    requires Lawful(s) && s.validKey(key) && |nonce| == NONCE_SIZE
    ensures OpenFrame(s, key, SealFrame(s, key, nonce, plain).value) == Some(plain)
  {
    var frame := SealFrame(s, key, nonce, plain).value;
    assert frame[..NONCE_SIZE] == nonce && frame[NONCE_SIZE..] == s.seal(key, nonce, plain);
  }

  lemma WrapRoundTrip(s: Suite, privateKey: Bytes, ephemeral: Bytes, message: Bytes)
    requires Lawful(s) && s.validPrivate(privateKey) && s.validPrivate(ephemeral)
    ensures Wrap(s, s.publicOf(privateKey), ephemeral, message).Some?
    ensures Unwrap(s, privateKey, Wrap(s, s.publicOf(privateKey), ephemeral, message).value) == Some(message)
  {
    var secret := s.agree(ephemeral, s.publicOf(privateKey)).value;
    var masked := XorCyclic(message, s.digest(secret));
    var data := s.publicOf(ephemeral) + masked;
    Base64.RoundTrip(data, true);
    assert data[..PUBLIC_SIZE] == s.publicOf(ephemeral) && data[PUBLIC_SIZE..] == masked;
    XorCyclicTwice(message, s.digest(secret));
  }

  lemma WrapHasNoColon(s: Suite, publicKey: Bytes, ephemeral: Bytes, message: Bytes)
    requires Lawful(s) && Wrap(s, publicKey, ephemeral, message).Some?
    ensures ':' !in Wrap(s, publicKey, ephemeral, message).value
  {
    var secret := s.agree(ephemeral, publicKey).value;
    Base64.NoSeparators(s.publicOf(ephemeral) + XorCyclic(message, s.digest(secret)), true);
  }

  // What the texts look like, and which of them are taken.

  /** A wrapped key is the ephemeral public key and the message, masked with the digest of the secret, in base64. */
  lemma WrapLayout(s: Suite, publicKey: Bytes, ephemeral: Bytes, message: Bytes) returns (masked: Bytes)
    requires Lawful(s)
    ensures Wrap(s, publicKey, ephemeral, message).Some? <==> s.agree(ephemeral, publicKey).Some?
    ensures s.agree(ephemeral, publicKey).Some? ==>
              && Masks(message, s.digest(s.agree(ephemeral, publicKey).value), masked)
              && Base64.Decode(Wrap(s, publicKey, ephemeral, message).value, true) == Some(s.publicOf(ephemeral) + masked)
  {
    masked := [];
    if s.agree(ephemeral, publicKey).Some? {
      var key := s.digest(s.agree(ephemeral, publicKey).value);
      masked := XorCyclic(message, key);
      XorCyclicMasks(message, key);
      Base64.RoundTrip(s.publicOf(ephemeral) + masked, true);
    }
  }

  /** Unwrapping undoes the mask of any text that decodes to a public key the private key agrees with, and takes no other. */
  lemma UnwrapIff(s: Suite, privateKey: Bytes, text: string, message: Bytes)
    requires Lawful(s)
    ensures var data := Base64.Decode(text, true);
            && (Unwrap(s, privateKey, text).Some? <==>
                  data.Some? && |data.value| >= PUBLIC_SIZE && s.agree(privateKey, data.value[..PUBLIC_SIZE]).Some?)
            && (Unwrap(s, privateKey, text) == Some(message) ==>
                  Masks(message, s.digest(s.agree(privateKey, data.value[..PUBLIC_SIZE]).value), data.value[PUBLIC_SIZE..]))
  {
    if Unwrap(s, privateKey, text) == Some(message) {
      var data := Base64.Decode(text, true).value;
      var key := s.digest(s.agree(privateKey, data[..PUBLIC_SIZE]).value);
      XorCyclicTwice(data[PUBLIC_SIZE..], key);
      XorCyclicMasks(message, key);
    }
  }

  /** An encrypted text is the wrapped AES key and, after the first colon, nonce and sealed text in base64. */
  lemma EncryptLayout(s: Suite, c: Crypter, nonce: Bytes, ephemeral: Bytes, plain: Bytes)
    requires Lawful(s) && Encrypt(s, c, nonce, ephemeral, plain).Some?
    ensures var text := Encrypt(s, c, nonce, ephemeral, plain).value;
            var i := Strings.Index(text, ':');
            && i < |text|
            && Some(text[..i]) == Wrap(s, s.publicOf(c.privateKey), ephemeral, c.aesKey)
            && Base64.Decode(text[i + 1..], true) == Some(nonce + s.seal(c.aesKey, nonce, plain))
  {
    var wrapped := Wrap(s, s.publicOf(c.privateKey), ephemeral, c.aesKey).value;
    var frame := nonce + s.seal(c.aesKey, nonce, plain);
    var text := wrapped + ":" + Base64.Encode(frame, true);
    WrapHasNoColon(s, s.publicOf(c.privateKey), ephemeral, c.aesKey);
    Strings.IndexOfFirst(wrapped, ':', Base64.Encode(frame, true));
    assert text == wrapped + [':'] + Base64.Encode(frame, true);
    assert text[..|wrapped|] == wrapped && text[|wrapped| + 1..] == Base64.Encode(frame, true);
    Base64.RoundTrip(frame, true);
  }

  /**
   Any text: a result comes only from two parts around the first colon, the second of which AES
   opens, nonce first, under the key unwrapped from the first; and it comes from every such text.
   */
  lemma DecryptIff(s: Suite, c: Crypter, wrapped: string, data: string, plain: Bytes)
    requires Lawful(s) && ':' !in wrapped
    ensures Decrypt(s, c, wrapped) == None
    ensures Decrypt(s, c, wrapped + ":" + data) == Some(plain) <==>
            exists key, frame ::
              && Unwrap(s, c.privateKey, wrapped) == Some(key) && Base64.Decode(data, true) == Some(frame)
              && s.validKey(key) && |frame| >= NONCE_SIZE && s.open(key, frame[..NONCE_SIZE], frame[NONCE_SIZE..]) == Some(plain)
  {
    Strings.IndexAbsent(wrapped, ':');
    Strings.IndexOfFirst(wrapped, ':', data);
    var text := wrapped + ":" + data;
    assert text == wrapped + [':'] + data;
    assert text[..|wrapped|] == wrapped && text[|wrapped| + 1..] == data;
    assert Decrypt(s, c, text) ==
           match (Unwrap(s, c.privateKey, wrapped), Base64.Decode(data, true))
           case (Some(key), Some(frame)) => OpenFrame(s, key, frame)
           case _ => None;
  }

  /**
   Whatever the randomness, Encrypt succeeds exactly with a key AES accepts, and Decrypt then gives
   back every plaintext.
   */
  lemma HybridRoundTrip(s: Suite, c: Crypter, nonce: Bytes, ephemeral: Bytes, plain: Bytes)
    requires Lawful(s) && s.validPrivate(c.privateKey) && s.validPrivate(ephemeral) && |nonce| == NONCE_SIZE
    ensures Encrypt(s, c, nonce, ephemeral, plain).Some? <==> s.validKey(c.aesKey)
    ensures s.validKey(c.aesKey) ==> Decrypt(s, c, Encrypt(s, c, nonce, ephemeral, plain).value) == Some(plain)
  {
    WrapRoundTrip(s, c.privateKey, ephemeral, c.aesKey);
    if s.validKey(c.aesKey) {
      var wrapped := Wrap(s, s.publicOf(c.privateKey), ephemeral, c.aesKey).value;
      var frame := SealFrame(s, c.aesKey, nonce, plain).value;
      var data := Base64.Encode(frame, true);
      WrapHasNoColon(s, s.publicOf(c.privateKey), ephemeral, c.aesKey);
      Strings.IndexOfFirst(wrapped, ':', data);
      var text := wrapped + ":" + data;
      assert text == wrapped + [':'] + data;
      assert text[..|wrapped|] == wrapped && text[|wrapped| + 1..] == data;
      Base64.RoundTrip(frame, true);
      FrameRoundTrip(s, c.aesKey, nonce, plain);
    }
  }
}
