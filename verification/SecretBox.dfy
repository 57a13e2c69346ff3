/** e1 and d1: the XSalsa20-Poly1305 secretbox with tag || ciphertext framing (nuki_crypto.h). */
module SecretBox {
  import opened Bytes
  import opened Codes
  import opened Buffers
  import opened Salsa20Spec
  import opened Stream
  import Salsa20
  import Poly1305
  import Poly1305Spec

  const MAX_MSG: nat := 256
  const TAG_LEN: nat := 16

  /** XSalsa20: Salsa20 under the HSalsa20 subkey of the first sixteen nonce bytes. */
  function XKeystream(len: nat, nonce: seq<byte>, key: seq<byte>): (s: seq<byte>)
    requires |nonce| == 24 && |key| == 32
    ensures |s| == len
  {
    Keystream(HBlock(key, nonce[..16], Salsa20.SIGMA), nonce[16..], len)
  }

  /** What e1 writes: the one-time key and the pad are cut from one keystream of 32 + |m| bytes. */
  function Box(m: seq<byte>, nonce: seq<byte>, key: seq<byte>): (b: seq<byte>)
    requires |nonce| == 24 && |key| == 32
    ensures |b| == TAG_LEN + |m|
  {
    var pad := XKeystream(32 + |m|, nonce, key);
    var ct := XorBytes(m, pad[32..]);
    Poly1305Spec.Tag(ct, pad[..32]) + ct
  }

  /** What d1 does: the one-time key comes from a separately generated 64-byte block. */
  function Open(b: seq<byte>, nonce: seq<byte>, key: seq<byte>): (r: Option<seq<byte>>)
    requires |nonce| == 24 && |key| == 32 && |b| >= TAG_LEN
  {
    var ct := b[TAG_LEN..];
    if Poly1305Spec.Tag(ct, XKeystream(64, nonce, key)[..32]) == b[..TAG_LEN]
    then Some(XorBytes(ct, XKeystream(32 + |ct|, nonce, key)[32..]))
    else None
  }

  /** A shorter keystream is a prefix of a longer one. */
  lemma KeystreamPrefix(k: seq<byte>, n: seq<byte>, a: nat, b: nat)
    requires |k| == 32 && |n| == 8 && a <= b
    ensures Keystream(k, n, b)[..a] == Keystream(k, n, a)
  {
    hide KeyByte;
  }

  /** Both routes to the one-time key agree. */
  lemma OneTimeKey(len: nat, nonce: seq<byte>, key: seq<byte>)
    requires |nonce| == 24 && |key| == 32
    ensures XKeystream(32 + len, nonce, key)[..32] == XKeystream(64, nonce, key)[..32]
  {
    hide HBlock, Keystream;
    var sub := HBlock(key, nonce[..16], Salsa20.SIGMA);
    KeystreamPrefix(sub, nonce[16..], 32, 32 + len);
    KeystreamPrefix(sub, nonce[16..], 32, 64);
  }

  lemma Xor8Twice(a: byte, b: byte)
    ensures Xor8(Xor8(a, b), b) == a
  {
  }

  lemma XorTwice(a: seq<byte>, b: seq<byte>)
    requires |a| == |b|
    ensures XorBytes(XorBytes(a, b), b) == a
  {
    hide Xor8;
    forall i | 0 <= i < |a| ensures Xor8(Xor8(a[i], b[i]), b[i]) == a[i] {
      Xor8Twice(a[i], b[i]);
    }
  }

  /** d1 is the exact inverse of e1: it succeeds with m on the box of m and on nothing else. */
  lemma OpenIffBox(b: seq<byte>, m: seq<byte>, nonce: seq<byte>, key: seq<byte>)
    requires |nonce| == 24 && |key| == 32 && |b| >= TAG_LEN
    ensures Open(b, nonce, key) == Some(m) <==> b == Box(m, nonce, key)
  {
    hide XKeystream, Poly1305Spec.Tag, XorBytes;
    OneTimeKey(|m|, nonce, key);
    var pad := XKeystream(32 + |m|, nonce, key)[32..];
    XorTwice(m, pad);
    if |b| == TAG_LEN + |m| {
      var tag, ct := b[..TAG_LEN], b[TAG_LEN..];
      assert b == tag + ct;
      XorTwice(ct, pad);
    }
  }

  // -------------------------------------------------------------- implementation

  method XSalsa20Xor(c: array<byte>, m: Option<seq<byte>>, len: nat, nonce: seq<byte>, key: seq<byte>)
    requires |nonce| == 24 && |key| == 32 && len <= c.Length
    requires m.Some? ==> |m.value| == len
    modifies c
    ensures m.None? ==> c[..len] == XKeystream(len, nonce, key)
    ensures m.Some? ==> c[..len] == XorBytes(m.value, XKeystream(len, nonce, key))
    ensures c[len..] == old(c[len..])
  {
    hide HBlock, KeyByte, Xor8;
    var subkey := new byte[32];
    Salsa20.CoreHSalsa20(subkey, nonce[..16], key);
    assert subkey[..32] == subkey[..];
    StreamXor(c, m, len, nonce[16..], subkey[..]);
    forall b: byte ensures Xor8(0, b) == b {
      XorZero(b);
    }
  }

  lemma XorZero(b: byte)
    ensures Xor8(0, b) == b
  {
  }

  method ConstantTimeEq16(x: seq<byte>, y: seq<byte>) returns (eq: bool)
    requires |x| >= 16 && |y| >= 16
    ensures eq <==> x[..16] == y[..16]
  {
    var d: bv32 := 0;
    for i := 0 to 16
      invariant d == 0 <==> x[..i] == y[..i]
    {
      OrXor(d, x[i], y[i]);
      d := d | ((x[i] ^ y[i]) as bv32);
      assert x[..i + 1] == x[..i] + [x[i]];
      assert y[..i + 1] == y[..i] + [y[i]];
    }
    eq := d == 0;
  }

  lemma OrXor(d: bv32, x: byte, y: byte)
    ensures d | ((x ^ y) as bv32) == 0 <==> d == 0 && x == y
  {
  }

  /** nuki_crypto_e1: out[0..16+|msg|) becomes the box of msg. */
  method E1(out: array<byte>, msg: seq<byte>, nonce: seq<byte>, key: seq<byte>) returns (rc: int)
    requires |nonce| == 24 && |key| == 32
    requires |msg| <= MAX_MSG ==> out.Length >= TAG_LEN + |msg|
    modifies out
    ensures rc == if |msg| > MAX_MSG then -EINVAL else 0
    ensures rc == 0 ==> out[..TAG_LEN + |msg|] == Box(msg, nonce, key)
    ensures rc == 0 ==> out[TAG_LEN + |msg|..] == old(out[TAG_LEN + |msg|..])
    ensures rc != 0 ==> out[..] == old(out[..])
  {
    hide XKeystream, Poly1305Spec.Tag, XorBytes;
    if |msg| > MAX_MSG {
      return -EINVAL;
    }
    var pad := PaddedXor(msg, nonce, key);
    Poly1305.Authenticate(out, pad[32..], pad[..32]);
    Append(out, TAG_LEN, pad[32..], TAG_LEN + |msg|);
    return 0;
  }

  /** The 32 zero bytes and the message, xored with the keystream. */
  method PaddedXor(msg: seq<byte>, nonce: seq<byte>, key: seq<byte>) returns (pad: seq<byte>)
    requires |nonce| == 24 && |key| == 32 && |msg| <= MAX_MSG
    ensures |pad| == 32 + |msg|
    ensures pad[..32] == XKeystream(32 + |msg|, nonce, key)[..32]
    ensures pad[32..] == XorBytes(msg, XKeystream(32 + |msg|, nonce, key)[32..])
  {
    hide XKeystream, Xor8;
    var len := 32 + |msg|;
    var paddedIn := new byte[32 + MAX_MSG](_ => 0);
    var paddedOut := new byte[32 + MAX_MSG](_ => 0);
    CopyInto(paddedIn, 32, msg);
    XSalsa20Xor(paddedOut, Some(paddedIn[..len]), len, nonce, key);
    pad := paddedOut[..len];
    forall b: byte ensures Xor8(0, b) == b {
      XorZero(b);
    }
  }

  /** nuki_crypto_d1: verify, then decrypt; out is written only on success. */
  method D1(out: array<byte>, box: seq<byte>, nonce: seq<byte>, key: seq<byte>) returns (rc: int)
    requires |nonce| == 24 && |key| == 32
    requires |box| >= TAG_LEN && out.Length >= |box| - TAG_LEN
    modifies out
    ensures rc == if |box| - TAG_LEN > MAX_MSG then -EINVAL
                  else if Open(box, nonce, key).None? then -EBADMSG else 0
    ensures rc == 0 ==> out[..|box| - TAG_LEN] == Open(box, nonce, key).value
    ensures rc == 0 ==> out[|box| - TAG_LEN..] == old(out[|box| - TAG_LEN..])
    ensures rc != 0 ==> out[..] == old(out[..])
  {
    hide XKeystream, Poly1305Spec.Tag, XorBytes;
    var ct := box[TAG_LEN..];
    if |ct| > MAX_MSG {
      return -EINVAL;
    }
    var block0 := new byte[64];
    var tag := new byte[16];
    XSalsa20Xor(block0, None, 64, nonce, key);
    Poly1305.Authenticate(tag, ct, block0[..32]);
    assert tag[..16] == tag[..];
    assert block0[..64][..32] == block0[..32];
    var ok := ConstantTimeEq16(tag[..], box);
    if !ok {
      return -EBADMSG;
    }
    var pad := PaddedXor(ct, nonce, key);
    Append(out, 0, pad[32..], |ct|);
    return 0;
  }

  /** The long-term key: HSalsa20 of the Diffie-Hellman result with a zero input. */
  function Kdf1(dh: seq<byte>): (k: seq<byte>)
    requires |dh| == 32
    ensures |k| == 32
  {
    HBlock(dh, seq(16, _ => 0), Salsa20.SIGMA)
  }

  /** nuki_crypto_kdf1 */
  method DeriveKey(out: array<byte>, dh: seq<byte>)
    requires |dh| == 32 && out.Length >= 32
    modifies out
    ensures out[..32] == Kdf1(dh) && out[32..] == old(out[32..])
  {
    var zero16 := new byte[16](_ => 0);
    assert zero16[..] == seq(16, _ => 0);
    Salsa20.CoreHSalsa20(out, zero16[..], dh);
  }
}
