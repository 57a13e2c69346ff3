/** Encrypted Keyturner messages over USDIO (nuki_command.c). */
module Command {
  import opened Bytes
  import opened Codes
  import opened Buffers
  import opened Frames
  import opened Transport
  import SecretBox

  const HDR_LEN: nat := 30
  const MAX_PLAINTEXT: nat := 200

  datatype Received = Message(cmd: bv16, payload: seq<byte>) | Failed(rc: int)

  /** nonce(24) | authId(4) | msgLen(2) | tag(16) | ciphertext, for one command. */
  function Wire(authId: bv32, key: seq<byte>, cmd: bv16, payload: seq<byte>, nonce: seq<byte>): (w: seq<byte>)
    requires |key| == 32 && |nonce| == 24
    ensures |w| == HDR_LEN + 16 + 8 + |payload|
  {
    var plain := AuthFrame(authId, cmd, payload);
    nonce + Put32(authId) + LeBytes(16 + |plain|, 2) + SecretBox.Box(plain, nonce, key)
  }

  /** What a receiver makes of one complete tag || ciphertext. */
  function Decrypt(box: seq<byte>, nonce: seq<byte>, key: seq<byte>, max: nat): (r: Received)
    requires |key| == 32 && |nonce| == 24 && |box| >= 16
  {
    match SecretBox.Open(box, nonce, key)
    case None => Failed(-EBADMSG)
    case Some(plain) =>
      match ParseAuth(plain)
      case AuthError(code) => Failed(code)
      case Auth(_, cmd, payload) => if |payload| > max then Failed(-ENOMEM) else Message(cmd, payload)
  }

  /** The ciphertext length announced by a header. */
  function Announced(header: seq<byte>): nat
    requires |header| >= HDR_LEN
  {
    LeNat(header[28..30])
  }

  predicate Plausible(ct: nat) {
    16 <= ct <= 16 + MAX_PLAINTEXT
  }

  /** recv_encrypted: the outcome and the link afterwards. */
  function Recv(l: Link, key: seq<byte>, max: nat): (r: (Received, Link))
    requires |key| == 32
  {
    var (l1, ok1) := Wait(l, HDR_LEN);
    if !ok1 then (Failed(-EAGAIN), l1)
    else
      var ct := Announced(l1.acc);
      if !Plausible(ct) then (Failed(-EBADMSG), Reset(l1))
      else
        var (l2, ok2) := Wait(l1, HDR_LEN + ct);
        if !ok2 then (Failed(-EAGAIN), l2)
        else (Decrypt(l2.acc[HDR_LEN..HDR_LEN + ct], l1.acc[..24], key, max), Reset(l2))
  }

  /** The same outcome read off an unfragmented byte stream. */
  function Decode(flow: seq<byte>, key: seq<byte>, max: nat): Received
    requires |key| == 32
  {
    if |flow| < HDR_LEN then Failed(-EAGAIN)
    else
      var ct := Announced(flow);
      if !Plausible(ct) then Failed(-EBADMSG)
      else if |flow| < HDR_LEN + ct then Failed(-EAGAIN)
      else Decrypt(flow[HDR_LEN..HDR_LEN + ct], flow[..24], key, max)
  }

  /** What recv_encrypted returns depends on the bytes that arrive and not on how they are cut into indications. */
  lemma RecvIgnoresFragmentation(l: Link, key: seq<byte>, max: nat)
    requires |key| == 32 && |l.acc| <= WIRE_MAX
    ensures Recv(l, key, max).0 == Decode(Flow(l), key, max)
  {
    hide Decrypt, Wait, Flow;
    var flow := Flow(l);
    WaitSeesFlow(l, HDR_LEN);
    var (l1, ok1) := Wait(l, HDR_LEN);
    if ok1 {
      PrefixSlice(l1.acc, flow, 28, 30);
      PrefixSlice(l1.acc, flow, 0, 24);
      var ct := Announced(l1.acc);
      if Plausible(ct) {
        WaitSeesFlow(l1, HDR_LEN + ct);
        var (l2, ok2) := Wait(l1, HDR_LEN + ct);
        if ok2 {
          PrefixSlice(l2.acc, flow, HDR_LEN, HDR_LEN + ct);
        }
      }
    }
  }

  /** How many bytes of a stream belong to its first message: the header alone if its length is implausible. */
  function MessageEnd(flow: seq<byte>): (n: nat)
    ensures HDR_LEN <= n <= WIRE_MAX
  {
    if |flow| >= HDR_LEN && Plausible(Announced(flow)) then HDR_LEN + Announced(flow) else HDR_LEN
  }

  /** What recv_encrypted leaves behind. A deadline missed: everything that has arrived, for the next call to go on from.
      Anything else, an accepted message or one refused for its length, its tag, its CRC or its size: an empty
      accumulator and exactly the events behind the message and what has overrun it. */
  lemma RecvLeaves(l: Link, key: seq<byte>, max: nat)
    requires |key| == 32 && |l.acc| <= WIRE_MAX
    ensures var n := MessageEnd(Flow(l));
            Recv(l, key, max) == if |Flow(l)| < n
                                 then (Failed(-EAGAIN), l.(acc := Flow(l), events := AfterDeadline(l.events)))
                                 else (Decode(Flow(l), key, max), Remains(l, n))
  {
    hide Decrypt, Wait, Flow, Reset, LeNat, Needed, AfterOverruns;
    RecvIgnoresFragmentation(l, key, max);
    WaitSeesFlow(l, HDR_LEN);
    var (l1, ok1) := Wait(l, HDR_LEN);
    WaitLeaves(l, HDR_LEN);
    if ok1 {
      PrefixSlice(l1.acc, Flow(l), 28, 30);
      var n := MessageEnd(Flow(l));
      WaitSeesFlow(l, n);
      WaitLeaves(l, n);
      WaitTwice(l, HDR_LEN, n);
      if Wait(l, n).1 {
        ResetLeaves(l, n);
      }
    }
  }

  lemma PrefixSlice(a: seq<byte>, b: seq<byte>, i: nat, j: nat)
    requires a <= b && i <= j <= |a|
    ensures a[i..j] == b[i..j]
  {
  }

  /** The largest payload a receiver takes: 200 bytes of plaintext less authId, command and CRC. */
  const MAX_RECV: nat := 192

  ghost predicate Boxes(box: seq<byte>, authId: bv32, nonce: seq<byte>, key: seq<byte>, cmd: bv16, payload: seq<byte>)
    requires |key| == 32 && |nonce| == 24
  {
    box == SecretBox.Box(AuthFrame(authId, cmd, payload), nonce, key)
  }

  /** Decryption yields a message exactly from the boxes of its authenticated frames, whatever their authorization id. */
  lemma DecryptIff(box: seq<byte>, nonce: seq<byte>, key: seq<byte>, max: nat, cmd: bv16, payload: seq<byte>)
    requires |key| == 32 && |nonce| == 24 && |box| >= 16
    ensures Decrypt(box, nonce, key, max) == Message(cmd, payload)
            <==> |payload| <= max && exists authId :: Boxes(box, authId, nonce, key, cmd, payload)
  {
    hide SecretBox.Box, SecretBox.Open, AuthFrame, ParseAuth;
    if Decrypt(box, nonce, key, max) == Message(cmd, payload) {
      var plain := SecretBox.Open(box, nonce, key).value;
      var authId := ParseAuth(plain).authId;
      SecretBox.OpenIffBox(box, plain, nonce, key);
      AuthInverse(plain, authId, cmd, payload);
      assert Boxes(box, authId, nonce, key, cmd, payload);
    }
    if authId :| |payload| <= max && Boxes(box, authId, nonce, key, cmd, payload) {
      var plain := AuthFrame(authId, cmd, payload);
      SecretBox.OpenIffBox(box, plain, nonce, key);
      AuthInverse(plain, authId, cmd, payload);
    }
  }

  /** The stream starts with a header announcing, and the ciphertext of, one message; header bytes 24-27 are free. */
  ghost predicate Carries(flow: seq<byte>, authId: bv32, key: seq<byte>, cmd: bv16, payload: seq<byte>)
    requires |key| == 32
  {
    var end := HDR_LEN + 24 + |payload|;
    && |flow| >= end && Announced(flow) == 24 + |payload|
    && Boxes(flow[HDR_LEN..end], authId, flow[..24], key, cmd, payload)
  }

  /** Exactly when a receiver returns a message: the authorization id in the header is never looked at, and the one under
      the encryption may be any. */
  lemma DecodeIff(flow: seq<byte>, key: seq<byte>, max: nat, cmd: bv16, payload: seq<byte>)
    requires |key| == 32
    ensures Decode(flow, key, max) == Message(cmd, payload)
            <==> |payload| <= max && |payload| <= MAX_RECV && exists authId :: Carries(flow, authId, key, cmd, payload)
  {
    hide SecretBox.Box, AuthFrame, Decrypt, LeNat;
    if |flow| >= HDR_LEN {
      var ct := Announced(flow);
      if Plausible(ct) && |flow| >= HDR_LEN + ct {
        var box := flow[HDR_LEN..HDR_LEN + ct];
        DecryptIff(box, flow[..24], key, max, cmd, payload);
        if authId :| Boxes(box, authId, flow[..24], key, cmd, payload) {
          assert |box| == 24 + |payload|;
          assert Carries(flow, authId, key, cmd, payload);
        }
      }
    }
  }

  lemma WireFields(authId: bv32, key: seq<byte>, cmd: bv16, payload: seq<byte>, nonce: seq<byte>)
    requires |key| == 32 && |nonce| == 24 && 24 + |payload| < 0x1_0000
    ensures var w := Wire(authId, key, cmd, payload, nonce);
            && w[..24] == nonce && Announced(w) == 24 + |payload|
            && w[HDR_LEN..] == SecretBox.Box(AuthFrame(authId, cmd, payload), nonce, key)
  {
    hide SecretBox.Box, AuthFrame, LeBytes, LeNat, Put32;
    var w := Wire(authId, key, cmd, payload, nonce);
    var plain := AuthFrame(authId, cmd, payload);
    assert w[28..30] == LeBytes(16 + |plain|, 2);
    assert Pow256(2) == 0x1_0000;
    LeNatOfLeBytes(16 + |plain|, 2);
  }

  /** Any stream that starts with a wire message of at most 192 payload bytes decodes to what the message carries. */
  lemma DecodeWire(flow: seq<byte>, authId: bv32, key: seq<byte>, cmd: bv16, payload: seq<byte>, nonce: seq<byte>,
                   max: nat)
    requires |key| == 32 && |nonce| == 24 && |payload| <= MAX_RECV && |payload| <= max
    requires Wire(authId, key, cmd, payload, nonce) <= flow
    ensures Decode(flow, key, max) == Message(cmd, payload)
  {
    hide SecretBox.Box, AuthFrame, LeNat, Wire;
    var w := Wire(authId, key, cmd, payload, nonce);
    WireFields(authId, key, cmd, payload, nonce);
    PrefixSlice(w, flow, 28, 30);
    PrefixSlice(w, flow, 0, 24);
    PrefixSlice(w, flow, HDR_LEN, |w|);
    assert w[HDR_LEN..|w|] == w[HDR_LEN..];
    assert Carries(flow, authId, key, cmd, payload);
    DecodeIff(flow, key, max, cmd, payload);
  }

  /** The authorization id in a header. */
  function HeaderId(w: seq<byte>): Option<bv32> {
    if |w| < HDR_LEN then None else Some(Get32(w[24..28]))
  }

  lemma WireId(authId: bv32, key: seq<byte>, cmd: bv16, payload: seq<byte>, nonce: seq<byte>)
    requires |key| == 32 && |nonce| == 24
    ensures HeaderId(Wire(authId, key, cmd, payload, nonce)) == Some(authId)
  {
    hide SecretBox.Box, AuthFrame, LeBytes, Put32, Get32;
    assert Wire(authId, key, cmd, payload, nonce)[24..28] == Put32(authId);
    Word32RoundTrip(authId);
  }

  /** w carries one message under this nonce, with the authorization id in the header and under the encryption, and a
      receiver decodes it. */
  ghost predicate Conveys(w: seq<byte>, authId: bv32, key: seq<byte>, nonce: seq<byte>, cmd: bv16, payload: seq<byte>)
    requires |key| == 32
  {
    && |w| == HDR_LEN + 24 + |payload| && w[..24] == nonce && HeaderId(w) == Some(authId)
    && Carries(w, authId, key, cmd, payload)
    && Decode(w, key, MAX_PLAINTEXT) == Message(cmd, payload)
  }

  lemma WireConveys(authId: bv32, key: seq<byte>, cmd: bv16, payload: seq<byte>, nonce: seq<byte>)
    requires |key| == 32 && |nonce| == 24 && |payload| <= MAX_RECV
    ensures Conveys(Wire(authId, key, cmd, payload, nonce), authId, key, nonce, cmd, payload)
  {
    hide Decode, SecretBox.Box, AuthFrame, LeNat, Wire, HeaderId;
    var w := Wire(authId, key, cmd, payload, nonce);
    WireId(authId, key, cmd, payload, nonce);
    WireFields(authId, key, cmd, payload, nonce);
    assert w[HDR_LEN..HDR_LEN + 24 + |payload|] == w[HDR_LEN..];
    DecodeWire(w, authId, key, cmd, payload, nonce, MAX_PLAINTEXT);
  }

  /** End to end: under any fragmentation, and whatever follows, the receiver gets exactly what was sent. */
  lemma EndToEnd(l: Link, authId: bv32, key: seq<byte>, cmd: bv16, payload: seq<byte>, nonce: seq<byte>, max: nat)
    requires |key| == 32 && |nonce| == 24 && |payload| <= MAX_RECV && |payload| <= max
    requires l.acc == [] && Wire(authId, key, cmd, payload, nonce) <= Arriving(l.events)
    ensures Recv(l, key, max).0 == Message(cmd, payload)
  {
    hide Wire, Recv, Decode;
    assert l.acc + Arriving(l.events) == Arriving(l.events);
    RecvIgnoresFragmentation(l, key, max);
    DecodeWire(Flow(l), authId, key, cmd, payload, nonce, max);
  }

  /** A larger message is refused as soon as its header is there. */
  lemma OversizeRefused(l: Link, authId: bv32, key: seq<byte>, cmd: bv16, payload: seq<byte>, nonce: seq<byte>, max: nat)
    requires |key| == 32 && |nonce| == 24 && MAX_RECV < |payload| && 24 + |payload| < 0x1_0000
    requires l.acc == [] && Wire(authId, key, cmd, payload, nonce)[..HDR_LEN] <= Arriving(l.events)
    ensures Recv(l, key, max).0 == Failed(-EBADMSG)
  {
    hide Wire, Recv, LeNat, Decrypt, SecretBox.Box, AuthFrame;
    var w := Wire(authId, key, cmd, payload, nonce);
    assert l.acc + Arriving(l.events) == Arriving(l.events);
    RecvIgnoresFragmentation(l, key, max);
    WireFields(authId, key, cmd, payload, nonce);
    PrefixSlice(w[..HDR_LEN], Flow(l), 28, 30);
    assert w[..HDR_LEN][28..30] == w[28..30];
  }

  // ---------------------------------------------------------------- implementation

  /** send_encrypted: the link afterwards and the result. */
  function Send(l: Link, authId: bv32, key: seq<byte>, cmd: bv16, payload: seq<byte>, nonce: seq<byte>): (Link, int)
    requires |key| == 32 && |nonce| == 24
  {
    if 8 + |payload| > FRAME_MAX then (l, -EINVAL)
    else Write(l, Wire(authId, key, cmd, payload, nonce))
  }

  /** What send_encrypted writes, recv_encrypted returns: for every payload of up to 152 bytes and every fragmentation. A
      larger payload is not sent. */
  lemma SentIsReceived(l: Link, r: Link, authId: bv32, key: seq<byte>, cmd: bv16, payload: seq<byte>, nonce: seq<byte>)
    requires |key| == 32 && |nonce| == 24 && l.writes == []
    ensures var (l', rc) := Send(l, authId, key, cmd, payload, nonce);
            if |payload| > 152 then l' == l && rc == -EINVAL
            else
              && rc == 0 && |l'.sent| == |l.sent| + 1 && l' == l.(sent := l.sent + [l'.sent[|l.sent|]])
              && (r.acc == [] && l'.sent[|l.sent|] <= Arriving(r.events) ==>
                    Recv(r, key, MAX_PLAINTEXT).0 == Message(cmd, payload))
  {
    hide Wire, Recv;
    var w := Wire(authId, key, cmd, payload, nonce);
    if |payload| <= 152 && r.acc == [] && w <= Arriving(r.events) {
      EndToEnd(r, authId, key, cmd, payload, nonce, MAX_PLAINTEXT);
    }
  }

  method SendEncrypted(ch: Channel, authId: bv32, key: seq<byte>, cmd: bv16, payload: seq<byte>, nonce: seq<byte>)
    returns (rc: int)
    requires ch.Valid() && |key| == 32 && |nonce| == 24
    modifies ch`sent, ch`writes
    ensures ch.Valid()
    ensures (ch.View(), rc) == Send(old(ch.View()), authId, key, cmd, payload, nonce)
  {
    var w, err := BuildWire(authId, key, cmd, payload, nonce);
    if err != 0 {
      return err;
    }
    rc := ch.Send(w);
  }

  /** Fills the plain and wire buffers; every write is within their 160 and 206 bytes. */
  method BuildWire(authId: bv32, key: seq<byte>, cmd: bv16, payload: seq<byte>, nonce: seq<byte>)
    returns (w: seq<byte>, rc: int)
    requires |key| == 32 && |nonce| == 24
    ensures rc == if 8 + |payload| > FRAME_MAX then -EINVAL else 0
    ensures rc == 0 ==> w == Wire(authId, key, cmd, payload, nonce)
  {
    hide SecretBox.Box, AuthFrame, LeBytes, Put32;
    w := [];
    var plain := new byte[FRAME_MAX];
    var n := BuildAuth(plain, authId, cmd, payload);
    if n == 0 {
      return [], -EINVAL;
    }
    var box := new byte[16 + FRAME_MAX];
    rc := SecretBox.E1(box, plain[..n], nonce, key);
    w := FillWire(nonce, Put32(authId), LeBytes(16 + n, 2), box[..16 + n]);
  }

  method FillWire(nonce: seq<byte>, id: seq<byte>, len: seq<byte>, box: seq<byte>) returns (w: seq<byte>)
    requires |nonce| == 24 && |id| == 4 && |len| == 2 && |box| <= 16 + FRAME_MAX
    ensures w == nonce + id + len + box
  {
    var wire := new byte[HDR_LEN + 16 + FRAME_MAX];
    CopyInto(wire, HDR_LEN, box);
    ghost var tail := wire[HDR_LEN..];
    assert tail[..|box|] == wire[HDR_LEN..HDR_LEN + |box|];
    Append(wire, 0, nonce, HDR_LEN);
    Append(wire, 24, id, HDR_LEN);
    Append(wire, 28, len, HDR_LEN);
    assert wire[..HDR_LEN + |box|] == wire[..HDR_LEN] + wire[HDR_LEN..][..|box|];
    w := wire[..HDR_LEN + |box|];
  }

  method RecvEncrypted(ch: Channel, key: seq<byte>, max: nat) returns (r: Received)
    requires ch.Valid() && |key| == 32
    modifies ch`rxLen, ch`events, ch.rxBuf
    ensures ch.Valid() && ch.rxBuf == old(ch.rxBuf)
    ensures (r, ch.View()) == Recv(old(ch.View()), key, max)
  {
    hide Wait, Reset, Decrypt, LeNat;
    var ok := ch.WaitMin(HDR_LEN);
    if !ok {
      return Failed(-EAGAIN);
    }
    ghost var l1 := ch.View();
    var header := ch.Peek(HDR_LEN);
    var nonce := header[..24];
    assert header[28..30] == l1.acc[28..30] && nonce == l1.acc[..24];
    var ct := LeNat(header[28..30]);
    if ct < 16 || ct > 16 + MAX_PLAINTEXT {
      ch.Clear();
      return Failed(-EBADMSG);
    }
    ok := ch.WaitMin(HDR_LEN + ct);
    if !ok {
      return Failed(-EAGAIN);
    }
    ghost var l2 := ch.View();
    var wire := ch.Peek(HDR_LEN + ct);
    assert wire[HDR_LEN..] == l2.acc[HDR_LEN..HDR_LEN + ct];
    ch.Clear();
    r := DecryptBuffer(wire[HDR_LEN..], nonce, key, max);
  }

  /** Decryption into the 216-byte plaintext buffer, then the frame parse. */
  method DecryptBuffer(box: seq<byte>, nonce: seq<byte>, key: seq<byte>, max: nat) returns (r: Received)
    requires |key| == 32 && |nonce| == 24 && Plausible(|box|)
    ensures r == Decrypt(box, nonce, key, max)
  {
    hide SecretBox.Open, ParseAuth;
    var plain := new byte[16 + MAX_PLAINTEXT];
    var err := SecretBox.D1(plain, box, nonce, key);
    if err != 0 {
      return Failed(err);
    }
    match ParseAuth(plain[..|box| - 16]) {
      case AuthError(code) =>
        r := Failed(code);
      case Auth(_, cmd, payload) =>
        r := if |payload| > max then Failed(-ENOMEM) else Message(cmd, payload);
    }
  }
}
