/** The pairing handshake over the unencrypted GDIO characteristic (nuki_pairing.c). */
module Pairing {
  import opened Bytes
  import opened Codes
  import opened Buffers
  import opened Frames
  import opened Transport
  import SecretBox
  import Command

  const ZEROS_16: seq<byte> := [0, 0, 0, 0, 0, 0, 0, 0, 0, 0, 0, 0, 0, 0, 0, 0]

  type Key = s: seq<byte> | |s| == 32 witness ZEROS_16 + ZEROS_16

  const ID_TYPE_APP: byte := 0

  /** "NRF52840 Central", zero-padded to 32 bytes. */
  const APP_NAME: seq<byte> :=
    [78, 82, 70, 53, 50, 56, 52, 48, 32, 67, 101, 110, 116, 114, 97, 108] + ZEROS_16

  /** The foreign primitives: X25519 (dh1) and HMAC-SHA256 (h1); None is their -EIO. */
  datatype Provider = Provider(dh: (Key, Key) -> Option<Key>, mac: (Key, seq<byte>) -> Option<Key>)

  /** What the client draws: the result of initialising the backend, a key pair (public, private), an application id
      and the nonce of AuthorizationData. */
  datatype Draw = Draw(init: int, keyPair: Option<(Key, Key)>, appId: bv32, nonceABF: Key)

  datatype PairingData = PairingData(authId: bv32, appId: bv32, key: Key, uuid: seq<byte>)

  /** A value, or an error code, and in both cases the link afterwards. */
  datatype Outcome<+T> = Done(link: Link, value: T) | Fail(link: Link, rc: int) {
    predicate IsFailure() {
      Fail?
    }

    function PropagateFailure<U>(): Outcome<U>
      requires Fail?
    {
      Fail(link, rc)
    }

    function Extract(): (Link, T)
      requires Done?
    {
      (link, value)
    }
  }

  // ------------------------------------------------------------- plain messages

  /** send_plain */
  function SendPlain(l: Link, cmd: bv16, payload: seq<byte>): (o: Outcome<()>)
    ensures o.Fail? ==> o.rc != 0
  {
    if 4 + |payload| > FRAME_MAX then Fail(l, -EINVAL)
    else
      var (l', rc) := Write(l, PlainFrame(cmd, payload));
      if rc != 0 then Fail(l', rc) else Done(l', ())
  }

  /** The frame length recv_plain expects once it has seen the command id. */
  function FrameLen(cmd: bv16, len: nat): nat {
    if cmd == CMD_ERROR_REPORT then 7 else if cmd == CMD_STATUS then 5 else 4 + len
  }

  datatype Heard = Heard(payload: seq<byte>) | Deaf(rc: int)

  /** What recv_plain makes of one complete frame. */
  function Judge(frame: seq<byte>, wanted: bv16, len: nat): (h: Heard)
    ensures h.Heard? ==> |h.payload| == len
    ensures h.Deaf? ==> h.rc != 0
  {
    match ParsePlain(frame)
    case PlainError(code) => Deaf(code)
    case Plain(cmd, payload) =>
      if cmd == CMD_ERROR_REPORT && |payload| == 3 then Deaf(-EIO)
      else if cmd == CMD_STATUS && |payload| == 1 && wanted != CMD_STATUS then Deaf(-EBADMSG)
      else if cmd != wanted || |payload| != len then Deaf(-EBADMSG)
      else Heard(payload)
  }

  /** recv_plain */
  function RecvPlain(l: Link, wanted: bv16, len: nat): (o: Outcome<seq<byte>>)
    ensures o.Done? ==> |o.value| == len
    ensures o.Fail? ==> o.rc != 0
  {
    var (l1, ok1) := Wait(l, 2);
    if !ok1 then Fail(l1, -EAGAIN)
    else
      var n := FrameLen(Get16(l1.acc[..2]), len);
      var (l2, ok2) := Wait(l1, n);
      if !ok2 then Fail(l2, -EAGAIN)
      else
        match Judge(l2.acc[..n], wanted, len)
        case Deaf(rc) => Fail(Reset(l2), rc)
        case Heard(payload) => Done(Reset(l2), payload)
  }

  /** The same judgement on an unfragmented byte stream. */
  function Hear(flow: seq<byte>, wanted: bv16, len: nat): Heard {
    if |flow| < 2 then Deaf(-EAGAIN)
    else
      var n := FrameLen(Get16(flow[..2]), len);
      if |flow| < n then Deaf(-EAGAIN) else Judge(flow[..n], wanted, len)
  }

  function Result(o: Outcome<seq<byte>>): Heard {
    if o.Done? then Heard(o.value) else Deaf(o.rc)
  }

  lemma RecvPlainIgnoresFragmentation(l: Link, wanted: bv16, len: nat)
    requires |l.acc| <= WIRE_MAX && len <= FRAME_MAX - 4
    ensures Result(RecvPlain(l, wanted, len)) == Hear(Flow(l), wanted, len)
  {
    hide Wait, Flow, Judge, Get16;
    var flow := Flow(l);
    WaitSeesFlow(l, 2);
    var (l1, ok1) := Wait(l, 2);
    if ok1 {
      Command.PrefixSlice(l1.acc, flow, 0, 2);
      var n := FrameLen(Get16(l1.acc[..2]), len);
      WaitSeesFlow(l1, n);
      var (l2, ok2) := Wait(l1, n);
      if ok2 {
        Command.PrefixSlice(l2.acc, flow, 0, n);
      }
    }
  }

  /** How many bytes of a stream recv_plain takes. */
  function PlainEnd(flow: seq<byte>, len: nat): (n: nat)
    ensures n >= 2
  {
    if |flow| < 2 then 2 else FrameLen(Get16(flow[..2]), len)
  }

  /** What recv_plain leaves behind: after a missed deadline everything that has arrived, after any complete frame, wanted
      or not, an empty accumulator. */
  lemma RecvPlainLeaves(l: Link, wanted: bv16, len: nat)
    requires |l.acc| <= WIRE_MAX && len <= FRAME_MAX - 4
    ensures var n := PlainEnd(Flow(l), len);
            RecvPlain(l, wanted, len).link == if |Flow(l)| < n
                                              then l.(acc := Flow(l), events := AfterDeadline(l.events))
                                              else Remains(l, n)
  {
    hide Wait, Flow, Judge, Get16, Reset, Needed, AfterOverruns;
    WaitSeesFlow(l, 2);
    WaitLeaves(l, 2);
    var (l1, ok1) := Wait(l, 2);
    if ok1 {
      Command.PrefixSlice(l1.acc, Flow(l), 0, 2);
      var n := PlainEnd(Flow(l), len);
      WaitSeesFlow(l, n);
      WaitLeaves(l, n);
      WaitTwice(l, 2, n);
      if Wait(l, n).1 {
        ResetLeaves(l, n);
      }
    }
  }

  /** The expectations for which the length dispatch cannot mislead: every one the handshake uses. */
  predicate Expectable(wanted: bv16, len: nat) {
    wanted != CMD_ERROR_REPORT && (wanted == CMD_STATUS ==> len == 1)
  }

  /** A payload is heard exactly when the stream starts with the frame built from it. */
  lemma HeardIffFrame(flow: seq<byte>, wanted: bv16, len: nat, payload: seq<byte>)
    requires Expectable(wanted, len)
    ensures Hear(flow, wanted, len) == Heard(payload) <==> |payload| == len && PlainFrame(wanted, payload) <= flow
  {
    hide Get16, Put16, PlainFrame, ParsePlain;
    if |payload| == len && PlainFrame(wanted, payload) <= flow {
      var f := PlainFrame(wanted, payload);
      FrameCommand(wanted, payload);
      assert f[..2] == flow[..2] && flow[..4 + len] == f;
      PlainInverse(f, wanted, payload);
    }
    if Hear(flow, wanted, len) == Heard(payload) {
      var n := FrameLen(Get16(flow[..2]), len);
      PlainInverse(flow[..n], wanted, payload);
      assert PlainFrame(wanted, payload) == flow[..n];
    }
  }

  /** Whatever is awaited, an ErrorReport of the lock is recognised from its own seven bytes and gives -EIO, and a Status that
      is not awaited from its own five and gives -EBADMSG. */
  lemma ReportsHeard(flow: seq<byte>, wanted: bv16, len: nat, payload: seq<byte>)
    requires Expectable(wanted, len)
    ensures |payload| == 3 && PlainFrame(CMD_ERROR_REPORT, payload) <= flow ==> Hear(flow, wanted, len) == Deaf(-EIO)
    ensures |payload| == 1 && wanted != CMD_STATUS && PlainFrame(CMD_STATUS, payload) <= flow ==>
              Hear(flow, wanted, len) == Deaf(-EBADMSG)
  {
    hide Get16, Put16, PlainFrame, ParsePlain;
    if |payload| == 3 && PlainFrame(CMD_ERROR_REPORT, payload) <= flow {
      var f := PlainFrame(CMD_ERROR_REPORT, payload);
      FrameCommand(CMD_ERROR_REPORT, payload);
      assert f[..2] == flow[..2] && flow[..7] == f;
      PlainInverse(f, CMD_ERROR_REPORT, payload);
    }
    if |payload| == 1 && wanted != CMD_STATUS && PlainFrame(CMD_STATUS, payload) <= flow {
      var f := PlainFrame(CMD_STATUS, payload);
      FrameCommand(CMD_STATUS, payload);
      assert f[..2] == flow[..2] && flow[..5] == f;
      PlainInverse(f, CMD_STATUS, payload);
    }
  }

  lemma FrameCommand(cmd: bv16, payload: seq<byte>)
    ensures Get16(PlainFrame(cmd, payload)[..2]) == cmd
  {
    hide Get16, Put16;
    assert PlainFrame(cmd, payload)[..2] == Put16(cmd);
    Word16RoundTrip(cmd);
  }

  // --------------------------------------------------------------- the handshake

  /** Steps 1-4: ask for the lock's public key. */
  function Greet(l: Link): (o: Outcome<Key>) {
    var (l1, _) :- SendPlain(l, CMD_REQUEST_DATA, Put16(CMD_PUBLIC_KEY));
    RecvPlain(l1, CMD_PUBLIC_KEY, 32)
  }

  datatype Agreed = Agreed(key: Key, challenge: Key)

  /** Steps 5-9: send our public key, derive the shared key, take the first challenge. */
  function Agree(l: Link, p: Provider, pair: (Key, Key), slPub: Key): Outcome<Agreed> {
    var (l1, _) :- SendPlain(l, CMD_PUBLIC_KEY, pair.0);
    match p.dh(pair.1, slPub)
    case None => Fail(l1, -EIO)
    case Some(d) =>
      var (l2, challenge) :- RecvPlain(l1, CMD_CHALLENGE, 32);
      Done(l2, Agreed(SecretBox.Kdf1(d), challenge))
  }

  /** Steps 10-14: answer the first challenge, take the second. */
  function Answer(l: Link, p: Provider, key: Key, text: seq<byte>): Outcome<Key> {
    match p.mac(key, text)
    case None => Fail(l, -EIO)
    case Some(a) =>
      var (l1, _) :- SendPlain(l, CMD_AUTH_AUTHENTICATOR, a);
      RecvPlain(l1, CMD_CHALLENGE, 32)
  }

  /** idType | appId | name | nonceABF */
  function DataBody(draw: Draw): (s: seq<byte>)
    ensures |s| == 69
  {
    [ID_TYPE_APP] + Put32(draw.appId) + APP_NAME + draw.nonceABF
  }

  /** Steps 15-20: send AuthorizationData, take AuthorizationId and check its authenticator. */
  function Authorize(l: Link, p: Provider, key: Key, draw: Draw, challenge: Key): (o: Outcome<seq<byte>>)
    ensures o.Done? ==> |o.value| == 84
    ensures o.Done? ==> p.mac(key, o.value[32..] + draw.nonceABF) == Some(o.value[..32])
  {
    match p.mac(key, DataBody(draw) + challenge)
    case None => Fail(l, -EIO)
    case Some(a) =>
      var (l1, _) :- SendPlain(l, CMD_AUTH_DATA, a + DataBody(draw));
      var (l2, id) :- RecvPlain(l1, CMD_AUTH_ID, 84);
      match p.mac(key, id[32..] + draw.nonceABF)
      case None => Fail(l2, -EIO)
      case Some(expected) => if expected != id[..32] then Fail(l2, -EBADMSG) else Done(l2, id)
  }

  /** Steps 21-22: confirm the authorization id, wait for Status COMPLETE. */
  function Confirm(l: Link, p: Provider, key: Key, authId: seq<byte>, nonceK: seq<byte>): Outcome<()> {
    match p.mac(key, authId + nonceK)
    case None => Fail(l, -EIO)
    case Some(a) =>
      var (l1, _) :- SendPlain(l, CMD_AUTH_ID_CONFIRMATION, a + authId);
      var (l2, status) :- RecvPlain(l1, CMD_STATUS, 1);
      if status[0] != STATUS_COMPLETE then Fail(l2, -EBADMSG) else Done(l2, ())
  }

  /** nuki_pairing_run */
  function Pair(l: Link, p: Provider, draw: Draw): Outcome<PairingData> {
    if draw.init != 0 then Fail(l, draw.init)
    else
      var (l1, slPub) :- Greet(l);
      if draw.keyPair.None? then Fail(l1, -EIO)
      else
        var clPub := draw.keyPair.value.0;
        var (l2, agreed) :- Agree(l1, p, draw.keyPair.value, slPub);
        var (l3, challenge) :- Answer(l2, p, agreed.key, clPub + slPub + agreed.challenge);
        var (l4, id) :- Authorize(l3, p, agreed.key, draw, challenge);
        var (l5, _) :- Confirm(l4, p, agreed.key, id[32..36], id[52..84]);
        Done(l5, PairingData(Get32(id[32..36]), draw.appId, agreed.key, id[36..52]))
  }

  // ---------------------------------------------------------------- implementation

  method SendPlainTo(ch: Channel, cmd: bv16, payload: seq<byte>) returns (rc: int)
    requires ch.Valid()
    modifies ch`sent, ch`writes
    ensures ch.Valid()
    ensures var o := SendPlain(old(ch.View()), cmd, payload); ch.View() == o.link && rc == if o.Fail? then o.rc else 0
  {
    hide PlainFrame;
    var frame := new byte[FRAME_MAX];
    var n := BuildPlain(frame, cmd, payload);
    if n == 0 {
      return -EINVAL;
    }
    rc := ch.Send(frame[..n]);
  }

  method RecvPlainFrom(ch: Channel, wanted: bv16, len: nat) returns (h: Heard)
    requires ch.Valid() && len <= FRAME_MAX - 4
    modifies ch`rxLen, ch`events, ch.rxBuf
    ensures ch.Valid() && ch.rxBuf == old(ch.rxBuf)
    ensures ch.View() == RecvPlain(old(ch.View()), wanted, len).link
    ensures h == Result(RecvPlain(old(ch.View()), wanted, len))
  {
    hide Wait, Reset, Get16;
    var ok := ch.WaitMin(2);
    if !ok {
      return Deaf(-EAGAIN);
    }
    var hdr := ch.Peek(2);
    var cmd := Get16(hdr);
    var n: nat;
    if cmd == CMD_ERROR_REPORT {
      n := 2 + 3 + 2;
    } else if cmd == CMD_STATUS {
      n := 2 + 1 + 2;
    } else {
      n := 2 + len + 2;
    }
    ok := ch.WaitMin(n);
    if !ok {
      return Deaf(-EAGAIN);
    }
    var frame := ch.Peek(n);
    ch.Clear();
    h := Judge(frame, wanted, len);
  }

  const ZERO_KEY: Key := ZEROS_16 + ZEROS_16

  /** A method's result code and value are those of an outcome, and it left the outcome's link. */
  ghost predicate Matches<T(!new)>(o: Outcome<T>, l: Link, rc: int, value: T) {
    && o.link == l
    && (o.Done? ==> rc == 0 && value == o.value)
    && (o.Fail? ==> rc == o.rc && rc != 0)
  }

  /** Where the caller wants the pairing result. */
  class PairingCell {
    var data: PairingData

    constructor (data: PairingData)
      ensures this.data == data
    {
      this.data := data;
    }
  }

  method GreetStep(ch: Channel) returns (rc: int, slPub: Key)
    requires ch.Valid()
    modifies ch, ch.rxBuf
    ensures ch.Valid() && ch.rxBuf == old(ch.rxBuf)
    ensures Matches(Greet(old(ch.View())), ch.View(), rc, slPub)
  {
    hide SendPlain, RecvPlain, Put16;
    slPub := ZERO_KEY;
    rc := SendPlainTo(ch, CMD_REQUEST_DATA, Put16(CMD_PUBLIC_KEY));
    if rc != 0 {
      return;
    }
    var h := RecvPlainFrom(ch, CMD_PUBLIC_KEY, 32);
    if h.Deaf? {
      return h.rc, slPub;
    }
    slPub := h.payload;
  }

  method AgreeStep(ch: Channel, p: Provider, pair: (Key, Key), slPub: Key) returns (rc: int, agreed: Agreed)
    requires ch.Valid()
    modifies ch, ch.rxBuf
    ensures ch.Valid() && ch.rxBuf == old(ch.rxBuf)
    ensures Matches(Agree(old(ch.View()), p, pair, slPub), ch.View(), rc, agreed)
  {
    hide SendPlain, RecvPlain, SecretBox.Kdf1;
    agreed := Agreed(ZERO_KEY, ZERO_KEY);
    rc := SendPlainTo(ch, CMD_PUBLIC_KEY, pair.0);
    if rc != 0 {
      return;
    }
    var d := p.dh(pair.1, slPub);
    if d.None? {
      return -EIO, agreed;
    }
    var key := new byte[32];
    SecretBox.DeriveKey(key, d.value);
    assert key[..32] == key[..];
    var h := RecvPlainFrom(ch, CMD_CHALLENGE, 32);
    if h.Deaf? {
      return h.rc, agreed;
    }
    agreed := Agreed(key[..], h.payload);
  }

  /** Fills a buffer with two parts from its start. */
  method Join(buf: array<byte>, a: seq<byte>, b: seq<byte>) returns (s: seq<byte>)
    requires |a| + |b| <= buf.Length
    modifies buf
    ensures s == a + b == buf[..|a| + |b|]
  {
    Append(buf, 0, a, buf.Length);
    assert buf[..|a|] == a;
    Append(buf, |a|, b, buf.Length);
    s := buf[..|a| + |b|];
  }

  /** The size of hmac_input, which every authenticator but the last is computed from. */
  const HMAC_INPUT: nat := 128

  method AnswerStep(ch: Channel, p: Provider, key: Key, hmacInput: array<byte>, clPub: Key, slPub: Key, first: Key)
    returns (rc: int, challenge: Key)
    requires ch.Valid() && hmacInput.Length == HMAC_INPUT && hmacInput != ch.rxBuf
    modifies ch, ch.rxBuf, hmacInput
    ensures ch.Valid() && ch.rxBuf == old(ch.rxBuf)
    ensures Matches(Answer(old(ch.View()), p, key, clPub + slPub + first), ch.View(), rc, challenge)
  {
    hide SendPlain, RecvPlain;
    challenge := ZERO_KEY;
    var keys := Join(hmacInput, clPub, slPub);
    Append(hmacInput, 64, first, HMAC_INPUT);
    assert hmacInput[..96] == clPub + slPub + first;
    var a := p.mac(key, hmacInput[..96]);
    if a.None? {
      return -EIO, challenge;
    }
    rc := SendPlainTo(ch, CMD_AUTH_AUTHENTICATOR, a.value);
    if rc != 0 {
      return;
    }
    var h := RecvPlainFrom(ch, CMD_CHALLENGE, 32);
    if h.Deaf? {
      return h.rc, challenge;
    }
    challenge := h.payload;
  }

  /** Fills the 69-byte body of AuthorizationData. */
  method BuildBody(draw: Draw) returns (body: array<byte>)
    ensures fresh(body) && body.Length == 69 && body[..] == DataBody(draw)
  {
    hide Put32;
    body := new byte[1 + 4 + 32 + 32];
    Append(body, 0, [ID_TYPE_APP], 69);
    assert body[..1] == [ID_TYPE_APP];
    Append(body, 1, Put32(draw.appId), 69);
    Append(body, 5, APP_NAME, 69);
    Append(body, 37, draw.nonceABF, 69);
    assert body[..69] == body[..];
  }

  method AuthorizeStep(ch: Channel, p: Provider, key: Key, hmacInput: array<byte>, draw: Draw, challenge: Key)
    returns (rc: int, id: seq<byte>)
    requires ch.Valid() && hmacInput.Length == HMAC_INPUT && hmacInput != ch.rxBuf
    modifies ch, ch.rxBuf, hmacInput
    ensures ch.Valid() && ch.rxBuf == old(ch.rxBuf)
    ensures Matches(Authorize(old(ch.View()), p, key, draw, challenge), ch.View(), rc, id)
  {
    hide SendPlain, RecvPlain, DataBody;
    id := [];
    var body := BuildBody(draw);
    var text := Join(hmacInput, body[..], challenge);
    var a := p.mac(key, text);
    if a.None? {
      return -EIO, [];
    }
    var payload := new byte[32 + 69];
    var data := Join(payload, a.value, body[..]);
    rc := SendPlainTo(ch, CMD_AUTH_DATA, data);
    if rc != 0 {
      return;
    }
    var h := RecvPlainFrom(ch, CMD_AUTH_ID, 84);
    if h.Deaf? {
      return h.rc, [];
    }
    text := Join(hmacInput, h.payload[32..], draw.nonceABF);
    var check := p.mac(key, text);
    if check.None? {
      return -EIO, [];
    }
    if check.value != h.payload[..32] {
      return -EBADMSG, [];
    }
    id := h.payload;
  }

  method ConfirmStep(ch: Channel, p: Provider, key: Key, authId: seq<byte>, nonceK: seq<byte>) returns (rc: int)
    requires ch.Valid() && |authId| == 4 && |nonceK| == 32
    modifies ch, ch.rxBuf
    ensures ch.Valid() && ch.rxBuf == old(ch.rxBuf)
    ensures Matches(Confirm(old(ch.View()), p, key, authId, nonceK), ch.View(), rc, ())
  {
    hide SendPlain, RecvPlain;
    var hmacBody := new byte[4 + 32];
    var text := Join(hmacBody, authId, nonceK);
    var a := p.mac(key, text);
    if a.None? {
      return -EIO;
    }
    var payload := new byte[32 + 4];
    var data := Join(payload, a.value, authId);
    rc := SendPlainTo(ch, CMD_AUTH_ID_CONFIRMATION, data);
    if rc != 0 {
      return;
    }
    var h := RecvPlainFrom(ch, CMD_STATUS, 1);
    if h.Deaf? {
      return h.rc;
    }
    if h.payload[0] != STATUS_COMPLETE {
      return -EBADMSG;
    }
  }

  /** out is written on success only. */
  method PairingRun(ch: Channel, p: Provider, draw: Draw, out: PairingCell) returns (rc: int)
    requires ch.Valid()
    modifies ch, ch.rxBuf, out
    ensures ch.Valid() && ch.rxBuf == old(ch.rxBuf)
    ensures var o := Pair(old(ch.View()), p, draw);
            && ch.View() == o.link
            && (o.Fail? ==> rc == o.rc && rc != 0 && out.data == old(out.data))
            && (o.Done? ==> rc == 0 && out.data == o.value)
  {
    hide Greet, Agree, Answer, Authorize, Confirm, Get32;
    if draw.init != 0 {
      return draw.init;
    }
    var hmacInput := new byte[HMAC_INPUT];
    var slPub, agreed, challenge, id;
    rc, slPub := GreetStep(ch);
    if rc != 0 {
      return;
    }
    if draw.keyPair.None? {
      return -EIO;
    }
    var clPub := draw.keyPair.value.0;
    rc, agreed := AgreeStep(ch, p, draw.keyPair.value, slPub);
    if rc != 0 {
      return;
    }
    rc, challenge := AnswerStep(ch, p, agreed.key, hmacInput, clPub, slPub, agreed.challenge);
    if rc != 0 {
      return;
    }
    rc, id := AuthorizeStep(ch, p, agreed.key, hmacInput, draw, challenge);
    if rc != 0 {
      return;
    }
    rc := ConfirmStep(ch, p, agreed.key, id[32..36], id[52..84]);
    if rc != 0 {
      return;
    }
    out.data := PairingData(Get32(id[32..36]), draw.appId, agreed.key, id[36..52]);
  }
}
