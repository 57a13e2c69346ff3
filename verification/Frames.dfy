/** The CRC-terminated wire frames of nuki_protocol.c. */
module Frames {
  import opened Bytes
  import opened Codes
  import opened Crc16
  import opened CrcTheory
  import opened CrcParity
  import opened Buffers

  const FRAME_MAX: nat := 160

  /** A body followed by its CRC, low byte first. */
  function Sealed(body: seq<byte>): (f: seq<byte>)
    ensures |f| == |body| + 2
  {
    body + Put16(Crc(body))
  }

  /** Whether the last two bytes are the CRC of what precedes them. */
  predicate Intact(f: seq<byte>)
    requires |f| >= 2
  {
    Crc(f[..|f| - 2]) == Get16(f[|f| - 2..])
  }

  /** command_id | payload | crc */
  function PlainFrame(cmd: bv16, payload: seq<byte>): (f: seq<byte>)
    ensures |f| == 4 + |payload|
  {
    Sealed(Put16(cmd) + payload)
  }

  /** authId | command_id | payload | crc */
  function AuthFrame(authId: bv32, cmd: bv16, payload: seq<byte>): (f: seq<byte>)
    ensures |f| == 8 + |payload|
  {
    Sealed(Put32(authId) + Put16(cmd) + payload)
  }

  datatype Plain = Plain(cmd: bv16, payload: seq<byte>) | PlainError(code: int)
  datatype Auth = Auth(authId: bv32, cmd: bv16, payload: seq<byte>) | AuthError(code: int)

  /** nuki_frame_parse_plain */
  function ParsePlain(f: seq<byte>): Plain {
    if |f| < 4 then PlainError(-EINVAL)
    else if !Intact(f) then PlainError(-EBADMSG)
    else Plain(Get16(f[..2]), f[2..|f| - 2])
  }

  /** nuki_frame_parse_auth */
  function ParseAuth(f: seq<byte>): Auth {
    if |f| < 8 then AuthError(-EINVAL)
    else if !Intact(f) then AuthError(-EBADMSG)
    else Auth(Get32(f[..4]), Get16(f[4..6]), f[6..|f| - 2])
  }

  // ------------------------------------------------------------------- builders

  /** Writes the CRC of out[..n) behind it. */
  method Seal(out: array<byte>, n: nat)
    requires n + 2 <= out.Length
    modifies out
    ensures out[..n + 2] == Sealed(old(out[..n]))
    ensures out[n + 2..] == old(out[n + 2..])
  {
    hide Put16, Crc;
    var crc := Compute(out[..n]);
    Append(out, n, Put16(crc), n + 2);
  }

  /** nuki_frame_build_plain */
  method BuildPlain(out: array<byte>, cmd: bv16, payload: seq<byte>) returns (n: nat)
    modifies out
    ensures n == if 4 + |payload| > out.Length then 0 else 4 + |payload|
    ensures n == 0 ==> out[..] == old(out[..])
    ensures n > 0 ==> out[..n] == PlainFrame(cmd, payload) && out[n..] == old(out[n..])
  {
    hide Put16, Sealed;
    if 4 + |payload| > out.Length {
      return 0;
    }
    n := 4 + |payload|;
    Append(out, 0, Put16(cmd), n);
    assert out[..2] == Put16(cmd);
    Append(out, 2, payload, n);
    Seal(out, 2 + |payload|);
  }

  /** nuki_frame_build_auth */
  method BuildAuth(out: array<byte>, authId: bv32, cmd: bv16, payload: seq<byte>) returns (n: nat)
    modifies out
    ensures n == if 8 + |payload| > out.Length then 0 else 8 + |payload|
    ensures n == 0 ==> out[..] == old(out[..])
    ensures n > 0 ==> out[..n] == AuthFrame(authId, cmd, payload) && out[n..] == old(out[n..])
  {
    hide Put16, Put32, Sealed;
    if 8 + |payload| > out.Length {
      return 0;
    }
    n := 8 + |payload|;
    Append(out, 0, Put32(authId), n);
    assert out[..4] == Put32(authId);
    Append(out, 4, Put16(cmd), n);
    Append(out, 6, payload, n);
    Seal(out, 6 + |payload|);
  }

  // -------------------------------------------------------------------- inverses

  /** Intact frames are exactly the sealed ones. */
  lemma IntactIffSealed(f: seq<byte>)
    requires |f| >= 2
    ensures Intact(f) <==> f == Sealed(f[..|f| - 2])
  {
    hide Put16, Get16, Crc;
    var body, tail := f[..|f| - 2], f[|f| - 2..];
    assert f == body + tail;
    Word16RoundTrip(Crc(body));
    Bytes16RoundTrip(tail);
    if f == Sealed(body) {
      assert tail == Put16(Crc(body));
    }
  }

  /** Parsing accepts a frame with a command and payload exactly when building them gives that frame. */
  lemma PlainInverse(f: seq<byte>, cmd: bv16, payload: seq<byte>)
    ensures ParsePlain(f) == Plain(cmd, payload) <==> f == PlainFrame(cmd, payload)
  {
    hide Put16, Get16, Crc, Intact;
    if |f| >= 4 {
      var body := f[..|f| - 2];
      IntactIffSealed(f);
      Word16RoundTrip(cmd);
      Bytes16RoundTrip(f[..2]);
      assert body == f[..2] + f[2..|f| - 2];
      assert body[..2] == f[..2] && body[2..] == f[2..|f| - 2];
      if f == PlainFrame(cmd, payload) {
        assert body == Put16(cmd) + payload;
        assert f[..2] == Put16(cmd);
      }
    }
  }

  lemma AuthInverse(f: seq<byte>, authId: bv32, cmd: bv16, payload: seq<byte>)
    ensures ParseAuth(f) == Auth(authId, cmd, payload) <==> f == AuthFrame(authId, cmd, payload)
  {
    hide Put16, Get16, Put32, Get32, Crc, Intact;
    if |f| >= 8 {
      var body := f[..|f| - 2];
      IntactIffSealed(f);
      Word16RoundTrip(cmd);
      Word32RoundTrip(authId);
      Bytes32RoundTrip(f[..4]);
      Bytes16RoundTrip(f[4..6]);
      assert body == f[..4] + f[4..6] + f[6..|f| - 2];
      if f == AuthFrame(authId, cmd, payload) {
        assert body == Put32(authId) + Put16(cmd) + payload;
        assert f[..4] == Put32(authId);
        assert f[4..6] == Put16(cmd);
      }
    }
  }

  // -------------------------------------------------------------- error detection

  /** The number of bits in which two frames of one length differ. */
  function Distance(f: seq<byte>, g: seq<byte>): nat
    requires |f| == |g|
  {
    Ones(XorBits(Bits(f), Bits(g)))
  }

  /** Flipping any odd number of bits of an intact frame, CRC included, leaves it not intact. */
  lemma OddFlipsBreak(f: seq<byte>, g: seq<byte>)
    requires |f| == |g| >= 2 && Intact(f)
    requires Distance(f, g) % 2 == 1
    ensures !Intact(g)
  {
    hide Bits, Crc, Ones;
    if Intact(g) {
      IntactIffSealed(f);
      IntactIffSealed(g);
      FrameParityEven(f[..|f| - 2]);
      FrameParityEven(g[..|g| - 2]);
      ParityXor(Bits(f), Bits(g));
    }
  }

  /** g differs from f within sixteen consecutive bits of the body from p on, or within the CRC field. */
  ghost predicate Confined(f: seq<byte>, g: seq<byte>, p: nat)
    requires |f| == |g| >= 2
  {
    || (f[|f| - 2..] == g[|g| - 2..] && Burst(Bits(f[..|f| - 2]), Bits(g[..|g| - 2]), p))
    || f[..|f| - 2] == g[..|g| - 2]
  }

  /** So does corrupting a body within sixteen consecutive bits, or the CRC field in any way. */
  lemma BurstBreaks(f: seq<byte>, g: seq<byte>, p: nat)
    requires |f| == |g| >= 2 && Intact(f) && f != g
    requires Confined(f, g, p)
    ensures !Intact(g)
  {
    hide Bits, Crc, Get16, Burst;
    var a, b := f[..|f| - 2], g[..|g| - 2];
    assert f == a + f[|f| - 2..] && g == b + g[|g| - 2..];
    if a == b {
      Bytes16RoundTrip(f[|f| - 2..]);
      Bytes16RoundTrip(g[|g| - 2..]);
    } else {
      BurstDetected(a, b, p);
    }
  }

  /** Both parsers answer -EBADMSG to such corruptions of a frame they accept. */
  lemma CorruptionRejected(f: seq<byte>, g: seq<byte>, p: nat)
    requires |f| == |g| >= 4 && f != g
    requires ParsePlain(f).Plain? || ParseAuth(f).Auth?
    requires Distance(f, g) % 2 == 1 || Confined(f, g, p)
    ensures ParsePlain(g) == PlainError(-EBADMSG)
    ensures |g| >= 8 ==> ParseAuth(g) == AuthError(-EBADMSG)
  {
    hide Distance, Confined, Bits, Intact;
    if Distance(f, g) % 2 == 1 {
      OddFlipsBreak(f, g);
    } else {
      BurstBreaks(f, g, p);
    }
  }

  // ------------------------------------------------------------ Keyturner states

  datatype KeyturnerState = KeyturnerState(
    nukiState: byte, lockState: byte, trigger: byte, year: bv16, month: byte, day: byte, hour: byte, minute: byte,
    second: byte, timezoneOffset: bv16, criticalBattery: bool, batteryPercent: byte, doorSensor: byte)

  /** nuki_keyturner_state_parse: None is -EINVAL, and then nothing is written. */
  function ParseState(p: seq<byte>): Option<KeyturnerState> {
    if |p| < 13 then None
    else Some(KeyturnerState(
                p[0], p[1], p[2], Get16(p[3..5]), p[5], p[6], p[7], p[8], p[9], Get16(p[10..12]),
                p[12] & 1 == 1, (p[12] >> 2) * 2, if |p| >= 19 then p[18] else 0xFF))
  }

  /** The battery byte: critical flag in bit 0, charge in steps of two percent from bit 2 up. */
  function BatteryByte(critical: bool, percent: byte, charging: bool): byte {
    ((percent >> 1) << 2) | (if charging then 2 else 0) | (if critical then 1 else 0)
  }

  lemma BatteryBits(critical: bool, percent: byte, charging: bool)
    requires percent & 1 == 0 && percent <= 126
    ensures var b := BatteryByte(critical, percent, charging); (b & 1 == 1 <==> critical) && (b >> 2) * 2 == percent
  {
    Charge(percent, (if charging then 2 else 0) | (if critical then 1 else 0));
  }

  lemma Charge(percent: byte, flags: byte)
    requires percent & 1 == 0 && percent <= 126 && flags < 4
    ensures ((((percent >> 1) << 2) | flags) >> 2) * 2 == percent
    ensures (((percent >> 1) << 2) | flags) & 1 == flags & 1
  {
  }

  /** The 13-byte prefix of a KeyturnerStates payload as a lock writes it. */
  function StatePrefix(k: KeyturnerState, charging: bool): (p: seq<byte>)
    ensures |p| == 13
  {
    [k.nukiState, k.lockState, k.trigger] + Put16(k.year) + [k.month, k.day, k.hour, k.minute, k.second]
    + Put16(k.timezoneOffset) + [BatteryByte(k.criticalBattery, k.batteryPercent, charging)]
  }

  lemma PrefixRoundTrip(k: KeyturnerState, charging: bool)
    requires k.batteryPercent & 1 == 0 && k.batteryPercent <= 126
    ensures ParseState(StatePrefix(k, charging)) == Some(k.(doorSensor := 0xFF))
  {
    hide Put16, Get16, BatteryByte;
    var p := StatePrefix(k, charging);
    assert p[3..5] == Put16(k.year) && p[10..12] == Put16(k.timezoneOffset);
    Word16RoundTrip(k.year);
    Word16RoundTrip(k.timezoneOffset);
    BatteryBits(k.criticalBattery, k.batteryPercent, charging);
  }

  /** Parsing gives back the state a lock has written; the door sensor is byte 18, or 0xFF in a shorter payload. */
  lemma StateRoundTrip(k: KeyturnerState, charging: bool, rest: seq<byte>)
    requires k.batteryPercent & 1 == 0 && k.batteryPercent <= 126
    requires k.doorSensor == if |rest| >= 6 then rest[5] else 0xFF
    ensures ParseState(StatePrefix(k, charging) + rest) == Some(k)
  {
    hide StatePrefix, Get16;
    PrefixRoundTrip(k, charging);
    var a := StatePrefix(k, charging);
    var p := a + rest;
    assert p[3..5] == a[3..5] && p[10..12] == a[10..12];
  }

  lemma BatterySplit(b: byte)
    ensures var percent := (b >> 2) * 2; percent & 1 == 0 && percent <= 126
    ensures BatteryByte(b & 1 == 1, (b >> 2) * 2, b & 2 == 2) == b
  {
    BatteryBytes(b);
  }

  lemma BatteryBytes(b: byte)
    ensures ((b >> 2) * 2) & 1 == 0 && (b >> 2) * 2 <= 126
    ensures ((((b >> 2) * 2) >> 1) << 2) | (b & 2) | (b & 1) == b
    ensures (b & 2 == 0 || b & 2 == 2) && (b & 1 == 0 || b & 1 == 1)
  {
  }

  ghost predicate Encodes(p: seq<byte>, k: KeyturnerState, charging: bool) {
    |p| >= 13 && p[..13] == StatePrefix(k, charging)
  }

  /** A payload parses as a state exactly when it has at least 13 bytes and these are what a lock writes for that state: a
      shorter one is refused, and nothing else is. */
  lemma StateIff(p: seq<byte>, k: KeyturnerState)
    ensures ParseState(p).Some? <==> |p| >= 13
    ensures ParseState(p) == Some(k) <==>
            && (exists charging :: Encodes(p, k, charging))
            && k.batteryPercent & 1 == 0 && k.batteryPercent <= 126
            && k.doorSensor == if |p| >= 19 then p[18] else 0xFF
  {
    hide Put16, Get16, BatteryByte, StatePrefix;
    if |p| >= 13 {
      var got := ParseState(p).value;
      BatterySplit(p[12]);
      Reassembles(p);
      assert Encodes(p, got, p[12] & 2 == 2);
      if charging :| Encodes(p, k, charging) && k.batteryPercent & 1 == 0 && k.batteryPercent <= 126
                     && k.doorSensor == if |p| >= 19 then p[18] else 0xFF {
        var rest := p[13..];
        assert p == StatePrefix(k, charging) + rest;
        StateRoundTrip(k, charging, rest);
      }
    }
  }

  lemma Reassembles(p: seq<byte>)
    requires |p| >= 13
    ensures p[..13] == StatePrefix(ParseState(p).value, p[12] & 2 == 2)
  {
    hide Put16, Get16, BatteryByte;
    BatterySplit(p[12]);
    Bytes16RoundTrip(p[3..5]);
    Bytes16RoundTrip(p[10..12]);
  }
}
