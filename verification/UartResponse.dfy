/** The responses of nuki_uart_proto.c: one frame per dispatched request. */
module UartResponse {
  import opened Bytes
  import opened Codes
  import opened Buffers
  import opened Frames
  import opened UartDecoder

  const SOF_RESP: byte := 0x5A
  const CMD_STATUS: byte := 1
  const CMD_PAIR: byte := 2
  const CMD_STATE: byte := 3
  const CMD_LOCK: byte := 4
  const CMD_UNLOCK: byte := 5
  const CMD_UNLATCH: byte := 6
  const CMD_CALIBRATE: byte := 7
  const ACTION_UNLOCK: byte := 1
  const ACTION_LOCK: byte := 2
  const ACTION_UNLATCH: byte := 3

  type int32 = x: int | -0x8000_0000 <= x < 0x8000_0000

  /** What the application answers while a request is handled. */
  datatype App = App(paired: bool, connected: bool, ready: bool, pair: int32, action: byte -> int32,
                     calibrate: bv16 -> int32, cached: Option<(KeyturnerState, int32)>)

  /** A signed 32-bit integer in little-endian two's complement. */
  function Put32s(x: int32): (s: seq<byte>)
    ensures |s| == 4
  {
    LeBytes(if x < 0 then x + 0x1_0000_0000 else x, 4)
  }

  function Flag(b: bool): byte {
    if b then 1 else 0
  }

  /** The 17 bytes behind rc in nuki_uart_resp_state. */
  function StateFields(k: KeyturnerState, age: int32): (s: seq<byte>)
    ensures |s| == 17
  {
    [k.lockState, k.batteryPercent, Flag(k.criticalBattery), k.doorSensor] + Put16(k.year)
    + [k.month, k.day, k.hour, k.minute, k.second] + Put16(k.timezoneOffset) + Put32s(age)
  }

  function ZeroBytes(n: nat): (s: seq<byte>)
    ensures |s| == n
  {
    seq(n, _ => 0)
  }

  /** The payload behind rc, given rc: zeros unless the request succeeded. */
  function StateTail(rc: int32, app: App): (s: seq<byte>)
    ensures |s| == 17
  {
    if rc == 0 && app.cached.Some? then StateFields(app.cached.value.0, app.cached.value.1) else ZeroBytes(17)
  }

  /** The lock action each action command stands for: LOCK 2, UNLOCK 1, UNLATCH 3. */
  function ActionOf(cmd: byte): Option<byte> {
    match cmd
    case 4 => Some(2)
    case 5 => Some(1)
    case 6 => Some(3)
    case _ => None
  }

  /** The result code and the payload behind it that the protocol document gives for each command. */
  function Handle(f: RxFrame, app: App): (r: (int32, seq<byte>))
    requires ValidFrame(f)
    ensures |r.1| <= MAX_PAYLOAD - 4
  {
    var action := ActionOf(f.cmd);
    if action.Some? then (app.action(action.value), StateTail(app.action(action.value), app))
    else if f.cmd == 3 then
      var rc: int32 := if app.cached.Some? then 0 else -ENODATA;
      (rc, StateTail(rc, app))
    else if f.cmd == 1 then (0, [Flag(app.paired), Flag(app.connected), Flag(app.ready)])
    else if f.cmd == 2 then (app.pair, [])
    else if f.cmd == 7 && f.len == 2 then (app.calibrate(Get16(f.payload[..2])), [])
    else (-EINVAL, [])
  }

  /** An operation on the lock that the application is asked to perform. */
  datatype Call = PairCall | ActionCall(action: byte) | CalibrateCall(pin: bv16)

  /** The operations a request stands for. */
  function CallsOf(f: RxFrame): seq<Call>
    requires ValidFrame(f)
  {
    if ActionOf(f.cmd).Some? then [ActionCall(ActionOf(f.cmd).value)]
    else if f.cmd == 2 then [PairCall]
    else if f.cmd == 7 && f.len == 2 then [CalibrateCall(Get16(f.payload[..2]))]
    else []
  }

  /** SOF, command, length, result code, and what follows it. */
  function Packet(cmd: byte, rc: int32, tail: seq<byte>): (s: seq<byte>)
    requires |tail| <= MAX_PAYLOAD - 4
    ensures |s| == 7 + |tail|
  {
    [SOF_RESP, cmd, Byte8(4 + |tail|)] + Put32s(rc) + tail
  }

  /** The response to a frame echoes its command. */
  function Response(f: RxFrame, app: App): (s: seq<byte>)
    requires ValidFrame(f)
  {
    var (rc, tail) := Handle(f, app);
    Packet(f.cmd, rc, tail)
  }

  /** Bytes left over from earlier frames influence neither the response nor the operations performed. */
  lemma StaleBytesIgnored(f: RxFrame, g: RxFrame, app: App)
    requires ValidFrame(f) && ValidFrame(g) && RequestOf(f) == RequestOf(g)
    ensures Response(f, app) == Response(g, app) && CallsOf(f) == CallsOf(g)
  {
    hide Byte8, Put32s, StateTail;
    assert f.len == |f.payload[..f.len]| == |g.payload[..g.len]| == g.len;
    if f.len == 2 {
      assert f.payload[..2] == g.payload[..2];
    }
  }

  /** What a client reads back from a response. */
  datatype Reading = Reading(cmd: byte, rc: int, tail: seq<byte>)

  function Read(s: seq<byte>): Option<Reading> {
    if |s| < 7 || s[0] != SOF_RESP || |s| != 3 + Nat8(s[2]) then None
    else
      var n := LeNat(s[3..7]);
      Some(Reading(s[1], if n >= 0x8000_0000 then n - 0x1_0000_0000 else n, s[7..]))
  }

  lemma Signed32(x: int32)
    ensures var n := LeNat(Put32s(x)); x == if n >= 0x8000_0000 then n - 0x1_0000_0000 else n
  {
    var n := if x < 0 then x + 0x1_0000_0000 else x;
    assert Pow256(4) == 0x1_0000_0000;
    LeNatOfLeBytes(n, 4);
  }

  /** Every response is well-formed, echoes its command, carries the handler's code, and is all zeros behind a non-zero
      code; a client that knows the format reads exactly that. */
  lemma ResponseReads(f: RxFrame, app: App)
    requires ValidFrame(f)
    ensures Read(Response(f, app)) == Some(Reading(f.cmd, Handle(f, app).0, Handle(f, app).1))
    ensures Handle(f, app).0 != 0 ==> forall i :: 0 <= i < |Handle(f, app).1| ==> Handle(f, app).1[i] == 0
    ensures |Response(f, app)| <= 3 + MAX_PAYLOAD
  {
    hide Byte8, Nat8, Put32s, StateFields, LeNat;
    var (rc, tail) := Handle(f, app);
    var s := Response(f, app);
    assert s[3..7] == Put32s(rc) && s[7..] == tail;
    Signed32(rc);
  }

  /** The documented offsets of a state response. */
  lemma StateLayout(k: KeyturnerState, age: int32)
    ensures var t := StateFields(k, age);
            && t[0] == k.lockState && t[1] == k.batteryPercent && t[3] == k.doorSensor
            && t[2] == (if k.criticalBattery then 1 else 0)
            && Get16(t[4..6]) == k.year && Get16(t[11..13]) == k.timezoneOffset
            && t[6..11] == [k.month, k.day, k.hour, k.minute, k.second]
            && t[13..] == Put32s(age)
  {
    hide Put16, Get16, Put32s;
    var t := StateFields(k, age);
    assert t[4..6] == Put16(k.year) && t[11..13] == Put16(k.timezoneOffset);
    Word16RoundTrip(k.year);
    Word16RoundTrip(k.timezoneOffset);
  }

  // ------------------------------------------------------------- the command table

  /** The 17 bytes behind a result code show the cached state field by field if the code is 0, and are zero otherwise. */
  ghost predicate ShowsState(rc: int, t: seq<byte>, cached: Option<(KeyturnerState, int32)>) {
    && |t| == 17
    && if rc == 0 && cached.Some? then
         var k := cached.value.0;
         && t[0] == k.lockState && t[1] == k.batteryPercent && t[3] == k.doorSensor
         && t[2] == (if k.criticalBattery then 1 else 0)
         && Get16(t[4..6]) == k.year && Get16(t[11..13]) == k.timezoneOffset
         && t[6..11] == [k.month, k.day, k.hour, k.minute, k.second]
         && t[13..] == Put32s(cached.value.1)
       else forall i :: 0 <= i < 17 ==> t[i] == 0
  }

  lemma TailShowsState(rc: int32, app: App)
    ensures ShowsState(rc, StateTail(rc, app), app.cached)
  {
    hide Put16, Get16, Put32s, StateFields;
    if rc == 0 && app.cached.Some? {
      StateLayout(app.cached.value.0, app.cached.value.1);
    }
  }

  /** What a client reads from the response to a command, and what is performed. */
  ghost predicate Answers(f: RxFrame, app: App, rc: int, calls: seq<Call>)
    requires ValidFrame(f)
  {
    var r := Read(Response(f, app));
    r.Some? && r.value.cmd == f.cmd && r.value.rc == rc && CallsOf(f) == calls
  }

  /** The bytes behind the result code. */
  function Tail(f: RxFrame, app: App): seq<byte>
    requires ValidFrame(f)
  {
    var r := Read(Response(f, app));
    if r.Some? then r.value.tail else []
  }

  /** The command table as a client sees it. STATUS shows paired, connected and ready; STATE and the actions the cached
      state; LOCK performs action 2, UNLOCK 1 and UNLATCH 3; CALIBRATE takes its PIN from exactly two payload bytes; every
      other command is refused and performs nothing. */
  lemma CommandTable(f: RxFrame, app: App)
    requires ValidFrame(f)
    ensures f.cmd == 1 ==> Answers(f, app, 0, []) && Tail(f, app) == [Flag(app.paired), Flag(app.connected), Flag(app.ready)]
    ensures f.cmd == 2 ==> Answers(f, app, app.pair, [PairCall]) && Tail(f, app) == []
    ensures f.cmd == 3 && app.cached.Some? ==> Answers(f, app, 0, []) && ShowsState(0, Tail(f, app), app.cached)
    ensures f.cmd == 3 && app.cached.None? ==> Answers(f, app, -61, []) && ShowsState(-61, Tail(f, app), None)
    ensures f.cmd == 4 ==> Answers(f, app, app.action(2), [ActionCall(2)])
                           && ShowsState(app.action(2), Tail(f, app), app.cached)
    ensures f.cmd == 5 ==> Answers(f, app, app.action(1), [ActionCall(1)])
                           && ShowsState(app.action(1), Tail(f, app), app.cached)
    ensures f.cmd == 6 ==> Answers(f, app, app.action(3), [ActionCall(3)])
                           && ShowsState(app.action(3), Tail(f, app), app.cached)
    ensures forall pin :: f.cmd == 7 && f.len == 2 && f.payload[..2] == Put16(pin) ==>
              Answers(f, app, app.calibrate(pin), [CalibrateCall(pin)]) && Tail(f, app) == []
    ensures f.cmd == 7 && f.len != 2 ==> Answers(f, app, -22, []) && Tail(f, app) == []
    ensures !(1 <= f.cmd <= 7) ==> Answers(f, app, -22, []) && Tail(f, app) == []
  {
    hide Response, Read, StateTail, ShowsState, Put16, Get16;
    ResponseReads(f, app);
    TailShowsState(Handle(f, app).0, app);
    forall pin | f.payload[..2] == Put16(pin) ensures Get16(f.payload[..2]) == pin {
      Word16RoundTrip(pin);
    }
  }

  // ---------------------------------------------------------------- implementation

  /** send_frame */
  method SendFrame(cmd: byte, payload: seq<byte>) returns (out: seq<byte>)
    requires |payload| <= MAX_PAYLOAD
    ensures out == [SOF_RESP, cmd, Byte8(|payload|)] + payload
  {
    hide Byte8;
    var buf := new byte[3 + MAX_PAYLOAD];
    var header := [SOF_RESP, cmd, Byte8(|payload|)];
    Append(buf, 0, header, 3 + MAX_PAYLOAD);
    Append(buf, 3, payload, 3 + MAX_PAYLOAD);
    out := buf[..3 + |payload|];
  }

  method Reply(cmd: byte, rc: int32, tail: seq<byte>) returns (out: seq<byte>)
    requires |tail| <= MAX_PAYLOAD - 4
    ensures out == Packet(cmd, rc, tail)
  {
    hide Byte8, Put32s;
    out := SendFrame(cmd, Put32s(rc) + tail);
  }

  /** The application as the dispatcher calls it; calls records the operations performed. */
  class Application {
    const app: App
    var calls: seq<Call>

    constructor (app: App)
      ensures this.app == app && calls == []
    {
      this.app := app;
      calls := [];
    }

    method Pair() returns (rc: int32)
      modifies this
      ensures rc == app.pair && calls == old(calls) + [PairCall]
    {
      calls := calls + [PairCall];
      rc := app.pair;
    }

    method PerformAction(action: byte) returns (rc: int32)
      modifies this
      ensures rc == app.action(action) && calls == old(calls) + [ActionCall(action)]
    {
      calls := calls + [ActionCall(action)];
      rc := app.action(action);
    }

    method Calibrate(pin: bv16) returns (rc: int32)
      modifies this
      ensures rc == app.calibrate(pin) && calls == old(calls) + [CalibrateCall(pin)]
    {
      calls := calls + [CalibrateCall(pin)];
      rc := app.calibrate(pin);
    }
  }

  /** handle_state */
  method HandleState(app: App) returns (out: seq<byte>)
    ensures var rc: int32 := if app.cached.Some? then 0 else -ENODATA; out == Packet(3, rc, StateTail(rc, app))
  {
    hide Packet, StateFields;
    if app.cached.Some? {
      out := Reply(CMD_STATE, 0, StateFields(app.cached.value.0, app.cached.value.1));
    } else {
      out := Reply(CMD_STATE, -ENODATA, ZeroBytes(17));
    }
  }

  /** handle_lock_action: perform, and report the cached state if that succeeded. */
  method HandleLockAction(action: byte, cmd: byte, a: Application) returns (out: seq<byte>)
    modifies a
    ensures out == Packet(cmd, a.app.action(action), StateTail(a.app.action(action), a.app))
    ensures a.calls == old(a.calls) + [ActionCall(action)]
  {
    hide Packet, StateFields;
    var rc := a.PerformAction(action);
    var fields := ZeroBytes(17);
    if rc == 0 {
      if a.app.cached.Some? {
        fields := StateFields(a.app.cached.value.0, a.app.cached.value.1);
      }
    }
    out := Reply(cmd, rc, fields);
  }

  /** handle_calibrate */
  method HandleCalibrate(f: RxFrame, a: Application) returns (out: seq<byte>)
    requires ValidFrame(f) && f.cmd == CMD_CALIBRATE
    modifies a
    ensures out == Response(f, a.app) && a.calls == old(a.calls) + CallsOf(f)
  {
    hide Packet, Get16;
    if f.len != 2 {
      out := Reply(CMD_CALIBRATE, -EINVAL, []);
    } else {
      var rc := a.Calibrate(Get16(f.payload[..2]));
      out := Reply(CMD_CALIBRATE, rc, []);
    }
  }

  /** dispatch_frame */
  method DispatchFrame(f: RxFrame, a: Application) returns (out: seq<byte>)
    requires ValidFrame(f)
    modifies a
    ensures out == Response(f, a.app) && a.calls == old(a.calls) + CallsOf(f)
  {
    hide Packet, StateTail, Get16;
    if f.cmd == CMD_STATUS {
      out := Reply(CMD_STATUS, 0, [Flag(a.app.paired), Flag(a.app.connected), Flag(a.app.ready)]);
    } else if f.cmd == CMD_PAIR {
      var rc := a.Pair();
      out := Reply(CMD_PAIR, rc, []);
    } else if f.cmd == CMD_STATE {
      out := HandleState(a.app);
    } else if f.cmd == CMD_LOCK {
      out := HandleLockAction(ACTION_LOCK, CMD_LOCK, a);
    } else if f.cmd == CMD_UNLOCK {
      out := HandleLockAction(ACTION_UNLOCK, CMD_UNLOCK, a);
    } else if f.cmd == CMD_UNLATCH {
      out := HandleLockAction(ACTION_UNLATCH, CMD_UNLATCH, a);
    } else if f.cmd == CMD_CALIBRATE {
      out := HandleCalibrate(f, a);
    } else {
      out := Reply(f.cmd, -EINVAL, []);
    }
  }
}
