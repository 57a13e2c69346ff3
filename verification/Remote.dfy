/** From a request on the UART to what the lock is told. */
module Remote {
  import opened Bytes
  import opened Codes
  import opened Transport
  import opened Fragments
  import opened Command
  import opened Keyturner
  import opened Conversation
  import opened UartDecoder
  import opened UartResponse
  import opened UartPort

  /** From boot, whatever the interleaving: once the three bytes of a request without payload are answered, exactly the
      operation it stands for has been performed. */
  lemma RequestPerforms(p: Port, actions: seq<Action>, cmd: byte)
    requires ValidPort(p) && p.dec.state == WaitSof && p.queue == [] && p.current == None && p.calls == []
    requires UartPort.Received(actions) == [0xA5, cmd, 0]
    requires Unwelcome(Completions(p, actions)) == [] && Backlog(Run(p, actions)) == []
    ensures cmd == 2 ==> Run(p, actions).calls == [PairCall]
    ensures cmd == 4 ==> Run(p, actions).calls == [ActionCall(2)]
    ensures cmd == 5 ==> Run(p, actions).calls == [ActionCall(1)]
    ensures cmd == 6 ==> Run(p, actions).calls == [ActionCall(3)]
    ensures cmd != 2 && !(4 <= cmd <= 6) ==> Run(p, actions).calls == []
  {
    hide Run, Completions, Unwelcome, UartPort.Received, Answered, Response, Grammar, CallsOf, FrameOf;
    var r := Request(cmd, []);
    EveryRequestPerformed(p, actions);
    GrammarOfOne(r);
    assert Grammar([0xA5, cmd, 0]) == [r];
    assert Requested([r]) == CallsOf(FrameOf(r)) + Requested([r][1..]) == CallsOf(FrameOf(r));
    OneCommand(cmd);
  }

  lemma GrammarOfOne(r: Request)
    requires r.payload == []
    ensures Grammar([0xA5, r.cmd, 0]) == [r]
  {
    hide Grammar;
    assert Byte8(0) == 0;
    assert Encode(r) + [] == [0xA5, r.cmd, 0];
    GrammarTakesFrame(r, []);
    EmptyGrammar();
  }

  /** An application that answers 0 to everything and has no state to show. */
  const IDLE: App := App(false, false, false, 0, _ => 0, _ => 0, None)

  lemma OneCommand(cmd: byte)
    ensures var calls := CallsOf(FrameOf(Request(cmd, [])));
            && (cmd == 2 ==> calls == [PairCall])
            && (cmd == 4 ==> calls == [ActionCall(2)])
            && (cmd == 5 ==> calls == [ActionCall(1)])
            && (cmd == 6 ==> calls == [ActionCall(3)])
            && (cmd != 2 && !(4 <= cmd <= 6) ==> calls == [])
  {
    hide Response, Read, CallsOf, ShowsState, Put16;
    var f := FrameOf(Request(cmd, []));
    assert f.len == 0;
    CommandTable(f, IDLE);
  }

  /** A LOCK, UNLOCK or UNLATCH frame against a cooperating lock: the one action performed is a lock action, it succeeds, and
      the lock reads 2, 1 or 3. */
  lemma ActionReachesLock(f: RxFrame, l: Link, authId: bv32, appId: bv32, key: seq<byte>, nonces: (seq<byte>, seq<byte>),
                          rs: seq<Reply>)
    returns (action: byte, w1: seq<byte>, w2: seq<byte>, p: seq<byte>)
    requires ValidFrame(f) && 4 <= f.cmd <= 6
    requires |key| == 32 && |nonces.0| == |nonces.1| == 24
    requires l.acc == [] && l.writes == [] && l.events == Script(Cuts(rs))
    requires Cooperates(rs, key)
    ensures CallsOf(f) == [ActionCall(action)]
    ensures Succeeded(LockAction(l, authId, appId, key, action, true, nonces), l, w1, w2, Pushed(rs))
    ensures Conveys(w2, authId, key, nonces.1, CMD_LOCK_ACTION, p) && ReadsAction(p, action, appId, rs[0].payload)
    ensures |p| == 38 && p[0] == if f.cmd == 4 then 2 else if f.cmd == 5 then 1 else 3
  {
    hide Response, Read, CallsOf, ShowsState, Put16, Script, LockAction, Conveys, Pushed, Delivers;
    CommandTable(f, IDLE);
    action := if f.cmd == 4 then 2 else if f.cmd == 5 then 1 else 3;
    w1, w2, p := LockActionSucceeds(l, authId, appId, key, action, nonces, rs);
  }

  /** A CALIBRATE frame with a PIN: the one operation performed is a calibration with that PIN, and the lock reads it. */
  lemma PinReachesLock(f: RxFrame, pin: bv16, l: Link, authId: bv32, key: seq<byte>, nonces: (seq<byte>, seq<byte>),
                       rs: seq<Reply>)
    returns (w1: seq<byte>, w2: seq<byte>, p: seq<byte>)
    requires ValidFrame(f) && f.cmd == 7 && f.len == 2 && f.payload[..2] == Put16(pin)
    requires |key| == 32 && |nonces.0| == |nonces.1| == 24
    requires l.acc == [] && l.writes == [] && l.events == Script(Cuts(rs))
    requires Cooperates(rs, key)
    ensures CallsOf(f) == [CalibrateCall(pin)]
    ensures Succeeded(Calibrate(l, authId, key, pin, nonces), l, w1, w2, None)
    ensures Conveys(w2, authId, key, nonces.1, CMD_REQUEST_CALIBRATION, p) && ReadsCalibration(p, pin, rs[0].payload)
  {
    hide Response, Read, CallsOf, ShowsState, Put16, Script, Calibrate, Conveys, Delivers;
    CommandTable(f, IDLE);
    w1, w2, p := CalibrationSucceeds(l, authId, key, pin, nonces, rs);
  }
}
