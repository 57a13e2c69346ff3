/** When a challenged command succeeds against any peer, and what it leaves behind when it does not. */
module Peers {
  import opened Bytes
  import opened Codes
  import opened Frames
  import opened Transport
  import opened Command
  import opened Keyturner
  import opened Conversation

  // ------------------------------------------------ receiving ignores writing

  /** The same link with other frames sent and other writes to come. */
  function With(l: Link, sent: seq<seq<byte>>, writes: seq<WriteResult>): Link {
    l.(sent := sent, writes := writes)
  }

  lemma {:induction false} WaitWith(l: Link, sent: seq<seq<byte>>, writes: seq<WriteResult>, n: nat)
    ensures Wait(With(l, sent, writes), n) == (With(Wait(l, n).0, sent, writes), Wait(l, n).1)
    decreases |l.events|
  {
    if |l.acc| < n && l.events != [] && !l.events[0].Deadline? {
      WaitWith(l.(acc := Accumulate(l.acc, l.events[0].data), events := l.events[1..]), sent, writes, n);
    }
  }

  lemma RecvWith(l: Link, sent: seq<seq<byte>>, writes: seq<WriteResult>, key: seq<byte>, max: nat)
    requires |key| == 32
    ensures Recv(With(l, sent, writes), key, max) == (Recv(l, key, max).0, With(Recv(l, key, max).1, sent, writes))
  {
    hide Wait, Decrypt, LeNat, AfterOverruns;
    WaitWith(l, sent, writes, HDR_LEN);
    var l1 := Wait(l, HDR_LEN).0;
    if Wait(l, HDR_LEN).1 {
      WaitWith(l1, sent, writes, HDR_LEN + Announced(l1.acc));
    }
  }

  lemma {:induction false} AfterWith(l: Link, sent: seq<seq<byte>>, writes: seq<WriteResult>, key: seq<byte>, k: nat)
    requires |key| == 32
    ensures After(With(l, sent, writes), key, k) == With(After(l, key, k), sent, writes)
    ensures Nth(With(l, sent, writes), key, k) == Nth(l, key, k)
    decreases k
  {
    hide Recv;
    RecvWith(l, sent, writes, key, MAX_PLAINTEXT);
    if k > 0 {
      AfterWith(Recv(l, key, MAX_PLAINTEXT).1, sent, writes, key, k - 1);
    }
  }

  lemma EndsWith(l: Link, sent: seq<seq<byte>>, writes: seq<WriteResult>, key: seq<byte>, k: nat)
    requires |key| == 32
    ensures EndsAt(With(l, sent, writes), key, k) <==> EndsAt(l, key, k)
  {
    hide Nth, With, Continues;
    forall j: nat ensures Nth(With(l, sent, writes), key, j) == Nth(l, key, j) {
      AfterWith(l, sent, writes, key, j);
    }
  }

  // ------------------------------------------------------------ where the drain stops

  /** The loop takes the ending message and those before it off the link, and nothing more. */
  lemma {:induction false} DrainLeaves(l: Link, key: seq<byte>, want: bool, left: nat, got: Option<KeyturnerState>)
    requires |key| == 32
    ensures forall k :: 0 <= k < left && EndsAt(l, key, k) ==>
              Drain(l, key, want, left, got).link == After(l, key, k + 1)
    ensures (forall k :: 0 <= k < left ==> !EndsAt(l, key, k)) ==>
              Drain(l, key, want, left, got).link == After(l, key, left)
    decreases left
  {
    hide Recv, ParseState, EndsAt, Latest, Nth;
    if left > 0 {
      var (m, l') := Recv(l, key, MAX_PLAINTEXT);
      FirstMessage(l, key);
      assert After(l, key, 1) == After(l', key, 0) == l';
      if Continues(m) {
        var got' := if want && StateOf(m).Some? then StateOf(m) else got;
        assert Drain(l, key, want, left, got) == Drain(l', key, want, left - 1, got');
        DrainLeaves(l', key, want, left - 1, got');
        ShiftAll(l, key, left);
      }
    }
  }

  // ---------------------------------------------------------------- writing

  /** Whether write number i of the coming ones succeeds. */
  predicate Accepted(l: Link, i: nat) {
    i < |l.writes| ==> l.writes[i] == Completed(false)
  }

  /** A write returns 0 exactly when it completes without error; otherwise the stack's own code, -ETIMEDOUT if completion
      does not come, -EIO if it comes with an error. The frame leaves unless the stack refuses it. */
  lemma WriteMeaning(l: Link, frame: seq<byte>)
    ensures var (l', rc) := Write(l, frame);
            && (rc == 0 <==> Accepted(l, 0))
            && (l.writes != [] && l.writes[0].Refused? ==> rc == l.writes[0].rc && l'.sent == l.sent)
            && (l.writes == [] || !l.writes[0].Refused? ==> l'.sent == l.sent + [frame])
            && (l.writes != [] && l.writes[0] == Unconfirmed ==> rc == -ETIMEDOUT)
            && (l.writes != [] && l.writes[0] == Completed(true) ==> rc == -EIO)
            && l'.acc == l.acc && l'.events == l.events
            && l'.writes == if l.writes == [] then [] else l.writes[1..]
  {
  }

  // ------------------------------------------------------- challenged commands

  /** A 32-byte challenge. */
  predicate IsChallenge(m: Received) {
    m.Message? && m.cmd == CMD_CHALLENGE && |m.payload| == 32
  }

  /** One of the first ten messages on a link is COMPLETE, and all before it only continue the command. */
  ghost predicate ConfirmedOn(l: Link, key: seq<byte>)
    requires |key| == 32
  {
    exists k :: 0 <= k < 10 && EndsAt(l, key, k) && Completes(Nth(l, key, k))
  }

  lemma ConfirmedWith(l: Link, sent: seq<seq<byte>>, writes: seq<WriteResult>, key: seq<byte>)
    requires |key| == 32
    ensures ConfirmedOn(With(l, sent, writes), key) <==> ConfirmedOn(l, key)
  {
    hide Nth, EndsAt, With, Completes;
    forall k: nat
      ensures EndsAt(With(l, sent, writes), key, k) <==> EndsAt(l, key, k)
      ensures Nth(With(l, sent, writes), key, k) == Nth(l, key, k)
    {
      EndsWith(l, sent, writes, key, k);
      AfterWith(l, sent, writes, key, k);
    }
  }

  function Rest(writes: seq<WriteResult>): seq<WriteResult> {
    if writes == [] then [] else writes[1..]
  }

  lemma SendMeaning(l: Link, authId: bv32, key: seq<byte>, cmd: bv16, payload: seq<byte>, nonce: seq<byte>)
    requires |key| == 32 && |nonce| == 24 && |payload| <= 152
    ensures var (l', rc) := Send(l, authId, key, cmd, payload, nonce);
            && (rc == 0 <==> Accepted(l, 0))
            && (rc == 0 ==> l' == With(l, l.sent + [Wire(authId, key, cmd, payload, nonce)], Rest(l.writes)))
            && l'.acc == l.acc && l'.events == l.events
  {
    hide Wire, Write;
    WriteMeaning(l, Wire(authId, key, cmd, payload, nonce));
    hide Accepted;
  }

  /** A challenge is obtained if and only if the request is written and the next message is a 32-byte Challenge. */
  lemma ChallengeIff(l: Link, authId: bv32, key: seq<byte>, nonce: seq<byte>)
    requires |key| == 32 && |nonce| == 24
    ensures var c, w := Challenge(l, authId, key, nonce), Wire(authId, key, CMD_REQUEST_DATA, Put16(CMD_CHALLENGE), nonce);
            && (c.rc == 0 <==> Accepted(l, 0) && IsChallenge(Nth(l, key, 0)))
            && (c.rc == 0 ==> c.nonceK == Nth(l, key, 0).payload
                              && c.link == With(After(l, key, 1), l.sent + [w], Rest(l.writes)))
            && (!Accepted(l, 0) ==> c.link.acc == l.acc && c.link.events == l.events)
            && (Accepted(l, 0) ==> c.link.sent == l.sent + [w])
            && (Accepted(l, 0) && Nth(l, key, 0).Failed? ==> c.rc == Nth(l, key, 0).rc)
            && (Accepted(l, 0) && Nth(l, key, 0).Message? && !IsChallenge(Nth(l, key, 0)) ==> c.rc == -EBADMSG)
  {
    hide Wire, Recv, Send, Put16;
    var w := Wire(authId, key, CMD_REQUEST_DATA, Put16(CMD_CHALLENGE), nonce);
    SendMeaning(l, authId, key, CMD_REQUEST_DATA, Put16(CMD_CHALLENGE), nonce);
    var (l1, rc) := Send(l, authId, key, CMD_REQUEST_DATA, Put16(CMD_CHALLENGE), nonce);
    if rc == 0 {
      RecvWith(l, l.sent + [w], Rest(l.writes), key, MAX_PLAINTEXT);
      assert After(l, key, 1) == After(Recv(l, key, MAX_PLAINTEXT).1, key, 0) == Recv(l, key, MAX_PLAINTEXT).1;
      if Recv(l1, key, MAX_PLAINTEXT).0.Failed? {
        FailedIsError(l1, key, MAX_PLAINTEXT);
      }
    }
  }

  /** Both requests are written, the first message received is a 32-byte Challenge, and COMPLETE comes within ten more. */
  ghost predicate Confirmed(l: Link, key: seq<byte>)
    requires |key| == 32
  {
    Accepted(l, 0) && Accepted(l, 1) && IsChallenge(Nth(l, key, 0)) && ConfirmedOn(After(l, key, 1), key)
  }

  /** Against any peer, a challenged command returns 0 if and only if it is confirmed; and then it has sent a request for a
      challenge and a command built from the challenge it received. */
  lemma ChallengedIff(l: Link, authId: bv32, key: seq<byte>, cmd: bv16, build: seq<byte> -> seq<byte>, want: bool,
                      nonces: (seq<byte>, seq<byte>))
    returns (w1: seq<byte>, w2: seq<byte>)
    requires |key| == 32 && |nonces.0| == |nonces.1| == 24
    requires forall n: seq<byte> :: |n| == 32 ==> |build(n)| <= 152
    ensures AfterChallenge(l, authId, key, cmd, build, want, nonces).rc == 0 <==> Confirmed(l, key)
    ensures Confirmed(l, key) ==> AfterChallenge(l, authId, key, cmd, build, want, nonces).link.sent == l.sent + [w1] + [w2]
    ensures Confirmed(l, key) ==> Conveys(w1, authId, key, nonces.0, CMD_REQUEST_DATA, Put16(CMD_CHALLENGE))
    ensures Confirmed(l, key) ==> Conveys(w2, authId, key, nonces.1, cmd, build(Nth(l, key, 0).payload))
  {
    hide Wire, Recv, Send, Drain, Challenge, Conveys, Put16, Nth, After, ConfirmedOn;
    w1 := Wire(authId, key, CMD_REQUEST_DATA, Put16(CMD_CHALLENGE), nonces.0);
    w2 := [];
    ChallengeIff(l, authId, key, nonces.0);
    var c := Challenge(l, authId, key, nonces.0);
    if c.rc == 0 {
      var payload := build(c.nonceK);
      w2 := Wire(authId, key, cmd, payload, nonces.1);
      SendMeaning(c.link, authId, key, cmd, payload, nonces.1);
      WireConveys(authId, key, CMD_REQUEST_DATA, Put16(CMD_CHALLENGE), nonces.0);
      WireConveys(authId, key, cmd, payload, nonces.1);
      var l2 := Send(c.link, authId, key, cmd, payload, nonces.1).0;
      DrainConfirmed(l2, key, want);
      if Accepted(l, 1) {
        ConfirmedWith(After(l, key, 1), l2.sent, l2.writes, key);
        DrainSends(l2, key, want, DRAIN_MAX, None);
      }
    }
  }

  /** A failed receive, or any message other than a 32-byte Challenge, ends the command before anything but the request for
      a challenge is sent. */
  lemma NoChallengeNoCommand(l: Link, authId: bv32, key: seq<byte>, cmd: bv16, build: seq<byte> -> seq<byte>, want: bool,
                             nonces: (seq<byte>, seq<byte>))
    requires |key| == 32 && |nonces.0| == |nonces.1| == 24
    requires Accepted(l, 0) && !IsChallenge(Nth(l, key, 0))
    ensures var m, d := Nth(l, key, 0), AfterChallenge(l, authId, key, cmd, build, want, nonces);
            d.rc == (if m.Failed? then m.rc else -EBADMSG) && d.state == None && |d.link.sent| == |l.sent| + 1
  {
    hide Wire, Recv, Send, Drain, Challenge, Nth, Put16;
    ChallengeIff(l, authId, key, nonces.0);
  }

  lemma DrainConfirmed(l: Link, key: seq<byte>, want: bool)
    requires |key| == 32
    ensures Drain(l, key, want, DRAIN_MAX, None).rc == 0 <==> ConfirmedOn(l, key)
  {
    hide Drain, EndsAt, Nth, Completes;
    DrainSucceedsIff(l, key, want);
  }

  /** Against any peer, a lock action returns 0 if and only if it is confirmed; the lock then reads the action, the
      application id and the challenge that was received. */
  lemma LockActionIff(l: Link, authId: bv32, appId: bv32, key: seq<byte>, action: byte, want: bool,
                      nonces: (seq<byte>, seq<byte>))
    returns (w1: seq<byte>, w2: seq<byte>, p: seq<byte>)
    requires |key| == 32 && |nonces.0| == |nonces.1| == 24
    ensures LockAction(l, authId, appId, key, action, want, nonces).rc == 0 <==> Confirmed(l, key)
    ensures Confirmed(l, key) ==>
              LockAction(l, authId, appId, key, action, want, nonces).link.sent == l.sent + [w1] + [w2]
    ensures Confirmed(l, key) ==> Conveys(w2, authId, key, nonces.1, CMD_LOCK_ACTION, p)
    ensures Confirmed(l, key) ==> ReadsAction(p, action, appId, Nth(l, key, 0).payload)
  {
    hide Conveys, AfterChallenge, Nth, ActionPayload, Get32, ConfirmedOn, After;
    w1, w2 := ChallengedIff(l, authId, key, CMD_LOCK_ACTION, n => ActionPayload(action, appId, n), want, nonces);
    p := [];
    if IsChallenge(Nth(l, key, 0)) {
      p := ActionPayload(action, appId, Nth(l, key, 0).payload);
      PayloadFields(action, appId, 0, Nth(l, key, 0).payload);
    }
  }

  /** The same for a calibration: the lock reads the challenge that was received and the PIN. */
  lemma CalibrationIff(l: Link, authId: bv32, key: seq<byte>, pin: bv16, nonces: (seq<byte>, seq<byte>))
    returns (w1: seq<byte>, w2: seq<byte>, p: seq<byte>)
    requires |key| == 32 && |nonces.0| == |nonces.1| == 24
    ensures Calibrate(l, authId, key, pin, nonces).rc == 0 <==> Confirmed(l, key)
    ensures Confirmed(l, key) ==> Calibrate(l, authId, key, pin, nonces).link.sent == l.sent + [w1] + [w2]
    ensures Confirmed(l, key) ==> Conveys(w2, authId, key, nonces.1, CMD_REQUEST_CALIBRATION, p)
    ensures Confirmed(l, key) ==> ReadsCalibration(p, pin, Nth(l, key, 0).payload)
  {
    hide Conveys, AfterChallenge, Nth, CalibrationPayload, Get16, ConfirmedOn, After;
    w1, w2 := ChallengedIff(l, authId, key, CMD_REQUEST_CALIBRATION, n => CalibrationPayload(pin, n), false, nonces);
    p := [];
    if IsChallenge(Nth(l, key, 0)) {
      p := CalibrationPayload(pin, Nth(l, key, 0).payload);
      PayloadFields(0, 0, pin, Nth(l, key, 0).payload);
    }
  }
}
