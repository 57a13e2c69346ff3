/** Whole Keyturner commands: challenge, action and the bounded wait for completion (nuki_command.c). */
module Keyturner {
  import opened Bytes
  import opened Codes
  import opened Frames
  import opened Transport
  import opened Command

  const DRAIN_MAX: nat := 10

  /** A one-byte Status COMPLETE. */
  predicate Completes(m: Received) {
    m.Message? && m.cmd == CMD_STATUS && |m.payload| == 1 && m.payload[0] == STATUS_COMPLETE
  }

  /** A message that neither completes nor ends the command with an error. */
  predicate Continues(m: Received) {
    && m.Message?
    && m.cmd != CMD_ERROR_REPORT
    && (m.cmd == CMD_STATUS ==> |m.payload| == 1 && m.payload[0] != STATUS_COMPLETE)
  }

  /** The state a message reports, if it is a parseable KeyturnerStates. */
  function StateOf(m: Received): Option<KeyturnerState> {
    if m.Message? && m.cmd == CMD_KEYTURNER_STATES then ParseState(m.payload) else None
  }

  datatype Drained = Drained(link: Link, rc: int, state: Option<KeyturnerState>)

  /** The loop of drain_until_complete with `left` iterations to go; want says whether the caller takes a state. */
  function Drain(l: Link, key: seq<byte>, want: bool, left: nat, got: Option<KeyturnerState>): Drained
    requires |key| == 32
    decreases left
  {
    if left == 0 then Drained(l, -ETIMEDOUT, got)
    else
      var (m, l') := Recv(l, key, MAX_PLAINTEXT);
      match m
      case Failed(rc) => Drained(l', rc, got)
      case Message(cmd, payload) =>
        if cmd == CMD_ERROR_REPORT then Drained(l', -EIO, got)
        else if cmd == CMD_STATUS then
          if |payload| != 1 then Drained(l', -EBADMSG, got)
          else if payload[0] == STATUS_COMPLETE then Drained(l', 0, got)
          else Drain(l', key, want, left - 1, got)
        else if want && StateOf(m).Some? then Drain(l', key, want, left - 1, StateOf(m))
        else Drain(l', key, want, left - 1, got)
  }

  /** The caller's state_out and got_state. */
  class StateCell {
    var state: KeyturnerState
    var got: bool

    constructor (state: KeyturnerState)
      ensures this.state == state && !got
    {
      this.state := state;
      got := false;
    }
  }

  method DrainUntilComplete(ch: Channel, key: seq<byte>, cell: StateCell?) returns (rc: int)
    requires ch.Valid() && |key| == 32
    modifies ch`rxLen, ch`events, ch.rxBuf, cell
    ensures ch.Valid() && ch.rxBuf == old(ch.rxBuf)
    ensures var d := Drain(old(ch.View()), key, cell != null, DRAIN_MAX, None);
            && ch.View() == d.link && rc == d.rc
            && (cell != null ==> cell.got == d.state.Some?)
            && (cell != null ==> cell.state == if d.state.Some? then d.state.value else old(cell.state))
  {
    hide Recv, ParseState;
    if cell != null {
      cell.got := false;
    }
    ghost var got: Option<KeyturnerState> := None;
    ghost var goal := Drain(ch.View(), key, cell != null, DRAIN_MAX, None);
    for i := 0 to DRAIN_MAX
      invariant ch.Valid() && ch.rxBuf == old(ch.rxBuf)
      invariant Drain(ch.View(), key, cell != null, DRAIN_MAX - i, got) == goal
      invariant cell != null ==> cell.got == got.Some?
      invariant cell != null ==> cell.state == if got.Some? then got.value else old(cell.state)
    {
      var m := RecvEncrypted(ch, key, MAX_PLAINTEXT);
      if m.Failed? {
        return m.rc;
      }
      if m.cmd == CMD_ERROR_REPORT {
        return -EIO;
      }
      if m.cmd == CMD_STATUS {
        if |m.payload| != 1 {
          return -EBADMSG;
        }
        if m.payload[0] == STATUS_COMPLETE {
          return 0;
        }
      } else if m.cmd == CMD_KEYTURNER_STATES && cell != null {
        var p := ParseState(m.payload);
        if p.Some? {
          cell.state, cell.got := p.value, true;
          got := p;
        }
      }
    }
    return -ETIMEDOUT;
  }

  // --------------------------------------------------- what the loop returns

  /** The link after k messages have been received. */
  function After(l: Link, key: seq<byte>, k: nat): Link
    requires |key| == 32
    decreases k
  {
    if k == 0 then l else After(Recv(l, key, MAX_PLAINTEXT).1, key, k - 1)
  }

  /** The k-th message a receiver on l would get. */
  function Nth(l: Link, key: seq<byte>, k: nat): Received
    requires |key| == 32
  {
    Recv(After(l, key, k), key, MAX_PLAINTEXT).0
  }

  lemma FailedIsError(l: Link, key: seq<byte>, max: nat)
    requires |key| == 32 && Recv(l, key, max).0.Failed?
    ensures Recv(l, key, max).0.rc != 0
  {
    hide Wait, SecretBox.Open, Intact;
  }

  /** Message k ends the command, for better or worse, and all before it only continue it. */
  ghost predicate EndsAt(l: Link, key: seq<byte>, k: nat)
    requires |key| == 32
  {
    !Continues(Nth(l, key, k)) && forall j :: 0 <= j < k ==> Continues(Nth(l, key, j))
  }

  /** What an ending message means for the caller. */
  function Verdict(m: Received): int {
    if m.Failed? then m.rc
    else if m.cmd == CMD_ERROR_REPORT then -EIO
    else if Completes(m) then 0
    else -EBADMSG
  }

  lemma EndsShift(l: Link, key: seq<byte>, k: nat)
    requires |key| == 32 && Continues(Nth(l, key, 0))
    ensures EndsAt(l, key, k + 1) <==> EndsAt(Recv(l, key, MAX_PLAINTEXT).1, key, k)
  {
    hide Recv, Continues;
    var l' := Recv(l, key, MAX_PLAINTEXT).1;
    forall j | 0 <= j ensures Nth(l, key, j + 1) == Nth(l', key, j) {
    }
    if EndsAt(l, key, k + 1) {
      forall j | 0 <= j < k ensures Continues(Nth(l', key, j)) {
        assert Continues(Nth(l, key, j + 1));
      }
    }
    if EndsAt(l', key, k) {
      forall j | 0 <= j < k + 1 ensures Continues(Nth(l, key, j)) {
        if j > 0 {
          assert Nth(l, key, j) == Nth(l', key, j - 1);
        }
      }
    }
  }

  /** The last parseable state among the first k messages. */
  function Latest(l: Link, key: seq<byte>, k: nat): Option<KeyturnerState>
    requires |key| == 32
    decreases k
  {
    if k == 0 then None
    else if StateOf(Nth(l, key, k - 1)).Some? then StateOf(Nth(l, key, k - 1))
    else Latest(l, key, k - 1)
  }

  function OrElse<T>(a: Option<T>, b: Option<T>): Option<T> {
    if a.Some? then a else b
  }

  lemma {:induction false} LatestShift(l: Link, key: seq<byte>, k: nat)
    requires |key| == 32
    ensures Latest(l, key, k + 1)
            == OrElse(Latest(Recv(l, key, MAX_PLAINTEXT).1, key, k), StateOf(Nth(l, key, 0)))
    decreases k
  {
    hide Recv, StateOf;
    if k > 0 {
      LatestShift(l, key, k - 1);
      assert Nth(l, key, k) == Nth(Recv(l, key, MAX_PLAINTEXT).1, key, k - 1);
    }
  }

  /** The loop stops at the first message that does not just continue the command: it returns that message's verdict and
      the last parseable state before it; without such a message it times out. */
  lemma {:induction false} DrainMeaning(l: Link, key: seq<byte>, want: bool, left: nat, got: Option<KeyturnerState>)
    requires |key| == 32
    ensures forall k :: 0 <= k < left && EndsAt(l, key, k) ==>
              && Drain(l, key, want, left, got).rc == Verdict(Nth(l, key, k))
              && Drain(l, key, want, left, got).state == if want then OrElse(Latest(l, key, k), got) else got
    ensures (forall k :: 0 <= k < left ==> !EndsAt(l, key, k)) ==> Drain(l, key, want, left, got).rc == -ETIMEDOUT
    decreases left
  {
    hide Recv, ParseState, EndsAt, Latest, Nth;
    if left > 0 {
      var (m, l') := Recv(l, key, MAX_PLAINTEXT);
      FirstMessage(l, key);
      if Continues(m) {
        var got' := if want && StateOf(m).Some? then StateOf(m) else got;
        assert Drain(l, key, want, left, got) == Drain(l', key, want, left - 1, got');
        DrainMeaning(l', key, want, left - 1, got');
        ShiftAll(l, key, left);
      }
    }
  }

  /** The first message decides whether anything ends at 0 and whether anything can end later. */
  lemma FirstMessage(l: Link, key: seq<byte>)
    requires |key| == 32
    ensures Nth(l, key, 0) == Recv(l, key, MAX_PLAINTEXT).0
    ensures EndsAt(l, key, 0) <==> !Continues(Recv(l, key, MAX_PLAINTEXT).0)
    ensures forall k :: k > 0 && EndsAt(l, key, k) ==> Continues(Recv(l, key, MAX_PLAINTEXT).0)
    ensures Latest(l, key, 0) == None
  {
    hide Recv, Continues;
    assert After(l, key, 0) == l;
    forall k | k > 0 && EndsAt(l, key, k) ensures Continues(Recv(l, key, MAX_PLAINTEXT).0) {
      assert Continues(Nth(l, key, 0));
    }
  }

  lemma ShiftAll(l: Link, key: seq<byte>, left: nat)
    requires |key| == 32 && Continues(Nth(l, key, 0))
    ensures var l' := Recv(l, key, MAX_PLAINTEXT).1;
            forall k :: 1 <= k < left ==>
              && (EndsAt(l, key, k) <==> EndsAt(l', key, k - 1))
              && Nth(l, key, k) == Nth(l', key, k - 1)
              && Latest(l, key, k) == OrElse(Latest(l', key, k - 1), StateOf(Nth(l, key, 0)))
    ensures var l' := Recv(l, key, MAX_PLAINTEXT).1;
            forall k :: 0 <= k < left - 1 ==> (EndsAt(l', key, k) <==> EndsAt(l, key, k + 1))
  {
    hide Recv, EndsAt, Latest, StateOf, Continues;
    var l' := Recv(l, key, MAX_PLAINTEXT).1;
    forall k | 1 <= k < left
      ensures && (EndsAt(l, key, k) <==> EndsAt(l', key, k - 1))
              && Nth(l, key, k) == Nth(l', key, k - 1)
              && Latest(l, key, k) == OrElse(Latest(l', key, k - 1), StateOf(Nth(l, key, 0)))
    {
      EndsShift(l, key, k - 1);
      LatestShift(l, key, k - 1);
    }
    forall k | 0 <= k < left - 1 ensures EndsAt(l', key, k) <==> EndsAt(l, key, k + 1) {
      EndsShift(l, key, k);
    }
  }

  /** drain_until_complete returns 0 exactly when one of the first ten messages is a one-byte Status COMPLETE preceded only
      by continuing ones. */
  lemma DrainSucceedsIff(l: Link, key: seq<byte>, want: bool)
    requires |key| == 32
    ensures Drain(l, key, want, DRAIN_MAX, None).rc == 0
            <==> exists k :: 0 <= k < 10 && EndsAt(l, key, k) && Completes(Nth(l, key, k))
  {
    hide Drain, EndsAt;
    DrainMeaning(l, key, want, DRAIN_MAX, None);
    forall k | 0 <= k < DRAIN_MAX && EndsAt(l, key, k)
      ensures Verdict(Nth(l, key, k)) == 0 <==> Completes(Nth(l, key, k))
    {
      VerdictZero(After(l, key, k), key);
    }
  }

  lemma VerdictZero(l: Link, key: seq<byte>)
    requires |key| == 32
    ensures var m := Recv(l, key, MAX_PLAINTEXT).0; Verdict(m) == 0 <==> Completes(m)
  {
    hide Recv;
    if Recv(l, key, MAX_PLAINTEXT).0.Failed? {
      FailedIsError(l, key, MAX_PLAINTEXT);
    }
  }

  // ------------------------------------------------------------ whole commands

  datatype Challenged = Challenged(link: Link, rc: int, nonceK: seq<byte>)

  /** request_challenge */
  function Challenge(l: Link, authId: bv32, key: seq<byte>, nonce: seq<byte>): (r: Challenged)
    requires |key| == 32 && |nonce| == 24
    ensures r.rc == 0 ==> |r.nonceK| == 32
  {
    var (l1, rc) := Send(l, authId, key, CMD_REQUEST_DATA, Put16(CMD_CHALLENGE), nonce);
    if rc != 0 then Challenged(l1, rc, [])
    else
      var (m, l2) := Recv(l1, key, MAX_PLAINTEXT);
      if m.Failed? then
        FailedIsError(l1, key, MAX_PLAINTEXT);
        Challenged(l2, m.rc, [])
      else if m.cmd != CMD_CHALLENGE || |m.payload| != 32 then Challenged(l2, -EBADMSG, [])
      else Challenged(l2, 0, m.payload)
  }

  /** action | appId | flags(0) | nonceK */
  function ActionPayload(action: byte, appId: bv32, nonceK: seq<byte>): (p: seq<byte>)
    ensures |p| == 6 + |nonceK|
  {
    [action] + Put32(appId) + [0] + nonceK
  }

  /** nonceK | pin */
  function CalibrationPayload(pin: bv16, nonceK: seq<byte>): (p: seq<byte>)
    ensures |p| == |nonceK| + 2
  {
    nonceK + Put16(pin)
  }

  /** What a lock reads from the two payloads, at the offsets the API documents. */
  lemma PayloadFields(action: byte, appId: bv32, pin: bv16, nonceK: seq<byte>)
    requires |nonceK| == 32
    ensures var p := ActionPayload(action, appId, nonceK);
            |p| == 38 && p[0] == action && Get32(p[1..5]) == appId && p[5] == 0 && p[6..38] == nonceK
    ensures var p := CalibrationPayload(pin, nonceK);
            |p| == 34 && p[..32] == nonceK && Get16(p[32..34]) == pin
  {
    hide Put16, Get16, Put32, Get32;
    assert ActionPayload(action, appId, nonceK)[1..5] == Put32(appId);
    assert CalibrationPayload(pin, nonceK)[32..34] == Put16(pin);
    Word32RoundTrip(appId);
    Word16RoundTrip(pin);
  }

  /** A challenge, one command built from it, and the wait for completion. */
  function AfterChallenge(l: Link, authId: bv32, key: seq<byte>, cmd: bv16, build: seq<byte> -> seq<byte>, want: bool,
                       nonces: (seq<byte>, seq<byte>)): Drained
    requires |key| == 32 && |nonces.0| == |nonces.1| == 24
  {
    var c := Challenge(l, authId, key, nonces.0);
    if c.rc != 0 then Drained(c.link, c.rc, None)
    else
      var (l2, rc) := Send(c.link, authId, key, cmd, build(c.nonceK), nonces.1);
      if rc != 0 then Drained(l2, rc, None) else Drain(l2, key, want, DRAIN_MAX, None)
  }

  /** nuki_command_lock_action */
  function LockAction(l: Link, authId: bv32, appId: bv32, key: seq<byte>, action: byte, want: bool,
                      nonces: (seq<byte>, seq<byte>)): Drained
    requires |key| == 32 && |nonces.0| == |nonces.1| == 24
  {
    AfterChallenge(l, authId, key, CMD_LOCK_ACTION, n => ActionPayload(action, appId, n), want, nonces)
  }

  /** nuki_command_calibrate */
  function Calibrate(l: Link, authId: bv32, key: seq<byte>, pin: bv16, nonces: (seq<byte>, seq<byte>)): Drained
    requires |key| == 32 && |nonces.0| == |nonces.1| == 24
  {
    AfterChallenge(l, authId, key, CMD_REQUEST_CALIBRATION, n => CalibrationPayload(pin, n), false, nonces)
  }

  method RequestChallenge(ch: Channel, authId: bv32, key: seq<byte>, nonce: seq<byte>)
    returns (rc: int, nonceK: seq<byte>)
    requires ch.Valid() && |key| == 32 && |nonce| == 24
    modifies ch, ch.rxBuf
    ensures ch.Valid() && ch.rxBuf == old(ch.rxBuf)
    ensures Challenged(ch.View(), rc, nonceK) == Challenge(old(ch.View()), authId, key, nonce)
  {
    hide Recv, Send;
    nonceK := [];
    rc := SendEncrypted(ch, authId, key, CMD_REQUEST_DATA, Put16(CMD_CHALLENGE), nonce);
    if rc != 0 {
      return;
    }
    var m := RecvEncrypted(ch, key, MAX_PLAINTEXT);
    if m.Failed? {
      return m.rc, [];
    }
    if m.cmd != CMD_CHALLENGE || |m.payload| != 32 {
      return -EBADMSG, [];
    }
    return 0, m.payload;
  }

  method PerformLockAction(ch: Channel, authId: bv32, appId: bv32, key: seq<byte>, action: byte, cell: StateCell?,
                           nonces: (seq<byte>, seq<byte>))
    returns (rc: int)
    requires ch.Valid() && |key| == 32 && |nonces.0| == |nonces.1| == 24
    modifies ch, ch.rxBuf, cell
    ensures ch.Valid() && ch.rxBuf == old(ch.rxBuf)
    ensures var d := LockAction(old(ch.View()), authId, appId, key, action, cell != null, nonces);
            && ch.View() == d.link && rc == d.rc
            && (cell != null && d.state.Some? ==> cell.got && cell.state == d.state.value)
            && (cell != null && d.state.None? ==> cell.state == old(cell.state))
            && (cell != null && rc == 0 ==> cell.got == d.state.Some?)
  {
    hide Recv, Send, Challenge, Drain, Put32;
    var nonceK;
    rc, nonceK := RequestChallenge(ch, authId, key, nonces.0);
    if rc != 0 {
      return;
    }
    rc := SendEncrypted(ch, authId, key, CMD_LOCK_ACTION, ActionPayload(action, appId, nonceK), nonces.1);
    if rc != 0 {
      return;
    }
    rc := DrainUntilComplete(ch, key, cell);
  }

  method PerformCalibrate(ch: Channel, authId: bv32, key: seq<byte>, pin: bv16, nonces: (seq<byte>, seq<byte>))
    returns (rc: int)
    requires ch.Valid() && |key| == 32 && |nonces.0| == |nonces.1| == 24
    modifies ch, ch.rxBuf
    ensures ch.Valid() && ch.rxBuf == old(ch.rxBuf)
    ensures var d := Calibrate(old(ch.View()), authId, key, pin, nonces); ch.View() == d.link && rc == d.rc
  {
    hide Recv, Send, Challenge, Drain, Put16;
    var nonceK;
    rc, nonceK := RequestChallenge(ch, authId, key, nonces.0);
    if rc != 0 {
      return;
    }
    rc := SendEncrypted(ch, authId, key, CMD_REQUEST_CALIBRATION, CalibrationPayload(pin, nonceK), nonces.1);
    if rc != 0 {
      return;
    }
    rc := DrainUntilComplete(ch, key, null);
  }
}
