/** A whole lock action against a lock that answers: both directions of the encrypted channel at once. */
module Conversation {
  import opened Bytes
  import opened Codes
  import opened Frames
  import opened Transport
  import opened Fragments
  import opened Command
  import opened Keyturner

  /** One encrypted message of the lock and the indications it is cut into. */
  datatype Reply = Reply(authId: bv32, cmd: bv16, payload: seq<byte>, nonce: seq<byte>, frags: seq<seq<byte>>)

  ghost predicate Delivers(r: Reply, key: seq<byte>)
    requires |key| == 32
  {
    |r.nonce| == 24 && |r.payload| <= MAX_RECV && Concat(r.frags) == Wire(r.authId, key, r.cmd, r.payload, r.nonce)
  }

  function Cuts(rs: seq<Reply>): (m: seq<seq<seq<byte>>>)
    ensures |m| == |rs|
  {
    seq(|rs|, i requires 0 <= i < |rs| => rs[i].frags)
  }

  /** The bytes of one whole message, good or bad: a header with an implausible length, or a header and as much as it
      announces. */
  ghost predicate Complete(w: seq<byte>) {
    |w| >= HDR_LEN && |w| == MessageEnd(w)
  }

  /** Receiving takes exactly one whole message off the script and judges it, whether it accepts it or not. */
  lemma RecvWhole(l: Link, key: seq<byte>, frags: seq<seq<byte>>, rest: seq<seq<seq<byte>>>)
    returns (empties: seq<seq<byte>>)
    requires |key| == 32 && Complete(Concat(frags))
    requires l.acc == [] && l.events == Indications(frags) + Script(rest)
    ensures Recv(l, key, MAX_PLAINTEXT) ==
            (Decode(Concat(frags), key, MAX_PLAINTEXT), l.(events := Indications(empties) + Script(rest)))
    ensures Concat(empties) == []
  {
    hide Decrypt, Wait, Script, Indications, LeNat, Concat, Reset;
    var w := Concat(frags);
    empties := WaitAndReset(l, frags, rest, HDR_LEN);
    var l1 := Wait(l, HDR_LEN).0;
    PrefixSlice(l1.acc, w, 28, 30);
    PrefixSlice(l1.acc, w, 0, 24);
    if !Plausible(Announced(w)) {
      assert Wait(l1, HDR_LEN) == (l1, true) by {
        WaitNothing(l1, HDR_LEN);
      }
    }
  }

  lemma WaitNothing(l: Link, n: nat)
    requires |l.acc| >= n
    ensures Wait(l, n) == (l, true)
  {
  }

  lemma {:induction false} NthWhole(l: Link, key: seq<byte>, empties: seq<seq<byte>>, messages: seq<seq<seq<byte>>>,
                                    k: nat)
    requires |key| == 32 && Pending(l, empties, messages) && k < |messages|
    requires forall i :: 0 <= i < |messages| ==> Complete(Concat(messages[i]))
    ensures Nth(l, key, k) == Decode(Concat(messages[k]), key, MAX_PLAINTEXT)
    decreases k
  {
    hide Recv, Indications, Decode, Script, Concat;
    MergeEmpties(l, empties, messages);
    var rest := messages[1..];
    var empties' := RecvWhole(l, key, empties + messages[0], rest);
    var l' := l.(events := Indications(empties') + Script(rest));
    if k > 0 {
      NthWhole(l', key, empties', rest, k - 1);
      assert rest[k - 1] == messages[k];
    }
  }

  lemma WireComplete(authId: bv32, key: seq<byte>, cmd: bv16, payload: seq<byte>, nonce: seq<byte>)
    requires |key| == 32 && |nonce| == 24 && |payload| <= MAX_RECV
    ensures Complete(Wire(authId, key, cmd, payload, nonce))
  {
    hide LeNat, Wire, SecretBox.Box, AuthFrame;
    WireFields(authId, key, cmd, payload, nonce);
  }

  /** A good message is received whatever refused messages came before it: each of those cost one receive and left
      nothing behind. */
  lemma GoodAfterRefused(l: Link, key: seq<byte>, messages: seq<seq<seq<byte>>>, k: nat, r: Reply)
    requires |key| == 32 && l.acc == [] && l.events == Script(messages) && k < |messages|
    requires forall i :: 0 <= i < |messages| ==> Complete(Concat(messages[i]))
    requires Delivers(r, key) && messages[k] == r.frags
    ensures Nth(l, key, k) == Message(r.cmd, r.payload)
  {
    hide Nth, Wire, Decode, Script, Indications, Concat, Complete;
    assert Pending(l, [], messages) by {
      EmptyPending(l, messages);
    }
    NthWhole(l, key, [], messages, k);
    DecodeWire(Concat(messages[k]), r.authId, key, r.cmd, r.payload, r.nonce, MAX_PLAINTEXT);
  }

  lemma EmptyPending(l: Link, messages: seq<seq<seq<byte>>>)
    requires l.acc == [] && l.events == Script(messages)
    ensures Pending(l, [], messages)
  {
    assert Indications([]) + Script(messages) == Script(messages);
  }

  /** Which whole messages are refused: an implausible length, a ciphertext that is no box under this key and nonce, and a
      box of a frame with a wrong CRC all give -EBADMSG. */
  lemma RefusedMessages(w: seq<byte>, key: seq<byte>)
    requires |key| == 32 && |w| >= HDR_LEN
    ensures |w| == HDR_LEN && !Plausible(Announced(w)) ==>
              Complete(w) && Decode(w, key, MAX_PLAINTEXT) == Failed(-EBADMSG)
    ensures Plausible(Announced(w)) && |w| == HDR_LEN + Announced(w) ==>
              && Complete(w)
              && (forall plain :: w[HDR_LEN..] == SecretBox.Box(plain, w[..24], key) && |plain| >= 8 && !Intact(plain) ==>
                    Decode(w, key, MAX_PLAINTEXT) == Failed(-EBADMSG))
              && ((forall plain :: w[HDR_LEN..] != SecretBox.Box(plain, w[..24], key)) ==>
                    Decode(w, key, MAX_PLAINTEXT) == Failed(-EBADMSG))
  {
    hide LeNat, SecretBox.Box, SecretBox.Open, Intact;
    if Plausible(Announced(w)) && |w| == HDR_LEN + Announced(w) {
      var box, nonce := w[HDR_LEN..], w[..24];
      assert w[HDR_LEN..HDR_LEN + Announced(w)] == box;
      forall plain ensures box == SecretBox.Box(plain, nonce, key) <==> SecretBox.Open(box, nonce, key) == Some(plain) {
        SecretBox.OpenIffBox(box, plain, nonce, key);
      }
      if SecretBox.Open(box, nonce, key).Some? {
        assert box == SecretBox.Box(SecretBox.Open(box, nonce, key).value, nonce, key);
      }
    }
  }

  /** Receiving takes exactly one message off the script. */
  lemma RecvReply(l: Link, key: seq<byte>, r: Reply, rest: seq<seq<seq<byte>>>) returns (empties: seq<seq<byte>>)
    requires |key| == 32 && Delivers(r, key)
    requires l.acc == [] && l.events == Indications(r.frags) + Script(rest)
    ensures Recv(l, key, MAX_PLAINTEXT) ==
            (Message(r.cmd, r.payload), l.(events := Indications(empties) + Script(rest)))
    ensures Concat(empties) == []
  {
    hide Wire, Recv, Decode, Script, Indications, Complete, Concat;
    WireComplete(r.authId, key, r.cmd, r.payload, r.nonce);
    empties := RecvWhole(l, key, r.frags, rest);
    DecodeWire(Concat(r.frags), r.authId, key, r.cmd, r.payload, r.nonce, MAX_PLAINTEXT);
  }

  /** The link of a receiver with the replies rs still to come, after some empty indications. */
  ghost predicate Ready(l: Link, empties: seq<seq<byte>>, rs: seq<Reply>) {
    Pending(l, empties, Cuts(rs))
  }

  lemma RecvReady(l: Link, key: seq<byte>, empties: seq<seq<byte>>, rs: seq<Reply>) returns (empties': seq<seq<byte>>)
    requires |key| == 32 && Ready(l, empties, rs) && rs != [] && Delivers(rs[0], key)
    ensures Recv(l, key, MAX_PLAINTEXT).0 == Message(rs[0].cmd, rs[0].payload)
    ensures Ready(Recv(l, key, MAX_PLAINTEXT).1, empties', rs[1..])
    ensures Recv(l, key, MAX_PLAINTEXT).1.sent == l.sent && Recv(l, key, MAX_PLAINTEXT).1.writes == l.writes
  {
    hide Wire, Recv, Indications;
    var r := rs[0].(frags := empties + rs[0].frags);
    assert Cuts(rs)[1..] == Cuts(rs[1..]);
    MergeEmpties(l, empties, Cuts(rs));
    empties' := RecvReply(l, key, r, Cuts(rs[1..]));
  }

  /** The k-th message received is the k-th reply sent. */
  lemma {:induction false} NthReply(l: Link, key: seq<byte>, empties: seq<seq<byte>>, rs: seq<Reply>, k: nat)
    requires |key| == 32 && Ready(l, empties, rs) && k < |rs|
    requires forall i :: 0 <= i < |rs| ==> Delivers(rs[i], key)
    ensures Nth(l, key, k) == Message(rs[k].cmd, rs[k].payload)
    decreases k
  {
    hide Recv, Delivers;
    var empties' := RecvReady(l, key, empties, rs);
    if k > 0 {
      NthReply(Recv(l, key, MAX_PLAINTEXT).1, key, empties', rs[1..], k - 1);
      assert rs[1..][k - 1] == rs[k];
    }
  }

  function Asked(r: Reply): Received {
    Message(r.cmd, r.payload)
  }

  /** The last parseable state among the first k replies. */
  function LastReported(rs: seq<Reply>, k: nat): Option<KeyturnerState>
    requires k <= |rs|
  {
    if k == 0 then None
    else if StateOf(Asked(rs[k - 1])).Some? then StateOf(Asked(rs[k - 1]))
    else LastReported(rs, k - 1)
  }

  lemma {:induction false} LatestIsLastReported(l: Link, key: seq<byte>, empties: seq<seq<byte>>, rs: seq<Reply>, k: nat)
    requires |key| == 32 && Ready(l, empties, rs) && k <= |rs|
    requires forall i :: 0 <= i < |rs| ==> Delivers(rs[i], key)
    ensures Latest(l, key, k) == LastReported(rs, k)
    decreases k
  {
    hide Nth, StateOf, Delivers, Ready;
    if k > 0 {
      NthReply(l, key, empties, rs, k - 1);
      LatestIsLastReported(l, key, empties, rs, k - 1);
    }
  }

  /** Messages that only continue the command, and then COMPLETE. */
  ghost predicate Completing(rs: seq<Reply>) {
    && rs != []
    && (forall i :: 0 <= i < |rs| - 1 ==> Continues(Asked(rs[i])))
    && Completes(Asked(rs[|rs| - 1]))
  }

  /** A lock's challenge, and then at most nine messages that continue the command and COMPLETE. */
  ghost predicate Cooperates(rs: seq<Reply>, key: seq<byte>)
    requires |key| == 32
  {
    && 2 <= |rs| <= 11
    && rs[0].cmd == CMD_CHALLENGE && |rs[0].payload| == 32
    && Completing(rs[1..])
    && forall i :: 0 <= i < |rs| ==> Delivers(rs[i], key)
  }

  /** The command returned 0, with this state, after sending two frames. */
  ghost predicate Succeeded(d: Drained, l: Link, w1: seq<byte>, w2: seq<byte>, state: Option<KeyturnerState>) {
    d.rc == 0 && d.state == state && d.link.sent == l.sent + [w1] + [w2]
  }

  /** The last parseable state between the challenge and COMPLETE. */
  function Pushed(rs: seq<Reply>): Option<KeyturnerState> {
    if |rs| < 2 then None else LastReported(rs[1..], |rs| - 2)
  }

  /** What a lock reads from a LockAction: action, application id, no flags, and its challenge. */
  ghost predicate ReadsAction(p: seq<byte>, action: byte, appId: bv32, nonceK: seq<byte>) {
    |p| == 38 && p[0] == action && Get32(p[1..5]) == appId && p[5] == 0 && p[6..38] == nonceK
  }

  /** What a lock reads from a RequestCalibration: its challenge and the PIN. */
  ghost predicate ReadsCalibration(p: seq<byte>, pin: bv16, nonceK: seq<byte>) {
    |p| == 34 && p[..32] == nonceK && Get16(p[32..34]) == pin
  }

  /** A lock that sends its challenge, then at most nine continuing messages, then COMPLETE, in any fragmentation: a
      command built from a challenge succeeds, and the lock can read both requests, each under its own nonce and with the
      authorization id, the second one built from the challenge it issued. */
  lemma ChallengedSucceeds(l: Link, authId: bv32, key: seq<byte>, cmd: bv16, build: seq<byte> -> seq<byte>, want: bool,
                           nonces: (seq<byte>, seq<byte>), rs: seq<Reply>)
    returns (w1: seq<byte>, w2: seq<byte>)
    requires |key| == 32 && |nonces.0| == |nonces.1| == 24
    requires l.acc == [] && l.writes == [] && l.events == Script(Cuts(rs))
    requires Cooperates(rs, key) && |build(rs[0].payload)| <= 152
    ensures Conveys(w1, authId, key, nonces.0, CMD_REQUEST_DATA, Put16(CMD_CHALLENGE))
    ensures Conveys(w2, authId, key, nonces.1, cmd, build(rs[0].payload))
    ensures Succeeded(AfterChallenge(l, authId, key, cmd, build, want, nonces), l, w1, w2,
                      if want then Pushed(rs) else None)
  {
    hide Wire, Recv, Drain, Script, Indications, Decode, Continues, Completes, Delivers, Put16, Conveys;
    w1 := Wire(authId, key, CMD_REQUEST_DATA, Put16(CMD_CHALLENGE), nonces.0);
    var l1 := l.(sent := l.sent + [w1]);
    EmptyPending(l1, Cuts(rs));
    var empties := RecvReady(l1, key, [], rs);
    var l2 := Recv(l1, key, MAX_PLAINTEXT).1;
    var payload := build(rs[0].payload);
    w2 := Wire(authId, key, cmd, payload, nonces.1);
    var l3 := l2.(sent := l2.sent + [w2]);
    DrainReplies(l3, key, want, empties, rs[1..]);
    assert AfterChallenge(l, authId, key, cmd, build, want, nonces) == Drain(l3, key, want, DRAIN_MAX, None);
    DrainSends(l3, key, want, DRAIN_MAX, None);
    WireConveys(authId, key, CMD_REQUEST_DATA, Put16(CMD_CHALLENGE), nonces.0);
    WireConveys(authId, key, cmd, payload, nonces.1);
  }

  /** Against such a lock a lock action succeeds and reports the last state the lock pushed. The lock reads the action, the
      application id, no flags and its own challenge. */
  lemma LockActionSucceeds(l: Link, authId: bv32, appId: bv32, key: seq<byte>, action: byte,
                           nonces: (seq<byte>, seq<byte>), rs: seq<Reply>)
    returns (w1: seq<byte>, w2: seq<byte>, p: seq<byte>)
    requires |key| == 32 && |nonces.0| == |nonces.1| == 24
    requires l.acc == [] && l.writes == [] && l.events == Script(Cuts(rs))
    requires Cooperates(rs, key)
    ensures Conveys(w1, authId, key, nonces.0, 0x0001, Put16(0x0004))
    ensures Conveys(w2, authId, key, nonces.1, 0x000D, p)
    ensures ReadsAction(p, action, appId, rs[0].payload)
    ensures Succeeded(LockAction(l, authId, appId, key, action, true, nonces), l, w1, w2, Pushed(rs))
  {
    hide Script, Conveys, AfterChallenge, Put16, Get32, Delivers, ActionPayload;
    p := ActionPayload(action, appId, rs[0].payload);
    PayloadFields(action, appId, 0, rs[0].payload);
    w1, w2 := ChallengedSucceeds(l, authId, key, CMD_LOCK_ACTION, n => ActionPayload(action, appId, n), true, nonces, rs);
  }

  /** Against such a lock a calibration succeeds. The lock reads its own challenge and the PIN. */
  lemma CalibrationSucceeds(l: Link, authId: bv32, key: seq<byte>, pin: bv16, nonces: (seq<byte>, seq<byte>),
                            rs: seq<Reply>)
    returns (w1: seq<byte>, w2: seq<byte>, p: seq<byte>)
    requires |key| == 32 && |nonces.0| == |nonces.1| == 24
    requires l.acc == [] && l.writes == [] && l.events == Script(Cuts(rs))
    requires Cooperates(rs, key)
    ensures Conveys(w1, authId, key, nonces.0, 0x0001, Put16(0x0004))
    ensures Conveys(w2, authId, key, nonces.1, 0x001A, p)
    ensures ReadsCalibration(p, pin, rs[0].payload)
    ensures Succeeded(Calibrate(l, authId, key, pin, nonces), l, w1, w2, None)
  {
    hide Script, Conveys, AfterChallenge, Put16, Get16, Delivers, CalibrationPayload;
    p := CalibrationPayload(pin, rs[0].payload);
    PayloadFields(0, 0, pin, rs[0].payload);
    w1, w2 := ChallengedSucceeds(l, authId, key, CMD_REQUEST_CALIBRATION, n => CalibrationPayload(pin, n), false, nonces,
                                 rs);
  }

  lemma DrainReplies(l: Link, key: seq<byte>, want: bool, empties: seq<seq<byte>>, rs: seq<Reply>)
    requires |key| == 32 && Ready(l, empties, rs) && 1 <= |rs| <= DRAIN_MAX
    requires forall i :: 0 <= i < |rs| ==> Delivers(rs[i], key)
    requires Completing(rs)
    ensures Drain(l, key, want, DRAIN_MAX, None).rc == 0
    ensures Drain(l, key, want, DRAIN_MAX, None).state == if want then LastReported(rs, |rs| - 1) else None
  {
    hide Drain, Nth, Continues, Completes, Delivers, Ready, Latest;
    var k := |rs| - 1;
    forall i | 0 <= i < |rs| ensures Nth(l, key, i) == Asked(rs[i]) {
      NthReply(l, key, empties, rs, i);
    }
    assert EndsAt(l, key, k) by {
      CompletingEnds(Asked(rs[k]));
    }
    DrainMeaning(l, key, want, DRAIN_MAX, None);
    LatestIsLastReported(l, key, empties, rs, k);
    CompletingEnds(Asked(rs[k]));
  }

  lemma CompletingEnds(m: Received)
    requires Completes(m)
    ensures !Continues(m) && Verdict(m) == 0
  {
  }

  lemma {:induction false} DrainSends(l: Link, key: seq<byte>, want: bool, left: nat, got: Option<KeyturnerState>)
    requires |key| == 32
    ensures Drain(l, key, want, left, got).link.sent == l.sent
    decreases left
  {
    hide Decrypt, ParseState, LeNat, Wait;
    if left > 0 {
      var (m, l') := Recv(l, key, MAX_PLAINTEXT);
      assert l'.sent == l.sent;
      hide Recv;
      if Continues(m) {
        DrainSends(l', key, want, left - 1, if want && StateOf(m).Some? then StateOf(m) else got);
      }
    }
  }

  // ------------------------------------------------------ last state, not first

  /** The first parseable state among the first k replies. */
  function FirstReported(rs: seq<Reply>, k: nat): Option<KeyturnerState>
    requires k <= |rs|
  {
    if k == 0 then None
    else if FirstReported(rs, k - 1).Some? then FirstReported(rs, k - 1)
    else StateOf(Asked(rs[k - 1]))
  }

  /** The reported state is the first one exactly when the first parseable reply i and the last one j carry the same. */
  lemma FirstIsLastIff(rs: seq<Reply>, k: nat, i: nat, j: nat)
    requires i <= j < k <= |rs|
    requires StateOf(Asked(rs[i])).Some? && forall n :: 0 <= n < i ==> StateOf(Asked(rs[n])).None?
    requires StateOf(Asked(rs[j])).Some? && forall n :: j < n < k ==> StateOf(Asked(rs[n])).None?
    ensures LastReported(rs, k) == StateOf(Asked(rs[j])) && FirstReported(rs, k) == StateOf(Asked(rs[i]))
    ensures LastReported(rs, k) == FirstReported(rs, k) <==> StateOf(Asked(rs[i])) == StateOf(Asked(rs[j]))
  {
    hide StateOf;
    LastAt(rs, k, j);
    NoneBefore(rs, i);
    FirstAt(rs, k, i);
  }

  lemma {:induction false} LastAt(rs: seq<Reply>, k: nat, j: nat)
    requires j < k <= |rs|
    requires StateOf(Asked(rs[j])).Some? && forall n :: j < n < k ==> StateOf(Asked(rs[n])).None?
    ensures LastReported(rs, k) == StateOf(Asked(rs[j]))
  {
    if j < k - 1 {
      LastAt(rs, k - 1, j);
    }
  }

  lemma {:induction false} NoneBefore(rs: seq<Reply>, i: nat)
    requires i <= |rs| && forall n :: 0 <= n < i ==> StateOf(Asked(rs[n])).None?
    ensures FirstReported(rs, i).None?
  {
    if i > 0 {
      NoneBefore(rs, i - 1);
    }
  }

  lemma {:induction false} FirstAt(rs: seq<Reply>, k: nat, i: nat)
    requires i < k <= |rs| && StateOf(Asked(rs[i])).Some? && FirstReported(rs, i).None?
    ensures FirstReported(rs, k) == StateOf(Asked(rs[i]))
  {
    if i < k - 1 {
      FirstAt(rs, k - 1, i);
    }
  }

  /** One message delivered in one piece. */
  function Whole(key: seq<byte>, cmd: bv16, payload: seq<byte>, nonce: seq<byte>): (r: Reply)
    requires |key| == 32 && |nonce| == 24
  {
    Reply(0, cmd, payload, nonce, [Wire(0, key, cmd, payload, nonce)])
  }

  lemma WholeDelivers(key: seq<byte>, cmd: bv16, payload: seq<byte>, nonce: seq<byte>)
    requires |key| == 32 && |nonce| == 24 && |payload| <= MAX_RECV
    ensures Delivers(Whole(key, cmd, payload, nonce), key)
  {
    hide Wire;
    var w := Wire(0, key, cmd, payload, nonce);
    assert Concat([w]) == w + Concat([w][1..]) == w;
  }

  /** Two payloads of 13 bytes, with lock states 0 and 1. */
  const UNCALIBRATED: seq<byte> := [0, 0, 0, 0, 0, 0, 0, 0, 0, 0, 0, 0, 0]
  const LOCKED: seq<byte> := [0, 1, 0, 0, 0, 0, 0, 0, 0, 0, 0, 0, 0]

  function TwoStates(key: seq<byte>, nonce: seq<byte>): (rs: seq<Reply>)
    requires |key| == 32 && |nonce| == 24
    ensures |rs| == 3
  {
    [Whole(key, CMD_KEYTURNER_STATES, UNCALIBRATED, nonce), Whole(key, CMD_KEYTURNER_STATES, LOCKED, nonce),
     Whole(key, CMD_STATUS, [STATUS_COMPLETE], nonce)]
  }

  /** An input on which they differ: two state updates and COMPLETE; the second update is the one reported. */
  lemma SecondStateReported(key: seq<byte>, nonce: seq<byte>)
    requires |key| == 32 && |nonce| == 24
    ensures var d := Drain(Link([], Script(Cuts(TwoStates(key, nonce))), [], []), key, true, DRAIN_MAX, None);
            d.rc == 0 && d.state == ParseState(LOCKED) != ParseState(UNCALIBRATED)
  {
    hide Wire, Drain, Script, Delivers, Get16;
    var rs := TwoStates(key, nonce);
    var l := Link([], Script(Cuts(rs)), [], []);
    WholeDelivers(key, CMD_KEYTURNER_STATES, UNCALIBRATED, nonce);
    WholeDelivers(key, CMD_KEYTURNER_STATES, LOCKED, nonce);
    WholeDelivers(key, CMD_STATUS, [STATUS_COMPLETE], nonce);
    assert Ready(l, [], rs) by {
      assert Indications([]) + Script(Cuts(rs)) == Script(Cuts(rs));
    }
    DrainReplies(l, key, true, [], rs);
    FirstIsLastIff(rs, 2, 0, 1);
  }
}
