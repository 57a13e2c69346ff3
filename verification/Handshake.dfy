/** Pairing as a protocol between two parties: a lock that follows the handshake, and what success means against any peer. */
module Handshake {
  import opened Bytes
  import opened Codes
  import opened Frames
  import opened Transport
  import opened Fragments
  import opened Pairing
  import SecretBox

  // -------------------------------------------------------------------- the lock

  /** A lock's key pair and the values it draws for one pairing. */
  datatype Lock = Lock(priv: Key, pub: Key, challenge1: Key, challenge2: Key, authId: bv32, uuid: seq<byte>, nonceK: Key)

  datatype LockState =
    | AwaitRequest
    | AwaitKey
    | AwaitAuthenticator(clPub: Key, key: Key)
    | AwaitData(key: Key)
    | AwaitConfirmation(key: Key, appId: bv32, name: seq<byte>)
    | Paired(key: Key, authId: bv32, appId: bv32, name: seq<byte>)
    | Rejected

  /** authId | uuid | nonceK */
  function IdBody(k: Lock): seq<byte> {
    Put32(k.authId) + k.uuid + k.nonceK
  }

  /** The lock's reaction to one frame: its next state and its reply. */
  function React(k: Lock, p: Provider, s: LockState, frame: seq<byte>): (LockState, seq<byte>) {
    match ParsePlain(frame)
    case PlainError(_) => (Rejected, [])
    case Plain(cmd, payload) =>
      if s.AwaitRequest? && cmd == CMD_REQUEST_DATA && payload == Put16(CMD_PUBLIC_KEY) then
        (AwaitKey, PlainFrame(CMD_PUBLIC_KEY, k.pub))
      else if s.AwaitKey? && cmd == CMD_PUBLIC_KEY && |payload| == 32 then
        match p.dh(k.priv, payload)
        case None => (Rejected, [])
        case Some(d) => (AwaitAuthenticator(payload, SecretBox.Kdf1(d)), PlainFrame(CMD_CHALLENGE, k.challenge1))
      else if s.AwaitAuthenticator? && cmd == CMD_AUTH_AUTHENTICATOR && |payload| == 32
              && p.mac(s.key, s.clPub + k.pub + k.challenge1) == Some(payload) then
        (AwaitData(s.key), PlainFrame(CMD_CHALLENGE, k.challenge2))
      else if s.AwaitData? && cmd == CMD_AUTH_DATA && |payload| == 101 && payload[32] == 0
              && p.mac(s.key, payload[32..] + k.challenge2) == Some(payload[..32]) then
        match p.mac(s.key, IdBody(k) + payload[69..])
        case None => (Rejected, [])
        case Some(a) =>
          (AwaitConfirmation(s.key, Get32(payload[33..37]), payload[37..69]), PlainFrame(CMD_AUTH_ID, a + IdBody(k)))
      else if s.AwaitConfirmation? && cmd == CMD_AUTH_ID_CONFIRMATION && |payload| == 36
              && payload[32..] == Put32(k.authId)
              && p.mac(s.key, payload[32..] + k.nonceK) == Some(payload[..32]) then
        (Paired(s.key, k.authId, s.appId, s.name), PlainFrame(CMD_STATUS, [STATUS_COMPLETE]))
      else (Rejected, [])
  }

  /** The lock's state after a list of frames, and its replies. */
  function Serve(k: Lock, p: Provider, s: LockState, frames: seq<seq<byte>>): (LockState, seq<seq<byte>>)
    decreases |frames|
  {
    if frames == [] then (s, [])
    else
      var (s1, reply) := React(k, p, s, frames[0]);
      var (s2, replies) := Serve(k, p, s1, frames[1..]);
      (s2, [reply] + replies)
  }

  /** A 32-byte name field holds a text, padded with zeros. */
  ghost predicate Names(name: seq<byte>, text: string) {
    && |text| <= |name| == 32
    && (forall i :: 0 <= i < |text| ==> Nat8(name[i]) == text[i] as nat)
    && forall i :: |text| <= i < 32 ==> name[i] == 0
  }

  lemma ClientName()
    ensures Names(APP_NAME, "NRF52840 Central")
  {
    hide Nat8;
    NameBegins();
    NameEnds();
  }

  lemma NameBegins()
    ensures forall i :: 0 <= i < 8 ==> Nat8(APP_NAME[i]) == "NRF52840 Central"[i] as nat
  {
  }

  lemma NameEnds()
    ensures forall i :: 8 <= i < 16 ==> Nat8(APP_NAME[i]) == "NRF52840 Central"[i] as nat
  {
  }

  // -------------------------------------------------------------- the honest run

  /** The one assumption about the primitives: Diffie-Hellman agreement, and a mac that does not fail. */
  ghost predicate Agreement(k: Lock, p: Provider, draw: Draw) {
    && draw.keyPair.Some?
    && p.dh(draw.keyPair.value.1, k.pub).Some?
    && p.dh(draw.keyPair.value.1, k.pub) == p.dh(k.priv, draw.keyPair.value.0)
    && (forall key: Key, text: seq<byte> :: p.mac(key, text).Some?)
  }

  /** What the two parties compute in an honest run: the shared key and the four authenticators. */
  datatype Run = Run(key: Key, proof: Key, data: Key, id: Key, confirm: Key)

  ghost predicate Honest(k: Lock, p: Provider, draw: Draw, run: Run) {
    && draw.init == 0 && |k.uuid| == 16 && Agreement(k, p, draw)
    && var clPub := draw.keyPair.value.0;
    && p.mac(run.key, clPub + k.pub + k.challenge1) == Some(run.proof)
    && p.mac(run.key, DataBody(draw) + k.challenge2) == Some(run.data)
    && p.mac(run.key, IdBody(k) + draw.nonceABF) == Some(run.id)
    && p.mac(run.key, Put32(k.authId) + k.nonceK) == Some(run.confirm)
    && run.key == SecretBox.Kdf1(p.dh(draw.keyPair.value.1, k.pub).value)
  }

  function ClientFrames(k: Lock, draw: Draw, run: Run): (f: seq<seq<byte>>)
    requires draw.keyPair.Some?
    ensures |f| == 5
  {
    [PlainFrame(CMD_REQUEST_DATA, Put16(CMD_PUBLIC_KEY)),
     PlainFrame(CMD_PUBLIC_KEY, draw.keyPair.value.0),
     PlainFrame(CMD_AUTH_AUTHENTICATOR, run.proof),
     PlainFrame(CMD_AUTH_DATA, run.data + DataBody(draw)),
     PlainFrame(CMD_AUTH_ID_CONFIRMATION, run.confirm + Put32(k.authId))]
  }

  function LockFrames(k: Lock, run: Run): (f: seq<seq<byte>>)
    ensures |f| == 5
  {
    [PlainFrame(CMD_PUBLIC_KEY, k.pub),
     PlainFrame(CMD_CHALLENGE, k.challenge1),
     PlainFrame(CMD_CHALLENGE, k.challenge2),
     PlainFrame(CMD_AUTH_ID, run.id + IdBody(k)),
     PlainFrame(CMD_STATUS, [STATUS_COMPLETE])]
  }

  /** Receiving takes exactly one frame off the script. */
  lemma RecvNext(l: Link, empties: seq<seq<byte>>, cuts: seq<seq<seq<byte>>>, wanted: bv16, payload: seq<byte>)
    returns (empties': seq<seq<byte>>, l': Link)
    requires Pending(l, empties, cuts) && cuts != [] && Concat(cuts[0]) == PlainFrame(wanted, payload)
    requires Expectable(wanted, |payload|) && |payload| <= FRAME_MAX - 4
    ensures RecvPlain(l, wanted, |payload|) == Done(l', payload)
    ensures Pending(l', empties', cuts[1..]) && l'.sent == l.sent && l'.writes == l.writes
  {
    hide PlainFrame, ParsePlain, Wait, Script, Indications, Get16;
    var f := PlainFrame(wanted, payload);
    MergeEmpties(l, empties, cuts);
    empties' := WaitAndReset(l, empties + cuts[0], cuts[1..], 2);
    var l1 := Wait(l, 2).0;
    assert l1.acc[..2] == f[..2];
    FrameCommand(wanted, payload);
    PlainInverse(f, wanted, payload);
    assert f[..|f|] == f;
    l' := l.(events := Indications(empties') + Script(cuts[1..]));
  }

  lemma SendNext(l: Link, cmd: bv16, payload: seq<byte>)
    requires l.writes == [] && |payload| <= FRAME_MAX - 4
    ensures SendPlain(l, cmd, payload) == Done(l.(sent := l.sent + [PlainFrame(cmd, payload)]), ())
  {
  }

  /** The client's side of the honest run, up to the second challenge. */
  lemma ClientBegins(l: Link, k: Lock, p: Provider, draw: Draw, run: Run, cuts: seq<seq<seq<byte>>>)
    returns (l1: Link, l2: Link, l3: Link, empties: seq<seq<byte>>)
    requires Honest(k, p, draw, run)
    requires l.writes == [] && |cuts| == 5 && Pending(l, [], cuts)
    requires Concat(cuts[0]) == PlainFrame(CMD_PUBLIC_KEY, k.pub)
    requires Concat(cuts[1]) == PlainFrame(CMD_CHALLENGE, k.challenge1)
    requires Concat(cuts[2]) == PlainFrame(CMD_CHALLENGE, k.challenge2)
    ensures Greet(l) == Done(l1, k.pub)
    ensures Agree(l1, p, draw.keyPair.value, k.pub) == Done(l2, Agreed(run.key, k.challenge1))
    ensures Answer(l2, p, run.key, draw.keyPair.value.0 + k.pub + k.challenge1) == Done(l3, k.challenge2)
    ensures Pending(l3, empties, cuts[3..]) && l3.writes == []
    ensures l3.sent == l.sent + [PlainFrame(CMD_REQUEST_DATA, Put16(CMD_PUBLIC_KEY))]
                       + [PlainFrame(CMD_PUBLIC_KEY, draw.keyPair.value.0)]
                       + [PlainFrame(CMD_AUTH_AUTHENTICATOR, run.proof)]
  {
    hide SendPlain, RecvPlain, PlainFrame, Put16, Put32, SecretBox.Kdf1, DataBody, Script, Indications, Concat;
    var clPub := draw.keyPair.value.0;
    var m1, m2 := PlainFrame(CMD_REQUEST_DATA, Put16(CMD_PUBLIC_KEY)), PlainFrame(CMD_PUBLIC_KEY, clPub);
    var m3 := PlainFrame(CMD_AUTH_AUTHENTICATOR, run.proof);
    SendNext(l, CMD_REQUEST_DATA, Put16(CMD_PUBLIC_KEY));
    empties, l1 := RecvNext(l.(sent := l.sent + [m1]), [], cuts, CMD_PUBLIC_KEY, k.pub);
    SendNext(l1, CMD_PUBLIC_KEY, clPub);
    empties, l2 := RecvNext(l1.(sent := l1.sent + [m2]), empties, cuts[1..], CMD_CHALLENGE, k.challenge1);
    SendNext(l2, CMD_AUTH_AUTHENTICATOR, run.proof);
    empties, l3 := RecvNext(l2.(sent := l2.sent + [m3]), empties, cuts[1..][1..], CMD_CHALLENGE, k.challenge2);
    assert cuts[1..][1..][1..] == cuts[3..];
  }

  /** The client's side of the honest run. */
  lemma ClientCompletes(l: Link, k: Lock, p: Provider, draw: Draw, run: Run, cuts: seq<seq<seq<byte>>>)
    returns (l5: Link)
    requires Honest(k, p, draw, run)
    requires l.writes == [] && |cuts| == 5 && Pending(l, [], cuts)
    requires Concat(cuts[0]) == PlainFrame(CMD_PUBLIC_KEY, k.pub)
    requires Concat(cuts[1]) == PlainFrame(CMD_CHALLENGE, k.challenge1)
    requires Concat(cuts[2]) == PlainFrame(CMD_CHALLENGE, k.challenge2)
    requires Concat(cuts[3]) == PlainFrame(CMD_AUTH_ID, run.id + IdBody(k))
    requires Concat(cuts[4]) == PlainFrame(CMD_STATUS, [STATUS_COMPLETE])
    ensures Pair(l, p, draw) == Done(l5, PairingData(k.authId, draw.appId, run.key, k.uuid))
    ensures l5.sent == l.sent + ClientFrames(k, draw, run)
  {
    hide PlainFrame, Put16, Put32, Get32, SecretBox.Kdf1, DataBody, Script, Indications, Greet, Agree, Answer, Authorize,
      Confirm, Concat, Pair;
    var l1, l2, l3, empties := ClientBegins(l, k, p, draw, run, cuts);
    var id := run.id + IdBody(k);
    var l4;
    l4, l5 := ClientFinishes(l3, k, p, draw, run, empties, cuts[3..]);
    IdFields(k, run);
    PairStages(l, p, draw, l1, l2, l3, l4, l5, k.pub, Agreed(run.key, k.challenge1), k.challenge2, id);
  }

  lemma IdFields(k: Lock, run: Run)
    requires |k.uuid| == 16
    ensures var id := run.id + IdBody(k);
            id[32..36] == Put32(k.authId) && id[36..52] == k.uuid && id[52..84] == k.nonceK
    ensures Get32(Put32(k.authId)) == k.authId
  {
    hide Put32, Get32;
    Word32RoundTrip(k.authId);
  }

  lemma PairStages(l: Link, p: Provider, draw: Draw, l1: Link, l2: Link, l3: Link, l4: Link, l5: Link,
                   slPub: Key, agreed: Agreed, challenge: Key, id: seq<byte>)
    requires draw.init == 0 && draw.keyPair.Some? && |id| == 84
    requires Greet(l) == Done(l1, slPub)
    requires Agree(l1, p, draw.keyPair.value, slPub) == Done(l2, agreed)
    requires Answer(l2, p, agreed.key, draw.keyPair.value.0 + slPub + agreed.challenge) == Done(l3, challenge)
    requires Authorize(l3, p, agreed.key, draw, challenge) == Done(l4, id)
    requires Confirm(l4, p, agreed.key, id[32..36], id[52..84]) == Done(l5, ())
    ensures Pair(l, p, draw) == Done(l5, PairingData(Get32(id[32..36]), draw.appId, agreed.key, id[36..52]))
  {
    hide Greet, Agree, Answer, Authorize, Confirm, Get32;
  }

  lemma ClientFinishes(l: Link, k: Lock, p: Provider, draw: Draw, run: Run, empties: seq<seq<byte>>,
                       cuts: seq<seq<seq<byte>>>)
    returns (l4: Link, l5: Link)
    requires Honest(k, p, draw, run)
    requires l.writes == [] && |cuts| == 2 && Pending(l, empties, cuts)
    requires Concat(cuts[0]) == PlainFrame(CMD_AUTH_ID, run.id + IdBody(k))
    requires Concat(cuts[1]) == PlainFrame(CMD_STATUS, [STATUS_COMPLETE])
    ensures Authorize(l, p, run.key, draw, k.challenge2) == Done(l4, run.id + IdBody(k))
    ensures Confirm(l4, p, run.key, Put32(k.authId), k.nonceK) == Done(l5, ())
    ensures l5.sent == l.sent + [PlainFrame(CMD_AUTH_DATA, run.data + DataBody(draw))]
                       + [PlainFrame(CMD_AUTH_ID_CONFIRMATION, run.confirm + Put32(k.authId))]
  {
    hide SendPlain, RecvPlain, PlainFrame, Put32, SecretBox.Kdf1, DataBody, Concat, Script, Indications;
    var m4 := PlainFrame(CMD_AUTH_DATA, run.data + DataBody(draw));
    SendNext(l, CMD_AUTH_DATA, run.data + DataBody(draw));
    var id := run.id + IdBody(k);
    var e4, e5;
    e4, l4 := RecvNext(l.(sent := l.sent + [m4]), empties, cuts, CMD_AUTH_ID, id);
    assert id[..32] == run.id && id[32..] == IdBody(k);
    var m5 := PlainFrame(CMD_AUTH_ID_CONFIRMATION, run.confirm + Put32(k.authId));
    SendNext(l4, CMD_AUTH_ID_CONFIRMATION, run.confirm + Put32(k.authId));
    e5, l5 := RecvNext(l4.(sent := l4.sent + [m5]), e4, cuts[1..], CMD_STATUS, [STATUS_COMPLETE]);
  }

  // ---------------------------------------------------------------- the lock's side

  lemma ReactRequest(k: Lock, p: Provider)
    ensures React(k, p, AwaitRequest, PlainFrame(CMD_REQUEST_DATA, Put16(CMD_PUBLIC_KEY)))
            == (AwaitKey, PlainFrame(CMD_PUBLIC_KEY, k.pub))
  {
    hide PlainFrame, ParsePlain, Put16;
    var f := PlainFrame(CMD_REQUEST_DATA, Put16(CMD_PUBLIC_KEY));
    PlainInverse(f, CMD_REQUEST_DATA, Put16(CMD_PUBLIC_KEY));
  }

  lemma ReactKey(k: Lock, p: Provider, draw: Draw, run: Run)
    requires Honest(k, p, draw, run)
    ensures React(k, p, AwaitKey, PlainFrame(CMD_PUBLIC_KEY, draw.keyPair.value.0))
            == (AwaitAuthenticator(draw.keyPair.value.0, run.key), PlainFrame(CMD_CHALLENGE, k.challenge1))
  {
    hide PlainFrame, ParsePlain, Put16, Put32, DataBody, SecretBox.Kdf1;
    var clPub := draw.keyPair.value.0;
    PlainInverse(PlainFrame(CMD_PUBLIC_KEY, clPub), CMD_PUBLIC_KEY, clPub);
  }

  lemma ReactProof(k: Lock, p: Provider, draw: Draw, run: Run)
    requires Honest(k, p, draw, run)
    ensures React(k, p, AwaitAuthenticator(draw.keyPair.value.0, run.key), PlainFrame(CMD_AUTH_AUTHENTICATOR, run.proof))
            == (AwaitData(run.key), PlainFrame(CMD_CHALLENGE, k.challenge2))
  {
    hide PlainFrame, ParsePlain, Put16, Put32, DataBody, SecretBox.Kdf1;
    PlainInverse(PlainFrame(CMD_AUTH_AUTHENTICATOR, run.proof), CMD_AUTH_AUTHENTICATOR, run.proof);
  }

  lemma ReactData(k: Lock, p: Provider, draw: Draw, run: Run)
    requires Honest(k, p, draw, run)
    ensures React(k, p, AwaitData(run.key), PlainFrame(CMD_AUTH_DATA, run.data + DataBody(draw)))
            == (AwaitConfirmation(run.key, draw.appId, APP_NAME), PlainFrame(CMD_AUTH_ID, run.id + IdBody(k)))
  {
    hide PlainFrame, ParsePlain, Put16, Put32, Get32, SecretBox.Kdf1;
    var payload := run.data + DataBody(draw);
    PlainInverse(PlainFrame(CMD_AUTH_DATA, payload), CMD_AUTH_DATA, payload);
    assert payload[..32] == run.data && payload[32..] == DataBody(draw);
    assert payload[33..37] == Put32(draw.appId) && payload[69..] == draw.nonceABF;
    assert payload[32] == ID_TYPE_APP && payload[37..69] == APP_NAME;
    Word32RoundTrip(draw.appId);
  }

  lemma ReactConfirmation(k: Lock, p: Provider, draw: Draw, run: Run)
    requires Honest(k, p, draw, run)
    ensures React(k, p, AwaitConfirmation(run.key, draw.appId, APP_NAME),
                  PlainFrame(CMD_AUTH_ID_CONFIRMATION, run.confirm + Put32(k.authId)))
            == (Paired(run.key, k.authId, draw.appId, APP_NAME), PlainFrame(CMD_STATUS, [STATUS_COMPLETE]))
  {
    hide PlainFrame, ParsePlain, Put16, Put32, DataBody, SecretBox.Kdf1;
    var payload := run.confirm + Put32(k.authId);
    PlainInverse(PlainFrame(CMD_AUTH_ID_CONFIRMATION, payload), CMD_AUTH_ID_CONFIRMATION, payload);
    assert payload[..32] == run.confirm && payload[32..] == Put32(k.authId);
  }

  lemma ServeCons(k: Lock, p: Provider, s: LockState, f: seq<byte>, tail: seq<seq<byte>>, s': LockState, r: seq<byte>)
    requires React(k, p, s, f) == (s', r)
    ensures var (end, replies) := Serve(k, p, s', tail); Serve(k, p, s, [f] + tail) == (end, [r] + replies)
  {
    hide React;
    assert ([f] + tail)[0] == f && ([f] + tail)[1..] == tail;
  }

  lemma LockTail(k: Lock, p: Provider, draw: Draw, run: Run)
    requires Honest(k, p, draw, run)
    ensures Serve(k, p, AwaitData(run.key), ClientFrames(k, draw, run)[3..])
            == (Paired(run.key, k.authId, draw.appId, APP_NAME), LockFrames(k, run)[3..])
  {
    hide React, PlainFrame, Put16, Put32, DataBody, IdBody, SecretBox.Kdf1;
    ReactData(k, p, draw, run);
    ReactConfirmation(k, p, draw, run);
    var fs, rs := ClientFrames(k, draw, run), LockFrames(k, run);
    var s := AwaitConfirmation(run.key, draw.appId, APP_NAME);
    ServeCons(k, p, s, fs[4], [], Paired(run.key, k.authId, draw.appId, APP_NAME), rs[4]);
    ServeCons(k, p, AwaitData(run.key), fs[3], [fs[4]] + [], s, rs[3]);
    assert fs[3..] == [fs[3]] + ([fs[4]] + []) && rs[3..] == [rs[3]] + ([rs[4]] + []);
  }

  /** The lock's side of the honest run: it accepts the five client frames and answers with its five. */
  lemma LockCompletes(k: Lock, p: Provider, draw: Draw, run: Run)
    requires Honest(k, p, draw, run)
    ensures Serve(k, p, AwaitRequest, ClientFrames(k, draw, run))
            == (Paired(run.key, k.authId, draw.appId, APP_NAME), LockFrames(k, run))
  {
    hide React, PlainFrame, Put16, Put32, DataBody, IdBody, SecretBox.Kdf1, Serve;
    LockTail(k, p, draw, run);
    ReactRequest(k, p);
    ReactKey(k, p, draw, run);
    ReactProof(k, p, draw, run);
    var fs, rs := ClientFrames(k, draw, run), LockFrames(k, run);
    var clPub := draw.keyPair.value.0;
    ServeCons(k, p, AwaitAuthenticator(clPub, run.key), fs[2], fs[3..], AwaitData(run.key), rs[2]);
    ServeCons(k, p, AwaitKey, fs[1], [fs[2]] + fs[3..], AwaitAuthenticator(clPub, run.key), rs[1]);
    ServeCons(k, p, AwaitRequest, fs[0], [fs[1]] + ([fs[2]] + fs[3..]), AwaitKey, rs[0]);
    assert fs == [fs[0]] + ([fs[1]] + ([fs[2]] + fs[3..])) && rs == [rs[0]] + ([rs[1]] + ([rs[2]] + rs[3..]));
  }

  /** Against a lock that follows the handshake, under any fragmentation of its replies and assuming only Diffie-Hellman
      agreement, pairing succeeds, the frames the client sends make the lock give exactly the replies delivered, and both
      sides end with the same key, authorization id and application id, and the lock with the client's name. */
  lemma HonestPairing(l: Link, k: Lock, p: Provider, draw: Draw, run: Run, cuts: seq<seq<seq<byte>>>)
    requires Honest(k, p, draw, run)
    requires l.acc == [] && l.writes == [] && l.sent == [] && |cuts| == 5 && l.events == Script(cuts)
    requires forall i :: 0 <= i < 5 ==> Concat(cuts[i]) == LockFrames(k, run)[i]
    ensures var o := Pair(l, p, draw);
            && o.Done? && o.value.uuid == k.uuid
            && Serve(k, p, AwaitRequest, o.link.sent)
               == (Paired(o.value.key, o.value.authId, o.value.appId, APP_NAME), LockFrames(k, run))
    ensures Names(APP_NAME, "NRF52840 Central")
  {
    ClientName();
    hide Pair, Serve, ClientFrames, SecretBox.Kdf1, DataBody, Script, Concat, Indications, PlainFrame, LockFrames;
    Delivered(l, k, run, cuts);
    var l5 := ClientCompletes(l, k, p, draw, run, cuts);
    LockCompletes(k, p, draw, run);
    assert [] + ClientFrames(k, draw, run) == ClientFrames(k, draw, run);
  }

  lemma Delivered(l: Link, k: Lock, run: Run, cuts: seq<seq<seq<byte>>>)
    requires l.acc == [] && |cuts| == 5 && l.events == Script(cuts)
    requires forall i :: 0 <= i < 5 ==> Concat(cuts[i]) == LockFrames(k, run)[i]
    ensures Pending(l, [], cuts)
    ensures Concat(cuts[0]) == PlainFrame(CMD_PUBLIC_KEY, k.pub)
    ensures Concat(cuts[1]) == PlainFrame(CMD_CHALLENGE, k.challenge1)
    ensures Concat(cuts[2]) == PlainFrame(CMD_CHALLENGE, k.challenge2)
    ensures Concat(cuts[3]) == PlainFrame(CMD_AUTH_ID, run.id + IdBody(k))
    ensures Concat(cuts[4]) == PlainFrame(CMD_STATUS, [STATUS_COMPLETE])
  {
    hide PlainFrame, Put32;
    assert Indications([]) + Script(cuts) == Script(cuts);
  }

  // ------------------------------------------------------- dishonest endings

  /** Primitives that fail: no backend, and nothing is sent; no key pair, -EIO after the first frame; no shared secret or no
      authenticator, -EIO after the second. */
  lemma PrimitivesFail(l: Link, k: Lock, p: Provider, draw: Draw, cuts: seq<seq<seq<byte>>>)
    requires l.writes == [] && |cuts| == 2 && Pending(l, [], cuts)
    requires Concat(cuts[0]) == PlainFrame(CMD_PUBLIC_KEY, k.pub)
    requires Concat(cuts[1]) == PlainFrame(CMD_CHALLENGE, k.challenge1)
    ensures draw.init != 0 ==> Pair(l, p, draw) == Fail(l, draw.init)
    ensures var o := Pair(l, p, draw);
            && (draw.init == 0 && draw.keyPair.None? ==> o.Fail? && o.rc == -EIO && |o.link.sent| == |l.sent| + 1)
            && (draw.init == 0 && draw.keyPair.Some? && p.dh(draw.keyPair.value.1, k.pub).None? ==>
                  o.Fail? && o.rc == -EIO && |o.link.sent| == |l.sent| + 2)
            && (draw.init == 0 && draw.keyPair.Some? && (forall key: Key, text: seq<byte> :: p.mac(key, text).None?) ==>
                  o.Fail? && o.rc == -EIO && |o.link.sent| == |l.sent| + 2)
  {
    hide PlainFrame, Put16, SecretBox.Kdf1, DataBody, Script, Indications, Concat, SendPlain, RecvPlain, Authorize, Confirm;
    var m1 := PlainFrame(CMD_REQUEST_DATA, Put16(CMD_PUBLIC_KEY));
    SendNext(l, CMD_REQUEST_DATA, Put16(CMD_PUBLIC_KEY));
    var e1, l1 := RecvNext(l.(sent := l.sent + [m1]), [], cuts, CMD_PUBLIC_KEY, k.pub);
    if draw.keyPair.Some? {
      var clPub := draw.keyPair.value.0;
      SendNext(l1, CMD_PUBLIC_KEY, clPub);
      var e2, l2 := RecvNext(l1.(sent := l1.sent + [PlainFrame(CMD_PUBLIC_KEY, clPub)]), e1, cuts[1..], CMD_CHALLENGE,
                             k.challenge1);
    }
  }

  /** The frame the client answers the second challenge with, and the link on which it then listens. */
  lemma SendsData(l: Link, p: Provider, draw: Draw, run: Run, challenge: Key)
    requires l.writes == [] && p.mac(run.key, DataBody(draw) + challenge) == Some(run.data)
    ensures var m4 := PlainFrame(CMD_AUTH_DATA, run.data + DataBody(draw));
            SendPlain(l, CMD_AUTH_DATA, run.data + DataBody(draw)) == Done(l.(sent := l.sent + [m4]), ())
  {
    hide SendPlain, DataBody;
    SendNext(l, CMD_AUTH_DATA, run.data + DataBody(draw));
  }

  lemma PairFailsLate(l: Link, p: Provider, draw: Draw, l1: Link, l2: Link, l3: Link, slPub: Key, agreed: Agreed,
                      challenge: Key)
    requires draw.init == 0 && draw.keyPair.Some?
    requires Greet(l) == Done(l1, slPub)
    requires Agree(l1, p, draw.keyPair.value, slPub) == Done(l2, agreed)
    requires Answer(l2, p, agreed.key, draw.keyPair.value.0 + slPub + agreed.challenge) == Done(l3, challenge)
    ensures var o := Authorize(l3, p, agreed.key, draw, challenge);
            && (o.Fail? ==> Pair(l, p, draw) == Fail(o.link, o.rc))
            && (o.Done? ==>
                  var c := Confirm(o.link, p, agreed.key, o.value[32..36], o.value[52..84]);
                  c.Fail? ==> Pair(l, p, draw) == Fail(c.link, c.rc))
  {
    hide Greet, Agree, Answer, Authorize, Confirm, Get32;
  }

  /** A lock that gets everything right but the authenticator of its AuthorizationId: pairing ends with -EBADMSG and the
      confirmation is never sent. */
  lemma ForgedIdRejected(l: Link, k: Lock, p: Provider, draw: Draw, run: Run, cuts: seq<seq<seq<byte>>>, id: seq<byte>)
    requires Honest(k, p, draw, run)
    requires l.writes == [] && |cuts| == 5 && Pending(l, [], cuts)
    requires Concat(cuts[0]) == PlainFrame(CMD_PUBLIC_KEY, k.pub)
    requires Concat(cuts[1]) == PlainFrame(CMD_CHALLENGE, k.challenge1)
    requires Concat(cuts[2]) == PlainFrame(CMD_CHALLENGE, k.challenge2)
    requires |id| == 84 && Concat(cuts[3]) == PlainFrame(CMD_AUTH_ID, id)
    requires p.mac(run.key, id[32..] + draw.nonceABF) != Some(id[..32])
    ensures var o := Pair(l, p, draw); o.Fail? && o.rc == -EBADMSG && |o.link.sent| == |l.sent| + 4
  {
    hide PlainFrame, Put16, Put32, SecretBox.Kdf1, DataBody, Script, Indications, Greet, Agree, Answer, Pair, Concat,
      SendPlain, RecvPlain;
    var l1, l2, l3, empties := ClientBegins(l, k, p, draw, run, cuts);
    PairFailsLate(l, p, draw, l1, l2, l3, k.pub, Agreed(run.key, k.challenge1), k.challenge2);
    SendsData(l3, p, draw, run, k.challenge2);
    var m4 := PlainFrame(CMD_AUTH_DATA, run.data + DataBody(draw));
    var e4, l4 := RecvNext(l3.(sent := l3.sent + [m4]), empties, cuts[3..], CMD_AUTH_ID, id);
  }

  /** A lock that ends the handshake with another status than COMPLETE: pairing ends with -EBADMSG. */
  lemma OtherStatusRejected(l: Link, k: Lock, p: Provider, draw: Draw, run: Run, cuts: seq<seq<seq<byte>>>, status: byte)
    requires Honest(k, p, draw, run) && status != 0
    requires l.writes == [] && |cuts| == 5 && Pending(l, [], cuts)
    requires Concat(cuts[0]) == PlainFrame(CMD_PUBLIC_KEY, k.pub)
    requires Concat(cuts[1]) == PlainFrame(CMD_CHALLENGE, k.challenge1)
    requires Concat(cuts[2]) == PlainFrame(CMD_CHALLENGE, k.challenge2)
    requires Concat(cuts[3]) == PlainFrame(CMD_AUTH_ID, run.id + IdBody(k))
    requires Concat(cuts[4]) == PlainFrame(CMD_STATUS, [status])
    ensures var o := Pair(l, p, draw); o.Fail? && o.rc == -EBADMSG && |o.link.sent| == |l.sent| + 5
  {
    hide PlainFrame, Put16, Put32, SecretBox.Kdf1, DataBody, Script, Indications, Greet, Agree, Answer, Pair, Concat,
      SendPlain, RecvPlain;
    var l1, l2, l3, empties := ClientBegins(l, k, p, draw, run, cuts);
    PairFailsLate(l, p, draw, l1, l2, l3, k.pub, Agreed(run.key, k.challenge1), k.challenge2);
    SendsData(l3, p, draw, run, k.challenge2);
    var m4 := PlainFrame(CMD_AUTH_DATA, run.data + DataBody(draw));
    var id := run.id + IdBody(k);
    var e4, l4 := RecvNext(l3.(sent := l3.sent + [m4]), empties, cuts[3..], CMD_AUTH_ID, id);
    IdFields(k, run);
    assert id[..32] == run.id && id[32..] == IdBody(k);
    var m5 := PlainFrame(CMD_AUTH_ID_CONFIRMATION, run.confirm + Put32(k.authId));
    SendNext(l4, CMD_AUTH_ID_CONFIRMATION, run.confirm + Put32(k.authId));
    var e5, l5 := RecvNext(l4.(sent := l4.sent + [m5]), e4, cuts[3..][1..], CMD_STATUS, [status]);
  }

  // ---------------------------------------------------------------- any peer

  /** The payloads of the frames a successful client has received, and the links it received the five on. */
  datatype Trace = Trace(slPub: Key, challenge1: Key, challenge2: Key, id: seq<byte>,
                         l1: Link, l2: Link, l3: Link, l4: Link, l5: Link)

  /** The stream on a link starts with the frame of this command and payload. */
  ghost predicate Offers(l: Link, cmd: bv16, payload: seq<byte>) {
    PlainFrame(cmd, payload) <= Flow(l)
  }

  /** The next receive happens on what the previous receive left, one frame having been written in between. */
  ghost predicate Follows(l': Link, l: Link, cmd: bv16, len: nat) {
    var o := RecvPlain(l, cmd, len);
    o.Done? && l'.acc == o.link.acc && l'.events == o.link.events && |l'.sent| == |o.link.sent| + 1
  }

  /** The five expected frames in order. */
  ghost predicate HeardInOrder(t: Trace) {
    && Offers(t.l1, CMD_PUBLIC_KEY, t.slPub)
    && Follows(t.l2, t.l1, CMD_PUBLIC_KEY, 32) && Offers(t.l2, CMD_CHALLENGE, t.challenge1)
    && Follows(t.l3, t.l2, CMD_CHALLENGE, 32) && Offers(t.l3, CMD_CHALLENGE, t.challenge2)
    && Follows(t.l4, t.l3, CMD_CHALLENGE, 32) && Offers(t.l4, CMD_AUTH_ID, t.id)
    && Follows(t.l5, t.l4, CMD_AUTH_ID, 84) && Offers(t.l5, CMD_STATUS, [STATUS_COMPLETE])
  }

  /** The stored result comes from those frames, and the AuthorizationId carried a matching authenticator. */
  ghost predicate Authentic(t: Trace, p: Provider, draw: Draw, out: PairingData) {
    && |t.id| == 84 && out.uuid == t.id[36..52] && out.authId == Get32(t.id[32..36])
    && Macs(p, out.key, t.id[32..] + draw.nonceABF, t.id[..32])
    && draw.keyPair.Some? && out.appId == draw.appId
    && DerivedKey(p, draw.keyPair.value.1, t.slPub) == Some(out.key)
  }

  ghost predicate Macs(p: Provider, key: Key, text: seq<byte>, mac: seq<byte>) {
    p.mac(key, text).Some? && p.mac(key, text).value == mac
  }

  /** The long-term key of a private key and the peer's public key. */
  function DerivedKey(p: Provider, priv: Key, pub: Key): Option<Key> {
    match p.dh(priv, pub)
    case None => None
    case Some(d) => Some(SecretBox.Kdf1(d))
  }

  lemma HeardOffers(l: Link, wanted: bv16, len: nat)
    requires |l.acc| <= WIRE_MAX && len <= FRAME_MAX - 4 && Expectable(wanted, len)
    requires RecvPlain(l, wanted, len).Done?
    ensures Offers(l, wanted, RecvPlain(l, wanted, len).value)
    ensures RecvPlain(l, wanted, len).link.acc == []
    ensures RecvPlain(l, wanted, len).link.sent == l.sent
  {
    RecvPlainIgnoresFragmentation(l, wanted, len);
    HeardIffFrame(Flow(l), wanted, len, RecvPlain(l, wanted, len).value);
    hide Wait, Judge, Get16, PlainFrame, Flow, Hear;
  }

  lemma SentOne(l: Link, cmd: bv16, payload: seq<byte>)
    requires SendPlain(l, cmd, payload).Done?
    ensures var l' := SendPlain(l, cmd, payload).link;
            l'.acc == l.acc && l'.events == l.events && |l'.sent| == |l.sent| + 1
  {
    hide PlainFrame;
  }

  /** Against any peer, a result is stored only after the five expected frames in order, a matching authenticator and
      COMPLETE. */
  lemma SuccessExplained(l: Link, p: Provider, draw: Draw) returns (t: Trace)
    requires |l.acc| <= WIRE_MAX && Pair(l, p, draw).Done?
    ensures HeardInOrder(t) && Authentic(t, p, draw, Pair(l, p, draw).value)
    ensures t.l1.acc == l.acc && t.l1.events == l.events
  {
    hide SendPlain, RecvPlain, Put16, Put32, Get32, SecretBox.Kdf1, DataBody, Offers;
    var clPub := draw.keyPair.value.0;
    var l1 := SendPlain(l, CMD_REQUEST_DATA, Put16(CMD_PUBLIC_KEY)).link;
    SentOne(l, CMD_REQUEST_DATA, Put16(CMD_PUBLIC_KEY));
    HeardOffers(l1, CMD_PUBLIC_KEY, 32);
    var o1 := Greet(l);
    var l2 := SendPlain(o1.link, CMD_PUBLIC_KEY, clPub).link;
    SentOne(o1.link, CMD_PUBLIC_KEY, clPub);
    HeardOffers(l2, CMD_CHALLENGE, 32);
    var o2 := Agree(o1.link, p, draw.keyPair.value, o1.value);
    var text := clPub + o1.value + o2.value.challenge;
    var l3 := SendPlain(o2.link, CMD_AUTH_AUTHENTICATOR, p.mac(o2.value.key, text).value).link;
    SentOne(o2.link, CMD_AUTH_AUTHENTICATOR, p.mac(o2.value.key, text).value);
    HeardOffers(l3, CMD_CHALLENGE, 32);
    var o3 := Answer(o2.link, p, o2.value.key, text);
    var id, l4, l5 := TailExplained(o3.link, p, o2.value.key, draw, o3.value);
    t := Trace(o1.value, o2.value.challenge, o3.value, id, l1, l2, l3, l4, l5);
  }

  lemma TailExplained(l: Link, p: Provider, key: Key, draw: Draw, challenge: Key)
    returns (id: seq<byte>, l4: Link, l5: Link)
    requires |l.acc| <= WIRE_MAX && Authorize(l, p, key, draw, challenge).Done?
    requires var o := Authorize(l, p, key, draw, challenge);
             Confirm(o.link, p, key, o.value[32..36], o.value[52..84]).Done?
    ensures id == Authorize(l, p, key, draw, challenge).value
    ensures l4.acc == l.acc && l4.events == l.events && |l4.sent| == |l.sent| + 1
    ensures Offers(l4, CMD_AUTH_ID, id) && Follows(l5, l4, CMD_AUTH_ID, 84)
    ensures Offers(l5, CMD_STATUS, [STATUS_COMPLETE])
  {
    hide SendPlain, RecvPlain, DataBody, Offers;
    var a := p.mac(key, DataBody(draw) + challenge).value;
    l4 := SendPlain(l, CMD_AUTH_DATA, a + DataBody(draw)).link;
    SentOne(l, CMD_AUTH_DATA, a + DataBody(draw));
    HeardOffers(l4, CMD_AUTH_ID, 84);
    var o := Authorize(l, p, key, draw, challenge);
    id := o.value;
    var b := p.mac(key, id[32..36] + id[52..84]).value;
    l5 := SendPlain(o.link, CMD_AUTH_ID_CONFIRMATION, b + id[32..36]).link;
    SentOne(o.link, CMD_AUTH_ID_CONFIRMATION, b + id[32..36]);
    HeardOffers(l5, CMD_STATUS, 1);
    var status := RecvPlain(l5, CMD_STATUS, 1).value;
    assert status == [STATUS_COMPLETE];
  }
}
