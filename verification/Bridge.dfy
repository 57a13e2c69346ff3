/** The callbacks of nuki_app.c as they update the application's globals, each proved to be its atomic step. */
module Bridge {
  import opened Bytes
  import opened Codes
  import opened Connection

  class Globals {
    var conn: Option<nat>
    var next: nat
    var stack: Stack
    var discovery: Discovery
    var gdio: Service
    var usdio: Service
    var needGdio: bool
    var refs: seq<nat>
    var connecting: bool
    var connectErr: int
    var readySem: nat
    var disconnectedSem: nat
    var thread: Thread
    /** History of the current connect attempt; it never influences a step. */
    ghost var attempt: Attempt

    ghost function View(): State
      reads this
    {
      State(conn, next, stack, discovery, gdio, usdio, needGdio, refs, connecting, connectErr, readySem,
            disconnectedSem, thread, attempt)
    }

    constructor ()
      ensures View() == INITIAL && Inv(View())
    {
      conn, next, stack, discovery := None, 0, Idle, NoDiscovery;
      gdio, usdio, needGdio, refs := Service(None, false), Service(None, false), false, [];
      connecting, connectErr, readySem, disconnectedSem := false, 0, 0, 0;
      thread, attempt := Resting, Attempt(false, [], false, 0, true, None, None);
    }

    method FinishConnectAttempt(err: int)
      modifies this`connecting, this`connectErr, this`readySem, this`attempt
      ensures View() == Finish(old(View()), err)
    {
      hide Reported;
      attempt := attempt.(calls := attempt.calls + [err]);
      if !connecting {
        return;
      }
      connecting := false;
      connectErr := err;
      readySem := readySem + 1;
      attempt := attempt.(readyAtFirst := usdio.ready && stack.Up?);
    }

    method DeviceFound(matches: bool, stopRc: int, createRc: int)
      requires Inv(View())
      modifies this`conn, this`next, this`stack, this`refs, this`connecting, this`connectErr, this`readySem, this`attempt
      ensures View() == Step(old(View()), Found(matches, stopRc, createRc)) && Inv(View())
    {
      StepKeepsInv(View(), Found(matches, stopRc, createRc));
      hide Inv, Finish;
      if conn.Some? || !matches || stopRc != 0 {
        return;
      }
      if createRc != 0 {
        FinishConnectAttempt(createRc);
      } else {
        conn, next, stack, refs := Some(next), next + 1, Dialing, refs + [1];
      }
    }

    method TransportInit(subRc: int) returns (t: Service)
      requires conn.Some? && conn.value < |refs|
      modifies this`refs
      ensures (View(), t) == InitService(old(View()), subRc)
    {
      var c := conn.value;
      refs := refs[c := refs[c] + 1];
      if subRc != 0 {
        refs := refs[c := refs[c] - 1];
        return Service(Some(c), false);
      }
      return Service(Some(c), true);
    }

    method DiscoverKeyturnerService(rc: int)
      modifies this`discovery, this`connecting, this`connectErr, this`readySem, this`attempt
      ensures View() == DiscoverKeyturner(old(View()), rc)
    {
      if rc != 0 {
        discovery := NoDiscovery;
        FinishConnectAttempt(rc);
      } else {
        discovery := UsdioDiscovery;
      }
    }

    method GdioDiscovered(hasChrc: bool, subRc: int, startRc: int)
      requires Inv(View()) && discovery.GdioDiscovery?
      modifies this`refs, this`gdio, this`discovery, this`connecting, this`connectErr, this`readySem, this`attempt
      ensures View() == Step(old(View()), GdioFound(hasChrc, subRc, startRc)) && Inv(View())
    {
      StepKeepsInv(View(), GdioFound(hasChrc, subRc, startRc));
      assert conn.Some? && conn.value < |refs|;
      hide Inv, DiscoverKeyturner, InitService;
      if hasChrc {
        gdio := TransportInit(subRc);
      }
      DiscoverKeyturnerService(startRc);
    }

    method UsdioDiscovered(hasChrc: bool, subRc: int)
      requires Inv(View()) && discovery.UsdioDiscovery?
      modifies this`refs, this`usdio, this`discovery, this`connecting, this`connectErr, this`readySem, this`attempt
      ensures View() == Step(old(View()), UsdioFound(hasChrc, subRc)) && Inv(View())
    {
      StepKeepsInv(View(), UsdioFound(hasChrc, subRc));
      assert conn.Some? && conn.value < |refs|;
      ghost var s0 := View();
      assert Step(s0, UsdioFound(hasChrc, subRc)) == OnUsdioFound(s0, hasChrc, subRc);
      hide Inv, Finish, InitService, Step;
      if !hasChrc {
        discovery := NoDiscovery;
        FinishConnectAttempt(-ENOTSUP);
      } else {
        var t := TransportInit(subRc);
        discovery, usdio := NoDiscovery, t;
        assert View() == InitService(s0, subRc).0.(usdio := t, discovery := NoDiscovery);
        FinishConnectAttempt(subRc);
      }
    }

    method DropConnection()
      requires LinkInv(View()) && conn.Some?
      modifies this`refs, this`conn, this`stack
      ensures View() == FailedConnect(old(View()))
    {
      refs := refs[conn.value := refs[conn.value] - 1];
      conn, stack := None, Idle;
    }

    method ConnectedCb(c: nat, err: bool, startRc: int)
      requires Inv(View()) && Enabled(View(), Connected(c, err, startRc))
      modifies this`refs, this`conn, this`stack, this`discovery, this`connecting, this`connectErr, this`readySem, this`attempt
      ensures View() == Step(old(View()), Connected(c, err, startRc)) && Inv(View())
    {
      StepKeepsInv(View(), Connected(c, err, startRc));
      assert LinkInv(View()) && (err ==> conn.Some?);
      hide Inv, DiscoverKeyturner, Finish, FailedConnect;
      if err {
        DropConnection();
        FinishConnectAttempt(-EIO);
        return;
      }
      if conn != Some(c) {
        return;
      }
      stack := Up;
      if !needGdio {
        DiscoverKeyturnerService(startRc);
      } else if startRc != 0 {
        FinishConnectAttempt(startRc);
      } else {
        discovery := GdioDiscovery;
      }
    }

    /** nuki_transport_release: nothing without a connection; otherwise its reference is given back and the pointer is
        cleared. */
    method TransportRelease(t: Service) returns (t': Service)
      requires t.conn.Some? ==> t.conn.value < |refs| && refs[t.conn.value] > 0
      modifies this`refs
      ensures View() == Release(old(View()), t) && t' == t.(conn := None)
    {
      t' := t;
      if t.conn.Some? {
        refs := refs[t.conn.value := refs[t.conn.value] - 1];
        t' := t'.(conn := None);
      }
    }

    method DisconnectedCb(c: nat)
      requires Inv(View()) && Enabled(View(), Disconnected(c))
      modifies this
      ensures View() == Step(old(View()), Disconnected(c)) && Inv(View())
    {
      StepKeepsInv(View(), Disconnected(c));
      hide AttemptInv, Finish, LetGo;
      if conn != Some(c) {
        return;
      }
      ghost var s0 := View();
      DropEverything(c);
      assert View() == LetGo(s0);
      ghost var was := connecting;
      FinishConnectAttempt(-ENOTCONN);
      disconnectedSem := 1;
      if was {
        attempt := attempt.(lost := Some(c));
      }
    }

    /** nuki_transport_release for each transport whose flag is set, and its flag cleared. */
    method ReleaseReady(c: nat)
      requires c < |refs| && refs[c] == 1 + Count(gdio.ready) + Count(usdio.ready)
      requires (gdio.ready ==> gdio.conn == Some(c)) && (usdio.ready ==> usdio.conn == Some(c))
      modifies this`refs, this`gdio, this`usdio
      ensures refs == old(refs)[c := 1]
      ensures gdio == Released(old(gdio)) && usdio == Released(old(usdio))
    {
      if gdio.ready {
        var t := TransportRelease(gdio);
        gdio := t.(ready := false);
      }
      if usdio.ready {
        var t := TransportRelease(usdio);
        usdio := t.(ready := false);
      }
    }

    /** What the references and flags say of the connection held. */
    lemma HeldRefs(c: nat)
      requires LinkInv(View()) && conn == Some(c)
      ensures c < |refs| && refs[c] == 1 + Count(gdio.ready) + Count(usdio.ready)
      ensures (gdio.ready ==> gdio.conn == Some(c)) && (usdio.ready ==> usdio.conn == Some(c))
    {
    }

    method DropEverything(c: nat)
      requires LinkInv(View()) && conn == Some(c)
      modifies this`refs, this`conn, this`stack, this`discovery, this`gdio, this`usdio
      ensures View() == LetGo(old(View()))
    {
      HeldRefs(c);
      ghost var goal := LetGo(View());
      hide LinkInv, LetGo, Released, Count;
      ReleaseReady(c);
      refs := refs[c := refs[c] - 1];
      assert refs == goal.refs;
      conn, stack, discovery := None, Idle, NoDiscovery;
    }

    /** connect_to_lock up to its wait. */
    method BeginConnect(need: bool, scanRc: int)
      requires Inv(View()) && thread.Resting?
      modifies this`needGdio, this`thread, this`connecting, this`connectErr, this`readySem, this`attempt
      ensures View() == Step(old(View()), Connect(need, scanRc)) && Inv(View())
    {
      StepKeepsInv(View(), Connect(need, scanRc));
      assert Step(View(), Connect(need, scanRc)) == OnConnect(View(), need, scanRc);
      hide Inv, Step;
      readySem, connectErr, needGdio, connecting := 0, 0, need, true;
      attempt := Attempt(true, [], false, next, conn.None?, None, if scanRc != 0 then Some(scanRc) else None);
      if scanRc == 0 {
        thread := Waiting;
      }
    }

    /** connect_to_lock once the wait is over: woken by the semaphore or by its timeout. */
    method EndConnect() returns (rc: int)
      requires Inv(View()) && (thread.Expired? || (thread.Waiting? && readySem > 0))
      modifies this`connecting, this`readySem, this`thread, this`attempt
      ensures View() == Step(old(View()), if old(thread).Expired? then GiveUp else TakeReady) && Inv(View())
      ensures if old(thread).Expired? then rc == -ETIMEDOUT else old(attempt).calls != [] && rc == old(attempt).calls[0]
    {
      hide Reported, LinkInv;
      StepKeepsInv(View(), if thread.Expired? then GiveUp else TakeReady);
      if thread.Expired? {
        connecting := false;
        attempt := attempt.(open := false, returned := Some(-ETIMEDOUT));
        rc := -ETIMEDOUT;
      } else {
        readySem := readySem - 1;
        rc := connectErr;
        attempt := attempt.(returned := Some(rc));
      }
      thread := Resting;
    }
  }
}
