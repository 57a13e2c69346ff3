/** The connect-on-demand state machine of nuki_app.c: every callback is one atomic step. */
module Connection {
  import opened Bytes
  import opened Codes

  /** What the Bluetooth stack has of the connection this application asked for. */
  datatype Stack = Idle | Dialing | Up
  datatype Discovery = NoDiscovery | GdioDiscovery | UsdioDiscovery
  /** The operation thread: not connecting, blocked on the ready semaphore, or woken by its timeout. */
  datatype Thread = Resting | Waiting | Expired

  /** One service transport: its connection pointer (left behind by a failed init) and the application's ready flag. */
  datatype Service = Service(conn: Option<nat>, ready: bool)

  /** What has happened to the current connect attempt: whether it is still open, all results reported to it while it
      was, whether the Keyturner transport was ready at the first, the first connection number it can own, and the
      connection whose loss ended it. */
  datatype Attempt = Attempt(open: bool, calls: seq<int>, readyAtFirst: bool, born: nat, clean: bool,
                             lost: Option<nat>, returned: Option<int>)

  /** refs[c] counts the references the application holds on connection c, of the `next` created so far. */
  datatype State = State(
    conn: Option<nat>, next: nat, stack: Stack, discovery: Discovery, gdio: Service, usdio: Service, needGdio: bool,
    refs: seq<nat>, connecting: bool, connectErr: int, readySem: nat, disconnectedSem: nat, thread: Thread,
    attempt: Attempt)

  /** Environment and thread steps, with the results the stack reports. */
  datatype Event =
    | Connect(needGdio: bool, scanRc: int)
    | Found(matches: bool, stopRc: int, createRc: int)
    | ScanTimeout
    | Connected(conn: nat, err: bool, startRc: int)
    | Disconnected(conn: nat)
    | GdioMissing(startRc: int)
    | GdioFound(hasChrc: bool, subRc: int, startRc: int)
    | UsdioMissing(rc: int)
    | UsdioFound(hasChrc: bool, subRc: int)
    | StaleDiscovery(rc: int)
    | TakeReady
    | TakeExpires
    | GiveUp
    | Hangup

  const INITIAL: State := State(
    None, 0, Idle, NoDiscovery, Service(None, false), Service(None, false), false, [], false, 0, 0, 0, Resting,
    Attempt(false, [], false, 0, true, None, None))

  function Count(b: bool): nat {
    if b then 1 else 0
  }

  /** The references on connection c that g_conn and the ready flags account for. */
  function Held(s: State, c: nat): nat {
    if s.conn == Some(c) then 1 + Count(s.gdio.ready) + Count(s.usdio.ready) else 0
  }

  ghost predicate RefsInv(s: State) {
    |s.refs| == s.next && forall c :: 0 <= c < s.next ==> s.refs[c] == Held(s, c)
  }

  ghost predicate ServiceInv(s: State, t: Service) {
    t.ready ==> s.stack.Up? && s.conn.Some? && t.conn == s.conn
  }

  ghost predicate LinkInv(s: State) {
    && (s.conn.Some? <==> !s.stack.Idle?)
    && (s.conn.Some? ==> s.conn.value < s.next)
    && ServiceInv(s, s.gdio) && ServiceInv(s, s.usdio)
    && (!s.discovery.NoDiscovery? ==> s.stack.Up? && !s.usdio.ready)
    && (s.discovery.GdioDiscovery? ==> !s.gdio.ready)
    && RefsInv(s)
  }

  ghost predicate AttemptInv(s: State) {
    var a := s.attempt;
    && s.readySem <= 1
    && (s.connecting ==> a.open && s.readySem == 0)
    && (a.open ==> (s.connecting <==> a.calls == []))
    && (a.open && a.calls != [] ==> s.connectErr == a.calls[0])
    && (a.open && a.calls != [] && a.calls[0] == 0 ==> a.readyAtFirst)
    && (s.thread.Waiting? && a.calls != [] ==> s.readySem == 1)
    && (!s.thread.Resting? ==> a.open)
    && (a.clean && s.conn.Some? ==> s.conn.value >= a.born)
    && (a.clean && a.lost.Some? ==> a.lost.value >= a.born)
    && a.born <= s.next
  }

  ghost predicate Inv(s: State) {
    LinkInv(s) && AttemptInv(s)
  }

  /** When the stack can take each step. */
  ghost predicate Enabled(s: State, e: Event) {
    match e
    case Connect(_, _) => s.thread.Resting?
    case Found(_, _, _) => true
    case ScanTimeout => true
    case Connected(c, err, _) => if err then s.stack.Dialing? else s.conn == Some(c) ==> s.stack.Dialing?
    case Disconnected(c) => s.conn == Some(c) ==> s.stack.Up?
    case GdioMissing(_) => s.discovery.GdioDiscovery?
    case GdioFound(_, _, _) => s.discovery.GdioDiscovery?
    case UsdioMissing(rc) => s.discovery.UsdioDiscovery? && (rc == -ENOTSUP || rc == -EIO)
    case UsdioFound(_, _) => s.discovery.UsdioDiscovery?
    case StaleDiscovery(rc) => rc != 0
    case TakeReady => s.thread.Waiting? && s.readySem > 0
    case TakeExpires => s.thread.Waiting? && s.readySem == 0
    case GiveUp => s.thread.Expired?
    case Hangup => true
  }

  // ---------------------------------------------------------------- the callbacks

  /** How a callback may touch the attempt: it may report results, of which only the first counts. */
  ghost predicate Reported(s: State, s': State) {
    && s'.thread == s.thread && s'.attempt.open == s.attempt.open && s'.attempt.returned == s.attempt.returned
    && s'.attempt.born == s.attempt.born && s'.attempt.clean == s.attempt.clean
    && s.attempt.calls <= s'.attempt.calls
    && (!s.connecting ==> !s'.connecting && s'.connectErr == s.connectErr && s'.readySem == s.readySem
                          && s'.attempt.readyAtFirst == s.attempt.readyAtFirst)
  }

  function Ref(s: State, c: nat): State
    requires c < |s.refs|
  {
    s.(refs := s.refs[c := s.refs[c] + 1])
  }

  /** Releasing a reference nobody holds is a precondition failure. */
  function Unref(s: State, c: nat): State
    requires c < |s.refs| && s.refs[c] > 0
  {
    s.(refs := s.refs[c := s.refs[c] - 1])
  }

  /** finish_connect_attempt */
  function Finish(s: State, err: int): (s': State)
    ensures Reported(s, s')
  {
    if !s.connecting then s.(attempt := s.attempt.(calls := s.attempt.calls + [err]))
    else
      s.(connecting := false, connectErr := err, readySem := s.readySem + 1,
         attempt := s.attempt.(calls := s.attempt.calls + [err], readyAtFirst := s.usdio.ready && s.stack.Up?))
  }

  /** nuki_transport_init: the transport takes a reference, and gives it back if subscribing fails. */
  function InitService(s: State, subRc: int): (State, Service)
    requires s.conn.Some? && s.conn.value < |s.refs|
  {
    var c := s.conn.value;
    if subRc != 0 then (Unref(Ref(s, c), c), Service(Some(c), false)) else (Ref(s, c), Service(Some(c), true))
  }

  /** discover_keyturner_service */
  function DiscoverKeyturner(s: State, rc: int): (s': State)
    ensures Reported(s, s')
  {
    if rc != 0 then Finish(s.(discovery := NoDiscovery), rc) else s.(discovery := UsdioDiscovery)
  }

  function OnFound(s: State, matches: bool, stopRc: int, createRc: int): (s': State)
    ensures Reported(s, s')
  {
    if s.conn.Some? || !matches || stopRc != 0 then s
    else if createRc != 0 then Finish(s, createRc)
    else s.(conn := Some(s.next), next := s.next + 1, stack := Dialing, refs := s.refs + [1])
  }

  /** What a failed connected does to g_conn, whatever connection it is about. */
  function FailedConnect(s: State): State
    requires LinkInv(s) && s.conn.Some?
  {
    Unref(s, s.conn.value).(conn := None, stack := Idle)
  }

  function OnConnected(s: State, c: nat, err: bool, startRc: int): (s': State)
    requires Inv(s) && Enabled(s, Connected(c, err, startRc))
    ensures Reported(s, s')
  {
    if err then Finish(FailedConnect(s), -EIO)
    else if s.conn != Some(c) then s
    else if !s.needGdio then DiscoverKeyturner(s.(stack := Up), startRc)
    else if startRc != 0 then Finish(s.(stack := Up), startRc)
    else s.(stack := Up, discovery := GdioDiscovery)
  }

  /** A transport once it is released: the connection pointer and the ready flag are cleared. A transport whose flag is
      not set keeps the pointer a failed init has left in it. */
  function Released(t: Service): Service {
    if t.ready then Service(None, false) else t
  }

  function OnDisconnected(s: State, c: nat): (s': State)
    requires Inv(s)
    ensures Reported(s, s')
  {
    if s.conn != Some(c) then s
    else
      var s1 := Finish(LetGo(s), -ENOTCONN).(disconnectedSem := 1);
      if s.connecting then s1.(attempt := s1.attempt.(lost := Some(c))) else s1
  }

  /** nuki_transport_release: gives back the reference the pointer stands for. */
  function Release(s: State, t: Service): State
    requires t.conn.Some? ==> t.conn.value < |s.refs| && s.refs[t.conn.value] > 0
  {
    if t.conn.Some? then Unref(s, t.conn.value) else s
  }

  /** Both transports released if their flags are set, then the connection itself. */
  function LetGo(s: State): (s': State)
    requires LinkInv(s) && s.conn.Some?
    ensures s' == s.(gdio := Released(s.gdio), usdio := Released(s.usdio), conn := None, stack := Idle,
                     discovery := NoDiscovery, refs := s.refs[s.conn.value := 0])
  {
    var s1 := if s.gdio.ready then Release(s, s.gdio) else s;
    var s2 := if s.usdio.ready then Release(s1, s.usdio) else s1;
    Unref(s2, s.conn.value).(gdio := Released(s.gdio), usdio := Released(s.usdio), conn := None, stack := Idle,
                             discovery := NoDiscovery)
  }

  function OnGdioFound(s: State, hasChrc: bool, subRc: int, startRc: int): (s': State)
    requires s.conn.Some? && s.conn.value < |s.refs|
    ensures Reported(s, s')
  {
    if !hasChrc then DiscoverKeyturner(s, startRc)
    else
      var (s1, t) := InitService(s, subRc);
      DiscoverKeyturner(s1.(gdio := t), startRc)
  }

  function OnUsdioFound(s: State, hasChrc: bool, subRc: int): (s': State)
    requires s.conn.Some? && s.conn.value < |s.refs|
    ensures Reported(s, s')
  {
    if !hasChrc then Finish(s.(discovery := NoDiscovery), -ENOTSUP)
    else
      var (s1, t) := InitService(s, subRc);
      Finish(s1.(usdio := t, discovery := NoDiscovery), subRc)
  }

  /** connect_to_lock up to the wait. */
  function OnConnect(s: State, needGdio: bool, scanRc: int): State {
    s.(readySem := 0, connectErr := 0, needGdio := needGdio, connecting := true,
       thread := if scanRc != 0 then Resting else Waiting,
       attempt := Attempt(true, [], false, s.next, s.conn.None?, None, if scanRc != 0 then Some(scanRc) else None))
  }

  function Step(s: State, e: Event): State
    requires Inv(s) && Enabled(s, e)
  {
    match e
    case Connect(needGdio, scanRc) => OnConnect(s, needGdio, scanRc)
    case Found(matches, stopRc, createRc) => OnFound(s, matches, stopRc, createRc)
    case ScanTimeout => Finish(s, -ETIMEDOUT)
    case Connected(c, err, startRc) => OnConnected(s, c, err, startRc)
    case Disconnected(c) => OnDisconnected(s, c)
    case GdioMissing(startRc) => DiscoverKeyturner(s, startRc)
    case GdioFound(hasChrc, subRc, startRc) => OnGdioFound(s, hasChrc, subRc, startRc)
    case UsdioMissing(rc) => Finish(s.(discovery := NoDiscovery), rc)
    case UsdioFound(hasChrc, subRc) => OnUsdioFound(s, hasChrc, subRc)
    case StaleDiscovery(rc) => Finish(s, rc)
    case TakeReady => s.(readySem := s.readySem - 1, thread := Resting, attempt := s.attempt.(returned := Some(s.connectErr)))
    case TakeExpires => s.(thread := Expired)
    case GiveUp =>
      s.(connecting := false, thread := Resting, attempt := s.attempt.(open := false, returned := Some(-ETIMEDOUT)))
    case Hangup => if s.conn.None? then s else s.(disconnectedSem := 0)
  }

  // --------------------------------------------------------------- preservation

  lemma FinishKeeps(s: State, err: int)
    requires Inv(s) && (err == 0 ==> s.usdio.ready)
    ensures Inv(Finish(s, err))
    ensures Finish(s, err).refs == s.refs && Finish(s, err).conn == s.conn
  {
  }

  lemma DiscoverKeeps(s: State, rc: int)
    requires Inv(s) && s.stack.Up? && !s.usdio.ready
    ensures Inv(DiscoverKeyturner(s, rc))
  {
    if rc != 0 {
      FinishKeeps(s.(discovery := NoDiscovery), rc);
    }
  }

  lemma FoundKeeps(s: State, matches: bool, stopRc: int, createRc: int)
    requires Inv(s)
    ensures Inv(OnFound(s, matches, stopRc, createRc))
  {
    if createRc != 0 {
      FinishKeeps(s, createRc);
    }
  }

  /** A failed connection leaves no reference behind. */
  lemma ConnectedKeeps(s: State, c: nat, err: bool, startRc: int)
    requires Inv(s) && Enabled(s, Connected(c, err, startRc))
    ensures Inv(OnConnected(s, c, err, startRc))
    ensures err ==> forall i :: 0 <= i < s.next ==> OnConnected(s, c, err, startRc).refs[i] == 0
  {
    if err {
      FinishKeeps(FailedConnect(s), -EIO);
    } else if s.conn == Some(c) {
      var up := s.(stack := Up);
      if !s.needGdio {
        DiscoverKeeps(up, startRc);
      } else if startRc != 0 {
        FinishKeeps(up, startRc);
      }
    }
  }

  /** The callback does not look at which connection has failed. Run with a connection held, it keeps the reference count
      in order exactly when no transport is ready on it, which is so while dialing. */
  lemma FailedConnectIff(s: State)
    requires LinkInv(s) && s.conn.Some?
    ensures RefsInv(FailedConnect(s)) <==> !s.gdio.ready && !s.usdio.ready
    ensures s.stack.Dialing? ==> !s.gdio.ready && !s.usdio.ready
  {
    var c := s.conn.value;
    assert FailedConnect(s).refs[c] == s.refs[c] - 1 == Count(s.gdio.ready) + Count(s.usdio.ready);
  }

  lemma LetGoKeeps(s: State)
    requires Inv(s) && s.conn.Some?
    ensures Inv(LetGo(s)) && |LetGo(s).refs| == s.next && forall i :: 0 <= i < s.next ==> LetGo(s).refs[i] == 0
  {
    hide LetGo;
  }

  lemma LossKeeps(s: State, c: nat)
    requires Inv(s) && (s.attempt.clean ==> c >= s.attempt.born)
    ensures Inv(s.(disconnectedSem := 1)) && Inv(s.(disconnectedSem := 1, attempt := s.attempt.(lost := Some(c))))
  {
    hide LinkInv;
    LinkIgnores(s, c);
  }

  lemma LinkIgnores(s: State, c: nat)
    requires LinkInv(s)
    ensures LinkInv(s.(disconnectedSem := 1)) && LinkInv(s.(disconnectedSem := 1, attempt := s.attempt.(lost := Some(c))))
  {
  }

  /** Losing the connection leaves no reference behind. */
  lemma DisconnectedKeeps(s: State, c: nat)
    requires Inv(s)
    ensures Inv(OnDisconnected(s, c))
    ensures s.conn == Some(c) ==> forall i :: 0 <= i < s.next ==> OnDisconnected(s, c).refs[i] == 0
  {
    if s.conn == Some(c) {
      assert LetGo(s).attempt == s.attempt && (s.attempt.clean ==> c >= s.attempt.born);
      hide LetGo, Reported, Inv, Finish;
      LetGoKeeps(s);
      FinishKeeps(LetGo(s), -ENOTCONN);
      FinishBirth(LetGo(s), -ENOTCONN);
      LossKeeps(Finish(LetGo(s), -ENOTCONN), c);
    }
  }

  lemma FinishBirth(s: State, err: int)
    ensures Finish(s, err).attempt.clean == s.attempt.clean && Finish(s, err).attempt.born == s.attempt.born
  {
  }

  /** The state between the two discoveries of an attempt that wants both services. */
  function Between(s: State, subRc: int): State
    requires s.conn.Some? && s.conn.value < |s.refs|
  {
    var (s1, t) := InitService(s, subRc);
    s1.(gdio := t, discovery := NoDiscovery)
  }

  lemma BetweenKeeps(s: State, subRc: int)
    requires Inv(s) && s.discovery.GdioDiscovery?
    ensures Inv(Between(s, subRc)) && Between(s, subRc).stack.Up? && !Between(s, subRc).usdio.ready
  {
  }

  lemma BetweenDiscovers(s: State, subRc: int, startRc: int)
    requires s.conn.Some? && s.conn.value < |s.refs|
    ensures OnGdioFound(s, true, subRc, startRc) == DiscoverKeyturner(Between(s, subRc), startRc)
  {
    hide Reported;
  }

  lemma GdioFoundKeeps(s: State, hasChrc: bool, subRc: int, startRc: int)
    requires Inv(s) && s.discovery.GdioDiscovery?
    ensures Inv(OnGdioFound(s, hasChrc, subRc, startRc))
  {
    if !hasChrc {
      DiscoverKeeps(s, startRc);
    } else {
      BetweenKeeps(s, subRc);
      BetweenDiscovers(s, subRc, startRc);
      hide Inv, DiscoverKeyturner, Reported, Between, OnGdioFound;
      DiscoverKeeps(Between(s, subRc), startRc);
    }
  }

  lemma UsdioFoundKeeps(s: State, hasChrc: bool, subRc: int)
    requires Inv(s) && s.discovery.UsdioDiscovery?
    ensures Inv(OnUsdioFound(s, hasChrc, subRc))
  {
    if !hasChrc {
      FinishKeeps(s.(discovery := NoDiscovery), -ENOTSUP);
    } else {
      var (s1, t) := InitService(s, subRc);
      FinishKeeps(s1.(usdio := t, discovery := NoDiscovery), subRc);
    }
  }

  lemma ThreadKeeps(s: State, e: Event)
    requires Inv(s) && Enabled(s, e) && (e.Connect? || e.TakeReady? || e.TakeExpires? || e.GiveUp? || e.Hangup?)
    ensures Inv(Step(s, e))
  {
    hide Finish, OnFound, OnConnected, OnDisconnected, OnGdioFound, OnUsdioFound, DiscoverKeyturner;
  }

  lemma MissingKeeps(s: State, rc: int)
    requires Inv(s) && rc != 0
    ensures Inv(Finish(s.(discovery := NoDiscovery), rc))
  {
    hide Finish, Reported;
    FinishKeeps(s.(discovery := NoDiscovery), rc);
  }

  /** Every step keeps the reference count, the ready flags and the attempt in order. */
  lemma StepKeepsInv(s: State, e: Event)
    requires Inv(s) && Enabled(s, e)
    ensures Inv(Step(s, e))
  {
    if e.Connect? || e.TakeReady? || e.TakeExpires? || e.GiveUp? || e.Hangup? {
      ThreadKeeps(s, e);
    } else {
      hide Inv, Finish, OnFound, OnConnected, OnDisconnected, OnGdioFound, OnUsdioFound, DiscoverKeyturner, Reported;
      CallbackKeeps(s, e);
    }
  }

  lemma CallbackKeeps(s: State, e: Event)
    requires Inv(s) && Enabled(s, e) && !(e.Connect? || e.TakeReady? || e.TakeExpires? || e.GiveUp? || e.Hangup?)
    ensures Inv(Step(s, e))
  {
    assert !s.discovery.NoDiscovery? ==> s.stack.Up? && !s.usdio.ready;
    hide Inv, Finish, OnFound, OnConnected, OnDisconnected, OnGdioFound, OnUsdioFound, DiscoverKeyturner, Reported;
    match e {
      case Found(matches, stopRc, createRc) => FoundKeeps(s, matches, stopRc, createRc);
      case ScanTimeout => FinishKeeps(s, -ETIMEDOUT);
      case Connected(c, err, startRc) => ConnectedKeeps(s, c, err, startRc);
      case Disconnected(c) => DisconnectedKeeps(s, c);
      case GdioMissing(startRc) => DiscoverKeeps(s, startRc);
      case GdioFound(hasChrc, subRc, startRc) => GdioFoundKeeps(s, hasChrc, subRc, startRc);
      case UsdioMissing(rc) => MissingKeeps(s, rc);
      case UsdioFound(hasChrc, subRc) => UsdioFoundKeeps(s, hasChrc, subRc);
      case StaleDiscovery(rc) => FinishKeeps(s, rc);
    }
  }

  /** A run of the machine: every event possible where it happens. */
  ghost predicate Possible(s: State, es: seq<Event>)
    requires Inv(s)
    decreases |es|
  {
    es == [] || (Enabled(s, es[0]) && (StepKeepsInv(s, es[0]); Possible(Step(s, es[0]), es[1..])))
  }

  function Run(s: State, es: seq<Event>): State
    requires Inv(s) && Possible(s, es)
    decreases |es|
  {
    if es == [] then s else StepKeepsInv(s, es[0]); Run(Step(s, es[0]), es[1..])
  }

  /** In every reachable state the outstanding references are one for the connection and one for each ready transport,
      a ready transport sits on a live connection, and the ready semaphore never passes one. */
  lemma {:induction false} ReachableInv(s: State, es: seq<Event>)
    requires Inv(s) && Possible(s, es)
    ensures var t := Run(s, es);
            && Inv(t)
            && (forall c :: 0 <= c < t.next ==>
                  t.refs[c] == if t.conn == Some(c) then 1 + Count(t.gdio.ready) + Count(t.usdio.ready) else 0)
            && (t.gdio.ready || t.usdio.ready ==> t.conn.Some? && t.stack.Up?)
            && t.readySem <= 1
    decreases |es|
  {
    if es != [] {
      StepKeepsInv(s, es[0]);
      ReachableInv(Step(s, es[0]), es[1..]);
    }
  }

  /** From boot, no references are outstanding whenever no connection is held. */
  lemma BootReachesInv(es: seq<Event>)
    requires Possible(INITIAL, es)
    ensures var t := Run(INITIAL, es); t.conn.None? ==> forall c :: 0 <= c < |t.refs| ==> t.refs[c] == 0
  {
    hide Step, Run;
    ReachableInv(INITIAL, es);
  }

  // ------------------------------------------------------------ one attempt

  /** Callbacks only ever report; the thread's own steps are the last four events. */
  lemma CallbackReports(s: State, e: Event)
    requires Inv(s) && Enabled(s, e)
    requires !e.Connect? && !e.TakeReady? && !e.TakeExpires? && !e.GiveUp?
    ensures Reported(s, Step(s, e))
  {
    hide OnFound, OnConnected, OnDisconnected, OnGdioFound, OnUsdioFound, DiscoverKeyturner, Finish, Inv;
  }

  /** No step but the next Connect takes back a recorded first result. */
  lemma FirstResultStays(s: State, e: Event)
    requires Inv(s) && Enabled(s, e) && !e.Connect?
    ensures s.attempt.calls <= Step(s, e).attempt.calls
    ensures s.attempt.open && s.attempt.calls != [] ==>
              && Step(s, e).connectErr == s.connectErr == s.attempt.calls[0]
              && Step(s, e).attempt.readyAtFirst == s.attempt.readyAtFirst
  {
    hide OnFound, OnConnected, OnDisconnected, OnGdioFound, OnUsdioFound, DiscoverKeyturner, Finish, LinkInv;
    if !e.TakeReady? && !e.TakeExpires? && !e.GiveUp? {
      CallbackReports(s, e);
    }
  }

  /** What an attempt hands to its caller: why scanning did not start, or else the first result reported to it or
      -ETIMEDOUT; and nothing before the thread is done. */
  ghost predicate ReturnInv(s: State, scanRc: int) {
    var a := s.attempt;
    if scanRc != 0 then s.thread.Resting? && a.returned == Some(scanRc)
    else if s.thread.Resting? then
      && a.returned.Some?
      && (|| a.returned.value == -ETIMEDOUT
          || (a.calls != [] && a.returned.value == a.calls[0] && (a.calls[0] == 0 ==> a.readyAtFirst)))
    else a.returned.None?
  }

  ghost predicate NoConnect(es: seq<Event>) {
    forall e :: e in es ==> !e.Connect?
  }

  lemma ReturnStep(s: State, e: Event, scanRc: int)
    requires Inv(s) && Enabled(s, e) && !e.Connect?
    requires ReturnInv(s, scanRc)
    ensures ReturnInv(Step(s, e), scanRc)
  {
    hide OnFound, OnConnected, OnDisconnected, OnGdioFound, OnUsdioFound, DiscoverKeyturner, Finish, LinkInv;
    FirstResultStays(s, e);
    if !e.TakeReady? && !e.TakeExpires? && !e.GiveUp? {
      CallbackReports(s, e);
    }
  }

  lemma {:induction false} RunReturns(s: State, es: seq<Event>, scanRc: int)
    requires Inv(s) && Possible(s, es) && NoConnect(es)
    requires ReturnInv(s, scanRc)
    ensures ReturnInv(Run(s, es), scanRc)
    decreases |es|
  {
    hide Step;
    if es != [] {
      StepKeepsInv(s, es[0]);
      ReturnStep(s, es[0], scanRc);
      assert es[0] in es && forall x :: x in es[1..] ==> x in es;
      RunReturns(Step(s, es[0]), es[1..], scanRc);
    }
  }

  /** Over any events of one attempt, connect_to_lock returns the first result reported to it, or -ETIMEDOUT, or the
      reason scanning did not start; and 0 only if the Keyturner transport was ready when that result was recorded. */
  lemma ReturnsFirstResult(s: State, needGdio: bool, scanRc: int, es: seq<Event>)
    requires Inv(s) && s.thread.Resting? && NoConnect(es)
    requires Inv(Step(s, Connect(needGdio, scanRc))) && Possible(Step(s, Connect(needGdio, scanRc)), es)
    ensures var t := Run(Step(s, Connect(needGdio, scanRc)), es);
            if scanRc != 0 then t.attempt.returned == Some(scanRc)
            else if !t.thread.Resting? then t.attempt.returned == None
            else t.attempt.returned == Some(-ETIMEDOUT)
                 || (&& t.attempt.calls != [] && t.attempt.returned == Some(t.attempt.calls[0])
                     && (t.attempt.calls[0] == 0 ==> t.attempt.readyAtFirst))
  {
    hide Run, Inv;
    RunReturns(Step(s, Connect(needGdio, scanRc)), es, scanRc);
  }

  // -------------------------------------------- losing a connection of an earlier attempt

  /** After these events the attempt running in t has been ended by losing a connection it did not create. */
  ghost predicate ForeignLoss(t: State, es: seq<Event>)
    requires Inv(t)
  {
    && NoConnect(es) && Possible(t, es)
    && Run(t, es).attempt.lost.Some? && Run(t, es).attempt.lost.value < t.attempt.born
  }

  lemma StepPersists(s: State, e: Event)
    requires Inv(s) && Enabled(s, e) && !e.Connect?
    ensures Step(s, e).attempt.born == s.attempt.born && Step(s, e).attempt.clean == s.attempt.clean
  {
    hide OnFound, OnConnected, OnDisconnected, OnGdioFound, OnUsdioFound, DiscoverKeyturner, Finish, Inv;
    if !e.TakeReady? && !e.TakeExpires? && !e.GiveUp? {
      CallbackReports(s, e);
    }
  }

  lemma {:induction false} AttemptPersists(s: State, es: seq<Event>)
    requires Inv(s) && Possible(s, es) && NoConnect(es)
    ensures Inv(Run(s, es))
    ensures Run(s, es).attempt.born == s.attempt.born && Run(s, es).attempt.clean == s.attempt.clean
    decreases |es|
  {
    hide Step, Inv;
    if es != [] {
      StepKeepsInv(s, es[0]);
      assert es[0] in es && forall x :: x in es[1..] ==> x in es;
      StepPersists(s, es[0]);
      AttemptPersists(Step(s, es[0]), es[1..]);
    }
  }

  lemma TwoSteps(s: State, e1: Event, e2: Event)
    requires Inv(s) && Enabled(s, e1)
    requires Inv(Step(s, e1)) && Enabled(Step(s, e1), e2)
    ensures Possible(s, [e1, e2]) && Run(s, [e1, e2]) == Step(Step(s, e1), e2)
  {
    hide Step, Inv, Enabled;
    var t := Step(s, e1);
    StepKeepsInv(t, e2);
    assert [e2][1..] == [] && [e1, e2][1..] == [e2];
    assert Possible(Step(t, e2), []) && Run(Step(t, e2), []) == Step(t, e2);
    assert Possible(t, [e2]) && Run(t, [e2]) == Step(t, e2);
  }

  /** A late loss of an earlier attempt's connection can end a new attempt exactly when that connection is still held as
      the new attempt starts: connect_to_lock does not check this, and its callers do not wait after a failure. */
  lemma ForeignLossIff(s: State, needGdio: bool)
    requires Inv(s) && s.thread.Resting?
    ensures Inv(Step(s, Connect(needGdio, 0)))
    ensures (exists es :: ForeignLoss(Step(s, Connect(needGdio, 0)), es)) <==> s.conn.Some?
  {
    StepKeepsInv(s, Connect(needGdio, 0));
    var t := Step(s, Connect(needGdio, 0));
    if s.conn.None? {
      forall es | NoConnect(es) && Possible(t, es) ensures !ForeignLoss(t, es) {
        AttemptPersists(t, es);
      }
    } else {
      HeldCanBeLost(t);
    }
  }

  lemma HeldCanBeLost(t: State)
    requires Inv(t) && t.connecting && t.conn.Some? && t.conn.value < t.attempt.born
    ensures exists es :: ForeignLoss(t, es)
  {
    var c := t.conn.value;
    var first := if t.stack.Dialing? then Connected(c, false, 0) else Hangup;
    var t1 := Step(t, first);
    StepKeepsInv(t, first);
    assert t1.stack.Up? && t1.conn == t.conn && t1.connecting && t1.attempt == t.attempt;
    TwoSteps(t, first, Disconnected(c));
    assert Run(t, [first, Disconnected(c)]).attempt.lost == Some(c);
    assert ForeignLoss(t, [first, Disconnected(c)]);
  }

  /** Two runs from boot, one after the other: an attempt that gives up while dialing, and one during which the
      connection of the first comes up and is lost. */
  const GIVES_UP: seq<Event> := [Connect(false, 0), Found(true, 0, 0), TakeExpires, GiveUp]
  const LATE_LOSS: seq<Event> := [Connect(false, 0), Connected(0, false, 0), Disconnected(0)]

  /** The thread rests and the connection of the attempt that gave up is still held. */
  const HELD: State := State(
    Some(0), 1, Dialing, NoDiscovery, Service(None, false), Service(None, false), false, [1], false, 0, 0, 0, Resting,
    Attempt(false, [], false, 0, true, None, Some(-ETIMEDOUT)))

  /** The state in between, dialing with the thread waiting. */
  const DIALING: State := HELD.(connecting := true, thread := Waiting,
                                attempt := Attempt(true, [], false, 0, true, None, None))

  lemma FirstDials()
    ensures Inv(DIALING) && Possible(INITIAL, GIVES_UP[..2]) && Run(INITIAL, GIVES_UP[..2]) == DIALING
  {
    assert Inv(INITIAL);
    var s1 := Step(INITIAL, GIVES_UP[0]);
    StepKeepsInv(INITIAL, GIVES_UP[0]);
    StepKeepsInv(s1, GIVES_UP[1]);
    assert Step(s1, GIVES_UP[1]) == DIALING;
    hide Step, Inv, Run, Possible;
    TwoSteps(INITIAL, GIVES_UP[0], GIVES_UP[1]);
    assert GIVES_UP[..2] == [GIVES_UP[0], GIVES_UP[1]];
  }

  lemma ThenGivesUp()
    requires Inv(DIALING)
    ensures Inv(HELD) && Possible(DIALING, GIVES_UP[2..]) && Run(DIALING, GIVES_UP[2..]) == HELD
  {
    var s1 := Step(DIALING, GIVES_UP[2]);
    StepKeepsInv(DIALING, GIVES_UP[2]);
    StepKeepsInv(s1, GIVES_UP[3]);
    assert Step(s1, GIVES_UP[3]) == HELD;
    hide Step, Inv, Run, Possible;
    TwoSteps(DIALING, GIVES_UP[2], GIVES_UP[3]);
    assert GIVES_UP[2..] == [GIVES_UP[2], GIVES_UP[3]];
  }

  lemma FirstGivesUp()
    ensures Possible(INITIAL, GIVES_UP) && Run(INITIAL, GIVES_UP) == HELD && Inv(HELD)
  {
    assert Inv(INITIAL);
    hide Step, Inv, Run, Possible, DIALING, HELD;
    FirstDials();
    ThenGivesUp();
    RunConcat(INITIAL, GIVES_UP[..2], GIVES_UP[2..]);
    assert GIVES_UP[..2] + GIVES_UP[2..] == GIVES_UP;
  }

  lemma SecondIsEnded()
    requires Inv(HELD)
    ensures Possible(HELD, LATE_LOSS)
    ensures var a := Run(HELD, LATE_LOSS).attempt; a.lost == Some(0) && a.born == 1 && a.calls == [-ENOTCONN]
  {
    var s1 := Step(HELD, LATE_LOSS[0]);
    StepKeepsInv(HELD, LATE_LOSS[0]);
    var s2 := Step(s1, LATE_LOSS[1]);
    StepKeepsInv(s1, LATE_LOSS[1]);
    TwoSteps(s1, LATE_LOSS[1], LATE_LOSS[2]);
    assert LATE_LOSS[1..] == [LATE_LOSS[1], LATE_LOSS[2]];
  }

  lemma {:induction false} RunConcat(s: State, a: seq<Event>, b: seq<Event>)
    requires Inv(s) && Possible(s, a) && Inv(Run(s, a)) && Possible(Run(s, a), b)
    ensures Possible(s, a + b) && Run(s, a + b) == Run(Run(s, a), b)
    decreases |a|
  {
    hide Step, Inv, Enabled;
    if a == [] {
      assert a + b == b;
    } else {
      StepKeepsInv(s, a[0]);
      assert (a + b)[0] == a[0] && (a + b)[1..] == a[1..] + b;
      RunConcat(Step(s, a[0]), a[1..], b);
    }
  }

  /** From boot it does happen: the second attempt ends with the loss of a connection that the first created. */
  lemma LateLossHappens()
    ensures Possible(INITIAL, GIVES_UP + LATE_LOSS)
    ensures var a := Run(INITIAL, GIVES_UP + LATE_LOSS).attempt;
            a.lost == Some(0) && a.born == 1 && a.calls == [-ENOTCONN]
  {
    hide Run, Possible;
    FirstGivesUp();
    SecondIsEnded();
    RunConcat(INITIAL, GIVES_UP, LATE_LOSS);
  }
}
