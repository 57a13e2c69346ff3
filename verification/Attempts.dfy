/** What a connect attempt returns, read off the events alone. */
module Attempts {
  import opened Bytes
  import opened Codes
  import opened Connection

  /** What the events so far say: the connection held and how many there have been, the services wanted, the discovery in
      progress, the services ready, and whether a hang-up has been answered. */
  datatype Phase = Phase(conn: Option<nat>, next: nat, needGdio: bool, discovery: Discovery, gdio: bool, usdio: bool,
                         gone: nat)

  /** The next phase: a connection is dialed, comes up, goes through one or two discoveries, and is lost. */
  function Track(p: Phase, e: Event): Phase {
    match e
    case Connect(needGdio, _) => p.(needGdio := needGdio)
    case Found(true, 0, 0) => if p.conn.None? then p.(conn := Some(p.next), next := p.next + 1) else p
    case Connected(_, true, _) => p.(conn := None)
    case Connected(c, false, 0) =>
      if p.conn != Some(c) then p
      else p.(discovery := if p.needGdio then GdioDiscovery else UsdioDiscovery)
    case GdioMissing(startRc) => p.(discovery := if startRc == 0 then UsdioDiscovery else NoDiscovery)
    case GdioFound(hasChrc, subRc, startRc) =>
      p.(gdio := hasChrc && subRc == 0, discovery := if startRc == 0 then UsdioDiscovery else NoDiscovery)
    case UsdioMissing(_) => p.(discovery := NoDiscovery)
    case UsdioFound(hasChrc, subRc) => p.(usdio := hasChrc && subRc == 0, discovery := NoDiscovery)
    case Disconnected(c) =>
      if p.conn != Some(c) then p
      else p.(conn := None, discovery := NoDiscovery, gdio := false, usdio := false, gone := 1)
    case Hangup => if p.conn.Some? then p.(gone := 0) else p
    case _ => p
  }

  function Failure(rc: int): Option<int> {
    if rc == 0 then None else Some(rc)
  }

  /** The result with which an event ends an attempt. */
  function Outcome(p: Phase, e: Event): Option<int> {
    match e
    case Found(true, 0, createRc) => if p.conn.None? then Failure(createRc) else None
    case ScanTimeout => Some(-ETIMEDOUT)
    case Connected(_, true, _) => Some(-EIO)
    case Connected(c, false, startRc) => if p.conn == Some(c) then Failure(startRc) else None
    case Disconnected(c) => if p.conn == Some(c) then Some(-ENOTCONN) else None
    case GdioMissing(startRc) => Failure(startRc)
    case GdioFound(_, _, startRc) => Failure(startRc)
    case UsdioMissing(rc) => Some(rc)
    case UsdioFound(hasChrc, subRc) => if hasChrc then Some(subRc) else Some(-ENOTSUP)
    case StaleDiscovery(rc) => Some(rc)
    case _ => None
  }

  function Now<T>(o: Option<T>): seq<T> {
    if o.Some? then [o.value] else []
  }

  function TrackAll(p: Phase, es: seq<Event>): Phase
    decreases |es|
  {
    if es == [] then p else TrackAll(Track(p, es[0]), es[1..])
  }

  /** The results of the ending events, in order. */
  function Outcomes(p: Phase, es: seq<Event>): seq<int>
    decreases |es|
  {
    if es == [] then [] else Now(Outcome(p, es[0])) + Outcomes(Track(p, es[0]), es[1..])
  }

  /** The first event that ends an attempt. */
  function FirstEnding(p: Phase, es: seq<Event>): Option<Event>
    decreases |es|
  {
    if es == [] then None
    else if Outcome(p, es[0]).Some? then Some(es[0])
    else FirstEnding(Track(p, es[0]), es[1..])
  }

  function PhaseOf(s: State): Phase {
    Phase(s.conn, s.next, s.needGdio, s.discovery, s.gdio.ready, s.usdio.ready, s.disconnectedSem)
  }

  // ------------------------------------------------------------ one step, a run

  /** One event turns s into s' as the phases and outcomes say. */
  ghost predicate Tracks(s: State, e: Event, s': State) {
    && PhaseOf(s') == Track(PhaseOf(s), e)
    && (!e.Connect? ==> s'.attempt.calls == s.attempt.calls + Now(Outcome(PhaseOf(s), e)))
  }

  lemma FinishTracks(s: State, err: int)
    ensures PhaseOf(Finish(s, err)) == PhaseOf(s) && Finish(s, err).attempt.calls == s.attempt.calls + [err]
  {
    hide Reported;
  }

  lemma DiscoverTracks(s: State, rc: int)
    ensures PhaseOf(DiscoverKeyturner(s, rc))
            == PhaseOf(s).(discovery := if rc == 0 then UsdioDiscovery else NoDiscovery)
    ensures DiscoverKeyturner(s, rc).attempt.calls == s.attempt.calls + Now(Failure(rc))
  {
    hide Reported, Finish;
    FinishTracks(s.(discovery := NoDiscovery), rc);
    assert s.attempt.calls + [] == s.attempt.calls;
  }

  lemma FoundTracks(s: State, matches: bool, stopRc: int, createRc: int)
    ensures Tracks(s, Found(matches, stopRc, createRc), OnFound(s, matches, stopRc, createRc))
  {
    hide Reported, Finish;
    FinishTracks(s, createRc);
    assert s.attempt.calls + [] == s.attempt.calls;
  }

  lemma ConnectedTracks(s: State, c: nat, err: bool, startRc: int)
    requires Inv(s) && Enabled(s, Connected(c, err, startRc))
    ensures Tracks(s, Connected(c, err, startRc), OnConnected(s, c, err, startRc))
  {
    assert LinkInv(s) && (err ==> s.conn.Some?);
    assert s.conn == Some(c) && !err ==> s.discovery.NoDiscovery?;
    assert s.attempt.calls + [] == s.attempt.calls;
    hide Reported, Finish, DiscoverKeyturner, Inv;
    if err {
      FinishTracks(FailedConnect(s), -EIO);
    } else {
      FinishTracks(s.(stack := Up), startRc);
      DiscoverTracks(s.(stack := Up), startRc);
    }
  }

  lemma DisconnectedTracks(s: State, c: nat)
    requires Inv(s)
    ensures Tracks(s, Disconnected(c), OnDisconnected(s, c))
  {
    assert LinkInv(s);
    assert s.attempt.calls + [] == s.attempt.calls;
    hide Reported, Finish, Inv, LetGo;
    if s.conn == Some(c) {
      FinishTracks(LetGo(s), -ENOTCONN);
    }
  }

  lemma GdioTracks(s: State, hasChrc: bool, subRc: int, startRc: int)
    requires s.conn.Some? && s.conn.value < |s.refs| && !s.gdio.ready
    ensures Tracks(s, GdioFound(hasChrc, subRc, startRc), OnGdioFound(s, hasChrc, subRc, startRc))
  {
    hide Reported, Finish, DiscoverKeyturner;
    DiscoverTracks(s, startRc);
    if hasChrc {
      var (s1, t) := InitService(s, subRc);
      DiscoverTracks(s1.(gdio := t), startRc);
    }
  }

  lemma UsdioTracks(s: State, hasChrc: bool, subRc: int)
    requires s.conn.Some? && s.conn.value < |s.refs| && !s.usdio.ready
    ensures Tracks(s, UsdioFound(hasChrc, subRc), OnUsdioFound(s, hasChrc, subRc))
  {
    hide Reported, Finish;
    FinishTracks(s.(discovery := NoDiscovery), -ENOTSUP);
    if hasChrc {
      var (s1, t) := InitService(s, subRc);
      FinishTracks(s1.(usdio := t, discovery := NoDiscovery), subRc);
    }
  }

  lemma ThreadTracks(s: State, e: Event)
    requires Inv(s) && Enabled(s, e)
    requires e.Connect? || e.TakeReady? || e.TakeExpires? || e.GiveUp? || e.Hangup?
    ensures Tracks(s, e, Step(s, e))
  {
    assert s.attempt.calls + [] == s.attempt.calls;
    hide Reported, Finish, LinkInv, OnFound, OnConnected, OnDisconnected, OnGdioFound, OnUsdioFound, DiscoverKeyturner;
  }

  lemma TrackStep(s: State, e: Event)
    requires Inv(s) && Enabled(s, e)
    ensures Tracks(s, e, Step(s, e))
  {
    assert !s.discovery.NoDiscovery? ==> s.conn.Some? && s.conn.value < |s.refs| && !s.usdio.ready;
    assert s.discovery.GdioDiscovery? ==> !s.gdio.ready;
    hide Inv, Finish, OnFound, OnConnected, OnDisconnected, OnGdioFound, OnUsdioFound, DiscoverKeyturner, Reported;
    match e {
      case Found(matches, stopRc, createRc) => FoundTracks(s, matches, stopRc, createRc);
      case ScanTimeout => FinishTracks(s, -ETIMEDOUT);
      case Connected(c, err, startRc) => ConnectedTracks(s, c, err, startRc);
      case Disconnected(c) => DisconnectedTracks(s, c);
      case GdioMissing(startRc) => DiscoverTracks(s, startRc);
      case GdioFound(hasChrc, subRc, startRc) => GdioTracks(s, hasChrc, subRc, startRc);
      case UsdioMissing(rc) => FinishTracks(s.(discovery := NoDiscovery), rc);
      case UsdioFound(hasChrc, subRc) => UsdioTracks(s, hasChrc, subRc);
      case StaleDiscovery(rc) => FinishTracks(s, rc);
      case _ => ThreadTracks(s, e);
    }
  }

  /** Every callback does to the connection, the services and the attempt exactly what the events say. */
  lemma {:induction false} RunTracks(s: State, es: seq<Event>)
    requires Inv(s) && Possible(s, es) && NoConnect(es)
    ensures PhaseOf(Run(s, es)) == TrackAll(PhaseOf(s), es)
    ensures Run(s, es).attempt.calls == s.attempt.calls + Outcomes(PhaseOf(s), es)
    decreases |es|
  {
    hide Step, Inv, Enabled, Track, Outcome, Now, PhaseOf;
    if es == [] {
      assert s.attempt.calls + [] == s.attempt.calls;
    } else {
      StepKeepsInv(s, es[0]);
      TrackStep(s, es[0]);
      assert es[0] in es && forall x :: x in es[1..] ==> x in es;
      var t := Step(s, es[0]);
      RunTracks(t, es[1..]);
      Regroup(s.attempt.calls, Now(Outcome(PhaseOf(s), es[0])), Outcomes(PhaseOf(t), es[1..]));
    }
  }

  lemma Regroup(a: seq<int>, b: seq<int>, c: seq<int>)
    ensures (a + b) + c == a + (b + c)
  {
  }

  // -------------------------------------------------------- what is returned

  lemma NoneLater(e: Event, es: seq<Event>)
    requires es != []
    ensures e in es <==> e == es[0] || e in es[1..]
  {
    if e in es && e != es[0] {
      var i :| 0 <= i < |es| && es[i] == e;
      assert es[1..][i - 1] == e;
    }
  }

  lemma CallsOnlyGrow(s: State, es: seq<Event>)
    requires Inv(s) && Possible(s, es) && NoConnect(es)
    ensures s.attempt.calls <= Run(s, es).attempt.calls
  {
    hide Run, Possible, Inv, Outcomes;
    RunTracks(s, es);
  }

  /** Once the thread rests, nothing takes its result back. */
  lemma {:induction false} RestingKeeps(s: State, es: seq<Event>)
    requires Inv(s) && Possible(s, es) && NoConnect(es) && s.thread.Resting?
    ensures Run(s, es).thread.Resting? && Run(s, es).attempt.returned == s.attempt.returned
    ensures GiveUp !in es && TakeReady !in es
    decreases |es|
  {
    if es != [] {
      StepKeepsInv(s, es[0]);
      assert es[0] in es && forall x :: x in es[1..] ==> x in es;
      if !es[0].Hangup? {
        CallbackReports(s, es[0]);
      }
      hide Step, Inv;
      RestingKeeps(Step(s, es[0]), es[1..]);
      NoneLater(GiveUp, es);
      NoneLater(TakeReady, es);
    }
  }

  /** What has become of the thread after a run to t: it has given up, or taken the first result, or not come back. */
  ghost predicate Returned(es: seq<Event>, t: State) {
    var a := t.attempt;
    && !(GiveUp in es && TakeReady in es)
    && (GiveUp in es ==> a.returned == Some(-ETIMEDOUT))
    && (TakeReady in es ==> a.calls != [] && a.returned == Some(a.calls[0]))
    && (GiveUp !in es && TakeReady !in es ==> a.returned == None && !t.thread.Resting?)
  }

  /** The step that ends the wait, and what follows it. */
  lemma EndsHere(s: State, es: seq<Event>)
    requires Inv(s) && Possible(s, es) && NoConnect(es) && !s.thread.Resting?
    requires es != [] && (es[0].TakeReady? || es[0].GiveUp?)
    ensures Returned(es, Run(s, es))
  {
    StepKeepsInv(s, es[0]);
    var t := Step(s, es[0]);
    assert es[0].TakeReady? ==> t.attempt.calls != [] && t.attempt.returned == Some(t.attempt.calls[0]);
    assert forall x :: x in es[1..] ==> x in es;
    assert t.thread.Resting?;
    hide Step, Inv;
    RestingKeeps(t, es[1..]);
    CallsOnlyGrow(t, es[1..]);
    NoneLater(GiveUp, es);
    NoneLater(TakeReady, es);
  }

  lemma StillWaiting(s: State, e: Event)
    requires Inv(s) && Enabled(s, e) && !e.Connect? && !e.TakeReady? && !e.GiveUp?
    requires !s.thread.Resting? && s.attempt.returned == None
    ensures !Step(s, e).thread.Resting? && Step(s, e).attempt.returned == None
  {
    hide OnFound, OnConnected, OnDisconnected, OnGdioFound, OnUsdioFound, DiscoverKeyturner, Finish, Inv;
    if !e.TakeExpires? {
      CallbackReports(s, e);
    }
  }

  lemma {:induction false} RunReturned(s: State, es: seq<Event>)
    requires Inv(s) && Possible(s, es) && NoConnect(es)
    requires !s.thread.Resting? && s.attempt.returned == None
    ensures Returned(es, Run(s, es))
    decreases |es|
  {
    if es != [] {
      if es[0].TakeReady? || es[0].GiveUp? {
        EndsHere(s, es);
      } else {
        hide Step, Inv, Enabled;
        assert es[0] in es && forall x :: x in es[1..] ==> x in es;
        StepKeepsInv(s, es[0]);
        StillWaiting(s, es[0]);
        RunReturned(Step(s, es[0]), es[1..]);
        NoneLater(GiveUp, es);
        NoneLater(TakeReady, es);
      }
    }
  }

  lemma Wakeable(s: State)
    requires Inv(s) && s.thread.Waiting?
    ensures s.readySem == 1 <==> s.attempt.calls != []
  {
    hide LinkInv;
  }

  /** The phase in which an attempt begins. */
  function Begun(s: State, needGdio: bool): Phase {
    Track(PhaseOf(s), Connect(needGdio, 0))
  }

  lemma BeginsOpen(s: State, needGdio: bool)
    requires Inv(s) && s.thread.Resting?
    ensures var t := Step(s, Connect(needGdio, 0));
            Inv(t) && t.thread.Waiting? && t.attempt.returned == None && t.attempt.calls == []
            && PhaseOf(t) == Begun(s, needGdio)
  {
    StepKeepsInv(s, Connect(needGdio, 0));
    hide Inv;
  }

  /** What an attempt returns, for any events: a waiting thread can be woken exactly when an ending event has happened; one
      that was woken returns the outcome of the first ending event, one that gave up -ETIMEDOUT. */
  lemma AttemptResult(s: State, needGdio: bool, es: seq<Event>)
    requires Inv(s) && s.thread.Resting? && NoConnect(es)
    requires Inv(Step(s, Connect(needGdio, 0))) && Possible(Step(s, Connect(needGdio, 0)), es)
    ensures var t, outcomes := Run(Step(s, Connect(needGdio, 0)), es), Outcomes(Begun(s, needGdio), es);
            && (t.thread.Waiting? ==> (t.readySem == 1 <==> outcomes != []))
            && !(GiveUp in es && TakeReady in es)
            && (TakeReady in es ==> outcomes != [] && t.attempt.returned == Some(outcomes[0]))
            && (GiveUp in es ==> t.attempt.returned == Some(-ETIMEDOUT))
            && (GiveUp !in es && TakeReady !in es ==> t.attempt.returned == None)
  {
    BeginsOpen(s, needGdio);
    hide Step, Inv, Run, Possible, Outcomes, Begun;
    var t0 := Step(s, Connect(needGdio, 0));
    RunReturned(t0, es);
    RunTracks(t0, es);
    ReachableInv(t0, es);
    var t := Run(t0, es);
    assert t.attempt.calls == Outcomes(Begun(s, needGdio), es);
    if t.thread.Waiting? {
      Wakeable(t);
    }
  }

  lemma ZeroOutcome(s: State, e: Event)
    requires Inv(s) && Enabled(s, e)
    ensures Outcome(PhaseOf(s), e) == Some(0) <==> e == UsdioFound(true, 0)
  {
    hide Inv;
  }

  lemma {:induction false} FirstIsZeroIff(s: State, es: seq<Event>)
    requires Inv(s) && Possible(s, es)
    ensures var outcomes := Outcomes(PhaseOf(s), es);
            (outcomes != [] && outcomes[0] == 0) <==> FirstEnding(PhaseOf(s), es) == Some(UsdioFound(true, 0))
    decreases |es|
  {
    hide Step, Inv, Enabled, Track, Outcome, PhaseOf;
    if es != [] {
      ZeroOutcome(s, es[0]);
      StepKeepsInv(s, es[0]);
      TrackStep(s, es[0]);
      var t := Step(s, es[0]);
      assert PhaseOf(t) == Track(PhaseOf(s), es[0]);
      FirstIsZeroIff(t, es[1..]);
      if Outcome(PhaseOf(s), es[0]).None? {
        assert [] + Outcomes(PhaseOf(t), es[1..]) == Outcomes(PhaseOf(t), es[1..]);
      }
    }
  }

  /** connect_to_lock returns 0 if and only if it was woken and the first event that ended the attempt is a Keyturner
      discovery with its characteristic and a successful subscription. */
  lemma ReturnsZeroIff(s: State, needGdio: bool, es: seq<Event>)
    requires Inv(s) && s.thread.Resting? && NoConnect(es)
    requires Inv(Step(s, Connect(needGdio, 0))) && Possible(Step(s, Connect(needGdio, 0)), es)
    ensures Run(Step(s, Connect(needGdio, 0)), es).attempt.returned == Some(0)
            <==> TakeReady in es && FirstEnding(Begun(s, needGdio), es) == Some(UsdioFound(true, 0))
  {
    BeginsOpen(s, needGdio);
    hide Step, Inv, Run, Possible, Outcomes, Begun, FirstEnding;
    AttemptResult(s, needGdio, es);
    FirstIsZeroIff(Step(s, Connect(needGdio, 0)), es);
  }

  /** An attempt whose scan did not start returns why. */
  lemma ScanFailureReturned(s: State, needGdio: bool, scanRc: int, es: seq<Event>)
    requires Inv(s) && s.thread.Resting? && scanRc != 0 && NoConnect(es)
    requires Inv(Step(s, Connect(needGdio, scanRc))) && Possible(Step(s, Connect(needGdio, scanRc)), es)
    ensures Run(Step(s, Connect(needGdio, scanRc)), es).attempt.returned == Some(scanRc)
  {
    var t := Step(s, Connect(needGdio, scanRc));
    assert t.thread.Resting? && t.attempt.returned == Some(scanRc);
    hide Step, Inv;
    RestingKeeps(t, es);
  }

  // ------------------------------------------------------------- boot runs

  /** The lock is found, comes up, and each service wanted is discovered. */
  const READY_RUN: seq<Event> := [Found(true, 0, 0), Connected(0, false, 0), UsdioFound(true, 0), TakeReady]
  const PAIRING_RUN: seq<Event> := [
    Found(true, 0, 0), Connected(0, false, 0), GdioFound(true, 0, 0), UsdioFound(true, 0), TakeReady]

  function Waking(needGdio: bool): (s: State) {
    INITIAL.(needGdio := needGdio, connecting := true, thread := Waiting,
             attempt := Attempt(true, [], false, 0, true, None, None))
  }

  function Dialed(needGdio: bool): State {
    Waking(needGdio).(conn := Some(0), next := 1, stack := Dialing, refs := [1])
  }

  lemma Dials(needGdio: bool)
    ensures Inv(INITIAL) && Step(INITIAL, Connect(needGdio, 0)) == Waking(needGdio) && Inv(Waking(needGdio))
    ensures Step(Waking(needGdio), Found(true, 0, 0)) == Dialed(needGdio) && Inv(Dialed(needGdio))
  {
    assert Inv(INITIAL);
    StepKeepsInv(INITIAL, Connect(needGdio, 0));
    StepKeepsInv(Waking(needGdio), Found(true, 0, 0));
  }

  lemma RunCons(s: State, e: Event, es: seq<Event>)
    requires Inv(s) && Enabled(s, e) && Inv(Step(s, e)) && Possible(Step(s, e), es)
    ensures Possible(s, [e] + es) && Run(s, [e] + es) == Run(Step(s, e), es)
  {
    hide Step, Inv, Enabled;
    assert ([e] + es)[0] == e && ([e] + es)[1..] == es;
  }

  /** The link is up, and the discovery that the attempt wants first is in progress. */
  function Linked(needGdio: bool): State {
    Dialed(needGdio).(stack := Up, discovery := if needGdio then GdioDiscovery else UsdioDiscovery)
  }

  function Subscribed(): State {
    Linked(true).(gdio := Service(Some(0), true), refs := [2], discovery := UsdioDiscovery)
  }

  lemma LinksUp(needGdio: bool)
    requires Inv(Dialed(needGdio))
    ensures Step(Dialed(needGdio), Connected(0, false, 0)) == Linked(needGdio) && Inv(Linked(needGdio))
  {
    StepKeepsInv(Dialed(needGdio), Connected(0, false, 0));
    hide Inv, Reported;
  }

  lemma Subscribes()
    requires Inv(Linked(true))
    ensures Step(Linked(true), GdioFound(true, 0, 0)) == Subscribed() && Inv(Subscribed())
  {
    StepKeepsInv(Linked(true), GdioFound(true, 0, 0));
    hide Inv, Reported;
  }

  /** From a link in its last discovery, success and waking up. */
  lemma Succeeds(s: State)
    requires Inv(s) && s.discovery.UsdioDiscovery? && s.thread.Waiting? && s.connecting
    ensures var es := [UsdioFound(true, 0), TakeReady];
            && Possible(s, es) && Run(s, es).attempt.returned == Some(0)
            && Run(s, es).usdio.ready && Run(s, es).gdio == s.gdio
  {
    var t := Step(s, UsdioFound(true, 0));
    StepKeepsInv(s, UsdioFound(true, 0));
    assert t.thread.Waiting? && t.readySem > 0 && t.connectErr == 0 && t.usdio.ready && t.gdio == s.gdio;
    TwoSteps(s, UsdioFound(true, 0), TakeReady);
  }

  /** From boot an attempt can return 0, with the Keyturner transport ready, and with the Pairing transport too if it was
      wanted. */
  lemma BootReady()
    ensures Inv(Waking(false)) && Possible(Waking(false), READY_RUN)
    ensures Step(INITIAL, Connect(false, 0)) == Waking(false)
    ensures var t := Run(Waking(false), READY_RUN); t.attempt.returned == Some(0) && t.usdio.ready && !t.gdio.ready
  {
    Dials(false);
    LinksUp(false);
    Succeeds(Linked(false));
    hide Step, Inv, Run, Possible;
    var last := [UsdioFound(true, 0), TakeReady];
    RunCons(Dialed(false), Connected(0, false, 0), last);
    RunCons(Waking(false), Found(true, 0, 0), [Connected(0, false, 0)] + last);
    assert [Found(true, 0, 0)] + ([Connected(0, false, 0)] + last) == READY_RUN;
  }

  lemma BootPairing()
    ensures Inv(Waking(true)) && Possible(Waking(true), PAIRING_RUN)
    ensures Step(INITIAL, Connect(true, 0)) == Waking(true)
    ensures var t := Run(Waking(true), PAIRING_RUN); t.attempt.returned == Some(0) && t.usdio.ready && t.gdio.ready
  {
    Dials(true);
    LinksUp(true);
    Subscribes();
    Succeeds(Subscribed());
    hide Step, Inv, Run, Possible;
    var last := [UsdioFound(true, 0), TakeReady];
    RunCons(Linked(true), GdioFound(true, 0, 0), last);
    RunCons(Dialed(true), Connected(0, false, 0), [GdioFound(true, 0, 0)] + last);
    RunCons(Waking(true), Found(true, 0, 0), [Connected(0, false, 0)] + ([GdioFound(true, 0, 0)] + last));
    assert [Found(true, 0, 0)] + ([Connected(0, false, 0)] + ([GdioFound(true, 0, 0)] + last)) == PAIRING_RUN;
  }
}
