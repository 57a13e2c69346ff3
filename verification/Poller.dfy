/** The background poller and the state cache of nuki_app.c. */
module Poller {
  import opened Bytes
  import opened Frames

  const INTERVAL: nat := 900
  const RETRY: nat := 3
  const MAX_RETRIES: nat := 3

  /** The retry counter, the cache, the poll result fetched but not yet stored, and the sleeps so far. */
  datatype State = State(retries: nat, valid: bool, cached: KeyturnerState, fetched: Option<Option<KeyturnerState>>,
                         sleeps: seq<nat>)

  /** Poll: nuki_app_get_state has returned (None is an error), or was skipped because no lock is paired. Store: the rest
      of the poller's iteration, up to its sleep. Push: a lock action has returned a state and writes it to the cache. */
  datatype Event = Poll(outcome: Option<KeyturnerState>) | Skip | Store | Push(state: KeyturnerState)

  function Step(s: State, e: Event): State {
    match e
    case Poll(outcome) => if s.fetched.Some? then s else s.(fetched := Some(outcome))
    case Skip => if s.fetched.Some? then s else s.(sleeps := s.sleeps + [INTERVAL])
    case Store =>
      if s.fetched.None? then s
      else
        (match s.fetched.value
         case Some(k) => State(0, true, k, None, s.sleeps + [INTERVAL])
         case None =>
           if s.retries < MAX_RETRIES
           then s.(retries := s.retries + 1, fetched := None, sleeps := s.sleeps + [RETRY])
           else s.(retries := 0, fetched := None, sleeps := s.sleeps + [INTERVAL]))
    case Push(k) => s.(valid := true, cached := k)
  }

  function Run(s: State, es: seq<Event>): State
    decreases |es|
  {
    if es == [] then s else Run(Step(s, es[0]), es[1..])
  }

  // ------------------------------------------------------------------- the class

  class Thread {
    var retries: nat
    var valid: bool
    var cached: KeyturnerState
    var fetched: Option<Option<KeyturnerState>>
    ghost var sleeps: seq<nat>

    ghost function View(): State
      reads this
    {
      State(retries, valid, cached, fetched, sleeps)
    }

    constructor (blank: KeyturnerState)
      ensures View() == State(0, false, blank, None, [])
    {
      retries, valid, cached, fetched, sleeps := 0, false, blank, None, [];
    }

    /** The first half of an iteration: fetch a state if a lock is paired. */
    method Fetch(paired: bool, outcome: Option<KeyturnerState>) returns (sleep: nat)
      requires fetched.None?
      modifies this`fetched, this`sleeps
      ensures View() == Step(old(View()), if paired then Poll(outcome) else Skip)
      ensures !paired ==> sleep == INTERVAL
    {
      sleep := INTERVAL;
      if paired {
        fetched := Some(outcome);
      } else {
        sleeps := sleeps + [sleep];
      }
    }

    /** The second half: update cache and retry counter, choose the sleep. */
    method Settle() returns (sleep: nat)
      requires fetched.Some?
      modifies this
      ensures View() == Step(old(View()), Store)
      ensures sleeps == old(sleeps) + [sleep]
    {
      sleep := INTERVAL;
      match fetched.value {
        case Some(k) =>
          cached, valid := k, true;
          retries := 0;
        case None =>
          if retries < MAX_RETRIES {
            retries := retries + 1;
            sleep := RETRY;
          } else {
            retries := 0;
          }
      }
      fetched := None;
      sleeps := sleeps + [sleep];
    }

    /** lock_action_locked storing the pushed state. */
    method PushState(k: KeyturnerState)
      modifies this`cached, this`valid
      ensures View() == Step(old(View()), Push(k))
    {
      cached, valid := k, true;
    }
  }

  // ------------------------------------------------------------------- whole runs

  /** The number of retry sleeps at the end of the sleeps so far. */
  function Streak(sleeps: seq<nat>): nat {
    if sleeps == [] || sleeps[|sleeps| - 1] == INTERVAL then 0 else 1 + Streak(sleeps[..|sleeps| - 1])
  }

  /** Every sleep is a full interval or a retry pause, and the counter bounds the current run of pauses. */
  ghost predicate SleepInv(s: State) {
    && s.retries <= MAX_RETRIES
    && Streak(s.sleeps) <= s.retries
    && (forall i :: 0 <= i < |s.sleeps| ==> s.sleeps[i] == INTERVAL || s.sleeps[i] == RETRY)
    && (forall i :: 0 <= i <= |s.sleeps| ==> Streak(s.sleeps[..i]) <= MAX_RETRIES)
  }

  lemma SleepAppended(sleeps: seq<nat>, next: nat)
    requires forall i :: 0 <= i <= |sleeps| ==> Streak(sleeps[..i]) <= MAX_RETRIES
    requires Streak(sleeps + [next]) <= MAX_RETRIES
    ensures forall i :: 0 <= i <= |sleeps + [next]| ==> Streak((sleeps + [next])[..i]) <= MAX_RETRIES
  {
    hide Streak;
    forall i | 0 <= i <= |sleeps| + 1 ensures Streak((sleeps + [next])[..i]) <= MAX_RETRIES {
      if i <= |sleeps| {
        assert (sleeps + [next])[..i] == sleeps[..i];
      } else {
        assert (sleeps + [next])[..i] == sleeps + [next];
      }
    }
  }

  lemma StreakSnoc(sleeps: seq<nat>, next: nat)
    ensures Streak(sleeps + [next]) == if next == INTERVAL then 0 else 1 + Streak(sleeps)
  {
    assert (sleeps + [next])[..|sleeps|] == sleeps;
  }

  lemma StepKeepsSleeps(s: State, e: Event)
    requires SleepInv(s)
    ensures SleepInv(Step(s, e))
  {
    hide Streak;
    StreakSnoc(s.sleeps, INTERVAL);
    StreakSnoc(s.sleeps, RETRY);
    SleepAppended(s.sleeps, INTERVAL);
    if s.retries < MAX_RETRIES {
      SleepAppended(s.sleeps, RETRY);
    }
  }

  lemma {:induction false} RunKeepsSleeps(s: State, es: seq<Event>)
    requires SleepInv(s)
    ensures SleepInv(Run(s, es))
    decreases |es|
  {
    hide Step;
    if es != [] {
      StepKeepsSleeps(s, es[0]);
      RunKeepsSleeps(Step(s, es[0]), es[1..]);
    }
  }

  lemma FourPauses(sleeps: seq<nat>, i: nat)
    requires i + 4 <= |sleeps|
    requires forall j :: i <= j < i + 4 ==> sleeps[j] != INTERVAL
    ensures Streak(sleeps[..i + 4]) >= 4
  {
    assert sleeps[..i + 4][..i + 3] == sleeps[..i + 3];
    assert sleeps[..i + 3][..i + 2] == sleeps[..i + 2];
    assert sleeps[..i + 2][..i + 1] == sleeps[..i + 1];
    assert Streak(sleeps[..i + 1]) >= 1;
    assert Streak(sleeps[..i + 2]) >= 2;
    assert Streak(sleeps[..i + 3]) >= 3;
  }

  ghost predicate FullSleepWithin(sleeps: seq<nat>, i: nat)
    requires i + 4 <= |sleeps|
  {
    exists j :: i <= j < i + 4 && sleeps[j] == INTERVAL
  }

  /** From boot, over any run: the retry counter stays at most 3, and any four consecutive iterations include a full
      interval of sleep. */
  lemma BoundedRetries(s: State, es: seq<Event>)
    requires s.retries == 0 && s.sleeps == []
    ensures Run(s, es).retries <= MAX_RETRIES
    ensures forall i: nat :: i + 4 <= |Run(s, es).sleeps| ==> FullSleepWithin(Run(s, es).sleeps, i)
  {
    RunKeepsSleeps(s, es);
    var sleeps := Run(s, es).sleeps;
    forall i: nat | i + 4 <= |sleeps| ensures FullSleepWithin(sleeps, i) {
      if !FullSleepWithin(sleeps, i) {
        FourPauses(sleeps, i);
      }
    }
  }

  // ------------------------------------------------------ the sleeps, exactly

  /** How an iteration of the poller went. */
  datatype Round = Succeeded | Failed | Skipped

  /** The iteration an event completes, given the poll result that was waiting. */
  function RoundBy(pending: Option<Option<KeyturnerState>>, e: Event): Option<Round> {
    if e.Skip? && pending.None? then Some(Skipped)
    else if e.Store? && pending == Some(None) then Some(Failed)
    else if e.Store? && pending.Some? then Some(Succeeded)
    else None
  }

  /** The iterations of a run, in order. */
  function Rounds(pending: Option<Option<KeyturnerState>>, es: seq<Event>): seq<Round>
    decreases |es|
  {
    if es == [] then []
    else
      var now := RoundBy(pending, es[0]);
      (if now.Some? then [now.value] else []) + Rounds(Waiting(pending, es[0]), es[1..])
  }

  /** The failed polls since the last successful one; skipped iterations do not count. */
  function Failures(rs: seq<Round>): nat {
    if rs == [] then 0
    else
      match rs[|rs| - 1]
      case Succeeded => 0
      case Failed => Failures(rs[..|rs| - 1]) + 1
      case Skipped => Failures(rs[..|rs| - 1])
  }

  /** The sleep after the last of these iterations: short after a failure, except that every fourth gives up. */
  function Pause(rs: seq<Round>): nat
    requires rs != []
  {
    if rs[|rs| - 1] == Failed && Failures(rs) % 4 != 0 then 3 else 900
  }

  function Pauses(rs: seq<Round>): seq<nat> {
    if rs == [] then [] else Pauses(rs[..|rs| - 1]) + [Pause(rs)]
  }

  /** The counter and the sleeps are those the iterations so far call for. */
  ghost predicate OnSchedule(s: State, rs: seq<Round>) {
    s.retries == Failures(rs) % 4 && s.sleeps == Pauses(rs)
  }

  lemma StepOnSchedule(s: State, e: Event, rs: seq<Round>)
    requires OnSchedule(s, rs)
    ensures var now := RoundBy(s.fetched, e); OnSchedule(Step(s, e), if now.Some? then rs + [now.value] else rs)
  {
    var now := RoundBy(s.fetched, e);
    if now.Some? {
      assert (rs + [now.value])[..|rs|] == rs;
    }
  }

  lemma {:induction false} RunOnSchedule(s: State, es: seq<Event>, rs: seq<Round>)
    requires OnSchedule(s, rs)
    ensures OnSchedule(Run(s, es), rs + Rounds(s.fetched, es))
    decreases |es|
  {
    hide Step, OnSchedule, RoundBy, Waiting;
    if es == [] {
      assert rs + [] == rs;
    } else {
      StepOnSchedule(s, es[0], rs);
      StepWrites(s, es[0]);
      var now, later := RoundBy(s.fetched, es[0]), Rounds(Waiting(s.fetched, es[0]), es[1..]);
      var rs' := if now.Some? then rs + [now.value] else rs;
      RunOnSchedule(Step(s, es[0]), es[1..], rs');
      assert rs' + later == rs + Rounds(s.fetched, es);
    }
  }

  /** From boot, over any run: the counter is the number of failed polls since the last success or give-up, a failed poll
      is followed by three seconds of sleep if that number was below three, and every other iteration by fifteen
      minutes. */
  lemma SleepsExactly(s: State, es: seq<Event>)
    requires s.retries == 0 && s.sleeps == []
    ensures Run(s, es).retries == Failures(Rounds(s.fetched, es)) % 4
    ensures Run(s, es).sleeps == Pauses(Rounds(s.fetched, es))
  {
    hide Run, Rounds;
    RunOnSchedule(s, es, []);
    assert [] + Rounds(s.fetched, es) == Rounds(s.fetched, es);
  }

  /** The states successful operations have returned during a run. */
  function Observed(es: seq<Event>): set<KeyturnerState> {
    if es == [] then {}
    else
      (if es[0].Poll? && es[0].outcome.Some? then {es[0].outcome.value}
       else if es[0].Push? then {es[0].state} else {})
      + Observed(es[1..])
  }

  /** What the cache and the pending fetch may hold. */
  ghost predicate From(s: State, known: set<KeyturnerState>) {
    && (s.valid ==> s.cached in known)
    && (s.fetched.Some? && s.fetched.value.Some? ==> s.fetched.value.value in known)
  }

  /** A valid cache stays valid and always holds a state that a successful operation returned. */
  lemma {:induction false} CacheIsObserved(s: State, es: seq<Event>, known: set<KeyturnerState>)
    requires From(s, known)
    ensures From(Run(s, es), known + Observed(es))
    ensures s.valid ==> Run(s, es).valid
    decreases |es|
  {
    if es != [] {
      var now := Observed([es[0]]);
      assert Observed([es[0]]) + Observed(es[1..]) == Observed(es) by {
        assert [es[0]][1..] == [] && Observed([]) == {};
      }
      CacheIsObserved(Step(s, es[0]), es[1..], known + now);
      assert known + now + Observed(es[1..]) == known + Observed(es);
    } else {
      assert known + Observed(es) == known;
    }
  }

  // ------------------------------------------------------- the cache, exactly

  /** The poll result waiting to be stored, after one more event. */
  function Waiting(pending: Option<Option<KeyturnerState>>, e: Event): Option<Option<KeyturnerState>> {
    match e
    case Poll(outcome) => if pending.Some? then pending else Some(outcome)
    case Store => None
    case _ => pending
  }

  /** The state of a successful poll that waits to be stored. */
  function SuccessOf(pending: Option<Option<KeyturnerState>>): Option<KeyturnerState> {
    if pending.Some? then pending.value else None
  }

  /** What an event writes to the cache: a pushed state, or the success it stores. */
  function WrittenBy(pending: Option<Option<KeyturnerState>>, e: Event): Option<KeyturnerState> {
    match e
    case Push(k) => Some(k)
    case Store => SuccessOf(pending)
    case _ => None
  }

  function LastWrite(pending: Option<Option<KeyturnerState>>, es: seq<Event>): Option<KeyturnerState>
    decreases |es|
  {
    if es == [] then None
    else
      var later := LastWrite(Waiting(pending, es[0]), es[1..]);
      if later.Some? then later else WrittenBy(pending, es[0])
  }

  lemma StepWrites(s: State, e: Event)
    ensures Step(s, e).fetched == Waiting(s.fetched, e)
    ensures Step(s, e).cached == (if WrittenBy(s.fetched, e).Some? then WrittenBy(s.fetched, e).value else s.cached)
    ensures Step(s, e).valid == (s.valid || WrittenBy(s.fetched, e).Some?)
  {
  }

  /** After any run the cache holds the last state written to it. */
  lemma {:induction false} CacheIsLastWrite(s: State, es: seq<Event>)
    ensures var w := LastWrite(s.fetched, es);
            && Run(s, es).cached == (if w.Some? then w.value else s.cached)
            && Run(s, es).valid == (s.valid || w.Some?)
    decreases |es|
  {
    hide Step, Waiting, WrittenBy;
    if es != [] {
      StepWrites(s, es[0]);
      CacheIsLastWrite(Step(s, es[0]), es[1..]);
    }
  }

  /** An event that is a skip, a failed poll, or the rest of an iteration whose poll failed. */
  predicate Fruitless(pending: Option<Option<KeyturnerState>>, e: Event) {
    || e.Skip?
    || (e.Poll? && (pending.Some? || e.outcome.None?))
    || (e.Store? && SuccessOf(pending).None?)
  }

  /** A run with every failed poll, what follows from it, and every skip taken out. */
  function WithoutFailures(pending: Option<Option<KeyturnerState>>, es: seq<Event>): seq<Event>
    decreases |es|
  {
    if es == [] then []
    else
      (if Fruitless(pending, es[0]) then [] else [es[0]]) + WithoutFailures(Waiting(pending, es[0]), es[1..])
  }

  lemma {:induction false} FailuresWriteNothing(pending: Option<Option<KeyturnerState>>, es: seq<Event>)
    ensures var success := SuccessOf(pending);
            LastWrite(pending, es)
            == LastWrite(if success.Some? then Some(success) else None, WithoutFailures(pending, es))
    decreases |es|
  {
    if es != [] {
      var rest := WithoutFailures(Waiting(pending, es[0]), es[1..]);
      FailuresWriteNothing(Waiting(pending, es[0]), es[1..]);
      if !Fruitless(pending, es[0]) {
        assert ([es[0]] + rest)[1..] == rest;
      } else {
        assert [] + rest == rest;
      }
    }
  }

  /** Failed polls never change the cache: taking all of them out of any run leaves it the same, whatever else the run
      pushes or fetches. */
  lemma FailedPollsKeepCache(s: State, es: seq<Event>)
    requires s.fetched.None?
    ensures var quiet := Run(s, WithoutFailures(None, es));
            Run(s, es).cached == quiet.cached && Run(s, es).valid == quiet.valid
  {
    hide Run, LastWrite, WithoutFailures;
    FailuresWriteNothing(None, es);
    CacheIsLastWrite(s, es);
    CacheIsLastWrite(s, WithoutFailures(None, es));
  }

  // ------------------------------------------------------ newest observation

  /** A state that an operation has returned, and the polled state that was waiting to be stored over it. */
  datatype Sighting = Sighting(state: KeyturnerState, rival: Option<KeyturnerState>)

  function SeenBy(pending: Option<Option<KeyturnerState>>, e: Event): Option<Sighting> {
    match e
    case Poll(Some(k)) => if pending.Some? then None else Some(Sighting(k, None))
    case Push(k) => Some(Sighting(k, SuccessOf(pending)))
    case _ => None
  }

  /** The newest observation of a run. */
  function Newest(pending: Option<Option<KeyturnerState>>, es: seq<Event>): Option<Sighting>
    decreases |es|
  {
    if es == [] then None
    else
      var later := Newest(Waiting(pending, es[0]), es[1..]);
      if later.Some? then later else SeenBy(pending, es[0])
  }

  /** Whenever no success waits to be stored, the cache holds the newest observation or the rival stored over it. */
  lemma {:induction false} SettledCache(s: State, es: seq<Event>)
    requires SuccessOf(Run(s, es).fetched).None?
    ensures Run(s, es).cached == match Newest(s.fetched, es) {
                                   case Some(o) => if o.rival.Some? then o.rival.value else o.state
                                   case None => if SuccessOf(s.fetched).Some? then SuccessOf(s.fetched).value else s.cached
                                 }
    decreases |es|
  {
    hide Step;
    if es != [] {
      StepWrites(s, es[0]);
      SettledCache(Step(s, es[0]), es[1..]);
    }
  }

  /** The poller stores what it fetched even if a lock action has stored a newer state in between. So in any run, once no
      success waits to be stored, the cache is the newest observation exactly when that was not pushed while a poll with
      a different state was waiting. */
  lemma NewestIff(s: State, es: seq<Event>)
    requires SuccessOf(Run(s, es).fetched).None? && Newest(s.fetched, es).Some?
    ensures var o := Newest(s.fetched, es).value;
            Run(s, es).cached == o.state <==> o.rival == None || o.rival == Some(o.state)
  {
    hide Run, Newest;
    SettledCache(s, es);
  }

  /** No push falls between a successful poll and its store. */
  predicate Undisturbed(pending: Option<Option<KeyturnerState>>, es: seq<Event>)
    decreases |es|
  {
    es == [] || (&& (es[0].Push? ==> SuccessOf(pending).None?)
                 && Undisturbed(Waiting(pending, es[0]), es[1..]))
  }

  /** In every such run the cache is the newest observation whenever no success waits to be stored. */
  lemma {:induction false} UndisturbedIsNewest(s: State, es: seq<Event>)
    requires SuccessOf(Run(s, es).fetched).None? && Newest(s.fetched, es).Some?
    requires Undisturbed(s.fetched, es)
    ensures Run(s, es).cached == Newest(s.fetched, es).value.state
  {
    NoRivals(s.fetched, es);
    NewestIff(s, es);
  }

  lemma {:induction false} NoRivals(pending: Option<Option<KeyturnerState>>, es: seq<Event>)
    requires Undisturbed(pending, es)
    ensures Newest(pending, es).Some? ==> Newest(pending, es).value.rival.None?
    decreases |es|
  {
    if es != [] {
      NoRivals(Waiting(pending, es[0]), es[1..]);
    }
  }

  /** A run from boot that leaves an older state in the cache: poll, push, store. */
  lemma StaleStore(blank: KeyturnerState, polled: KeyturnerState, pushed: KeyturnerState)
    requires polled != pushed
    ensures var s, es := State(0, false, blank, None, []), [Poll(Some(polled)), Push(pushed), Store];
            Newest(None, es) == Some(Sighting(pushed, Some(polled))) && Run(s, es).cached == polled != pushed
  {
    var s, es := State(0, false, blank, None, []), [Poll(Some(polled)), Push(pushed), Store];
    assert es[1..] == [Push(pushed), Store] && es[1..][1..] == [Store] && [Store][1..] == [];
    assert Newest(Some(Some(polled)), [Store]) == None;
    assert Newest(Some(Some(polled)), [Push(pushed), Store]) == Some(Sighting(pushed, Some(polled)));
    var s2 := Step(Step(s, es[0]), es[1]);
    assert Run(s, es) == Run(s2, [Store]) == Step(s2, Store);
  }
}
