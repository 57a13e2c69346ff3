/** The UART port: interrupt, four-deep queue and thread, under any interleaving (nuki_uart_proto.c). */
module UartPort {
  import opened Bytes
  import opened UartDecoder
  import opened UartResponse

  const QUEUE_DEPTH: nat := 4

  /** The decoder, the message queue, the frame the thread is working on, the responses sent so far and the operations
      performed. */
  datatype Port = Port(dec: Decoder, queue: seq<RxFrame>, current: Option<RxFrame>, sent: seq<seq<byte>>,
                       calls: seq<Call>)

  /** One atomic step: a byte in the interrupt, the thread taking a frame, the thread answering it. */
  datatype Action = Byte(c: byte) | Get | Answer(app: App)

  ghost predicate ValidPort(p: Port) {
    && Valid(p.dec) && |p.queue| <= QUEUE_DEPTH
    && (forall f :: f in p.queue ==> ValidFrame(f))
    && (p.current.Some? ==> ValidFrame(p.current.value))
  }

  /** k_msgq_put without waiting: a full queue drops the frame. */
  function Put(queue: seq<RxFrame>, f: RxFrame): seq<RxFrame> {
    if |queue| < QUEUE_DEPTH then queue + [f] else queue
  }

  function Next(p: Port, a: Action): (p': Port)
    requires ValidPort(p)
    ensures ValidPort(p')
  {
    match a
    case Byte(c) =>
      var (d, f) := Step(p.dec, c);
      p.(dec := d, queue := if f.Some? then Put(p.queue, f.value) else p.queue)
    case Get =>
      if p.current.None? && p.queue != [] then p.(queue := p.queue[1..], current := Some(p.queue[0])) else p
    case Answer(app) =>
      if p.current.None? then p
      else
        var f := p.current.value;
        p.(current := None, sent := p.sent + [Response(f, app)], calls := p.calls + CallsOf(f))
  }

  function Run(p: Port, actions: seq<Action>): (p': Port)
    requires ValidPort(p)
    ensures ValidPort(p')
    decreases |actions|
  {
    if actions == [] then p else Run(Next(p, actions[0]), actions[1..])
  }

  // ------------------------------------------------------------------- the class

  class Uart {
    var rxState: RxState
    var cmd: byte
    var len: nat
    const payload: array<byte>
    var pos: nat
    var queue: seq<RxFrame>
    var current: Option<RxFrame>
    var sent: seq<seq<byte>>
    var calls: seq<Call>

    ghost predicate Shape()
      reads this
    {
      payload.Length == MAX_PAYLOAD
    }

    ghost function View(): Port
      requires Shape()
      reads this, payload
    {
      Port(Decoder(rxState, RxFrame(cmd, len, payload[..]), pos), queue, current, sent, calls)
    }

    constructor ()
      ensures Shape() && fresh(payload)
      ensures ValidPort(View()) && View().dec.state == WaitSof && View().queue == [] && View().sent == []
      ensures View().current == None && View().calls == []
    {
      rxState, cmd, len, pos := WaitSof, 0, 0, 0;
      payload := new byte[MAX_PAYLOAD](_ => 0);
      queue, current, sent, calls := [], None, [], [];
    }

    /** The switch of serial_cb for one byte. */
    method Receive(c: byte)
      requires Shape() && ValidPort(View())
      modifies this, payload
      ensures Shape() && ValidPort(View()) && View() == Next(old(View()), Byte(c))
    {
      hide Nat8, Response, Put;
      ghost var next := Next(View(), Byte(c));
      match rxState {
        case WaitSof =>
          if c == SOF_REQ {
            rxState := WaitCmd;
          }
        case WaitCmd =>
          cmd := c;
          rxState := WaitLen;
        case WaitLen =>
          ReceiveLen(c);
        case WaitPayload =>
          ReceivePayload(c);
      }
      assert View() == next;
    }

    method ReceiveLen(c: byte)
      requires Shape() && ValidPort(View()) && rxState.WaitLen?
      modifies this
      ensures Shape() && View() == Next(old(View()), Byte(c))
    {
      hide Nat8, Response, Put;
      if Nat8(c) > MAX_PAYLOAD {
        rxState := WaitSof;
      } else {
        len, pos := Nat8(c), 0;
        if len == 0 {
          queue := Put(queue, RxFrame(cmd, len, payload[..]));
          rxState := WaitSof;
        } else {
          rxState := WaitPayload;
        }
      }
    }

    method ReceivePayload(c: byte)
      requires Shape() && ValidPort(View()) && rxState.WaitPayload?
      modifies this, payload
      ensures Shape() && View() == Next(old(View()), Byte(c))
    {
      hide Nat8, Response, Put;
      payload[pos] := c;
      assert payload[..] == old(payload[..])[pos := c];
      pos := pos + 1;
      if pos == len {
        queue := Put(queue, RxFrame(cmd, len, payload[..]));
        rxState := WaitSof;
      }
    }

    /** serial_cb: drains the FIFO of one interrupt burst. */
    method SerialCb(burst: seq<byte>)
      requires Shape() && ValidPort(View())
      modifies this, payload
      ensures Shape() && ValidPort(View())
      ensures View() == Run(old(View()), Bursts(burst))
    {
      hide Next;
      for i := 0 to |burst|
        invariant Shape() && ValidPort(View())
        invariant Run(View(), Bursts(burst[i..])) == Run(old(View()), Bursts(burst))
      {
        assert Bursts(burst[i..])[0] == Byte(burst[i]) && Bursts(burst[i..])[1..] == Bursts(burst[i + 1..]);
        Receive(burst[i]);
      }
    }

    /** k_msgq_get */
    method Fetch()
      requires Shape() && ValidPort(View())
      modifies this
      ensures Shape() && ValidPort(View()) && View() == Next(old(View()), Get)
    {
      if current.None? && queue != [] {
        current := Some(queue[0]);
        queue := queue[1..];
      }
    }

    /** dispatch_frame on the frame fetched, and the response it sends. */
    method Dispatch(app: App)
      requires Shape() && ValidPort(View())
      modifies this
      ensures Shape() && ValidPort(View()) && View() == Next(old(View()), Answer(app))
    {
      hide Response;
      if current.Some? {
        var a := new Application(app);
        var out := DispatchFrame(current.value, a);
        sent, calls := sent + [out], calls + a.calls;
        current := None;
      }
    }
  }

  function Bursts(s: seq<byte>): (a: seq<Action>)
    ensures |a| == |s|
  {
    seq(|s|, i requires 0 <= i < |s| => Byte(s[i]))
  }

  // ------------------------------------------------------------------ whole runs

  /** The bytes received during a run. */
  function Received(actions: seq<Action>): seq<byte> {
    if actions == [] then []
    else (if actions[0].Byte? then [actions[0].c] else []) + Received(actions[1..])
  }

  /** A frame the decoder has completed, and how many were queued when it did. */
  datatype Completion = Completion(frame: RxFrame, queued: nat)

  function CompletedBy(p: Port, a: Action): seq<Completion>
    requires ValidPort(p)
  {
    if a.Byte? && Step(p.dec, a.c).1.Some? then [Completion(Step(p.dec, a.c).1.value, |p.queue|)] else []
  }

  function Completions(p: Port, actions: seq<Action>): seq<Completion>
    requires ValidPort(p)
    decreases |actions|
  {
    if actions == [] then [] else CompletedBy(p, actions[0]) + Completions(Next(p, actions[0]), actions[1..])
  }

  function Completed(cs: seq<Completion>): (r: seq<RxFrame>)
    ensures |r| == |cs|
  {
    seq(|cs|, i requires 0 <= i < |cs| => cs[i].frame)
  }

  /** The completed frames that met fewer than four queued ones, and the others. */
  function Welcome(cs: seq<Completion>): seq<RxFrame> {
    if cs == [] then []
    else (if cs[0].queued < 4 then [cs[0].frame] else []) + Welcome(cs[1..])
  }

  function Unwelcome(cs: seq<Completion>): seq<RxFrame> {
    if cs == [] then []
    else (if cs[0].queued < 4 then [] else [cs[0].frame]) + Unwelcome(cs[1..])
  }

  /** The frame an action answers, with what the application said. */
  function AnsweredBy(p: Port, a: Action): seq<(RxFrame, App)> {
    if a.Answer? && p.current.Some? then [(p.current.value, a.app)] else []
  }

  /** The frames answered during a run, with what the application said. */
  function Answered(p: Port, actions: seq<Action>): (r: seq<(RxFrame, App)>)
    requires ValidPort(p)
    ensures forall x :: x in r ==> ValidFrame(x.0)
    decreases |actions|
  {
    if actions == [] then [] else AnsweredBy(p, actions[0]) + Answered(Next(p, actions[0]), actions[1..])
  }

  function Frames(xs: seq<(RxFrame, App)>): (r: seq<RxFrame>)
    ensures |r| == |xs|
  {
    seq(|xs|, i requires 0 <= i < |xs| => xs[i].0)
  }

  function Responses(xs: seq<(RxFrame, App)>): (r: seq<seq<byte>>)
    requires forall x :: x in xs ==> ValidFrame(x.0)
    ensures |r| == |xs|
  {
    seq(|xs|, i requires 0 <= i < |xs| => Response(xs[i].0, xs[i].1))
  }

  /** What is accepted but not yet answered, oldest first. */
  function Backlog(p: Port): seq<RxFrame> {
    (if p.current.Some? then [p.current.value] else []) + p.queue
  }

  /** a is b with some elements left out. */
  ghost predicate Subsequence<T(!new)>(a: seq<T>, b: seq<T>)
    decreases |b|
  {
    if a == [] then true
    else if b == [] then false
    else (a[0] == b[0] && Subsequence(a[1..], b[1..])) || Subsequence(a, b[1..])
  }

  lemma ResponsesConcat(a: seq<(RxFrame, App)>, b: seq<(RxFrame, App)>)
    requires forall x :: x in a + b ==> ValidFrame(x.0)
    ensures (forall x :: x in a ==> ValidFrame(x.0)) && forall x :: x in b ==> ValidFrame(x.0)
    ensures Responses(a + b) == Responses(a) + Responses(b)
  {
    hide Response, ValidFrame;
    forall x | x in a || x in b ensures ValidFrame(x.0) {
      assert x in a + b;
    }
  }

  lemma StepSends(p: Port, a: Action)
    requires ValidPort(p)
    ensures forall x :: x in AnsweredBy(p, a) ==> ValidFrame(x.0)
    ensures Next(p, a).sent == p.sent + Responses(AnsweredBy(p, a))
  {
    hide Response, Step, Put;
  }

  /** Every answered frame produced exactly one response, in order. */
  lemma {:induction false} OneResponseEach(p: Port, actions: seq<Action>)
    requires ValidPort(p)
    ensures Run(p, actions).sent == p.sent + Responses(Answered(p, actions))
    decreases |actions|
  {
    if actions == [] {
      assert p.sent + [] == p.sent;
    } else {
      hide Next, AnsweredBy, Responses;
      var p' := Next(p, actions[0]);
      OneResponseEach(p', actions[1..]);
      StepSends(p, actions[0]);
      ResponsesConcat(AnsweredBy(p, actions[0]), Answered(p', actions[1..]));
      Assoc(p.sent, Responses(AnsweredBy(p, actions[0])), Responses(Answered(p', actions[1..])));
    }
  }

  /** Answered frames and the backlog after a run. */
  function Kept(p: Port, actions: seq<Action>): seq<RxFrame>
    requires ValidPort(p)
  {
    Frames(Answered(p, actions)) + Backlog(Run(p, actions))
  }

  lemma CompletedConcat(a: seq<Completion>, b: seq<Completion>)
    ensures Completed(a + b) == Completed(a) + Completed(b)
  {
  }

  lemma CompletedUnfolds(p: Port, actions: seq<Action>)
    requires ValidPort(p) && actions != []
    ensures Completed(Completions(p, actions))
            == Completed(CompletedBy(p, actions[0])) + Completed(Completions(Next(p, actions[0]), actions[1..]))
  {
    hide Next, CompletedBy, Completed;
    CompletedConcat(CompletedBy(p, actions[0]), Completions(Next(p, actions[0]), actions[1..]));
  }

  lemma FeedCons(d: Decoder, c: byte, rest: seq<byte>)
    requires Valid(d)
    ensures var (d', f) := Step(d, c);
            Feed(d, [c] + rest).1 == (if f.Some? then [f.value] else []) + Feed(d', rest).1
  {
    hide Step;
    assert ([c] + rest)[1..] == rest;
  }

  lemma FedUnfolds(p: Port, actions: seq<Action>)
    requires ValidPort(p) && actions != []
    ensures Feed(p.dec, Received(actions)).1
            == Completed(CompletedBy(p, actions[0])) + Feed(Next(p, actions[0]).dec, Received(actions[1..])).1
  {
    hide Step, Response, Put, Feed, CallsOf;
    var later := Received(actions[1..]);
    if actions[0].Byte? {
      assert Received(actions) == [actions[0].c] + later;
      FeedCons(p.dec, actions[0].c, later);
    } else {
      assert Received(actions) == [] + later == later;
    }
  }

  /** The completions of a run are the frames the decoder makes of the bytes received. */
  lemma {:induction false} CompletedIsFed(p: Port, actions: seq<Action>)
    requires ValidPort(p)
    ensures Completed(Completions(p, actions)) == Feed(p.dec, Received(actions)).1
    decreases |actions|
  {
    if actions != [] {
      hide Next, Feed, Received, Completed, CompletedBy, Completions;
      CompletedIsFed(Next(p, actions[0]), actions[1..]);
      CompletedUnfolds(p, actions);
      FedUnfolds(p, actions);
    }
  }

  lemma WelcomeOne(c: Completion)
    ensures Welcome([c]) == if c.queued < 4 then [c.frame] else []
  {
    assert [c][1..] == [] && Welcome([]) == [];
  }

  lemma PutBacklog(p: Port, d: Decoder, f: RxFrame)
    ensures Backlog(p.(dec := d, queue := Put(p.queue, f))) == Backlog(p) + if |p.queue| < 4 then [f] else []
  {
  }

  lemma ByteBacklog(p: Port, c: byte)
    requires ValidPort(p)
    ensures Backlog(Next(p, Byte(c))) == Backlog(p) + Welcome(CompletedBy(p, Byte(c)))
  {
    assert Welcome([]) == [];
    hide Step, Response, CallsOf, Welcome, Put, Backlog;
    var (d, f) := Step(p.dec, c);
    if f.Some? {
      WelcomeOne(Completion(f.value, |p.queue|));
      PutBacklog(p, d, f.value);
    } else {
      assert Backlog(p.(dec := d)) == Backlog(p) by {
        SameBacklog(p, d);
      }
      assert Backlog(p) + [] == Backlog(p);
    }
  }

  lemma SameBacklog(p: Port, d: Decoder)
    ensures Backlog(p.(dec := d)) == Backlog(p)
  {
  }

  lemma ThreadBacklog(p: Port, a: Action)
    requires ValidPort(p) && !a.Byte?
    ensures Finished(p, a) + Backlog(Next(p, a)) == Backlog(p)
  {
    hide Step, Response, CallsOf, Put;
  }

  /** One step: what is pending afterwards, with the frame answered, is what was pending and the frame taken in. */
  lemma StepBacklog(p: Port, a: Action)
    requires ValidPort(p)
    ensures Finished(p, a) + Backlog(Next(p, a)) == Backlog(p) + Welcome(CompletedBy(p, a))
  {
    assert Welcome([]) == [];
    hide Next, Step, Backlog, Welcome;
    if a.Byte? {
      ByteBacklog(p, a.c);
      assert [] + Backlog(Next(p, a)) == Backlog(Next(p, a));
    } else {
      ThreadBacklog(p, a);
      assert Backlog(p) + [] == Backlog(p);
    }
  }

  lemma {:induction false} WelcomeConcat(a: seq<Completion>, b: seq<Completion>)
    ensures Welcome(a + b) == Welcome(a) + Welcome(b)
  {
    if a == [] {
      assert a + b == b;
    } else {
      assert (a + b)[1..] == a[1..] + b;
      WelcomeConcat(a[1..], b);
    }
  }

  lemma FramesConcat(a: seq<(RxFrame, App)>, b: seq<(RxFrame, App)>)
    ensures Frames(a + b) == Frames(a) + Frames(b)
  {
  }

  lemma FinishedNow(p: Port, a: Action)
    ensures Frames(AnsweredBy(p, a)) == Finished(p, a)
  {
  }

  lemma AnsweredUnfolds(p: Port, actions: seq<Action>)
    requires ValidPort(p) && actions != []
    ensures Frames(Answered(p, actions))
            == Finished(p, actions[0]) + Frames(Answered(Next(p, actions[0]), actions[1..]))
  {
    hide Response, Next, Step, AnsweredBy, Finished, Frames;
    FinishedNow(p, actions[0]);
    FramesConcat(AnsweredBy(p, actions[0]), Answered(Next(p, actions[0]), actions[1..]));
  }

  lemma Assoc<T>(a: seq<T>, b: seq<T>, c: seq<T>)
    ensures a + b + c == a + (b + c)
  {
  }

  function Finished(p: Port, a: Action): seq<RxFrame> {
    if a.Answer? && p.current.Some? then [p.current.value] else []
  }

  lemma KeptUnfolds(p: Port, actions: seq<Action>)
    requires ValidPort(p) && actions != []
    ensures Kept(p, actions) == Finished(p, actions[0]) + Kept(Next(p, actions[0]), actions[1..])
  {
    hide Next, Backlog, Answered, Frames, Finished;
    var p', rest := Next(p, actions[0]), actions[1..];
    AnsweredUnfolds(p, actions);
    Assoc(Finished(p, actions[0]), Frames(Answered(p', rest)), Backlog(Run(p', rest)));
  }

  /** Over any interleaving, the frames answered and then those pending are the ones pending before and then exactly
      the completed ones that met fewer than four queued frames, in order. */
  lemma {:induction false} KeptAreWelcome(p: Port, actions: seq<Action>)
    requires ValidPort(p)
    ensures Kept(p, actions) == Backlog(p) + Welcome(Completions(p, actions))
    decreases |actions|
  {
    if actions == [] {
      assert Frames([]) == [];
      assert Kept(p, actions) == Backlog(p);
    } else {
      hide Kept, Backlog, Welcome, CompletedBy, Next, Finished;
      var p', rest := Next(p, actions[0]), actions[1..];
      var now, later := CompletedBy(p, actions[0]), Completions(p', rest);
      KeptAreWelcome(p', rest);
      KeptUnfolds(p, actions);
      StepBacklog(p, actions[0]);
      WelcomeConcat(now, later);
      Assoc(Finished(p, actions[0]), Backlog(p'), Welcome(later));
      Assoc(Backlog(p), Welcome(now), Welcome(later));
    }
  }

  lemma {:induction false} WelcomeInOrder(cs: seq<Completion>)
    ensures Subsequence(Welcome(cs), Completed(cs))
    ensures |Welcome(cs)| + |Unwelcome(cs)| == |cs|
    ensures Unwelcome(cs) == [] ==> Welcome(cs) == Completed(cs)
  {
    if cs != [] {
      WelcomeInOrder(cs[1..]);
      assert Completed(cs) == [cs[0].frame] + Completed(cs[1..]);
      if cs[0].queued < 4 {
        SubsequenceCons(cs[0].frame, Welcome(cs[1..]), Completed(cs[1..]));
      } else {
        assert Welcome(cs) == Welcome(cs[1..]);
        assert Completed(cs)[1..] == Completed(cs[1..]);
      }
    }
  }

  lemma {:induction false} SubsequencePrepend<T(!new)>(c: seq<T>, a: seq<T>, b: seq<T>)
    requires Subsequence(a, b)
    ensures Subsequence(c + a, c + b)
  {
    if c == [] {
      assert c + a == a && c + b == b;
    } else {
      SubsequencePrepend(c[1..], a, b);
      SubsequenceCons(c[0], c[1..] + a, c[1..] + b);
      assert [c[0]] + (c[1..] + a) == c + a && [c[0]] + (c[1..] + b) == c + b;
    }
  }

  /** The same against the bytes received: an in-order subsequence of what was pending and what the decoder makes of the
      stream, missing exactly the frames that met a full queue. */
  lemma InOrder(p: Port, actions: seq<Action>)
    requires ValidPort(p)
    ensures Subsequence(Kept(p, actions), Backlog(p) + Feed(p.dec, Received(actions)).1)
    ensures |Kept(p, actions)| + |Unwelcome(Completions(p, actions))|
            == |Backlog(p)| + |Feed(p.dec, Received(actions)).1|
  {
    hide Kept, Subsequence, Feed, Completions, Backlog;
    var cs := Completions(p, actions);
    KeptAreWelcome(p, actions);
    CompletedIsFed(p, actions);
    WelcomeInOrder(cs);
    SubsequencePrepend(Backlog(p), Welcome(cs), Completed(cs));
  }

  lemma SubsequenceCons<T(!new)>(x: T, a: seq<T>, b: seq<T>)
    requires Subsequence(a, b)
    ensures Subsequence([x] + a, [x] + b)
  {
    assert ([x] + a)[1..] == a && ([x] + b)[1..] == b;
  }

  /** From boot, under any interleaving of interrupt and thread: the frames answered and pending are the completed ones
      that met no full queue; if none did, their requests are exactly those the grammar finds in the bytes received. */
  lemma PortServesGrammar(p: Port, actions: seq<Action>)
    requires ValidPort(p) && p.dec.state == WaitSof && p.queue == [] && p.current == None
    ensures Kept(p, actions) == Welcome(Completions(p, actions))
    ensures Completed(Completions(p, actions)) == Feed(p.dec, Received(actions)).1
    ensures Requests(Feed(p.dec, Received(actions)).1) == Grammar(Received(actions))
    ensures Unwelcome(Completions(p, actions)) == [] ==> Kept(p, actions) == Feed(p.dec, Received(actions)).1
  {
    hide Kept, Welcome, Unwelcome, Completions, Completed, Feed, Grammar;
    KeptAreWelcome(p, actions);
    assert Backlog(p) == [];
    CompletedIsFed(p, actions);
    WelcomeInOrder(Completions(p, actions));
    FeedIsGrammar(p.dec, Received(actions));
    assert Taken(p.dec) + Received(actions) == Received(actions);
  }

  /** The operations the answered frames stand for, in order. */
  function Performed(xs: seq<(RxFrame, App)>): seq<Call>
    requires forall x :: x in xs ==> ValidFrame(x.0)
  {
    if xs == [] then [] else CallsOf(xs[0].0) + Performed(xs[1..])
  }

  lemma {:induction false} PerformedConcat(a: seq<(RxFrame, App)>, b: seq<(RxFrame, App)>)
    requires forall x :: x in a + b ==> ValidFrame(x.0)
    ensures (forall x :: x in a ==> ValidFrame(x.0)) && forall x :: x in b ==> ValidFrame(x.0)
    ensures Performed(a + b) == Performed(a) + Performed(b)
  {
    hide CallsOf, ValidFrame;
    forall x | x in a || x in b ensures ValidFrame(x.0) {
      assert x in a + b;
    }
    if a == [] {
      assert a + b == b;
    } else {
      assert (a + b)[1..] == a[1..] + b;
      PerformedConcat(a[1..], b);
    }
  }

  lemma StepPerforms(p: Port, a: Action)
    requires ValidPort(p)
    ensures forall x :: x in AnsweredBy(p, a) ==> ValidFrame(x.0)
    ensures Next(p, a).calls == p.calls + Performed(AnsweredBy(p, a))
  {
    hide Response, Step, Put, CallsOf;
    var xs := AnsweredBy(p, a);
    if xs != [] {
      assert Performed(xs) == CallsOf(xs[0].0) + Performed(xs[1..]);
    }
  }

  /** Over any interleaving the operations performed are exactly those the answered frames stand for, each once and in
      order. */
  lemma {:induction false} CallsAreRequested(p: Port, actions: seq<Action>)
    requires ValidPort(p)
    ensures Run(p, actions).calls == p.calls + Performed(Answered(p, actions))
    decreases |actions|
  {
    if actions == [] {
      assert p.calls + [] == p.calls;
    } else {
      hide Next, AnsweredBy, Performed;
      var p' := Next(p, actions[0]);
      CallsAreRequested(p', actions[1..]);
      StepPerforms(p, actions[0]);
      PerformedConcat(AnsweredBy(p, actions[0]), Answered(p', actions[1..]));
      Assoc(p.calls, Performed(AnsweredBy(p, actions[0])), Performed(Answered(p', actions[1..])));
    }
  }

  /** The operations a list of requests stands for. */
  function Requested(rs: seq<Request>): seq<Call>
    requires forall r :: r in rs ==> |r.payload| <= MAX_PAYLOAD
  {
    if rs == [] then [] else CallsOf(FrameOf(rs[0])) + Requested(rs[1..])
  }

  lemma {:induction false} PerformedIsRequested(xs: seq<(RxFrame, App)>, rs: seq<Request>)
    requires Carry(xs, rs)
    ensures Performed(xs) == Requested(rs)
  {
    hide CallsOf, FrameOf, ValidFrame;
    if xs != [] {
      StaleBytesIgnored(xs[0].0, FrameOf(rs[0]), xs[0].1);
      PerformedIsRequested(xs[1..], rs[1..]);
    }
  }

  /** A request as a frame with nothing left over behind its payload. */
  function FrameOf(r: Request): (f: RxFrame)
    requires |r.payload| <= MAX_PAYLOAD
    ensures ValidFrame(f) && RequestOf(f) == r
  {
    RxFrame(r.cmd, |r.payload|, r.payload + ZeroBytes(MAX_PAYLOAD - |r.payload|))
  }

  /** Answered frames that carry these requests, one for one. */
  ghost predicate Carry(xs: seq<(RxFrame, App)>, rs: seq<Request>) {
    && |xs| == |rs|
    && (forall x :: x in xs ==> ValidFrame(x.0))
    && (forall r :: r in rs ==> |r.payload| <= MAX_PAYLOAD)
    && forall i :: 0 <= i < |rs| ==> ValidFrame(xs[i].0) && rs[i] == RequestOf(xs[i].0)
  }

  lemma CarryRequests(xs: seq<(RxFrame, App)>, fs: seq<RxFrame>)
    requires (forall x :: x in xs ==> ValidFrame(x.0)) && (forall f :: f in fs ==> ValidFrame(f)) && Frames(xs) == fs
    ensures Carry(xs, Requests(fs))
  {
    var rs := Requests(fs);
    forall i | 0 <= i < |rs| ensures ValidFrame(xs[i].0) && rs[i] == RequestOf(xs[i].0) {
      assert xs[i] in xs && Frames(xs)[i] == xs[i].0;
    }
    forall r | r in rs ensures |r.payload| <= MAX_PAYLOAD {
      var i :| 0 <= i < |rs| && rs[i] == r;
      assert r == RequestOf(xs[i].0);
    }
  }

  /** From boot, with no frame completed while four were queued and nothing pending at the end, the frames answered carry
      the requests the grammar finds in the bytes received. */
  lemma AnsweredCarry(p: Port, actions: seq<Action>)
    requires ValidPort(p) && p.dec.state == WaitSof && p.queue == [] && p.current == None
    requires Unwelcome(Completions(p, actions)) == [] && Backlog(Run(p, actions)) == []
    ensures Carry(Answered(p, actions), Grammar(Received(actions)))
  {
    hide Run, Completions, Completed, Unwelcome, Answered, Grammar, Received, Frames, Requests, Carry, Feed, Welcome;
    PortServesGrammar(p, actions);
    var xs, fs := Answered(p, actions), Feed(p.dec, Received(actions)).1;
    assert Frames(xs) + [] == Frames(xs);
    CarryRequests(xs, fs);
  }

  lemma CarriedResponses(xs: seq<(RxFrame, App)>, rs: seq<Request>)
    requires Carry(xs, rs)
    ensures forall i :: 0 <= i < |rs| ==>
              |rs[i].payload| <= MAX_PAYLOAD && Responses(xs)[i] == Response(FrameOf(rs[i]), xs[i].1)
  {
    hide Response, FrameOf, CallsOf;
    forall i | 0 <= i < |rs|
      ensures |rs[i].payload| <= MAX_PAYLOAD && Responses(xs)[i] == Response(FrameOf(rs[i]), xs[i].1)
    {
      assert rs[i] in rs;
      StaleBytesIgnored(xs[i].0, FrameOf(rs[i]), xs[i].1);
    }
  }

  /** The responses sent are then, one for one and in order, the responses to those requests, whatever the interleaving
      and whatever bytes earlier frames left in the payload buffer. */
  lemma EveryRequestAnswered(p: Port, actions: seq<Action>)
    requires ValidPort(p) && p.dec.state == WaitSof && p.queue == [] && p.current == None && p.sent == []
    requires Unwelcome(Completions(p, actions)) == [] && Backlog(Run(p, actions)) == []
    ensures var rs, xs, sent := Grammar(Received(actions)), Answered(p, actions), Run(p, actions).sent;
            && |sent| == |xs| == |rs|
            && forall i :: 0 <= i < |rs| ==>
                 |rs[i].payload| <= MAX_PAYLOAD && sent[i] == Response(FrameOf(rs[i]), xs[i].1)
  {
    hide Response, Run, Completions, Unwelcome, Answered, Grammar, Received, FrameOf, Responses;
    AnsweredCarry(p, actions);
    OneResponseEach(p, actions);
    var xs := Answered(p, actions);
    assert [] + Responses(xs) == Responses(xs);
    CarriedResponses(xs, Grammar(Received(actions)));
  }

  /** And the operations performed are exactly those the requests stand for, each once and in order. */
  lemma EveryRequestPerformed(p: Port, actions: seq<Action>)
    requires ValidPort(p) && p.dec.state == WaitSof && p.queue == [] && p.current == None
    requires Unwelcome(Completions(p, actions)) == [] && Backlog(Run(p, actions)) == []
    ensures forall r :: r in Grammar(Received(actions)) ==> |r.payload| <= MAX_PAYLOAD
    ensures Run(p, actions).calls == p.calls + Requested(Grammar(Received(actions)))
  {
    hide Run, Completions, Unwelcome, Answered, Grammar, Received, Performed, Requested;
    AnsweredCarry(p, actions);
    CallsAreRequested(p, actions);
    PerformedIsRequested(Answered(p, actions), Grammar(Received(actions)));
  }
}
