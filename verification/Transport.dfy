/** Reassembly of fragmented indications (nuki_transport.c). */
module Transport {
  import opened Bytes
  import opened Codes
  import opened Buffers

  const WIRE_MAX: nat := 256

  /** What the Bluetooth stack does to a waiting receiver: deliver an indication, deliver one that lands between the
      receiver's last wait and its reset, or let the deadline pass. */
  datatype Event = Indication(data: seq<byte>) | Overrun(data: seq<byte>) | Deadline

  type ErrorCode = rc: int | rc != 0 witness -EIO

  /** What becomes of a write: the stack refuses it, its completion does not come in time, or it completes. */
  datatype WriteResult = Refused(rc: ErrorCode) | Unconfirmed | Completed(failed: bool)

  /** The accumulator, the events still to come, the frames the stack has taken so far, and the results of the coming
      writes (every write after those succeeds). */
  datatype Link = Link(acc: seq<byte>, events: seq<Event>, sent: seq<seq<byte>>, writes: seq<WriteResult>)

  function Take(s: seq<byte>, n: nat): (r: seq<byte>)
    ensures |r| <= n && r <= s
  {
    if |s| <= n then s else s[..n]
  }

  /** notify_cb: what does not fit the buffer is dropped. */
  function Accumulate(acc: seq<byte>, data: seq<byte>): seq<byte> {
    Take(acc + data, WIRE_MAX)
  }

  /** nuki_transport_wait_min: the link afterwards, and whether n bytes are there. */
  function Wait(l: Link, n: nat): (r: (Link, bool))
    ensures r.0.sent == l.sent && r.0.writes == l.writes
    ensures r.1 ==> |r.0.acc| >= n
    decreases |l.events|
  {
    if |l.acc| >= n then (l, true)
    else if l.events == [] then (l, false)
    else if l.events[0].Deadline? then (l.(events := l.events[1..]), false)
    else Wait(l.(acc := Accumulate(l.acc, l.events[0].data), events := l.events[1..]), n)
  }

  /** Whatever lands before a reset is lost with it. */
  function AfterOverruns(events: seq<Event>): seq<Event> {
    if events != [] && events[0].Overrun? then AfterOverruns(events[1..]) else events
  }

  /** nuki_transport_reset */
  function Reset(l: Link): Link {
    l.(acc := [], events := AfterOverruns(l.events))
  }

  /** The code a write returns. */
  function WriteCode(w: WriteResult): int {
    match w
    case Refused(rc) => rc
    case Unconfirmed => -ETIMEDOUT
    case Completed(failed) => if failed then -EIO else 0
  }

  /** nuki_transport_write: the link afterwards and the result; a refused frame does not leave. */
  function Write(l: Link, frame: seq<byte>): (Link, int) {
    if l.writes == [] then (l.(sent := l.sent + [frame]), 0)
    else
      var w := l.writes[0];
      (l.(sent := if w.Refused? then l.sent else l.sent + [frame], writes := l.writes[1..]), WriteCode(w))
  }

  // ------------------------------------------------- fragmentation independence

  /** The bytes that arrive before the next deadline. */
  function Arriving(events: seq<Event>): seq<byte> {
    if events == [] || events[0].Deadline? then [] else events[0].data + Arriving(events[1..])
  }

  /** The byte stream a receiver can see before the next deadline, as far as the buffer reaches. */
  function Flow(l: Link): seq<byte> {
    Take(l.acc + Arriving(l.events), WIRE_MAX)
  }

  lemma TakeTwice(a: seq<byte>, b: seq<byte>, n: nat)
    ensures Take(Take(a, n) + b, n) == Take(a + b, n)
  {
  }

  /** Delivering one more fragment does not change the stream. */
  lemma FlowKept(l: Link)
    requires l.events != [] && !l.events[0].Deadline?
    ensures Flow(l.(acc := Accumulate(l.acc, l.events[0].data), events := l.events[1..])) == Flow(l)
  {
    var d, rest := l.events[0].data, l.events[1..];
    TakeTwice(l.acc + d, Arriving(rest), WIRE_MAX);
    assert l.acc + (d + Arriving(rest)) == l.acc + d + Arriving(rest);
  }

  /** Waiting succeeds exactly when the stream is long enough, whatever its fragmentation, keeps the stream, and leaves
      a prefix of it in the accumulator. */
  lemma {:induction false} WaitSeesFlow(l: Link, n: nat)
    requires n <= WIRE_MAX && |l.acc| <= WIRE_MAX
    ensures Wait(l, n).1 <==> |Flow(l)| >= n
    ensures |Wait(l, n).0.acc| <= WIRE_MAX
    ensures Wait(l, n).1 ==> Flow(Wait(l, n).0) == Flow(l) && Wait(l, n).0.acc <= Flow(l)
    decreases |l.events|
  {
    if |l.acc| >= n {
      assert l.acc <= l.acc + Arriving(l.events);
    } else if l.events == [] || l.events[0].Deadline? {
      assert l.acc + Arriving(l.events) == l.acc;
    } else {
      var l' := l.(acc := Accumulate(l.acc, l.events[0].data), events := l.events[1..]);
      FlowKept(l);
      WaitSeesFlow(l', n);
    }
  }

  // ----------------------------------------------------------- what is left

  /** How many events it takes until n bytes have accumulated, with `have` of them there already. */
  function Needed(have: nat, events: seq<Event>, n: nat): (j: nat)
    ensures j <= |events|
    decreases |events|
  {
    if have >= n || events == [] || events[0].Deadline? then 0
    else
      var sum := have + |events[0].data|;
      1 + Needed(if sum <= WIRE_MAX then sum else WIRE_MAX, events[1..], n)
  }

  function AfterDeadline(events: seq<Event>): seq<Event> {
    if events == [] then [] else if events[0].Deadline? then events[1..] else AfterDeadline(events[1..])
  }

  /** A successful wait takes exactly the events it needs; a failed one takes all up to the deadline and keeps every byte
      that has arrived. */
  lemma {:induction false} WaitLeaves(l: Link, n: nat)
    requires n <= WIRE_MAX && |l.acc| <= WIRE_MAX
    ensures Wait(l, n).1 ==> Wait(l, n).0.events == l.events[Needed(|l.acc|, l.events, n)..]
    ensures !Wait(l, n).1 ==> Wait(l, n).0 == l.(acc := Flow(l), events := AfterDeadline(l.events))
    decreases |l.events|
  {
    if |l.acc| >= n {
      assert l.events[0..] == l.events;
    } else if l.events == [] || l.events[0].Deadline? {
      assert l.acc + Arriving(l.events) == l.acc;
    } else {
      FlowKept(l);
      var l' := l.(acc := Accumulate(l.acc, l.events[0].data), events := l.events[1..]);
      WaitLeaves(l', n);
      var j := Needed(|l'.acc|, l'.events, n);
      assert l.events[1..][j..] == l.events[1 + j..];
    }
  }

  /** Waiting for some of the bytes first changes nothing. */
  lemma {:induction false} WaitTwice(l: Link, a: nat, b: nat)
    requires a <= b && Wait(l, a).1
    ensures Wait(Wait(l, a).0, b) == Wait(l, b)
    decreases |l.events|
  {
    if |l.acc| < a {
      WaitTwice(l.(acc := Accumulate(l.acc, l.events[0].data), events := l.events[1..]), a, b);
    }
  }

  /** What a receiver leaves that takes the first n bytes and resets. */
  function Remains(l: Link, n: nat): Link {
    l.(acc := [], events := AfterOverruns(l.events[Needed(|l.acc|, l.events, n)..]))
  }

  lemma ResetLeaves(l: Link, n: nat)
    requires n <= WIRE_MAX && |l.acc| <= WIRE_MAX && Wait(l, n).1
    ensures Reset(Wait(l, n).0) == Remains(l, n)
  {
    hide Wait, AfterOverruns;
    WaitLeaves(l, n);
  }

  // ------------------------------------------------------------------- the class

  class Channel {
    var rxBuf: array<byte>
    var rxLen: nat
    var events: seq<Event>
    var sent: seq<seq<byte>>
    var writes: seq<WriteResult>

    ghost predicate Valid()
      reads this
    {
      rxBuf.Length == WIRE_MAX && rxLen <= WIRE_MAX
    }

    /** The abstract link this channel implements. */
    ghost function View(): Link
      requires Valid()
      reads this, rxBuf
    {
      Link(rxBuf[..rxLen], events, sent, writes)
    }

    constructor (events: seq<Event>, writes: seq<WriteResult>)
      ensures Valid() && fresh(rxBuf)
      ensures View() == Link([], events, [], writes)
    {
      rxBuf := new byte[WIRE_MAX];
      rxLen := 0;
      this.events := events;
      sent := [];
      this.writes := writes;
    }

    /** notify_cb: copies as much as fits behind what has accumulated. */
    method Notify(data: seq<byte>)
      requires Valid()
      modifies this`rxLen, rxBuf
      ensures Valid()
      ensures View() == old(View()).(acc := Accumulate(old(View().acc), data))
    {
      var space := WIRE_MAX - rxLen;
      var copy := if space < |data| then space else |data|;
      ghost var acc := rxBuf[..rxLen];
      Append(rxBuf, rxLen, data[..copy], WIRE_MAX);
      rxLen := rxLen + copy;
      assert acc + data[..copy] == Accumulate(acc, data);
    }

    method WaitMin(n: nat) returns (ok: bool)
      requires Valid()
      modifies this`rxLen, this`events, rxBuf
      ensures Valid()
      ensures (View(), ok) == Wait(old(View()), n)
    {
      while rxLen < n
        invariant Valid()
        invariant Wait(View(), n) == Wait(old(View()), n)
        decreases |events|
      {
        if events == [] {
          return false;
        }
        var e := events[0];
        events := events[1..];
        if e.Deadline? {
          return false;
        }
        Notify(e.data);
      }
      return true;
    }

    method Peek(n: nat) returns (s: seq<byte>)
      requires Valid() && n <= rxLen
      ensures s == View().acc[..n]
    {
      s := rxBuf[..n];
      assert rxBuf[..rxLen][..n] == rxBuf[..n];
    }

    method Clear()
      requires Valid()
      modifies this`rxLen, this`events
      ensures Valid() && rxLen == 0
      ensures View() == Reset(old(View()))
    {
      while events != [] && events[0].Overrun?
        invariant Valid() && rxLen == old(rxLen)
        invariant AfterOverruns(events) == AfterOverruns(old(events))
        decreases |events|
      {
        events := events[1..];
      }
      rxLen := 0;
    }

    method Send(frame: seq<byte>) returns (rc: int)
      requires Valid()
      modifies this`sent, this`writes
      ensures Valid()
      ensures (View(), rc) == Write(old(View()), frame)
    {
      var w := if writes == [] then Completed(false) else writes[0];
      writes := if writes == [] then [] else writes[1..];
      if w.Refused? {
        return w.rc;
      }
      sent := sent + [frame];
      if w.Unconfirmed? {
        return -ETIMEDOUT;
      }
      return if w.failed then -EIO else 0;
    }
  }
}
