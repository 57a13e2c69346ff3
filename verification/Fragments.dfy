/** Messages cut into indications at message boundaries: what waiting and resetting do to such a script. */
module Fragments {
  import opened Bytes
  import opened Transport

  function Concat(frags: seq<seq<byte>>): seq<byte> {
    if frags == [] then [] else frags[0] + Concat(frags[1..])
  }

  function Indications(frags: seq<seq<byte>>): (e: seq<Event>)
    ensures |e| == |frags|
  {
    seq(|frags|, i requires 0 <= i < |frags| => Indication(frags[i]))
  }

  /** The events of a script of messages, each cut into fragments of any sizes, empty ones included. */
  function Script(messages: seq<seq<seq<byte>>>): seq<Event> {
    if messages == [] then [] else Indications(messages[0]) + Script(messages[1..])
  }

  lemma {:induction false} ConcatSplit(frags: seq<seq<byte>>, j: nat)
    requires j <= |frags|
    ensures Concat(frags) == Concat(frags[..j]) + Concat(frags[j..])
    decreases j
  {
    if j > 0 {
      ConcatSplit(frags[1..], j - 1);
      assert frags[..j][1..] == frags[1..][..j - 1];
      assert frags[1..][j - 1..] == frags[j..];
    } else {
      assert frags[0..] == frags;
    }
  }

  lemma {:induction false} NoOverruns(messages: seq<seq<seq<byte>>>)
    ensures AfterOverruns(Script(messages)) == Script(messages)
  {
    if messages != [] {
      NoOverruns(messages[1..]);
      if messages[0] != [] {
        assert Script(messages)[0] == Indication(messages[0][0]);
      } else {
        assert Script(messages) == Script(messages[1..]);
      }
    }
  }

  lemma WaitOne(l: Link, d: seq<byte>, rest: seq<Event>, n: nat)
    requires |l.acc| < n && l.events == [Indication(d)] + rest
    requires |l.acc| + |d| <= WIRE_MAX
    ensures Wait(l, n) == Wait(l.(acc := l.acc + d, events := rest), n)
  {
    assert l.events[1..] == rest;
    assert Accumulate(l.acc, d) == l.acc + d;
  }

  lemma ConsEvents(frags: seq<seq<byte>>, rest: seq<Event>)
    requires frags != []
    ensures Indications(frags) + rest == [Indication(frags[0])] + (Indications(frags[1..]) + rest)
  {
  }

  /** Waiting consumes whole fragments, just enough of them. */
  lemma {:induction false} WaitFragments(l: Link, frags: seq<seq<byte>>, rest: seq<Event>, n: nat) returns (j: nat)
    requires l.events == Indications(frags) + rest
    requires n <= |l.acc| + |Concat(frags)| <= WIRE_MAX
    ensures j <= |frags|
    ensures Wait(l, n) == (l.(acc := l.acc + Concat(frags[..j]), events := Indications(frags[j..]) + rest), true)
    decreases |frags|
  {
    if |l.acc| >= n {
      j := 0;
      assert Concat(frags[..0]) == [] && frags[0..] == frags && l.acc + [] == l.acc;
    } else {
      hide Wait, Indications;
      var tail := frags[1..];
      ConsEvents(frags, rest);
      var l' := l.(acc := l.acc + frags[0], events := Indications(tail) + rest);
      WaitOne(l, frags[0], Indications(tail) + rest, n);
      var i := WaitFragments(l', tail, rest, n);
      j := i + 1;
      assert frags[..j][1..] == tail[..i] && frags[j..] == tail[i..];
      assert l.acc + (frags[0] + Concat(tail[..i])) == l.acc + frags[0] + Concat(tail[..i]);
    }
  }

  /** Waiting for a whole message and resetting leaves exactly the messages after it, up to empty indications. */
  lemma WaitAndReset(l: Link, frags: seq<seq<byte>>, messages: seq<seq<seq<byte>>>, first: nat)
    returns (empties: seq<seq<byte>>)
    requires l.acc == [] && l.events == Indications(frags) + Script(messages)
    requires first <= |Concat(frags)| <= WIRE_MAX
    ensures var (l1, ok1) := Wait(l, first);
            var (l2, ok2) := Wait(l1, |Concat(frags)|);
            && ok1 && l1.acc <= Concat(frags) && |l1.acc| >= first
            && ok2 && l2.acc == Concat(frags)
            && Reset(l2) == l.(events := Indications(empties) + Script(messages))
    ensures Concat(empties) == []
  {
    hide Wait;
    var n := |Concat(frags)|;
    var rest := Script(messages);
    var i := WaitFragments(l, frags, rest, first);
    ConcatSplit(frags, i);
    var l1 := Wait(l, first).0;
    assert l1.acc == Concat(frags[..i]);
    var j := WaitFragments(l1, frags[i..], rest, n);
    ConcatSplit(frags[i..], j);
    empties := frags[i..][j..];
    var l2 := Wait(l1, n).0;
    assert l2.acc == Concat(frags[..i]) + Concat(frags[i..][..j]);
    assert Concat(frags) == l2.acc + Concat(empties);
    NoOverruns([empties] + messages);
    assert ([empties] + messages)[1..] == messages;
  }

  lemma {:induction false} ConcatAppend(a: seq<seq<byte>>, b: seq<seq<byte>>)
    ensures Concat(a + b) == Concat(a) + Concat(b)
  {
    ConcatSplit(a + b, |a|);
    assert (a + b)[..|a|] == a && (a + b)[|a|..] == b;
  }

  lemma IndicationsAppend(a: seq<seq<byte>>, b: seq<seq<byte>>)
    ensures Indications(a + b) == Indications(a) + Indications(b)
  {
  }

  /** A link on which exactly the messages of a script are still to come, after some empty indications. */
  ghost predicate Pending(l: Link, empties: seq<seq<byte>>, messages: seq<seq<seq<byte>>>) {
    l.acc == [] && Concat(empties) == [] && l.events == Indications(empties) + Script(messages)
  }

  /** Leftover empty indications count as fragments of the next message. */
  lemma MergeEmpties(l: Link, empties: seq<seq<byte>>, messages: seq<seq<seq<byte>>>)
    requires Pending(l, empties, messages) && messages != []
    ensures l.events == Indications(empties + messages[0]) + Script(messages[1..])
    ensures Concat(empties + messages[0]) == Concat(messages[0])
  {
    hide Indications, Concat;
    ConcatAppend(empties, messages[0]);
    IndicationsAppend(empties, messages[0]);
    assert [] + Concat(messages[0]) == Concat(messages[0]);
    var later := Script(messages[1..]);
    assert Indications(empties) + (Indications(messages[0]) + later)
        == Indications(empties) + Indications(messages[0]) + later;
  }
}
