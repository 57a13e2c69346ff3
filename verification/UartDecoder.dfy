/** The interrupt-driven byte decoder of nuki_uart_proto.c and the grammar it implements. */
module UartDecoder {
  import opened Bytes

  const SOF_REQ: byte := 0xA5
  const MAX_PAYLOAD: nat := 32

  datatype RxState = WaitSof | WaitCmd | WaitLen | WaitPayload

  /** struct rx_frame: only payload[..len] belongs to the frame, the rest is left over from earlier ones. */
  datatype RxFrame = RxFrame(cmd: byte, len: nat, payload: seq<byte>)

  datatype Request = Request(cmd: byte, payload: seq<byte>)

  datatype Decoder = Decoder(state: RxState, frame: RxFrame, pos: nat)

  ghost predicate ValidFrame(f: RxFrame) {
    |f.payload| == MAX_PAYLOAD && f.len <= MAX_PAYLOAD
  }

  /** The payload index stays below the length while a payload is awaited. */
  ghost predicate Valid(d: Decoder) {
    ValidFrame(d.frame) && (d.state.WaitPayload? ==> d.pos < d.frame.len)
  }

  /** One byte through the switch in serial_cb; a completed frame is handed over. */
  function Step(d: Decoder, c: byte): (r: (Decoder, Option<RxFrame>))
    requires Valid(d)
    ensures Valid(r.0)
    ensures r.1.Some? ==> ValidFrame(r.1.value)
  {
    match d.state
    case WaitSof => (if c == SOF_REQ then d.(state := WaitCmd) else d, None)
    case WaitCmd => (d.(state := WaitLen, frame := d.frame.(cmd := c)), None)
    case WaitLen =>
      if Nat8(c) > MAX_PAYLOAD then (d.(state := WaitSof), None)
      else
        var f := d.frame.(len := Nat8(c));
        if f.len == 0 then (Decoder(WaitSof, f, 0), Some(f)) else (Decoder(WaitPayload, f, 0), None)
    case WaitPayload =>
      var f := d.frame.(payload := d.frame.payload[d.pos := c]);
      if d.pos + 1 == f.len then (Decoder(WaitSof, f, d.pos + 1), Some(f)) else (Decoder(WaitPayload, f, d.pos + 1), None)
  }

  /** A run of bytes: the decoder afterwards and the frames completed on the way. */
  function Feed(d: Decoder, s: seq<byte>): (r: (Decoder, seq<RxFrame>))
    requires Valid(d)
    ensures Valid(r.0)
    ensures forall f :: f in r.1 ==> ValidFrame(f)
    decreases |s|
  {
    if s == [] then (d, [])
    else
      var (d1, f) := Step(d, s[0]);
      var (d2, fs) := Feed(d1, s[1..]);
      (d2, (if f.Some? then [f.value] else []) + fs)
  }

  function RequestOf(f: RxFrame): Request
    requires ValidFrame(f)
  {
    Request(f.cmd, f.payload[..f.len])
  }

  function Requests(fs: seq<RxFrame>): (r: seq<Request>)
    requires forall f :: f in fs ==> ValidFrame(f)
    ensures |r| == |fs|
  {
    seq(|fs|, i requires 0 <= i < |fs| => RequestOf(fs[i]))
  }

  /** Dividing the stream into interrupt bursts changes nothing. */
  lemma {:induction false} FeedConcat(d: Decoder, a: seq<byte>, b: seq<byte>)
    requires Valid(d)
    ensures Feed(d, a + b).0 == Feed(Feed(d, a).0, b).0
    ensures Feed(d, a + b).1 == Feed(d, a).1 + Feed(Feed(d, a).0, b).1
    decreases |a|
  {
    hide Step;
    if a == [] {
      assert a + b == b;
    } else {
      assert (a + b)[1..] == a[1..] + b;
      FeedConcat(Step(d, a[0]).0, a[1..], b);
    }
  }

  // ------------------------------------------------------------------ the grammar

  /** Whole-stream parser: hunt for SOF, skip a header with an oversized length, cut out a complete frame, leave an
      incomplete one. */
  function Grammar(s: seq<byte>): seq<Request>
    decreases |s|
  {
    if s == [] then []
    else if s[0] != SOF_REQ then Grammar(s[1..])
    else if |s| < 3 then []
    else
      var n := Nat8(s[2]);
      if n > MAX_PAYLOAD then Grammar(s[3..])
      else if |s| < 3 + n then []
      else [Request(s[1], s[3..3 + n])] + Grammar(s[3 + n..])
  }

  /** The bytes of the frame in progress that the decoder has already taken. */
  function Taken(d: Decoder): seq<byte>
    requires Valid(d)
  {
    match d.state
    case WaitSof => []
    case WaitCmd => [SOF_REQ]
    case WaitLen => [SOF_REQ, d.frame.cmd]
    case WaitPayload => [SOF_REQ, d.frame.cmd, Byte8(d.frame.len)] + d.frame.payload[..d.pos]
  }

  /** What one step means for the grammar: the byte joins the frame in progress, completes it, or is skipped. */
  lemma StepMeaning(d: Decoder, c: byte, rest: seq<byte>)
    requires Valid(d)
    ensures var (d', f) := Step(d, c);
            Grammar(Taken(d) + ([c] + rest))
            == (if f.Some? then [RequestOf(f.value)] else []) + Grammar(Taken(d') + rest)
  {
    hide Step, Grammar, Taken, RequestOf;
    match d.state {
      case WaitSof => SofStep(d, c, rest);
      case WaitCmd => CmdStep(d, c, rest);
      case WaitLen => LenStep(d, c, rest);
      case WaitPayload => PayloadStep(d, c, rest);
    }
  }

  lemma SofStep(d: Decoder, c: byte, rest: seq<byte>)
    requires Valid(d) && d.state.WaitSof?
    ensures Step(d, c).1 == None
    ensures Grammar(Taken(d) + ([c] + rest)) == Grammar(Taken(Step(d, c).0) + rest)
  {
    var d' := Step(d, c).0;
    var s := [c] + rest;
    assert Taken(d) + s == s && s[1..] == rest;
    if c != SOF_REQ {
      assert Taken(d') + rest == rest;
      assert Grammar(s) == Grammar(rest);
    }
  }

  lemma CmdStep(d: Decoder, c: byte, rest: seq<byte>)
    requires Valid(d) && d.state.WaitCmd?
    ensures Step(d, c).1 == None
    ensures Grammar(Taken(d) + ([c] + rest)) == Grammar(Taken(Step(d, c).0) + rest)
  {
    hide Grammar;
    assert [SOF_REQ] + ([c] + rest) == [SOF_REQ, c] + rest;
  }

  lemma LenStep(d: Decoder, c: byte, rest: seq<byte>)
    requires Valid(d) && d.state.WaitLen?
    ensures var (d', f) := Step(d, c);
            Grammar(Taken(d) + ([c] + rest))
            == (if f.Some? then [RequestOf(f.value)] else []) + Grammar(Taken(d') + rest)
  {
    hide Byte8, Nat8;
    var s := Taken(d) + ([c] + rest);
    var (d', f) := Step(d, c);
    assert s == [SOF_REQ, d.frame.cmd, c] + rest && s[3..] == rest;
    ByteOfNat(c);
    if Nat8(c) > MAX_PAYLOAD || Nat8(c) == 0 {
      assert Taken(d') + rest == rest;
      assert s[3..3] == [];
    } else {
      assert Taken(d') + rest == s;
    }
  }

  function Encode(r: Request): seq<byte>
    requires |r.payload| <= MAX_PAYLOAD
  {
    [SOF_REQ, r.cmd, Byte8(|r.payload|)] + r.payload
  }

  lemma GrammarTakesFrame(r: Request, s: seq<byte>)
    requires |r.payload| <= MAX_PAYLOAD
    ensures Grammar(Encode(r) + s) == [r] + Grammar(s)
  {
    hide Byte8, Nat8;
    var t := Encode(r) + s;
    var n := |r.payload|;
    assert t[0] == SOF_REQ && t[1] == r.cmd && Nat8(t[2]) == n;
    assert t[3..3 + n] == r.payload && t[3 + n..] == s;
  }

  lemma PayloadStep(d: Decoder, c: byte, rest: seq<byte>)
    requires Valid(d) && d.state.WaitPayload?
    ensures var (d', f) := Step(d, c);
            Grammar(Taken(d) + ([c] + rest))
            == (if f.Some? then [RequestOf(f.value)] else []) + Grammar(Taken(d') + rest)
  {
    hide Byte8, Nat8, Grammar;
    var head := [SOF_REQ, d.frame.cmd, Byte8(d.frame.len)];
    var got := d.frame.payload[..d.pos] + [c];
    var s := Taken(d) + ([c] + rest);
    assert s == head + got + rest;
    var (d', f) := Step(d, c);
    assert d'.frame.payload[..d.pos + 1] == got;
    if f.Some? {
      assert s == Encode(Request(d.frame.cmd, got)) + rest;
      GrammarTakesFrame(Request(d.frame.cmd, got), rest);
      assert Taken(d') + rest == rest;
    } else {
      assert Taken(d') + rest == s;
    }
  }

  /** The decoder emits exactly the frames the grammar finds, from any state on. */
  lemma {:induction false} FeedIsGrammar(d: Decoder, s: seq<byte>)
    requires Valid(d)
    ensures Requests(Feed(d, s).1) == Grammar(Taken(d) + s)
    decreases |s|
  {
    hide Step, Grammar, RequestOf;
    if s == [] {
      assert Taken(d) + s == Taken(d);
      TakenIsIncomplete(d);
    } else {
      var (d', f) := Step(d, s[0]);
      StepMeaning(d, s[0], s[1..]);
      assert [s[0]] + s[1..] == s;
      FeedIsGrammar(d', s[1..]);
    }
  }

  lemma TakenIsIncomplete(d: Decoder)
    requires Valid(d)
    ensures Grammar(Taken(d)) == []
  {
    hide Byte8, Nat8;
  }

  // ------------------------------------------------------------------- consequences

  /** Encoded requests, each preceded by some noise, and noise at the end. */
  function Interleave(noise: seq<seq<byte>>, rs: seq<Request>): seq<byte>
    requires |noise| == |rs| + 1
    requires forall r :: r in rs ==> |r.payload| <= MAX_PAYLOAD
    decreases |rs|
  {
    if rs == [] then noise[0] else noise[0] + Encode(rs[0]) + Interleave(noise[1..], rs[1..])
  }

  lemma {:induction false} GrammarSkipsNoise(noise: seq<byte>, s: seq<byte>)
    requires SOF_REQ !in noise
    ensures Grammar(noise + s) == Grammar(s)
  {
    if noise == [] {
      assert noise + s == s;
    } else {
      assert (noise + s)[1..] == noise[1..] + s;
      GrammarSkipsNoise(noise[1..], s);
    }
  }

  lemma {:induction false} GrammarOfNoisy(noise: seq<seq<byte>>, rs: seq<Request>)
    requires |noise| == |rs| + 1
    requires forall r :: r in rs ==> |r.payload| <= MAX_PAYLOAD
    requires forall n :: n in noise ==> SOF_REQ !in n
    ensures Grammar(Interleave(noise, rs)) == rs
    decreases |rs|
  {
    hide Grammar, Encode;
    if rs == [] {
      GrammarSkipsNoise(noise[0], []);
      assert noise[0] + [] == noise[0];
      assert Grammar([]) == [] by {
        EmptyGrammar();
      }
    } else {
      var rest := Interleave(noise[1..], rs[1..]);
      assert noise[0] + Encode(rs[0]) + rest == noise[0] + (Encode(rs[0]) + rest);
      GrammarSkipsNoise(noise[0], Encode(rs[0]) + rest);
      GrammarTakesFrame(rs[0], rest);
      GrammarOfNoisy(noise[1..], rs[1..]);
      assert rs == [rs[0]] + rs[1..];
    }
  }

  /** A decoder hunting for SOF decodes requests in noise free of SOF bytes to exactly those requests. */
  lemma NoisyRoundTrip(d: Decoder, noise: seq<seq<byte>>, rs: seq<Request>)
    requires Valid(d) && d.state.WaitSof?
    requires |noise| == |rs| + 1
    requires forall r :: r in rs ==> |r.payload| <= MAX_PAYLOAD
    requires forall n :: n in noise ==> SOF_REQ !in n
    ensures Requests(Feed(d, Interleave(noise, rs)).1) == rs
  {
    hide Feed, Grammar, Interleave;
    FeedIsGrammar(d, Interleave(noise, rs));
    assert Taken(d) + Interleave(noise, rs) == Interleave(noise, rs);
    GrammarOfNoisy(noise, rs);
  }

  lemma EmptyGrammar()
    ensures Grammar([]) == []
  {
  }

  /** The longest run of non-SOF bytes after which the decoder is surely hunting for SOF again. */
  function Distance(d: Decoder): nat
    requires Valid(d)
  {
    match d.state
    case WaitSof => 0
    case WaitCmd => 34
    case WaitLen => 33
    case WaitPayload => d.frame.len - d.pos
  }

  /** From any state, as many non-SOF bytes as its distance, at most 34, restore synchronisation. */
  lemma {:induction false} Resynchronises(d: Decoder, s: seq<byte>)
    requires Valid(d) && SOF_REQ !in s && |s| >= Distance(d)
    ensures Feed(d, s).0.state == WaitSof
    ensures Distance(d) <= 34
    decreases |s|
  {
    hide Nat8;
    if s != [] {
      var d' := Step(d, s[0]).0;
      assert Distance(d') <= |s| - 1;
      Resynchronises(d', s[1..]);
    }
  }

  /** 34 is the least bound: 33 bytes can leave the decoder inside a payload. */
  lemma ThirtyThreeDoNotSuffice(d: Decoder, s: seq<byte>)
    requires Valid(d) && d.state.WaitCmd?
    requires |s| == 33 && Nat8(s[1]) == 32
    ensures Feed(d, s).0.state == WaitPayload
  {
    hide Nat8;
    var d1 := Step(d, s[0]).0;
    var d2 := Step(d1, s[1]).0;
    assert s[1..][1..] == s[2..] && Feed(d, s).0 == Feed(d1, s[1..]).0 == Feed(d2, s[2..]).0;
    StaysInPayload(d2, s[2..]);
  }

  lemma {:induction false} StaysInPayload(d: Decoder, s: seq<byte>)
    requires Valid(d) && d.state.WaitPayload? && d.pos + |s| < d.frame.len
    ensures Feed(d, s).0.state == WaitPayload
    decreases |s|
  {
    if s != [] {
      StaysInPayload(Step(d, s[0]).0, s[1..]);
    }
  }
}
