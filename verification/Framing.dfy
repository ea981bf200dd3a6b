/** The length-prefixed stream framing of `TcpHelper` (tcphelper.cpp): each
    frame is a 16-bit big-endian size, as QDataStream writes a `quint16`,
    followed by that many payload bytes. Bytes are integers below 256.
    Only the buffer and the `nextMessageSize` cell are modelled; the socket
    is replaced by the received chunks, and each completed frame is what
    would be handed to `Peer::handleMessage`. */
module Framing {

  /** An octet of the TCP stream. */
  type byte = x: int | 0 <= x < 0x100

  type uint16 = x: int | 0 <= x < 0x1_0000

  /** The framer's state: bytes received but not yet consumed, and the size
      of the frame being waited for, 0 while the size is not yet known. */
  datatype Framer = Framer(buffer: seq<byte>, nextSize: uint16)

  /** A freshly constructed (or disconnected) framer. */
  const Initial: Framer := Framer([], 0)

  /** The states `onReadyRead` can return in: either no size is known and
      fewer than two bytes wait, or the awaited frame is not complete. */
  predicate Settled(s: Framer)
  {
    (s.nextSize == 0 && |s.buffer| < 2) || s.nextSize > |s.buffer|
  }

  /** The frames dispatched by one `onReadyRead`, in order, and the state
      it leaves behind. */
  datatype Outcome = Outcome(frames: seq<seq<byte>>, state: Framer)

  /** `QDataStream >> quint16`: big-endian, so the first byte is the high
      one and both bytes can be read back from the size. */
  function DecodeSize(hi: byte, lo: byte): (n: uint16)
    ensures n / 256 == hi && n % 256 == lo
  {
    hi * 256 + lo
  }

  /** `QDataStream << quint16`: big-endian. */
  function EncodeSize(n: uint16): (w: seq<byte>)
    ensures |w| == 2 && DecodeSize(w[0], w[1]) == n
  {
    [n / 256, n % 256]
  }

  /** Label STATE_UNKNOW_SIZE: with two bytes buffered, read the size,
      drop those bytes and wait for the content; otherwise stop. */
  function AwaitSize(buf: seq<byte>): (o: Outcome)
    ensures Settled(o.state)
    ensures |o.state.buffer| <= |buf|
    decreases |buf|, 0
  {
    if |buf| < 2 then Outcome([], Framer(buf, 0))
    else AwaitContent(buf[2..], DecodeSize(buf[0], buf[1]))
  }

  /** Label STATE_WAITING_FOR_CONTENT: once `n` bytes are buffered,
      dispatch exactly them, drop them, forget the size and read the next
      one; otherwise stop and keep waiting for `n`. A size of 0 dispatches
      an empty payload at once. */
  function AwaitContent(buf: seq<byte>, n: uint16): (o: Outcome)
    ensures Settled(o.state)
    ensures |o.state.buffer| <= |buf|
    decreases |buf|, 1
  {
    if |buf| >= n then
      var rest := AwaitSize(buf[n..]);
      Outcome([buf[..n]] + rest.frames, rest.state)
    else Outcome([], Framer(buf, n))
  }

  /** `onReadyRead` as a function: append the chunk, then resume in the
      state the size cell says. */
  function Receive(s: Framer, chunk: seq<byte>): (o: Outcome)
    ensures Settled(o.state)
  {
    var buf := s.buffer + chunk;
    if s.nextSize != 0 then AwaitContent(buf, s.nextSize) else AwaitSize(buf)
  }

  /** Where the loop of `OnReadyRead` stands: reading a size, or waiting
      for `size` bytes of content. */
  function Resume(buf: seq<byte>, size: uint16, waiting: bool): Outcome
  {
    if waiting then AwaitContent(buf, size) else AwaitSize(buf)
  }

  /** One pass through the size state. */
  lemma SizeStep(buf: seq<byte>)
    requires |buf| >= 2
    ensures AwaitSize(buf) == AwaitContent(buf[2..], DecodeSize(buf[0], buf[1]))
  {
  }

  /** One pass through the content state with the frame complete. */
  lemma ContentStep(buf: seq<byte>, n: uint16)
    requires |buf| >= n
    ensures AwaitContent(buf, n).frames == [buf[..n]] + AwaitSize(buf[n..]).frames
    ensures AwaitContent(buf, n).state == AwaitSize(buf[n..]).state
  {
  }

  /** `onReadyRead` as the two-state loop the `goto`s spell out. Every pass
      through the size state consumes two bytes, so the loop ends. */
  method OnReadyRead(s: Framer, chunk: seq<byte>) returns (frames: seq<seq<byte>>, s': Framer)
    ensures Outcome(frames, s') == Receive(s, chunk)
    ensures Settled(s')
  {
    ghost var target := Receive(s, chunk);
    var buf := s.buffer + chunk;
    var size: uint16 := s.nextSize;
    var waiting := size != 0;
    frames := [];
    while waiting || |buf| >= 2
      invariant !waiting ==> size == 0
      invariant frames + Resume(buf, size, waiting).frames == target.frames
      invariant Resume(buf, size, waiting).state == target.state
      decreases |buf|, if waiting then 1 else 0
    {
      if !waiting {
        SizeStep(buf);
        size := DecodeSize(buf[0], buf[1]);
        buf := buf[2..];
        waiting := true;
      } else if |buf| >= size {
        ContentStep(buf, size);
        frames := frames + [buf[..size]];
        buf := buf[size..];
        size := 0;
        waiting := false;
      } else {
        break;
      }
    }
    s' := Framer(buf, size);
  }

  /** `onDisconnected`: the buffer is emptied and the size forgotten, so the
      framer starts over as a fresh one. */
  function Disconnect(s: Framer): (r: Framer)
    ensures r.buffer == [] && r.nextSize == 0
    ensures Settled(r)
  {
    Initial
  }

  /** `onReadyMessage`: the payload length truncated to a `quint16`, then
      the payload. */
  function Frame(payload: seq<byte>): (w: seq<byte>)
    ensures |w| == |payload| + 2
    ensures DecodeSize(w[0], w[1]) == |payload| % 0x1_0000
    ensures w[2..] == payload
  {
    EncodeSize(|payload| % 0x1_0000) + payload
  }

  // Chunking independence.

  lemma {:induction false} AwaitSizeAppend(buf: seq<byte>, more: seq<byte>)
    ensures var o := AwaitSize(buf);
      var o' := Receive(o.state, more);
      AwaitSize(buf + more) == Outcome(o.frames + o'.frames, o'.state)
    decreases |buf|, 0
  {
    if |buf| < 2 {
      assert AwaitSize(buf) == Outcome([], Framer(buf, 0));
      assert Framer(buf, 0).buffer + more == buf + more;
    } else {
      SizeStep(buf);
      SizeStep(buf + more);
      assert (buf + more)[2..] == buf[2..] + more;
      AwaitContentAppend(buf[2..], DecodeSize(buf[0], buf[1]), more);
    }
  }

  lemma {:induction false} AwaitContentAppend(buf: seq<byte>, n: uint16, more: seq<byte>)
    ensures var o := AwaitContent(buf, n);
      var o' := Receive(o.state, more);
      AwaitContent(buf + more, n) == Outcome(o.frames + o'.frames, o'.state)
    decreases |buf|, 1
  {
    if |buf| >= n {
      ContentStep(buf, n);
      ContentStep(buf + more, n);
      assert (buf + more)[..n] == buf[..n];
      assert (buf + more)[n..] == buf[n..] + more;
      AwaitSizeAppend(buf[n..], more);
    } else {
      assert AwaitContent(buf, n) == Outcome([], Framer(buf, n));
      assert Framer(buf, n).buffer + more == buf + more;
    }
  }

  /** Two chunks received one after the other dispatch the same frames, in
      the same order, and leave the same state as their concatenation
      received at once. */
  lemma ReceiveAppend(s: Framer, a: seq<byte>, b: seq<byte>)
    ensures var o := Receive(s, a);
      var o' := Receive(o.state, b);
      Receive(s, a + b) == Outcome(o.frames + o'.frames, o'.state)
  {
    assert s.buffer + (a + b) == (s.buffer + a) + b;
    if s.nextSize != 0 {
      AwaitContentAppend(s.buffer + a, s.nextSize, b);
    } else {
      AwaitSizeAppend(s.buffer + a, b);
    }
  }

  /** Receiving nothing in a settled state dispatches nothing. */
  lemma ReceiveNothing(s: Framer)
    requires Settled(s)
    ensures Receive(s, []) == Outcome([], s)
  {
  }

  /** The bytes of several chunks, in order. */
  function Concat(chunks: seq<seq<byte>>): (bytes: seq<byte>)
    decreases |chunks|
  {
    if |chunks| == 0 then [] else chunks[0] + Concat(chunks[1..])
  }

  /** A sequence of `onReadyRead` calls, one per chunk. */
  function ReceiveAll(s: Framer, chunks: seq<seq<byte>>): Outcome
    decreases |chunks|
  {
    if |chunks| == 0 then Outcome([], s)
    else
      var o := Receive(s, chunks[0]);
      var rest := ReceiveAll(o.state, chunks[1..]);
      Outcome(o.frames + rest.frames, rest.state)
  }

  /** The dispatched frames and the final state depend only on the bytes
      received, not on how the connection chunked them. */
  lemma {:induction false} ChunkingIndependent(s: Framer, chunks: seq<seq<byte>>)
    requires Settled(s)
    ensures ReceiveAll(s, chunks) == Receive(s, Concat(chunks))
    decreases |chunks|
  {
    if |chunks| == 0 {
      ReceiveNothing(s);
    } else {
      var o := Receive(s, chunks[0]);
      ChunkingIndependent(o.state, chunks[1..]);
      ReceiveAppend(s, chunks[0], Concat(chunks[1..]));
    }
  }

  /** A frame of at most 65535 bytes, written by `onReadyMessage` and read
      by a fresh framer, dispatches exactly its payload and leaves the
      framer fresh. */
  lemma FrameRoundTrip(payload: seq<byte>)
    requires |payload| < 0x1_0000
    ensures Receive(Initial, Frame(payload)) == Outcome([payload], Initial)
  {
    var w := Frame(payload);
    assert Initial.buffer + w == w;
    assert w[2..] == payload;
    assert DecodeSize(w[0], w[1]) == |payload|;
    assert payload[..|payload|] == payload;
    assert payload[|payload|..] == [];
    assert AwaitSize([]) == Outcome([], Initial);
    assert AwaitContent(payload, |payload|) == Outcome([payload], Initial);
    assert AwaitSize(w) == AwaitContent(payload, |payload|);
  }

  /** The byte stream of several frames written one after the other. */
  function FrameAll(payloads: seq<seq<byte>>): seq<byte>
    decreases |payloads|
  {
    if |payloads| == 0 then [] else Frame(payloads[0]) + FrameAll(payloads[1..])
  }

  /** Frames written back to back are dispatched one by one, in order,
      without loss, and the reader ends fresh. */
  lemma {:induction false} StreamRoundTrip(payloads: seq<seq<byte>>)
    requires forall i :: 0 <= i < |payloads| ==> |payloads[i]| < 0x1_0000
    ensures Receive(Initial, FrameAll(payloads)) == Outcome(payloads, Initial)
    decreases |payloads|
  {
    if |payloads| == 0 {
      ReceiveNothing(Initial);
    } else {
      FrameRoundTrip(payloads[0]);
      StreamRoundTrip(payloads[1..]);
      ReceiveAppend(Initial, Frame(payloads[0]), FrameAll(payloads[1..]));
      assert [payloads[0]] + payloads[1..] == payloads;
    }
  }

  /** However the stream of written frames is cut into chunks, the reader
      dispatches exactly the written payloads, in order. */
  lemma StreamAnyChunking(payloads: seq<seq<byte>>, chunks: seq<seq<byte>>)
    requires forall i :: 0 <= i < |payloads| ==> |payloads[i]| < 0x1_0000
    requires Concat(chunks) == FrameAll(payloads)
    ensures ReceiveAll(Initial, chunks) == Outcome(payloads, Initial)
  {
    ChunkingIndependent(Initial, chunks);
    StreamRoundTrip(payloads);
  }

  /** A zero size header dispatches an empty payload in the same call,
      before the bytes after it are looked at. */
  lemma ZeroSizeFrame(rest: seq<byte>)
    ensures Receive(Initial, [0, 0] + rest).frames == [[]] + AwaitSize(rest).frames
  {
    var w: seq<byte> := [0, 0] + rest;
    assert Initial.buffer + w == w;
    assert w[2..] == rest;
    assert AwaitSize(w) == AwaitContent(rest, DecodeSize(0, 0));
    assert rest[..0] == [] && rest[0..] == rest;
  }
}
