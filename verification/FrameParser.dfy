/** Inbound frame parsing of the epoll servers, once over a string (server.cpp)
    and once over a byte ring (server_sds.cpp). The handler is abstract: it maps
    a server state and a frame to a new state, and the state says whether the
    connection is closing. */
module FrameParser {
  import opened Wire
  import opened RingBuffers

  const RECV_SIZE: nat := 65536
  const BACKLOG_LIMIT: nat := 66564    // payload + header + one full recv

  datatype Handler<!S> = Handler(handle: (S, Frame) -> S, closing: S -> bool, doom: S -> S)

  /** Dooming a connection makes it closing. */
  ghost predicate Sound<S(!new)>(h: Handler<S>) {
    forall s :: h.closing(h.doom(s))
  }

  /** Hand over complete frames until the connection is closing, the header is
      oversize, or the rest is a partial frame. */
  function Parse<S>(h: Handler<S>, s: S, bytes: seq<byte>): (S, seq<byte>)
    decreases |bytes|
  {
    if h.closing(s) || |bytes| < HEADER then (s, bytes)
    else
      var len := GetU16(bytes);
      if len > MAX_PAYLOAD then (h.doom(s), bytes)
      else if |bytes| < HEADER + len then (s, bytes)
      else Parse(h, h.handle(s, FirstFrame(bytes)), bytes[HEADER + len..])
  }

  function FirstFrame(bytes: seq<byte>): Frame
    requires |bytes| >= HEADER && |bytes| >= HEADER + GetU16(bytes)
  {
    Frame(GetU16(bytes[2..]), bytes[HEADER..HEADER + GetU16(bytes)])
  }

  // ---- the two parsers

  /** server.cpp: erase each frame from the front of the string. */
  method ParseString<S>(h: Handler<S>, s0: S, in0: seq<byte>) returns (s: S, inb: seq<byte>)
    ensures (s, inb) == Parse(h, s0, in0)
  {
    s, inb := s0, in0;
    while !h.closing(s) && |inb| >= HEADER
      invariant Parse(h, s, inb) == Parse(h, s0, in0)
      decreases |inb|
    {
      var len := GetU16(inb);
      if len > MAX_PAYLOAD {
        s := h.doom(s);
        return;
      }
      if |inb| < HEADER + len {
        break;
      }
      s := h.handle(s, FirstFrame(inb));
      inb := inb[HEADER + len..];
    }
  }

  /** server_sds.cpp: the same walk over the inbound ring. */
  method ParseRing<S>(h: Handler<S>, s0: S, ring: RingBuffer) returns (s: S)
    requires ring.Valid()
    modifies ring`deq
    ensures ring.Valid() && ring.enq == old(ring.enq)
    ensures (s, ring.Contents()) == Parse(h, s0, old(ring.Contents()))
  {
    s := s0;
    while !h.closing(s) && ring.UsedSize() >= HEADER
      invariant ring.Valid() && ring.enq == old(ring.enq)
      invariant Parse(h, s, ring.Contents()) == Parse(h, s0, old(ring.Contents()))
      decreases ring.UsedSize()
    {
      ghost var bytes := ring.Contents();
      var hdr := ring.Peek(HEADER);
      SameHeader(bytes, hdr);
      var len, typ := GetU16(hdr), GetU16(hdr[2..]);
      if len > MAX_PAYLOAD {
        s := h.doom(s);
        return;
      }
      if ring.UsedSize() < HEADER + len {
        break;
      }
      s := HandleFirst(h, s, ring, len, typ);
    }
  }

  /** A contiguous frame is handled in place and committed afterwards; one that
      straddles the wrap is dequeued into a scratch. */
  method HandleFirst<S>(h: Handler<S>, s0: S, ring: RingBuffer, len: u16, typ: u16) returns (s: S)
    requires ring.Valid() && |ring.Contents()| >= HEADER + len
    requires len == GetU16(ring.Contents()) && typ == GetU16(ring.Contents()[2..])
    modifies ring`deq
    ensures ring.Valid() && ring.enq == old(ring.enq)
    ensures s == h.handle(s0, old(FirstFrame(ring.Contents())))
    ensures ring.Contents() == old(ring.Contents())[HEADER + len..]
  {
    ghost var bytes := ring.Contents();
    if ring.DirectDequeueSize() >= HEADER + len {
      var frame := ring.DirectView(HEADER + len);
      FrameFields(bytes, frame);
      s := h.handle(s0, Frame(typ, frame[HEADER..]));
      ring.CommitDequeue(HEADER + len);
    } else {
      var frame := ring.Dequeue(HEADER + len);
      FrameFields(bytes, frame);
      s := h.handle(s0, Frame(typ, frame[HEADER..]));
    }
  }

  lemma FrameFields(bytes: seq<byte>, frame: seq<byte>)
    requires |bytes| >= HEADER && |bytes| >= HEADER + GetU16(bytes)
    requires frame == bytes[..HEADER + GetU16(bytes)]
    ensures frame[HEADER..] == FirstFrame(bytes).body
  {
  }

  // ---- independence of chunking

  /** Feeding the bytes in two pieces is feeding them at once. */
  lemma {:induction false} ParseSplit<S(!new)>(h: Handler<S>, s: S, x: seq<byte>, y: seq<byte>)
    requires Sound(h)
    ensures var (s1, rest) := Parse(h, s, x);
            Parse(h, s, x + y) == if h.closing(s1) then (s1, rest + y) else Parse(h, s1, rest + y)
    decreases |x|
  {
    if !h.closing(s) && |x| >= HEADER {
      var xy := x + y;
      var len := GetU16(x);
      assert xy[2..][..2] == x[2..][..2];
      assert GetU16(xy) == len && GetU16(xy[2..]) == GetU16(x[2..]);
      if len <= MAX_PAYLOAD && |x| >= HEADER + len {
        assert FirstFrame(xy) == FirstFrame(x);
        assert xy[HEADER + len..] == x[HEADER + len..] + y;
        ParseSplit(h, h.handle(s, FirstFrame(x)), x[HEADER + len..], y);
      }
    }
  }

  /** What parsing leaves behind on a live connection is under one frame. */
  lemma {:induction false} LeftoverIsPartial<S(!new)>(h: Handler<S>, s: S, bytes: seq<byte>)
    requires Sound(h)
    ensures var (s1, rest) := Parse(h, s, bytes);
            !h.closing(s1) ==>
              && |rest| < MAX_FRAME
              && (|rest| >= HEADER ==> GetU16(rest) <= MAX_PAYLOAD && |rest| < HEADER + GetU16(rest))
    decreases |bytes|
  {
    if !h.closing(s) && |bytes| >= HEADER {
      var len := GetU16(bytes);
      if len <= MAX_PAYLOAD && |bytes| >= HEADER + len {
        LeftoverIsPartial(h, h.handle(s, FirstFrame(bytes)), bytes[HEADER + len..]);
      }
    }
  }

  /** recv-append-parse over a list of chunks, stopping once closing. */
  function Feed<S>(h: Handler<S>, s: S, pending: seq<byte>, chunks: seq<seq<byte>>): (S, seq<byte>)
    decreases |chunks|
  {
    if chunks == [] || h.closing(s) then (s, pending)
    else
      var (s1, rest) := Parse(h, s, pending + chunks[0]);
      Feed(h, s1, rest, chunks[1..])
  }

  /** However the stream is cut, the handler sees what it would see on the whole. */
  lemma {:induction false} ChunkingIsInvisible<S(!new)>(
      h: Handler<S>, s: S, pending: seq<byte>, chunks: seq<seq<byte>>)
    requires Sound(h) && chunks != []
    ensures var (s1, rest) := Feed(h, s, pending, chunks);
            var (s2, rest2) := Parse(h, s, pending + Concat(chunks));
            s1 == s2 && (!h.closing(s1) ==> rest == rest2)
    decreases |chunks|
  {
    if !h.closing(s) {
      var c, more := chunks[0], Concat(chunks[1..]);
      assert pending + Concat(chunks) == (pending + c) + more;
      ParseSplit(h, s, pending + c, more);
      var (s1, rest) := Parse(h, s, pending + c);
      if chunks[1..] == [] {
        assert rest + more == rest;
        ParseSettled(h, s, pending + c);
      } else {
        ChunkingIsInvisible(h, s1, rest, chunks[1..]);
      }
    }
  }

  /** Parsing a leftover again does nothing. */
  lemma {:induction false} ParseSettled<S(!new)>(h: Handler<S>, s: S, bytes: seq<byte>)
    requires Sound(h)
    ensures var (s1, rest) := Parse(h, s, bytes); Parse(h, s1, rest) == (s1, rest)
  {
    LeftoverIsPartial(h, s, bytes);
  }

  // ---- parsing what was encoded

  function HandleAll<S>(h: Handler<S>, s: S, fs: seq<Frame>): S {
    if fs == [] || h.closing(s) then s else HandleAll(h, h.handle(s, fs[0]), fs[1..])
  }

  /** Parsing an encoded stream hands over exactly its frames, in order, up to the
      first one that closes the connection. */
  lemma {:induction false} ParseEncoded<S>(h: Handler<S>, s: S, fs: seq<Frame>)
    requires forall f :: f in fs ==> |f.body| <= MAX_PAYLOAD
    ensures Parse(h, s, EncodeAll(fs)).0 == HandleAll(h, s, fs)
    ensures !h.closing(HandleAll(h, s, fs)) ==> Parse(h, s, EncodeAll(fs)).1 == []
    decreases |fs|
  {
    if fs != [] && !h.closing(s) {
      var f, gs := fs[0], fs[1..];
      assert fs == [f] + gs;
      EncodedFront(f, gs);
      ParseEncoded(h, h.handle(s, f), gs);
    }
  }

  // ---- the receive loops

  /** One outcome of recv(): bytes, end of stream, EINTR, EAGAIN or an error. A
      finite script of outcomes stands for the kernel; past its end is EAGAIN. */
  datatype Recv = Data(bytes: seq<byte>) | Eof | Intr | Again | Fail

  predicate Plausible(script: seq<Recv>) {
    forall r :: r in script && r.Data? ==> 0 < |r.bytes| <= RECV_SIZE
  }

  /** The bytes a script will yield. */
  function Bytes(script: seq<Recv>): seq<byte> {
    if script == [] then [] else (if script[0].Data? then script[0].bytes else []) + Bytes(script[1..])
  }

  lemma TakeFront(bytes: seq<byte>, k: nat, more: seq<Recv>)
    requires k <= |bytes|
    ensures bytes[..k] + Bytes(if k < |bytes| then [Data(bytes[k..])] + more else more) == bytes + Bytes(more)
  {
    if k < |bytes| {
      assert ([Data(bytes[k..])] + more)[1..] == more;
      Assoc(bytes[..k], bytes[k..], Bytes(more));
      assert bytes[..k] + bytes[k..] == bytes;
    } else {
      assert bytes[..k] == bytes;
    }
  }

  /** The receive loop without its guards. */
  function Drain<S>(h: Handler<S>, s: S, pending: seq<byte>, script: seq<Recv>): (S, seq<byte>)
    decreases |script|
  {
    if script == [] || script[0] == Again then (s, pending)
    else if script[0] == Intr then Drain(h, s, pending, script[1..])
    else if script[0].Data? then
      var (s1, rest) := Parse(h, s, pending + script[0].bytes);
      if h.closing(s1) then (s1, rest) else Drain(h, s1, rest, script[1..])
    else (h.doom(s), pending)
  }

  /** server.cpp's loop; `overrun` reports the "backlog too large" guard. */
  method OnReadableString<S(!new)>(h: Handler<S>, s0: S, in0: seq<byte>, script: seq<Recv>)
    returns (s: S, inb: seq<byte>, overrun: bool)
    requires Sound(h) && Plausible(script) && |in0| < MAX_FRAME
    ensures !overrun && (s, inb) == Drain(h, s0, in0, script)
    ensures !h.closing(s) ==> |inb| < MAX_FRAME
  {
    s, inb, overrun := s0, in0, false;
    var i := 0;
    while i < |script|
      invariant i <= |script| && !overrun && |inb| < MAX_FRAME
      invariant Drain(h, s, inb, script[i..]) == Drain(h, s0, in0, script)
    {
      var r := script[i];
      i := i + 1;
      match r {
        case Data(bytes) =>
          assert r in script;
          overrun := |inb| + |bytes| > BACKLOG_LIMIT;
          LeftoverIsPartial(h, s, inb + bytes);
          s, inb := ParseString(h, s, inb + bytes);
          if h.closing(s) {
            return;
          }
        case Intr =>
        case Again =>
          return;
        case Eof =>
          s := h.doom(s);
          return;
        case Fail =>
          s := h.doom(s);
          return;
      }
    }
  }

  /** server_sds.cpp's loop: recv asks for at most the free space of the ring, so
      a large outcome may be taken in pieces. `stuck` reports that the ring had no
      room, `torn` that an enqueue was refused. */
  method OnReadableRing<S(!new)>(h: Handler<S>, s0: S, ring: RingBuffer, script0: seq<Recv>)
    returns (s: S, stuck: bool, torn: bool)
    requires Sound(h) && Plausible(script0) && ring.Valid() && ring.n > MAX_FRAME
    requires |ring.Contents()| < MAX_FRAME
    modifies ring, ring.buf
    ensures ring.Valid() && !stuck && !torn
    ensures s == Drain(h, s0, old(ring.Contents()), script0).0
    ensures !h.closing(s) ==> ring.Contents() == Drain(h, s0, old(ring.Contents()), script0).1
    ensures !h.closing(s) ==> |ring.Contents()| < MAX_FRAME
  {
    s, stuck, torn := s0, false, false;
    var script := script0;
    ghost var goal := Drain(h, s0, ring.Contents(), script0);
    while script != []
      invariant ring.Valid() && Plausible(script) && !stuck && !torn
      invariant |ring.Contents()| < MAX_FRAME
      invariant SameOutcome(h, Drain(h, s, ring.Contents(), script), goal)
      decreases |script|, if script != [] && script[0].Data? then |script[0].bytes| else 0
    {
      var want := Min(ring.FreeSize(), RECV_SIZE);
      stuck := want == 0;
      var r := script[0];
      match r {
        case Data(bytes) =>
          var k := Min(want, |bytes|);
          PartialRecv(h, s, ring.Contents(), script, k);
          s, torn := TakeBytes(h, s, ring, bytes[..k]);
          script := if k < |bytes| then [Data(bytes[k..])] + script[1..] else script[1..];
          if h.closing(s) {
            return;
          }
        case Intr =>
          script := script[1..];
        case Again =>
          return;
        case Eof =>
          s := h.doom(s);
          return;
        case Fail =>
          s := h.doom(s);
          return;
      }
    }
  }

  /** Appends received bytes that fit and parses; `torn` reports a refused enqueue. */
  method TakeBytes<S(!new)>(h: Handler<S>, s0: S, ring: RingBuffer, bytes: seq<byte>) returns (s: S, torn: bool)
    requires Sound(h) && ring.Valid() && |bytes| <= ring.FreeSize()
    modifies ring, ring.buf
    ensures ring.Valid() && !torn && (s, ring.Contents()) == Parse(h, s0, old(ring.Contents()) + bytes)
    ensures !h.closing(s) ==> |ring.Contents()| < MAX_FRAME
  {
    LeftoverIsPartial(h, s0, ring.Contents() + bytes);
    var got := ring.Enqueue(bytes);
    torn := got != |bytes|;
    s := ParseRing(h, s0, ring);
  }

  /** Same final state, and the same leftover unless the connection is closing. */
  ghost predicate SameOutcome<S(!new)>(h: Handler<S>, x: (S, seq<byte>), y: (S, seq<byte>)) {
    x.0 == y.0 && (!h.closing(x.0) ==> x.1 == y.1)
  }

  /** Taking only the first `k` bytes of a recv outcome changes nothing. */
  lemma PartialRecv<S(!new)>(h: Handler<S>, s: S, pending: seq<byte>, script: seq<Recv>, k: nat)
    requires Sound(h) && script != [] && script[0].Data? && 0 < k <= |script[0].bytes|
    ensures var bytes := script[0].bytes;
            var (s1, rest) := Parse(h, s, pending + bytes[..k]);
            var more := if k < |bytes| then [Data(bytes[k..])] + script[1..] else script[1..];
            SameOutcome(h, if h.closing(s1) then (s1, rest) else Drain(h, s1, rest, more),
                        Drain(h, s, pending, script))
  {
    var bytes := script[0].bytes;
    var (s1, rest) := Parse(h, s, pending + bytes[..k]);
    assert pending + bytes == (pending + bytes[..k]) + bytes[k..];
    ParseSplit(h, s, pending + bytes[..k], bytes[k..]);
    if k < |bytes| {
      var more := [Data(bytes[k..])] + script[1..];
      assert more[1..] == script[1..];
    } else {
      assert pending + bytes == pending + bytes[..k];
    }
  }
}
