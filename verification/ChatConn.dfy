/** One connection of the epoll chat server: its outgoing string, backpressure,
    partial sends and EPOLLOUT arming. The kernel is a script of send() outcomes. */
module ChatConn {
  import opened Wire

  const SEND_CAP: nat := 262144
  const S_TICK: u16 := 102

  /** send(): takes some bytes, EINTR, EAGAIN, or a hard error. Past the end of
      the script the socket is full (EAGAIN). */
  datatype Send = Took(n: nat) | Interrupted | WouldBlock | Failed

  datatype Conn = Conn(
    nick: seq<byte>,
    room: seq<byte>,          // empty when in no room
    out: seq<byte>,
    armed: bool,              // EPOLLOUT in the epoll mask
    closing: bool,
    dirty: bool,
    script: seq<Send>,        // future outcomes of send()
    sent: seq<byte>,          // history: bytes the kernel took
    queued: seq<RawFrame>     // history: frames accepted for sending
  )

  function NewConn(script: seq<Send>): Conn {
    Conn([], [], [], false, false, false, script, [], [])
  }

  function Accept(c: Conn, f: RawFrame): Conn {
    if |c.out| + HEADER + |f.body| > SEND_CAP then c.(closing := true)
    else c.(out := c.out + Encode(f), queued := c.queued + [f])
  }

  function QueueSend(c: Conn, typ: u16, payload: seq<byte>): Conn {
    if c.closing || |payload| > MAX_PAYLOAD then c else Accept(c, Frame(typ, payload))
  }

  function QueueTick(c: Conn, payload: seq<byte>): Conn {
    if c.closing then c else Accept(c, Frame(S_TICK, payload))
  }

  function UpdateMask(c: Conn): Conn {
    c.(armed := c.out != [])
  }

  /** The result of the send loop. */
  function FlushSend(c: Conn): Conn
    decreases |c.script|
  {
    if c.out == [] || c.script == [] then UpdateMask(c)
    else
      var rest := c.(script := c.script[1..]);
      match c.script[0]
      case Took(n) =>
        var k := Min(n, |c.out|);
        if k > 0 then FlushSend(rest.(out := c.out[k..], sent := c.sent + c.out[..k]))
        else rest.(closing := true)
      case Interrupted => FlushSend(rest)
      case WouldBlock => UpdateMask(rest)
      case Failed => rest.(closing := true)
  }

  /** With `left` bytes to go, the send loop meets an error before it is done and
      before it would block. */
  predicate SendFails(left: nat, script: seq<Send>)
    decreases |script|
  {
    && left > 0 && script != []
    && match script[0]
       case Took(n) => n == 0 || (n < left && SendFails(left - n, script[1..]))
       case Interrupted => SendFails(left, script[1..])
       case WouldBlock => false
       case Failed => true
  }

  /** A flush dooms exactly when its next sends fail. */
  lemma {:induction false} FlushFails(c: Conn)
    ensures FlushSend(c).closing <==> c.closing || SendFails(|c.out|, c.script)
    decreases |c.script|
  {
    if c.out != [] && c.script != [] {
      var rest := c.(script := c.script[1..]);
      match c.script[0] {
        case Took(n) =>
          var k := Min(n, |c.out|);
          if k > 0 {
            FlushFails(rest.(out := c.out[k..], sent := c.sent + c.out[..k]));
          }
        case Interrupted => FlushFails(rest);
        case WouldBlock =>
        case Failed =>
      }
    }
  }

  /** One stop of the flush pass. */
  function FlushOne(c: Conn): Conn {
    var d := c.(dirty := false);
    if d.closing then d else FlushSend(d)
  }

  function MarkDirty(c: Conn): Conn {
    if !c.dirty && c.out != [] then c.(dirty := true) else c
  }

  /** Send now, or leave it to the flush pass of the batch. */
  function Dispatch(batch: bool, c: Conn): Conn {
    if batch then MarkDirty(c) else FlushSend(c)
  }

  function Deliver(batch: bool, c: Conn, typ: u16, payload: seq<byte>): Conn {
    Dispatch(batch, QueueSend(c, typ, payload))
  }

  function DeliverTick(batch: bool, c: Conn, payload: seq<byte>): Conn {
    Dispatch(batch, QueueTick(c, payload))
  }

  // ---- what every connection keeps

  /** No length field was truncated. */
  ghost predicate Framed(fs: seq<RawFrame>) {
    forall f :: f in fs ==> |f.body| < 65536
  }

  /** Bytes taken by the kernel plus bytes pending are the encodings of the frames
      queued, nothing lost, repeated or reordered; and the cap holds. */
  ghost predicate Conserves(c: Conn) {
    c.sent + c.out == EncodeAll(c.queued) && |c.out| <= SEND_CAP && Framed(c.queued)
  }

  /** No queued byte is stranded, and EPOLLOUT is never armed for nothing. */
  ghost predicate Served(c: Conn) {
    && (!c.closing && c.out != [] ==> c.armed || c.dirty)
    && (!c.closing && c.armed ==> c.out != [])
  }

  /** Fields no send path touches. */
  ghost predicate SameIdentity(c: Conn, d: Conn) {
    c.nick == d.nick && c.room == d.room
  }

  /** A closing or dirty connection stays so. */
  ghost predicate FlagsKept(c: Conn, d: Conn) {
    (c.closing ==> d.closing) && (c.dirty ==> d.dirty) && SameIdentity(c, d)
  }

  lemma AcceptConserves(c: Conn, f: RawFrame)
    requires Conserves(c) && |f.body| < 65536
    ensures Conserves(Accept(c, f))
  {
    if |c.out| + HEADER + |f.body| <= SEND_CAP {
      EncodeAllAppend(c.queued, f);
      assert c.sent + (c.out + Encode(f)) == (c.sent + c.out) + Encode(f);
    }
  }

  lemma {:induction false} FlushConserves(c: Conn)
    requires Conserves(c)
    ensures Conserves(FlushSend(c)) && c.sent <= FlushSend(c).sent
    decreases |c.script|
  {
    if c.out != [] && c.script != [] {
      var rest := c.(script := c.script[1..]);
      match c.script[0] {
        case Took(n) =>
          var k := Min(n, |c.out|);
          if k > 0 {
            assert (c.sent + c.out[..k]) + c.out[k..] == c.sent + c.out;
            FlushConserves(rest.(out := c.out[k..], sent := c.sent + c.out[..k]));
          }
        case Interrupted => FlushConserves(rest);
        case WouldBlock =>
        case Failed =>
      }
    }
  }

  /** A flush changes no identity or flag but closing, and arms EPOLLOUT on a live
      connection exactly when bytes are pending. */
  lemma {:induction false} FlushArms(c: Conn)
    ensures FlagsKept(c, FlushSend(c)) && FlushSend(c).queued == c.queued && FlushSend(c).dirty == c.dirty
    ensures !FlushSend(c).closing ==> (FlushSend(c).armed <==> FlushSend(c).out != [])
    decreases |c.script|
  {
    if c.out != [] && c.script != [] {
      var rest := c.(script := c.script[1..]);
      match c.script[0] {
        case Took(n) =>
          var k := Min(n, |c.out|);
          if k > 0 {
            FlushArms(rest.(out := c.out[k..], sent := c.sent + c.out[..k]));
          }
        case Interrupted => FlushArms(rest);
        case WouldBlock =>
        case Failed =>
      }
    }
  }

  /** A dispatch keeps conservation and serves whatever is pending. */
  lemma DispatchKeeps(batch: bool, c: Conn)
    requires Conserves(c) && (!c.closing && c.armed ==> c.out != [])
    ensures Conserves(Dispatch(batch, c)) && Served(Dispatch(batch, c))
    ensures !batch ==> Dispatch(batch, c).dirty == c.dirty
  {
    if !batch {
      FlushConserves(c);
      FlushArms(c);
    }
  }

  lemma DispatchFlags(batch: bool, c: Conn)
    ensures FlagsKept(c, Dispatch(batch, c))
  {
    FlushArms(c);
  }

  lemma AcceptDispatchKeeps(batch: bool, c: Conn, f: RawFrame)
    requires Conserves(c) && (!c.closing && c.armed ==> c.out != []) && |f.body| < 65536
    ensures var d := Dispatch(batch, Accept(c, f));
            Conserves(d) && Served(d) && (!batch ==> d.dirty == c.dirty)
  {
    AcceptConserves(c, f);
    DispatchKeeps(batch, Accept(c, f));
  }
}
