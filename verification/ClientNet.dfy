/** The load generator's socket helpers: partial sends that keep the byte order,
    and the read that fills the receive slot behind what is buffered. */
module ClientNet {
  import opened Wire
  import opened ChatConn
  import opened ChatSends
  import opened ClientParser
  import P = FrameParser

  // ---- sending

  /** send() of a non-empty buffer takes at least one byte or reports an error. */
  ghost predicate Plausible(script: seq<Send>) {
    forall s :: s in script && s.Took? ==> s.n > 0
  }

  class ClientConn {
    var pending: seq<byte>
    var script: seq<Send>         // future outcomes of send()
    ghost var sent: seq<byte>     // history: bytes the kernel took
    ghost var queued: seq<byte>   // history: bytes handed over for sending

    ghost predicate Conserves()
      reads this
    {
      Plausible(script) && sent + pending == queued
    }

    constructor (script: seq<Send>)
      requires Plausible(script)
      ensures Conserves() && queued == []
    {
      this.script := script;
      pending, sent, queued := [], [], [];
    }

    /** Sends as much of the pending bytes as the kernel takes, and reports exactly
        whether it took them without an error. */
    method FlushPending() returns (ok: bool)
      requires Conserves()
      modifies this
      ensures Conserves() && queued == old(queued) && old(sent) <= sent
      ensures ok && pending != [] ==> script == [] || WouldBlock in old(script)
      ensures |pending| == old(|pending|) - Takes(old(|pending|), old(script))
      ensures ok <==> !Stops(old(|pending|), old(script))
    {
      while pending != [] && script != []
        invariant Conserves() && queued == old(queued) && old(sent) <= sent
        invariant forall s :: s in script ==> s in old(script)
        invariant |pending| - Takes(|pending|, script) == old(|pending|) - Takes(old(|pending|), old(script))
        invariant Stops(|pending|, script) == Stops(old(|pending|), old(script))
        decreases |script|
      {
        var outcome := script[0];
        assert outcome in script;
        script := script[1..];
        match outcome {
          case Took(n) =>
            var k := Min(n, |pending|);
            sent, pending := sent + pending[..k], pending[k..];
          case Interrupted =>
          case WouldBlock =>
            return true;
          case Failed =>
            return false;
        }
      }
      ok := true;
    }

    /** Behind pending bytes the frame is queued; otherwise it is sent directly and
        only its unsent tail is kept. Either way the bytes keep their order, and what
        the kernel offers to take of them all is sent. */
    method SendFrame(frame: seq<byte>) returns (ok: bool)
      requires Conserves()
      modifies this
      ensures queued == old(queued) + frame && old(sent) <= sent <= queued
      ensures ok ==> Conserves()
      ensures |sent| == old(|sent|) + Takes(old(|pending|) + |frame|, old(script))
      ensures ok <==> !Stops(old(|pending|) + |frame|, old(script))
    {
      queued := queued + frame;
      if pending != [] {
        pending := pending + frame;
        ok := FlushPending();
        return;
      }
      var off := 0;
      while off < |frame|
        invariant off <= |frame| && pending == [] && queued == old(queued) + frame
        invariant sent == old(sent) + frame[..off] && old(sent) == old(queued) && Plausible(script)
        invariant off + Takes(|frame| - off, script) == Takes(|frame|, old(script))
        invariant Stops(|frame| - off, script) == Stops(|frame|, old(script))
        decreases |frame| - off, |script|
      {
        if script == [] {
          pending := frame[off..];
          return true;
        }
        var outcome := script[0];
        script := script[1..];
        match outcome {
          case Took(n) =>
            var k := Min(n, |frame| - off);
            sent, off := sent + frame[off..off + k], off + k;
          case Interrupted =>
          case WouldBlock =>
            pending := frame[off..];
            return true;
          case Failed =>
            return false;
        }
      }
      ok := true;
    }
  }

  /** How many whole frames the first `n` bytes of their stream hold. */
  function WholeFrames(fs: seq<Frame>, n: nat): (k: nat)
    ensures k <= |fs|
    decreases |fs|
  {
    if fs == [] || n < HEADER + |fs[0].body| then 0 else 1 + WholeFrames(fs[1..], n - HEADER - |fs[0].body|)
  }

  lemma FirstAndMore(fs: seq<Frame>, k: nat)
    requires k < |fs|
    ensures fs[..k + 1] == [fs[0]] + fs[1..][..k] && |EncodeAll(fs[..k + 1])|
              == HEADER + |fs[0].body| + |EncodeAll(fs[1..][..k])|
  {
    assert fs[..k + 1] == [fs[0]] + fs[1..][..k];
    EncodedLength(fs[0], fs[1..][..k]);
  }

  lemma {:induction false} WholeFramesFit(fs: seq<Frame>, n: nat)
    ensures var k := WholeFrames(fs, n);
            |EncodeAll(fs[..k])| <= n && (k < |fs| ==> n < |EncodeAll(fs[..k + 1])|)
    decreases |fs|
  {
    var k := WholeFrames(fs, n);
    if k < |fs| {
      FirstAndMore(fs, k);
    }
    if k > 0 {
      FirstAndMore(fs, k - 1);
      WholeFramesFit(fs[1..], n - HEADER - |fs[0].body|);
    }
  }

  /** What the server makes of a cut stream of commands: of a client that has sent any
      part of its frames, received in any pieces, it has handled exactly the whole
      frames among what was sent, up to the first that closes the connection. */
  lemma CommandsArrive<S(!new)>(h: P.Handler<S>, s: S, fs: seq<Frame>, sent: seq<byte>, chunks: seq<seq<byte>>)
    requires P.Sound(h) && (forall f :: f in fs ==> |f.body| <= MAX_PAYLOAD)
    requires sent <= EncodeAll(fs) && Concat(chunks) == sent && chunks != []
    ensures var k := WholeFrames(fs, |sent|);
            && P.Feed(h, s, [], chunks).0 == P.HandleAll(h, s, fs[..k])
            && |EncodeAll(fs[..k])| <= |sent| && (k < |fs| ==> |sent| < |EncodeAll(fs[..k + 1])|)
  {
    P.ChunkingIsInvisible(h, s, [], chunks);
    assert [] + Concat(chunks) == sent;
    PrefixHandled(h, s, fs, sent);
    WholeFramesFit(fs, |sent|);
  }

  lemma HandleFirst<S>(h: P.Handler<S>, s: S, fs: seq<Frame>, k: nat)
    requires k < |fs| && !h.closing(s)
    ensures P.HandleAll(h, s, fs[..k + 1]) == P.HandleAll(h, h.handle(s, fs[0]), fs[1..][..k])
  {
    assert fs[..k + 1][1..] == fs[1..][..k];
  }

  lemma NoWholeFrame<S>(h: P.Handler<S>, s: S, fs: seq<Frame>, sent: seq<byte>)
    requires (forall f :: f in fs ==> |f.body| <= MAX_PAYLOAD) && sent <= EncodeAll(fs) && WholeFrames(fs, |sent|) == 0
    ensures P.Parse(h, s, sent).0 == s
  {
    if fs != [] && |sent| >= HEADER {
      assert fs == [fs[0]] + fs[1..] && fs[0] in fs;
      EncodedPrefix(fs[0], fs[1..], sent);
    }
  }

  lemma OneWholeFrame<S>(h: P.Handler<S>, s: S, fs: seq<Frame>, sent: seq<byte>) returns (rest: seq<byte>)
    requires fs != [] && |fs[0].body| <= MAX_PAYLOAD && sent <= EncodeAll(fs) && |sent| >= HEADER + |fs[0].body|
             && !h.closing(s)
    ensures rest <= EncodeAll(fs[1..]) && |rest| == |sent| - HEADER - |fs[0].body|
    ensures P.Parse(h, s, sent) == P.Parse(h, h.handle(s, fs[0]), rest)
  {
    assert fs == [fs[0]] + fs[1..];
    EncodedPrefix(fs[0], fs[1..], sent);
    rest := sent[HEADER + |fs[0].body|..];
    assert P.FirstFrame(sent) == fs[0];
  }

  lemma {:induction false} PrefixHandled<S>(h: P.Handler<S>, s: S, fs: seq<Frame>, sent: seq<byte>)
    requires (forall f :: f in fs ==> |f.body| <= MAX_PAYLOAD) && sent <= EncodeAll(fs)
    ensures P.Parse(h, s, sent).0 == P.HandleAll(h, s, fs[..WholeFrames(fs, |sent|)])
    decreases |fs|
  {
    var k := WholeFrames(fs, |sent|);
    if k == 0 {
      NoWholeFrame(h, s, fs, sent);
    } else if !h.closing(s) {
      assert fs[0] in fs;
      var rest := OneWholeFrame(h, s, fs, sent);
      PrefixHandled(h, h.handle(s, fs[0]), fs[1..], rest);
      HandleFirst(h, s, fs, k - 1);
    }
  }

  // ---- receiving

  /** The first outcome that is not EINTR; past the end of the script it is EAGAIN. */
  function FirstOutcome(script: seq<P.Recv>): P.Recv {
    if script == [] then P.Again
    else if script[0] == P.Intr then FirstOutcome(script[1..])
    else script[0]
  }

  /** The caller keeps the connection: the slot had room, and the socket held nothing
      or less than that room. */
  predicate Survives(buffered: nat, script: seq<P.Recv>) {
    && buffered < RX_CAP
    && var r := FirstOutcome(script);
    r.Again? || (r.Data? && |r.bytes| < RX_CAP - buffered)
  }

  /** read_available: one receive of at most the free part of the slot. No byte is lost or
      reordered, and the connection is given up exactly when the peer is gone or the
      slot has been filled. */
  method ReadAvailable(rx: array<byte>, rxLen0: nat, script0: seq<P.Recv>)
    returns (ok: bool, rxLen: nat, script: seq<P.Recv>)
    requires rx.Length == RX_CAP && rxLen0 <= RX_CAP && P.Plausible(script0)
    modifies rx
    ensures rxLen0 <= rxLen <= RX_CAP
    ensures rx[..rxLen] + P.Bytes(script) == old(rx[..rxLen0]) + P.Bytes(script0) && P.Plausible(script)
    ensures ok == Survives(rxLen0, script0)
    ensures var r := FirstOutcome(script0);
            && (ok <==> rxLen < RX_CAP && !r.Eof? && !r.Fail?)
            && rxLen == rxLen0 + if r.Data? then Min(RX_CAP - rxLen0, |r.bytes|) else 0
  {
    rxLen, script := rxLen0, script0;
    while true
      invariant rxLen == rxLen0 && rx[..] == old(rx[..]) && P.Plausible(script)
      invariant P.Bytes(script) == P.Bytes(script0) && FirstOutcome(script) == FirstOutcome(script0)
      decreases |script|
    {
      var room := RX_CAP - rxLen;
      if room == 0 {
        return false, rxLen, script;
      }
      if script == [] {
        return true, rxLen, script;
      }
      var r := script[0];
      assert r in script;
      match r {
        case Data(bytes) =>
          var k := Min(room, |bytes|);
          ghost var before := rx[..rxLen];
          forall i | 0 <= i < k {
            rx[rxLen + i] := bytes[i];
          }
          assert rx[..rxLen + k] == before + bytes[..k];
          P.TakeFront(bytes, k, script[1..]);
          script := if k < |bytes| then [P.Data(bytes[k..])] + script[1..] else script[1..];
          Assoc(before, bytes[..k], P.Bytes(script));
          rxLen := rxLen + k;
          return k < room, rxLen, script;
        case Intr =>
          script := script[1..];
        case Again =>
          return true, rxLen, script[1..];
        case Eof =>
          return false, rxLen, script[1..];
        case Fail =>
          return false, rxLen, script[1..];
      }
    }
  }

  // ---- the receive path

  /** One readable wake: read behind what is buffered, then parse in place. */
  method OneWake(inclusive: bool, node: nat, rx: array<byte>, left0: nat, script0: seq<P.Recv>)
    returns (alive: bool, left: nat, log: seq<Entry>, script: seq<P.Recv>, ghost chunk: seq<byte>)
    requires rx.Length == RX_CAP && left0 <= RX_CAP && P.Plausible(script0)
    modifies rx
    ensures left <= RX_CAP && P.Plausible(script) && alive == Survives(left0, script0)
    ensures chunk + P.Bytes(script) == P.Bytes(script0)
    ensures var r := Consume(inclusive, node, old(rx[..left0]) + chunk); log == r.log && rx[..left] == r.rest
  {
    var len;
    alive, len, script := ReadAvailable(rx, left0, script0);
    chunk := rx[left0..len];
    SameSplit(rx[..len], P.Bytes(script), old(rx[..left0]), P.Bytes(script0));
    assert rx[..len] == rx[..len][..left0] + rx[..len][left0..];
    assert rx[..len][left0..] == chunk;
    left, log := ConsumeFrames(inclusive, node, rx, len);
  }

  lemma SameSplit(a: seq<byte>, b: seq<byte>, c: seq<byte>, d: seq<byte>)
    requires a + b == c + d && |c| <= |a|
    ensures a[..|c|] == c && a[|c|..] + b == d
  {
    assert (a + b)[..|c|] == a[..|c|] && (c + d)[..|c|] == c;
    assert (a + b)[|c|..] == a[|c|..] + b && (c + d)[|c|..] == d;
  }

  /** Any number of wakes over one slot: while the connection survives, the logs in
      order are those of the pieces read, which are the bytes the socket gave; and
      unless a length is bad they are one parse of all of them. */
  method ReceiveLoop(inclusive: bool, node: nat, rx: array<byte>, wakes: nat, script0: seq<P.Recv>)
    returns (alive: bool, left: nat, log: seq<Entry>, script: seq<P.Recv>, ghost chunks: seq<seq<byte>>)
    requires rx.Length == RX_CAP && P.Plausible(script0)
    modifies rx
    ensures left <= RX_CAP && Concat(chunks) + P.Bytes(script) == P.Bytes(script0) && (alive ==> |chunks| == wakes)
    ensures var r := ReceiveAll(inclusive, node, chunks); log == r.log && rx[..left] == r.rest
    ensures !HasBadLength(inclusive, Concat(chunks)) ==>
              var r := Consume(inclusive, node, Concat(chunks)); log == r.log && rx[..left] == r.rest
  {
    alive, left, log, script, chunks := true, 0, [], script0, [];
    var n := 0;
    while alive && n < wakes
      invariant left <= RX_CAP && P.Plausible(script) && |chunks| == n <= wakes
      invariant Concat(chunks) + P.Bytes(script) == P.Bytes(script0)
      invariant var r := ReceiveAll(inclusive, node, chunks); log == r.log && rx[..left] == r.rest
      decreases wakes - n
    {
      var entries;
      ghost var chunk;
      alive, left, entries, script, chunk := OneWake(inclusive, node, rx, left, script);
      log := log + entries;
      ghost var longer := chunks + [chunk];
      assert longer[..|chunks|] == chunks;
      ConcatLast(longer);
      Assoc(Concat(chunks), chunk, P.Bytes(script));
      chunks, n := longer, n + 1;
    }
    if !HasBadLength(inclusive, Concat(chunks)) {
      ReceivesAreOneParse(inclusive, node, chunks);
    }
  }

  // ---- a full slot

  /** Chat frames of 1020 bytes, as a room of large messages produces them. */
  function ChatFrames(n: nat, line: seq<byte>): seq<Frame>
    requires |line| == 1020
  {
    seq(n, _ => Frame(ID_CHAT_OUT, line))
  }

  lemma {:induction false} ChatBytes(n: nat, line: seq<byte>)
    requires |line| == 1020
    ensures |EncodeAll(ChatFrames(n, line))| == 1024 * n
  {
    if n > 0 {
      ChatBytes(n - 1, line);
      assert ChatFrames(n, line) == ChatFrames(n - 1, line) + [Frame(ID_CHAT_OUT, line)];
      EncodeAllAppend(ChatFrames(n - 1, line), Frame(ID_CHAT_OUT, line));
    }
  }

  /** Sixty-four whole chat frames fill the slot. consume_frames would parse them to
      the end; read_available takes them for a frame that never completes. */
  lemma FullSlotIsGivenUp(node: nat, line: seq<byte>)
    requires |line| == 1020
    ensures var bytes := EncodeAll(ChatFrames(64, line));
            && Consume(false, node, bytes).rest == [] && |bytes| == RX_CAP
            && !Survives(0, [P.Data(bytes)])
  {
    var fs := ChatFrames(64, line);
    ChatBytes(64, line);
    ConsumeEncoded(node, fs);
    assert FirstOutcome([P.Data(EncodeAll(fs))]) == P.Data(EncodeAll(fs));
  }
}
