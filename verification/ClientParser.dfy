/** The load generator's receive path: frames parsed in place from a fixed slot,
    one log entry per delivery and per sample, the partial remainder moved to the
    front. Both length conventions of the wire are covered. */
module ClientParser {
  import opened Wire
  import TickContainer
  import ChatConn
  import M = ChatMeaning

  const RX_CAP: nat := 65536
  const BLOB_HEADER: nat := 20
  const ID_CHAT_OUT: u16 := 101
  const ID_TICK_OUT: u16 := 102

  // ---- the length convention

  /** The length field put_header writes: the payload, or payload and header. */
  function RawLen(inclusive: bool, len: nat): u16 {
    Cast16(if inclusive then len + HEADER else len)
  }

  datatype Length = Payload(len: nat) | Malformed

  function PayloadLen(inclusive: bool, raw: u16): Length {
    if !inclusive then Payload(raw) else if raw < HEADER then Malformed else Payload(raw - HEADER)
  }

  /** Writer and reader agree exactly while the field does not overflow 16 bits. */
  lemma LengthRoundTrip(inclusive: bool, len: nat)
    ensures PayloadLen(inclusive, RawLen(inclusive, len)) == Payload(len)
       <==> len + (if inclusive then HEADER else 0) < 65536
  {
  }

  // ---- what one frame adds to the log

  /** The counters are tallies of this log: frames_in, samples_bad, foreign, and
      one latency sample per intended send time. */
  datatype Entry = Delivered | Bad | Foreign | Sample(intended: int)

  /** Little-endian unsigned value of a byte string. */
  function Unsigned(s: seq<byte>): nat {
    if s == [] then 0 else s[0] + 256 * Unsigned(s[1..])
  }

  function Signed64(s: seq<byte>): int
    requires |s| == 8
  {
    var u := Unsigned(s);
    if u < 0x8000_0000_0000_0000 then u else u - 0x1_0000_0000_0000_0000
  }

  function Find(s: seq<byte>, c: byte): (i: nat)
    ensures i <= |s| && c !in s[..i] && (i < |s| ==> s[i] == c)
  {
    if s == [] || s[0] == c then 0 else 1 + Find(s[1..], c)
  }

  /** One chat payload: skip past the first ": ", read stamp and origin. */
  function SampleOf(node: nat, p: seq<byte>): Entry {
    var sep := Find(p, 58);
    if |p| < BLOB_HEADER || sep == |p| || sep + 2 > |p| || |p| - (sep + 2) < BLOB_HEADER then Bad
    else
      var blob := p[sep + 2..];
      if Unsigned(blob[12..16]) != node then Foreign else Sample(Signed64(blob[..8]))
  }

  // ---- what the sender wrote

  /** Little-endian bytes of a number. */
  function Little(v: nat, n: nat): (s: seq<byte>)
    ensures |s| == n
  {
    if n == 0 then [] else [v % 256] + Little(v / 256, n - 1)
  }

  function Range(n: nat): nat {
    if n == 0 then 1 else 256 * Range(n - 1)
  }

  lemma {:induction false} LittleRoundTrip(v: nat, n: nat)
    requires v < Range(n)
    ensures Unsigned(Little(v, n)) == v
    decreases n
  {
    if n > 0 {
      LittleRoundTrip(v / 256, n - 1);
      assert Little(v, n)[1..] == Little(v / 256, n - 1);
    }
  }

  lemma Ranges()
    ensures Range(4) == 0x1_0000_0000 && Range(8) == 0x1_0000_0000_0000_0000
  {
  }

  /** The payload of a sent chat frame: intended time, sequence, node, index, text. */
  function Blob(due: int, number: nat, node: nat, index: nat, text: seq<byte>): seq<byte>
    requires -0x8000_0000_0000_0000 <= due
  {
    Little(if due < 0 then due + 0x1_0000_0000_0000_0000 else due, 8)
      + Little(number, 4) + Little(node, 4) + Little(index, 4) + text
  }

  lemma {:induction false} FindFirst(front: seq<byte>, c: byte, rest: seq<byte>)
    requires c !in front
    ensures Find(front + [c] + rest, c) == |front|
    decreases |front|
  {
    if front != [] {
      FindFirst(front[1..], c, rest);
      assert (front + [c] + rest)[1..] == front[1..] + [c] + rest;
    }
  }

  predicate Time(due: int) {
    -0x8000_0000_0000_0000 <= due < 0x8000_0000_0000_0000
  }

  /** The line the server makes of a sent blob yields the intended time it was stamped
      with, or counts as foreign. */
  predicate Arrives(node: nat, c: ChatConn.Conn, due: int, number: nat, origin: nat, index: nat, text: seq<byte>)
    requires Time(due)
  {
    SampleOf(node, M.Line(c, Blob(due, number, origin, index, text))) == if origin != node then Foreign else Sample(due)
  }

  lemma StampSurvives(node: nat, c: ChatConn.Conn, due: int, number: nat, origin: nat, index: nat, text: seq<byte>)
    requires 58 !in c.nick && Time(due) && origin < 0x1_0000_0000
    ensures Arrives(node, c, due, number, origin, index, text)
  {
    var blob := Blob(due, number, origin, index, text);
    var p := M.Line(c, blob);
    assert p == c.nick + [58] + ([32] + blob);
    FindFirst(c.nick, 58, [32] + blob);
    assert p[|c.nick| + 2..] == blob;
    var stamp := if due < 0 then due + 0x1_0000_0000_0000_0000 else due;
    assert blob[..8] == Little(stamp, 8) && blob[12..16] == Little(origin, 4);
    Ranges();
    LittleRoundTrip(stamp, 8);
    LittleRoundTrip(origin, 4);
  }

  /** A colon in the nick is taken for the separator, and the first byte read as the
      stamp is one the sender did not choose. */
  lemma ColonHidesStamp(node: nat, c: ChatConn.Conn, due: int, first: byte)
    requires 58 in c.nick && Time(due) && due % 256 != first
    requires first == (c.nick + [58, 32])[Find(c.nick, 58) + 2..][0]
    ensures !Arrives(node, c, due, 0, node, 0, [])
  {
    var blob := Blob(due, 0, node, 0, []);
    ReadInNick(c, blob);
    var read := M.Line(c, blob)[Find(c.nick, 58) + 2..];
    if |read| >= BLOB_HEADER {
      assert read[..8][0] == first;
      LowByte(read[..8]);
    }
  }

  /** With a colon in the nick the client reads on from inside the nick. */
  lemma ReadInNick(c: ChatConn.Conn, blob: seq<byte>)
    requires 58 in c.nick
    ensures var p, i := M.Line(c, blob), Find(c.nick, 58);
            && i < |c.nick| && |p| == |c.nick| + 2 + |blob| && Find(p, 58) == i
            && (blob != [] ==> p[i + 2..][0] == (c.nick + [58, 32])[i + 2..][0])
  {
    var p, i := M.Line(c, blob), Find(c.nick, 58);
    assert p == c.nick[..i] + [58] + p[i + 1..];
    FindFirst(c.nick[..i], 58, p[i + 1..]);
  }

  lemma LowByte(s: seq<byte>)
    requires |s| == 8
    ensures Signed64(s) % 256 == s[0]
  {
  }

  /** So every stamp arrives exactly when the nick holds no colon. */
  lemma StampArrives(node: nat, c: ChatConn.Conn)
    requires node < 0x1_0000_0000
    ensures (forall due: int, number: nat, origin: nat, index: nat, text: seq<byte> ::
               Time(due) && origin < 0x1_0000_0000 ==> Arrives(node, c, due, number, origin, index, text))
       <==> 58 !in c.nick
  {
    if 58 in c.nick {
      var i := Find(c.nick, 58);
      assert i < |c.nick|;
      var first := (c.nick + [58, 32])[i + 2..][0];
      ColonHidesStamp(node, c, if first == 0 then 1 else 0, first);
    } else {
      forall due: int, number: nat, origin: nat, index: nat, text: seq<byte> | Time(due) && origin < 0x1_0000_0000
        ensures Arrives(node, c, due, number, origin, index, text)
      {
        StampSurvives(node, c, due, number, origin, index, text);
      }
    }
  }

  /** One delivery and one sample per line. */
  function LineEntries(node: nat, lines: seq<seq<byte>>): seq<Entry> {
    if lines == [] then [] else [Delivered, SampleOf(node, lines[0])] + LineEntries(node, lines[1..])
  }

  /** The entries of a tick container. */
  function TickEntries(node: nat, payload: seq<byte>): seq<Entry> {
    var (lines, bad) := TickContainer.DecodeLines(payload);
    LineEntries(node, lines) + if bad then [Bad] else []
  }

  /** The inner loop over the entries of a container. */
  method WalkTick(node: nat, payload: seq<byte>) returns (log: seq<Entry>)
    ensures log == TickEntries(node, payload)
  {
    log := [];
    var pos := 0;
    assert payload[0..] == payload;
    while |payload| - pos >= 2
      invariant pos <= |payload| && log + TickEntries(node, payload[pos..]) == TickEntries(node, payload)
      decreases |payload| - pos
    {
      ghost var here := payload[pos..];
      var n := GetU16(payload[pos..]);
      if |payload| - (pos + 2) < n {
        log := log + [Bad];
        return;
      }
      assert here[2..2 + n] == payload[pos + 2..pos + 2 + n] && here[2 + n..] == payload[pos + 2 + n..];
      var entries := [Delivered, SampleOf(node, payload[pos + 2..pos + 2 + n])];
      TickStep(node, here);
      Assoc(log, entries, TickEntries(node, payload[pos + 2 + n..]));
      log, pos := log + entries, pos + 2 + n;
    }
  }

  lemma TickStep(node: nat, payload: seq<byte>)
    requires |payload| >= 2 && |payload| - 2 >= GetU16(payload)
    ensures var n := GetU16(payload);
            TickEntries(node, payload)
              == [Delivered, SampleOf(node, payload[2..2 + n])] + TickEntries(node, payload[2 + n..])
  {
    var n := GetU16(payload);
    var (lines, bad) := TickContainer.DecodeLines(payload[2 + n..]);
    var all := [payload[2..2 + n]] + lines;
    assert TickContainer.DecodeLines(payload) == (all, bad);
    assert all[1..] == lines;
  }

  function FrameEntries(node: nat, typ: u16, payload: seq<byte>): seq<Entry> {
    if typ == ID_TICK_OUT then TickEntries(node, payload)
    else if typ != ID_CHAT_OUT || |payload| < BLOB_HEADER then [Delivered]
    else [Delivered, SampleOf(node, payload)]
  }

  // ---- the parse

  datatype Parsed = Parsed(log: seq<Entry>, rest: seq<byte>, broken: bool)

  function Consume(inclusive: bool, node: nat, bytes: seq<byte>): (r: Parsed)
    decreases |bytes|
  {
    if |bytes| < HEADER then Parsed([], bytes, false)
    else
      match PayloadLen(inclusive, GetU16(bytes))
      case Malformed => Parsed([Bad], [], true)
      case Payload(len) =>
        if |bytes| < HEADER + len then Parsed([], bytes, false)
        else
          var more := Consume(inclusive, node, bytes[HEADER + len..]);
          more.(log := FrameEntries(node, GetU16(bytes[2..]), bytes[HEADER..HEADER + len]) + more.log)
  }

  /** Peels off the first frame of a buffer. */
  lemma ConsumeFirst(inclusive: bool, node: nat, bytes: seq<byte>, len: nat)
    requires |bytes| >= HEADER && PayloadLen(inclusive, GetU16(bytes)) == Payload(len) && |bytes| >= HEADER + len
    ensures var entries := FrameEntries(node, GetU16(bytes[2..]), bytes[HEADER..HEADER + len]);
            var more := Consume(inclusive, node, bytes[HEADER + len..]);
            Consume(inclusive, node, bytes) == Parsed(entries + more.log, more.rest, more.broken)
  {
  }

  /** One turn of the loop: the entries of the frame at `off` and the new offset,
      or nothing when it is malformed or incomplete. */
  datatype Turn = Advance(entries: seq<Entry>, next: nat) | Incomplete | Garbage

  function TurnAt(inclusive: bool, node: nat, bytes: seq<byte>, off: nat): Turn
    requires off <= |bytes|
  {
    var here := bytes[off..];
    if |here| < HEADER then Incomplete
    else
      match PayloadLen(inclusive, GetU16(here))
      case Malformed => Garbage
      case Payload(len) =>
        if |here| < HEADER + len then Incomplete
        else Advance(FrameEntries(node, GetU16(here[2..]), here[HEADER..HEADER + len]), off + HEADER + len)
  }

  ghost predicate Follows(entries: seq<Entry>, more: Parsed, here: Parsed) {
    here == more.(log := entries + more.log)
  }

  lemma ConsumeWaits(inclusive: bool, node: nat, bytes: seq<byte>)
    requires |bytes| < HEADER || (var length := PayloadLen(inclusive, GetU16(bytes));
                                  length.Payload? && |bytes| < HEADER + length.len)
    ensures Consume(inclusive, node, bytes) == Parsed([], bytes, false)
  {
  }

  /** A malformed length is one bad sample, and costs what is buffered. */
  lemma ConsumeBreaks(inclusive: bool, node: nat, bytes: seq<byte>)
    requires |bytes| >= HEADER && PayloadLen(inclusive, GetU16(bytes)).Malformed?
    ensures Consume(inclusive, node, bytes) == Parsed([Bad], [], true)
  {
  }

  lemma TurnStops(inclusive: bool, node: nat, bytes: seq<byte>, off: nat)
    requires off <= |bytes| && !TurnAt(inclusive, node, bytes, off).Advance?
    ensures var t, here := TurnAt(inclusive, node, bytes, off), Consume(inclusive, node, bytes[off..]);
            here == if t.Incomplete? then Parsed([], bytes[off..], false) else Parsed([Bad], [], true)
  {
    var here := bytes[off..];
    if TurnAt(inclusive, node, bytes, off).Incomplete? {
      ConsumeWaits(inclusive, node, here);
    } else {
      ConsumeBreaks(inclusive, node, here);
    }
  }

  lemma FollowsFirst(inclusive: bool, node: nat, bytes: seq<byte>, len: nat, rest: seq<byte>)
    requires |bytes| >= HEADER && PayloadLen(inclusive, GetU16(bytes)) == Payload(len) && |bytes| >= HEADER + len
    requires rest == bytes[HEADER + len..]
    ensures Follows(FrameEntries(node, GetU16(bytes[2..]), bytes[HEADER..HEADER + len]),
                    Consume(inclusive, node, rest), Consume(inclusive, node, bytes))
  {
    ConsumeFirst(inclusive, node, bytes, len);
  }

  lemma TurnAdvances(inclusive: bool, node: nat, bytes: seq<byte>, off: nat) returns (t: Turn)
    requires off <= |bytes| && TurnAt(inclusive, node, bytes, off).Advance?
    ensures t == TurnAt(inclusive, node, bytes, off) && t.Advance? && off < t.next <= |bytes|
    ensures Follows(t.entries, Consume(inclusive, node, bytes[t.next..]), Consume(inclusive, node, bytes[off..]))
  {
    var here := bytes[off..];
    var len := PayloadLen(inclusive, GetU16(here)).len;
    t := Advance(FrameEntries(node, GetU16(here[2..]), here[HEADER..HEADER + len]), off + HEADER + len);
    assert here[HEADER + len..] == bytes[t.next..];
    FollowsFirst(inclusive, node, here, len, bytes[t.next..]);
  }

  /** The walk over the received bytes: where it stopped, and what it logged. */
  method WalkFrames(inclusive: bool, node: nat, bytes: seq<byte>) returns (off: nat, log: seq<Entry>)
    ensures off <= |bytes|
    ensures var r := Consume(inclusive, node, bytes); log == r.log && bytes[off..] == r.rest
  {
    log, off := [], 0;
    ghost var whole := Consume(inclusive, node, bytes);
    ghost var rest := whole;
    assert bytes[0..] == bytes;
    while true
      invariant off <= |bytes| && rest == Consume(inclusive, node, bytes[off..])
      invariant whole.log == log + rest.log && whole.rest == rest.rest
      decreases |bytes| - off
    {
      match TurnAt(inclusive, node, bytes, off) {
        case Incomplete =>
          TurnStops(inclusive, node, bytes, off);
          return;
        case Garbage =>
          TurnStops(inclusive, node, bytes, off);
          return |bytes|, log + [Bad];
        case Advance(entries, next) =>
          ghost var turn := TurnAdvances(inclusive, node, bytes, off);
          rest := Consume(inclusive, node, bytes[next..]);
          Assoc(log, entries, rest.log);
          log, off := log + entries, next;
      }
    }
  }

  /** consume_frames on the receive slot: the remainder moves to the front. */
  method ConsumeFrames(inclusive: bool, node: nat, rx: array<byte>, rxLen: nat)
    returns (left: nat, log: seq<Entry>)
    requires rxLen <= rx.Length
    modifies rx
    ensures left <= rxLen
    ensures var r := Consume(inclusive, node, old(rx[..rxLen])); log == r.log && rx[..left] == r.rest
  {
    ghost var bytes := rx[..rxLen];
    var off;
    off, log := WalkFrames(inclusive, node, rx[..rxLen]);
    left := rxLen - off;
    forall i | 0 <= i < left {
      rx[i] := rx[off + i];
    }
    assert rx[..left] == bytes[off..];
  }

  // ---- independence of the receive splits

  lemma FrontOfConcat(x: seq<byte>, y: seq<byte>, len: nat)
    requires |x| >= HEADER
    ensures GetU16(x + y) == GetU16(x) && GetU16((x + y)[2..]) == GetU16(x[2..])
    ensures |x| >= HEADER + len ==>
              && (x + y)[HEADER..HEADER + len] == x[HEADER..HEADER + len]
              && (x + y)[HEADER + len..] == x[HEADER + len..] + y
  {
  }

  /** Parsing a longer buffer, in terms of parsing its front. */
  lemma {:induction false} ConsumeSplit(inclusive: bool, node: nat, x: seq<byte>, y: seq<byte>)
    ensures var a, whole := Consume(inclusive, node, x), Consume(inclusive, node, x + y);
            if a.broken then whole == a
            else
              var b := Consume(inclusive, node, a.rest + y);
              whole == b.(log := a.log + b.log)
    decreases |x|
  {
    if |x| >= HEADER {
      var length := PayloadLen(inclusive, GetU16(x));
      FrontOfConcat(x, y, if length.Payload? then length.len else 0);
      if length.Payload? && |x| >= HEADER + length.len {
        var x' := x[HEADER + length.len..];
        ConsumeSplit(inclusive, node, x', y);
        ConsumeFirst(inclusive, node, x, length.len);
        ConsumeFirst(inclusive, node, x + y, length.len);
        var entries := FrameEntries(node, GetU16(x[2..]), x[HEADER..HEADER + length.len]);
        var a := Consume(inclusive, node, x');
        if !a.broken {
          Assoc(entries, a.log, Consume(inclusive, node, a.rest + y).log);
        }
      }
    }
  }

  /** Walking the headers of whole frames, some length field is below the header. */
  predicate HasBadLength(inclusive: bool, bytes: seq<byte>)
    decreases |bytes|
  {
    && inclusive && |bytes| >= HEADER
    && (|| GetU16(bytes) < HEADER
        || (|bytes| >= GetU16(bytes) && HasBadLength(inclusive, bytes[GetU16(bytes)..])))
  }

  /** Walking the headers, every whole frame is a tick without an entry. */
  predicate SaysNothing(inclusive: bool, bytes: seq<byte>)
    decreases |bytes|
  {
    || |bytes| < HEADER
    || (match PayloadLen(inclusive, GetU16(bytes))
        case Malformed => false
        case Payload(len) =>
          || |bytes| < HEADER + len
          || (GetU16(bytes[2..]) == ID_TICK_OUT && len < 2 && SaysNothing(inclusive, bytes[HEADER + len..])))
  }

  lemma {:induction false} BrokenIff(inclusive: bool, node: nat, x: seq<byte>)
    ensures Consume(inclusive, node, x).broken <==> HasBadLength(inclusive, x)
    decreases |x|
  {
    if |x| >= HEADER {
      match PayloadLen(inclusive, GetU16(x)) {
        case Malformed =>
        case Payload(len) =>
          if |x| >= HEADER + len {
            ConsumeFirst(inclusive, node, x, len);
            BrokenIff(inclusive, node, x[HEADER + len..]);
          }
      }
    }
  }

  lemma {:induction false} SilentIff(inclusive: bool, node: nat, y: seq<byte>)
    ensures Consume(inclusive, node, y).log == [] <==> SaysNothing(inclusive, y)
    decreases |y|
  {
    if |y| >= HEADER {
      match PayloadLen(inclusive, GetU16(y)) {
        case Malformed =>
        case Payload(len) =>
          if |y| >= HEADER + len {
            ConsumeFirst(inclusive, node, y, len);
            NoEntriesIff(node, GetU16(y[2..]), y[HEADER..HEADER + len]);
            SilentIff(inclusive, node, y[HEADER + len..]);
          }
      }
    }
  }

  lemma NoEntriesIff(node: nat, typ: u16, payload: seq<byte>)
    ensures FrameEntries(node, typ, payload) == [] <==> typ == ID_TICK_OUT && |payload| < 2
  {
  }

  /** Reading in two pieces gives the log of reading at once exactly when no whole
      frame of the first carries a bad length, or the second says nothing: a bad
      length discards what is buffered, not what arrives later. */
  lemma SplitAgreesIff(inclusive: bool, node: nat, x: seq<byte>, y: seq<byte>)
    ensures var a, whole := Consume(inclusive, node, x), Consume(inclusive, node, x + y);
            var b := Consume(inclusive, node, a.rest + y);
            a.log + b.log == whole.log <==> !HasBadLength(inclusive, x) || SaysNothing(inclusive, y)
  {
    ConsumeSplit(inclusive, node, x, y);
    BrokenIsEmpty(inclusive, node, x);
    BrokenIff(inclusive, node, x);
    SilentIff(inclusive, node, y);
    var a := Consume(inclusive, node, x);
    if a.broken {
      assert a.rest + y == y;
    }
  }

  /** A stream counted differently in two pieces: four zero bytes, then an empty frame. */
  lemma CutIsCounted(node: nat)
    ensures var x: seq<byte>, y: seq<byte> := [0, 0, 0, 0], [4, 0, 0, 0];
            var a := Consume(true, node, x);
            a.log + Consume(true, node, a.rest + y).log != Consume(true, node, x + y).log
  {
    var x: seq<byte>, y: seq<byte> := [0, 0, 0, 0], [4, 0, 0, 0];
    assert GetU16(x) == 0 && GetU16(y) == 4 && GetU16(y[2..]) == 0;
    SplitAgreesIff(true, node, x, y);
  }

  /** When the length field counts the payload only, no length is bad and every cut
      is invisible. */
  lemma PayloadLengthsNeverBreak(node: nat, x: seq<byte>, y: seq<byte>)
    ensures var a := Consume(false, node, x);
            a.log + Consume(false, node, a.rest + y).log == Consume(false, node, x + y).log
  {
    SplitAgreesIff(false, node, x, y);
  }

  lemma {:induction false} BrokenIsEmpty(inclusive: bool, node: nat, x: seq<byte>)
    ensures Consume(inclusive, node, x).broken ==> Consume(inclusive, node, x).rest == []
    decreases |x|
  {
    if |x| >= HEADER {
      match PayloadLen(inclusive, GetU16(x)) {
        case Malformed =>
        case Payload(len) =>
          if |x| >= HEADER + len {
            ConsumeFirst(inclusive, node, x, len);
            BrokenIsEmpty(inclusive, node, x[HEADER + len..]);
          }
      }
    }
  }

  /** The log and remainder after a series of receives. */
  function ReceiveAll(inclusive: bool, node: nat, chunks: seq<seq<byte>>): Parsed {
    if chunks == [] then Parsed([], [], false)
    else
      var a := ReceiveAll(inclusive, node, chunks[..|chunks| - 1]);
      var b := Consume(inclusive, node, a.rest + chunks[|chunks| - 1]);
      Parsed(a.log + b.log, b.rest, a.broken || b.broken)
  }

  /** While nothing is malformed, any series of receives is one whole parse. */
  lemma {:induction false} ReceivesAreOneParse(inclusive: bool, node: nat, chunks: seq<seq<byte>>)
    requires !HasBadLength(inclusive, Concat(chunks))
    ensures ReceiveAll(inclusive, node, chunks) == Consume(inclusive, node, Concat(chunks))
    decreases |chunks|
  {
    if chunks != [] {
      var init, last := chunks[..|chunks| - 1], chunks[|chunks| - 1];
      ConcatLast(chunks);
      ConsumeSplit(inclusive, node, Concat(init), last);
      BrokenIff(inclusive, node, Concat(chunks));
      BrokenIff(inclusive, node, Concat(init));
      ReceivesAreOneParse(inclusive, node, init);
    }
  }

  // ---- the server's stream

  function AllEntries(node: nat, fs: seq<Frame>): seq<Entry> {
    if fs == [] then [] else FrameEntries(node, fs[0].typ, fs[0].body) + AllEntries(node, fs[1..])
  }

  /** Parsing the encoding of frames yields their entries, in order. */
  lemma {:induction false} ConsumeEncoded(node: nat, fs: seq<Frame>)
    ensures Consume(false, node, EncodeAll(fs)) == Parsed(AllEntries(node, fs), [], false)
    decreases |fs|
  {
    if fs != [] {
      var f, gs := fs[0], fs[1..];
      assert fs == [f] + gs;
      EncodedFront(f, gs);
      ConsumeEncoded(node, gs);
    }
  }

  // ---- what one frame is logged as

  /** A frame under either length convention. */
  function EncodeAs(inclusive: bool, f: Frame): (s: seq<byte>)
    ensures !inclusive ==> s == Encode(f)
  {
    Header(RawLen(inclusive, |f.body|), f.typ) + f.body
  }

  /** The length field has room for it. */
  predicate Lengthy(inclusive: bool, f: Frame) {
    |f.body| + (if inclusive then HEADER else 0) < 65536
  }

  lemma OneFrame(inclusive: bool, node: nat, f: Frame)
    requires Lengthy(inclusive, f)
    ensures Consume(inclusive, node, EncodeAs(inclusive, f)) == Parsed(FrameEntries(node, f.typ, f.body), [], false)
  {
    LengthRoundTrip(inclusive, |f.body|);
    var h := Header(RawLen(inclusive, |f.body|), f.typ);
    var e := h + f.body;
    assert e[..HEADER] == h;
    SameHeader(e, h);
    assert e[HEADER..HEADER + |f.body|] == f.body && e[HEADER + |f.body|..] == [];
    ConsumeFirst(inclusive, node, e, |f.body|);
    assert FrameEntries(node, f.typ, f.body) + [] == FrameEntries(node, f.typ, f.body);
  }

  /** A chat frame is one delivery, and one sample if its payload is long enough to hold
      a blob. Every other frame but a tick is one delivery and nothing else. */
  lemma FrameIsLogged(inclusive: bool, node: nat, f: Frame)
    requires Lengthy(inclusive, f) && f.typ != ID_TICK_OUT
    ensures var sampled := f.typ == ID_CHAT_OUT && |f.body| >= BLOB_HEADER;
            Consume(inclusive, node, EncodeAs(inclusive, f))
              == Parsed([Delivered] + if sampled then [SampleOf(node, f.body)] else [], [], false)
  {
    OneFrame(inclusive, node, f);
  }

  /** The whole way of one stamp: the frame the server makes of a blob and a nick without
      a colon is logged as one delivery and as the intended send time in the blob; a
      blob of another origin as foreign. */
  lemma ChatIsSampled(inclusive: bool, node: nat, c: ChatConn.Conn, f: Frame, due: int, number: nat, origin: nat,
                      index: nat, text: seq<byte>)
    requires 58 !in c.nick && Time(due) && origin < 0x1_0000_0000 && Lengthy(inclusive, f)
    requires f.typ == ID_CHAT_OUT && f.body == M.Line(c, Blob(due, number, origin, index, text))
    ensures Consume(inclusive, node, EncodeAs(inclusive, f))
         == Parsed([Delivered, if origin != node then Foreign else Sample(due)], [], false)
  {
    StampSurvives(node, c, due, number, origin, index, text);
    FrameIsLogged(inclusive, node, f);
    assert |f.body| >= |Blob(due, number, origin, index, text)| >= BLOB_HEADER;
  }

  lemma {:induction false} LineEntriesAt(node: nat, lines: seq<seq<byte>>, i: nat)
    requires i < |lines|
    ensures |LineEntries(node, lines)| == 2 * |lines|
    ensures LineEntries(node, lines)[2 * i] == Delivered
    ensures LineEntries(node, lines)[2 * i + 1] == SampleOf(node, lines[i])
  {
    if |lines| == 1 {
      assert LineEntries(node, lines[1..]) == [];
    } else {
      LineEntriesAt(node, lines[1..], if i == 0 then 0 else i - 1);
    }
  }

  /** A tick frame is one delivery and one sample for each of its whole lines, in order,
      and one bad sample if a length at its end promises more than there is. */
  lemma TickIsSampled(inclusive: bool, node: nat, f: Frame, lines: seq<seq<byte>>, tail: seq<byte>, i: nat)
    requires f.typ == ID_TICK_OUT && f.body == TickContainer.EncodeLines(lines) + tail && i < |lines|
    requires Lengthy(inclusive, f)
    requires (forall l :: l in lines ==> |l| < 65536) && (|tail| >= 2 ==> |tail| - 2 < GetU16(tail))
    ensures var r := Consume(inclusive, node, EncodeAs(inclusive, f));
            && r.rest == [] && !r.broken && |r.log| == 2 * |lines| + (if |tail| >= 2 then 1 else 0)
            && r.log[2 * i] == Delivered && r.log[2 * i + 1] == SampleOf(node, lines[i])
            && (|tail| >= 2 ==> r.log[2 * |lines|] == Bad)
  {
    OneFrame(inclusive, node, f);
    TickContainer.LinesAndTail(lines, tail);
    LineEntriesAt(node, lines, i);
  }

  /** A payload is no sample exactly when fewer than 22 bytes follow its first colon, or
      it has none. */
  lemma BadIff(node: nat, p: seq<byte>, i: nat)
    requires i <= |p| && 58 !in p[..i] && (i < |p| ==> p[i] == 58)
    ensures SampleOf(node, p) == Bad <==> |p| < i + 2 + BLOB_HEADER
  {
  }

  /** End to end: whatever the server has sent of its queued frames, cut into any
      receives, the client logs a prefix of those frames' entries, the whole of it
      once everything arrived, and is never thrown out of step. */
  lemma StreamArrives(node: nat, fs: seq<Frame>, sent: seq<byte>, chunks: seq<seq<byte>>)
    requires sent <= EncodeAll(fs) && Concat(chunks) == sent
    ensures var r := ReceiveAll(false, node, chunks);
            && !r.broken && r.log <= AllEntries(node, fs)
            && (sent == EncodeAll(fs) ==> r.log == AllEntries(node, fs) && r.rest == [])
  {
    ConsumeEncoded(node, fs);
    var unsent := EncodeAll(fs)[|sent|..];
    assert EncodeAll(fs) == sent + unsent;
    ConsumeSplit(false, node, sent, unsent);
    assert !HasBadLength(false, sent);
    ReceivesAreOneParse(false, node, chunks);
  }

  /** The same from the server's side: a connection that conserves its bytes, whatever
      the kernel has taken so far, is understood by the client frame for frame. */
  lemma ServerIsUnderstood(node: nat, c: ChatConn.Conn, fs: seq<Frame>, chunks: seq<seq<byte>>)
    requires ChatConn.Conserves(c) && fs == c.queued && Concat(chunks) == c.sent
    ensures var r := ReceiveAll(false, node, chunks);
            && !r.broken && r.log <= AllEntries(node, fs)
            && (c.out == [] ==> r.log == AllEntries(node, fs) && r.rest == [])
  {
    assert EncodeAll(fs) == c.sent + c.out;
    StreamArrives(node, fs, c.sent, chunks);
  }

  /** A tick frame of encoded lines counts each line once and finds none bad. */
  lemma TickLinesArrive(node: nat, lines: seq<seq<byte>>)
    requires forall l :: l in lines ==> |l| < 65536
    ensures TickEntries(node, TickContainer.EncodeLines(lines)) == LineEntries(node, lines)
  {
    TickContainer.LinesRoundTrip(lines);
  }

  /** What waits in the slot is less than one frame, so with a server whose frames
      fit the slot, read_available always starts with room. */
  lemma {:induction false} RemainderFits(node: nat, fs: seq<Frame>, sent: seq<byte>, cap: nat)
    requires sent <= EncodeAll(fs) && forall f :: f in fs ==> |f.body| <= cap
    ensures |Consume(false, node, sent).rest| < HEADER + cap
    ensures cap <= RX_CAP - HEADER ==> |Consume(false, node, sent).rest| < RX_CAP
    decreases |fs|
  {
    if |sent| >= HEADER && fs != [] {
      var f, gs := fs[0], fs[1..];
      assert fs == [f] + gs && f in fs;
      EncodedPrefix(f, gs, sent);
      if |sent| >= HEADER + |f.body| {
        ConsumeFirst(false, node, sent, |f.body|);
        RemainderFits(node, gs, sent[HEADER + |f.body|..], cap);
      }
    }
  }
}
