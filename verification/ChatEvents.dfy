/** What one event of the loop means: which bytes of a socket are read, what becomes of
    the frames among them, and what is sent. */
module ChatEvents {
  import opened Wire
  import opened ChatConn
  import opened ChatCore
  import opened ChatLoop
  import opened ChatSends
  import P = FrameParser

  // ---- what one readable event reads

  /** The bytes a socket gives before it would block, ends or fails. */
  function Got(recvs: seq<P.Recv>): seq<byte> {
    if recvs == [] then []
    else
      match recvs[0]
      case Data(bytes) => bytes + Got(recvs[1..])
      case Intr => Got(recvs[1..])
      case Again => []
      case Eof => []
      case Fail => []
  }

  /** After those bytes the peer is gone. */
  predicate Gone(recvs: seq<P.Recv>) {
    && recvs != []
    && match recvs[0]
       case Data(bytes) => Gone(recvs[1..])
       case Intr => Gone(recvs[1..])
       case Again => false
       case Eof => true
       case Fail => true
  }

  /** Handling buffered and received bytes at once, if any were received. */
  function Parsed<S>(h: P.Handler<S>, s: S, pending: seq<byte>, got: seq<byte>): (S, seq<byte>) {
    if got == [] then (s, pending) else P.Parse(h, s, pending + got)
  }

  /** The receive loop handles all the bytes the socket gives, as one parse, and dooms a
      connection that is still live exactly when its peer is gone. */
  lemma {:induction false} DrainMeans<S(!new)>(h: P.Handler<S>, s: S, pending: seq<byte>, recvs: seq<P.Recv>)
    requires P.Sound(h) && P.Plausible(recvs) && !h.closing(s)
    ensures var (s1, rest) := Parsed(h, s, pending, Got(recvs));
            var out := P.Drain(h, s, pending, recvs);
            if h.closing(s1) then out.0 == s1
            else if Gone(recvs) then out.0 == h.doom(s1)
            else out == (s1, rest)
    decreases |recvs|
  {
    if recvs != [] {
      match recvs[0] {
        case Data(bytes) =>
          assert recvs[0] in recvs;
          var more := Got(recvs[1..]);
          assert pending + (bytes + more) == (pending + bytes) + more;
          var (s1, rest) := P.Parse(h, s, pending + bytes);
          P.ParseSplit(h, s, pending + bytes, more);
          if more == [] {
            assert (pending + bytes) + more == pending + bytes;
          }
          if !h.closing(s1) {
            DrainMeans(h, s1, rest, recvs[1..]);
          }
        case Intr => DrainMeans(h, s, pending, recvs[1..]);
        case Again =>
        case Eof =>
        case Fail =>
      }
    }
  }

  // ---- the frames among them

  /** The packets of one connection, handled in order until it is doomed. */
  function HandleFrames(s: Core, fd: int, fs: seq<Frame>): Core
    requires fd in s.conns
    decreases |fs|
  {
    if fs == [] || s.conns[fd].closing then s
    else
      PacketGrows(s, fd, fs[0]);
      HandleFrames(HandlePacket(s, fd, fs[0]), fd, fs[1..])
  }

  lemma MoveGrows(s: Core, fd: int, room: Name, answer: seq<byte>)
    requires fd in s.conns
    ensures Grows(s, Move(s, fd, room, answer))
  {
    var nick, s1 := s.conns[fd].nick, s;
    if s.conns[fd].room != [] {
      BroadcastGrows(s, s.conns[fd].room, S_NOTICE, nick + Text(" left"), fd);
      s1 := Broadcast(s, s.conns[fd].room, S_NOTICE, nick + Text(" left"), fd);
      LeaveGrows(s1, fd);
      s1 := LeaveRoom(s1, fd);
    }
    EnterGrows(s1, fd, room);
    var s2 := EnterRoom(s1, fd, room);
    ReplyGrows(s2, fd, answer);
    BroadcastGrows(Reply(s2, fd, answer), room, S_NOTICE, nick + Text(" joined"), fd);
  }

  lemma JoinGrows(s: Core, fd: int, payload: seq<byte>)
    requires fd in s.conns
    ensures Grows(s, Join(s, fd, payload))
  {
    var room := Prefix(payload, ROOM_MAX);
    if s.conns[fd].nick == [] {
      ReplyGrows(s, fd, Text("set a nickname first"));
    } else if room == [] {
      ReplyGrows(s, fd, Text("room name required"));
    } else {
      MoveGrows(s, fd, room, Text("joined ") + room);
    }
  }

  lemma ChatGrows(s: Core, fd: int, payload: seq<byte>)
    requires fd in s.conns
    ensures Grows(s, Chat(s, fd, payload))
  {
    var c := s.conns[fd];
    if c.room == [] {
      ReplyGrows(s, fd, Text("join a room first"));
    } else if !s.coalesce {
      BroadcastGrows(s, c.room, S_CHAT, c.nick + Text(": ") + payload, NOBODY);
    }
  }

  /** No packet opens or closes a connection, or takes back a doom. */
  lemma PacketGrows(s: Core, fd: int, f: Frame)
    requires fd in s.conns
    ensures Grows(s, HandlePacket(s, fd, f))
  {
    if f.typ == C_SET_NICK {
      var s1 := Update(s, fd, s.conns[fd].(nick := Prefix(f.body, NICK_MAX)));
      UpdateGrows(s, fd, s1.conns[fd]);
      ReplyGrows(s1, fd, Text("nick set to ") + Prefix(f.body, NICK_MAX));
    } else if f.typ == C_JOIN {
      JoinGrows(s, fd, f.body);
    } else if f.typ == C_CHAT {
      ChatGrows(s, fd, f.body);
    }
  }

  lemma {:induction false} HandlesPackets(s: Core, fd: int, fs: seq<Frame>)
    requires fd in s.conns
    ensures fd in HandleFrames(s, fd, fs).conns
    ensures P.HandleAll(PacketHandler(fd), s, fs) == HandleFrames(s, fd, fs)
    decreases |fs|
  {
    if fs != [] && !s.conns[fd].closing {
      PacketGrows(s, fd, fs[0]);
      HandlesPackets(HandlePacket(s, fd, fs[0]), fd, fs[1..]);
    }
  }

  /** Less than a frame, and not the header of one that is too long. */
  predicate Partial(tail: seq<byte>) {
    |tail| < HEADER || (GetU16(tail) <= MAX_PAYLOAD && |tail| < HEADER + GetU16(tail))
  }

  predicate Legible(fs: seq<Frame>) {
    forall f :: f in fs ==> |f.body| <= MAX_PAYLOAD
  }

  lemma ParseFramesAndTail(s: Core, fd: int, fs: seq<Frame>, tail: seq<byte>)
    requires fd in s.conns && Legible(fs) && Partial(tail)
    ensures var (s1, rest) := P.Parse(PacketHandler(fd), s, EncodeAll(fs) + tail);
            && s1 == HandleFrames(s, fd, fs) && fd in s1.conns
            && (!s1.conns[fd].closing ==> rest == tail)
  {
    var h := PacketHandler(fd);
    HandlesPackets(s, fd, fs);
    P.ParseEncoded(h, s, fs);
    HandlerSound(fd);
    P.ParseSplit(h, s, EncodeAll(fs), tail);
    assert [] + tail == tail;
  }

  /** A connection and its unparsed bytes after a read event. */
  ghost predicate ReadDone(s: Core, t: Core, fd: int, gone: bool)
    requires fd in s.conns
  {
    var c := s.conns[fd];
    if c.closing then t == s
    else if gone then t == s.(conns := s.conns[fd := c.(closing := true)])
    else
      && fd in t.conns && t == s.(conns := s.conns[fd := t.conns[fd]])
      && var d := t.conns[fd];
      && Sends(c, d, if s.batch then 0 else Takes(|c.out|, c.script))
      && d.nick == c.nick && d.room == c.room
      && (d.closing <==> !s.batch && Fails(c, 0))
      && (s.batch ==> d.script == c.script && (d.dirty <==> c.dirty || c.out != []))
  }

  lemma DispatchDone(batch: bool, c: Conn)
    requires !c.closing
    ensures Dispatch(batch, c).closing <==> !batch && Fails(c, 0)
    ensures SameIdentity(c, Dispatch(batch, c))
  {
    FlushFails(c);
    FailsIff(|c.out|, c.script);
    DispatchFlags(batch, c);
  }

  lemma SettleDone(s: Core, fd: int)
    requires fd in s.conns
    ensures ReadDone(s, if s.conns[fd].closing then s else Update(s, fd, Dispatch(s.batch, s.conns[fd])), fd, false)
  {
    DispatchSends(s.batch, s.conns[fd]);
    if !s.conns[fd].closing {
      DispatchDone(s.batch, s.conns[fd]);
    }
  }

  /** A readable event: buffered and received bytes that are frames and the front of one
      more are handled frame by frame, as long as the connection lives. Then a live one
      is doomed if the peer is gone, and else sends what is pending, or is marked in
      batch mode; the unfinished frame stays buffered. */
  lemma ReadMeans(w: World, maxConns: nat, fd: int, recvs: seq<P.Recv>, fs: seq<Frame>, tail: seq<byte>)
    requires fd in w.core.conns && fd in w.inb && !w.core.conns[fd].closing && P.Plausible(recvs)
    requires Legible(fs) && Partial(tail) && Got(recvs) != [] && w.inb[fd] + Got(recvs) == EncodeAll(fs) + tail
    ensures var v := EventStep(w, maxConns, Ready(fd, false, false, true, recvs));
            var s1 := HandleFrames(w.core, fd, fs);
            && fd in s1.conns && ReadDone(s1, v.core, fd, Gone(recvs))
            && v.inb.Keys == w.inb.Keys && (forall x :: x in w.inb && x != fd ==> v.inb[x] == w.inb[x])
            && (!s1.conns[fd].closing && !Gone(recvs) ==> v.inb[fd] == tail)
  {
    var s, h := w.core, PacketHandler(fd);
    HandlerSound(fd);
    DrainMeans(h, s, w.inb[fd], recvs);
    ParseFramesAndTail(s, fd, fs, tail);
    SettleDone(HandleFrames(s, fd, fs), fd);
    assert EventStep(w, maxConns, Ready(fd, false, false, true, recvs)) == ReadStep(w, fd, recvs);
  }

  /** A readable event that brings no bytes handles no frame. */
  lemma NoBytesRead(w: World, maxConns: nat, fd: int, recvs: seq<P.Recv>)
    requires fd in w.core.conns && fd in w.inb && !w.core.conns[fd].closing && P.Plausible(recvs) && Got(recvs) == []
    ensures var v := EventStep(w, maxConns, Ready(fd, false, false, true, recvs));
            ReadDone(w.core, v.core, fd, Gone(recvs)) && (!Gone(recvs) ==> v.inb == w.inb)
  {
    HandlerSound(fd);
    DrainMeans(PacketHandler(fd), w.core, w.inb[fd], recvs);
    SettleDone(w.core, fd);
    assert EventStep(w, maxConns, Ready(fd, false, false, true, recvs)) == ReadStep(w, fd, recvs);
  }

  // ---- the other events

  /** A writable event sends what the kernel takes of the pending bytes, and nothing
      else changes. */
  lemma WritableMeans(w: World, maxConns: nat, fd: int, recvs: seq<P.Recv>)
    requires fd in w.core.conns && !w.core.conns[fd].closing
    ensures var v := EventStep(w, maxConns, Ready(fd, false, true, false, recvs));
            var s, t, c := w.core, v.core, w.core.conns[fd];
            && v.inb == w.inb && fd in t.conns && t == s.(conns := s.conns[fd := t.conns[fd]])
            && var d := t.conns[fd];
            && Sends(c, d, Takes(|c.out|, c.script)) && (d.closing <==> Fails(c, 0)) && SameIdentity(c, d)
            && (!d.closing ==> (d.armed <==> d.out != []))
  {
    var c := w.core.conns[fd];
    FlushTakes(c);
    FlushArms(c);
    FlushFails(c);
    FailsIff(|c.out|, c.script);
  }

  /** Writable and readable at once is one after the other, unless the send failed. */
  lemma BothMeans(w: World, maxConns: nat, fd: int, recvs: seq<P.Recv>)
    requires fd in w.core.conns && fd in w.inb
    ensures var v := EventStep(w, maxConns, Ready(fd, false, true, false, recvs));
            EventStep(w, maxConns, Ready(fd, false, true, true, recvs))
              == EventStep(v, maxConns, Ready(fd, false, false, true, recvs))
  {
  }

  /** A hangup dooms that connection and does nothing else; an event for a connection
      that is closing, or gone, does nothing. */
  lemma HangupMeans(w: World, maxConns: nat, fd: int, hangup: bool, writable: bool, readable: bool,
                    recvs: seq<P.Recv>)
    ensures var v := EventStep(w, maxConns, Ready(fd, hangup, writable, readable, recvs));
            if fd !in w.core.conns || w.core.conns[fd].closing then v == w
            else hangup ==> v == World(w.core.(conns := w.core.conns[fd := w.core.conns[fd].(closing := true)]), w.inb)
  {
  }

  /** Under the cap a new descriptor is a connection with no name, no room and nothing
      buffered either way; at the cap nothing happens. */
  lemma AcceptMeans(w: World, maxConns: nat, fd: int, script: seq<Send>)
    ensures var v := EventStep(w, maxConns, Incoming(fd, script));
            if |w.core.conns| < maxConns then
              && fd in v.core.conns
              && var c := v.core.conns[fd];
              && v == World(w.core.(conns := w.core.conns[fd := c]), w.inb[fd := []])
              && c.nick == [] && c.room == [] && c.out == [] && c.sent == [] && c.queued == [] && c.script == script
              && !c.closing && !c.dirty && !c.armed
            else v == w
  {
  }

  /** The flush pass sends of every dirty live connection what the kernel takes, and
      touches no other. */
  lemma FlushDirtySends(s: Core, fd: int)
    requires fd in s.conns
    ensures var c, t := s.conns[fd], FlushDirty(s);
            && t == s.(conns := t.conns) && t.conns.Keys == s.conns.Keys
            && var d := t.conns[fd];
            if !c.dirty then d == c
            else
              && Sends(c, d, if c.closing then 0 else Takes(|c.out|, c.script)) && !d.dirty && SameIdentity(c, d)
              && (d.closing <==> c.closing || Fails(c, 0))
  {
    FlushOneSends(s.conns[fd]);
    FlushArms(s.conns[fd].(dirty := false));
  }
}
