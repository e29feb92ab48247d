/** The single-threaded event loop of server.cpp: global maps, the doomed list
    that grows while it is walked, the dirty list, and the flush/reap/flush tail.
    Room members are visited in an arbitrary order. */
module ChatServer {
  import opened Wire
  import opened Counting
  import opened ChatConn
  import opened ChatCore
  import TickContainer
  import opened ChatLoop
  import T = ChatTicks
  import P = FrameParser

  class Server {
    const batch: bool
    const coalesce: bool
    const maxConns: nat
    var conns: map<int, Conn>
    var rooms: map<Name, set<int>>
    var tick: map<Name, Buffer>
    var dropped: nat
    var inb: map<int, seq<byte>>    // received bytes not yet parsed, per connection
    var doomed: seq<int>
    var dirty: seq<int>

    ghost function St(): Core
      reads `conns, `rooms, `tick, `dropped
    {
      Core(batch, coalesce, conns, rooms, tick, dropped)
    }

    ghost function W(): World
      reads `conns, `rooms, `tick, `dropped, `inb
    {
      World(St(), inb)
    }

    /** Each list holds exactly the flagged connections, once. Entries whose
        connection is gone may linger. */
    ghost predicate DoomList()
      reads `conns, `doomed
    {
      NoDup(doomed) && forall fd :: fd in conns ==> (conns[fd].closing <==> fd in doomed)
    }

    ghost predicate DirtyList()
      reads `conns, `dirty
    {
      NoDup(dirty) && forall fd :: fd in conns ==> (conns[fd].dirty <==> fd in dirty)
    }

    /** Only batch mode marks connections dirty. */
    ghost function Markable(keys: set<int>): set<int> {
      if batch then keys else {}
    }

    ghost predicate NoStale()
      reads `conns, `doomed, `dirty
    {
      (forall fd :: fd in doomed ==> fd in conns) && (forall fd :: fd in dirty ==> fd in conns)
    }

    /** What a live connection has received and not parsed is a partial frame. */
    ghost predicate Backlog()
      reads `conns, `inb
    {
      && NOBODY !in conns && inb.Keys == conns.Keys
      && forall fd :: fd in conns && !conns[fd].closing ==> |inb[fd]| < MAX_FRAME
    }

    /** Between two events: nobody is busy, and no list entry is stale. */
    ghost predicate Handling()
      reads this
    {
      Kept(St(), NOBODY) && DoomList() && DirtyList() && NoStale() && Backlog()
    }

    /** Between two iterations of the loop. In batch mode the second flush may have
        doomed a connection; in immediate mode nothing is left doomed. */
    ghost predicate Quiescent()
      reads this
    {
      && Handling() && dirty == []
      && (!batch ==> doomed == [])
    }

    constructor (batch: bool, coalesce: bool, maxConns: nat)
      ensures this.batch == batch && this.coalesce == coalesce && this.maxConns == maxConns
      ensures Quiescent() && conns == map[]
    {
      this.batch, this.coalesce, this.maxConns := batch, coalesce, maxConns;
      conns, rooms, tick, dropped, inb, doomed, dirty := map[], map[], map[], 0, map[], [], [];
    }

    // ---- one connection

    method DoomConn(fd: int)
      requires fd in conns && DoomList()
      modifies `conns, `doomed
      ensures St() == Doom(old(St()), fd)
      ensures DoomList() && Extends(old(doomed), doomed, conns.Keys) && (old(DirtyList()) ==> DirtyList())
    {
      if conns[fd].closing {
        assert conns == conns[fd := conns[fd].(closing := true)];
        return;
      }
      conns := conns[fd := conns[fd].(closing := true)];
      doomed := doomed + [fd];
    }

    /** The backpressure rule: over the cap the connection is doomed instead. */
    method QueueFrame(fd: int, f: RawFrame)
      requires fd in conns && DoomList()
      modifies `conns, `doomed
      ensures St() == Update(old(St()), fd, Accept(old(conns[fd]), f))
      ensures DoomList() && Extends(old(doomed), doomed, conns.Keys) && (old(DirtyList()) ==> DirtyList())
    {
      var c := conns[fd];
      if |c.out| + HEADER + |f.body| > SEND_CAP {
        DoomConn(fd);
      } else {
        conns := conns[fd := c.(out := c.out + Encode(f), queued := c.queued + [f])];
      }
    }

    method QueueSendTo(fd: int, typ: u16, payload: seq<byte>)
      requires fd in conns && DoomList()
      modifies `conns, `doomed
      ensures St() == Update(old(St()), fd, QueueSend(old(conns[fd]), typ, payload))
      ensures DoomList() && Extends(old(doomed), doomed, conns.Keys) && (old(DirtyList()) ==> DirtyList())
    {
      var c := conns[fd];
      assert conns == conns[fd := c];
      if c.closing || |payload| > MAX_PAYLOAD {
        return;
      }
      QueueFrame(fd, Frame(typ, payload));
    }

    method QueueTickTo(fd: int, payload: seq<byte>)
      requires fd in conns && DoomList()
      modifies `conns, `doomed
      ensures St() == Update(old(St()), fd, QueueTick(old(conns[fd]), payload))
      ensures DoomList() && Extends(old(doomed), doomed, conns.Keys) && (old(DirtyList()) ==> DirtyList())
    {
      var c := conns[fd];
      assert conns == conns[fd := c];
      if !c.closing {
        QueueFrame(fd, Frame(S_TICK, payload));
      }
    }

    /** The send loop against the kernel's script of outcomes. */
    method SendLoop(c0: Conn) returns (c: Conn, failed: bool)
      ensures c.closing == c0.closing && c.dirty == c0.dirty
      ensures FlushSend(c0) == if failed then c.(closing := true) else UpdateMask(c)
    {
      c, failed := c0, false;
      while c.out != [] && c.script != []
        invariant c.closing == c0.closing && c.dirty == c0.dirty
        invariant FlushSend(c0) == FlushSend(c)
        decreases |c.script|
      {
        var outcome := c.script[0];
        match outcome {
          case Took(n) =>
            var k := Min(n, |c.out|);
            if k == 0 {
              c, failed := c.(script := c.script[1..]), true;
              return;
            }
            c := c.(script := c.script[1..], out := c.out[k..], sent := c.sent + c.out[..k]);
          case Interrupted =>
            c := c.(script := c.script[1..]);
          case WouldBlock =>
            c := c.(script := c.script[1..]);
            return;
          case Failed =>
            c, failed := c.(script := c.script[1..]), true;
            return;
        }
      }
    }

    method FlushSendTo(fd: int)
      requires fd in conns && DoomList()
      modifies `conns, `doomed
      ensures St() == Update(old(St()), fd, FlushSend(old(conns[fd])))
      ensures DoomList() && Extends(old(doomed), doomed, conns.Keys) && (old(DirtyList()) ==> DirtyList())
    {
      var c, failed := SendLoop(conns[fd]);
      if failed {
        conns := conns[fd := c];
        DoomConn(fd);
      } else {
        conns := conns[fd := UpdateMask(c)];
      }
    }

    method MarkDirtyConn(fd: int)
      requires fd in conns && DoomList() && DirtyList()
      modifies `conns, `dirty
      ensures St() == Update(old(St()), fd, MarkDirty(old(conns[fd])))
      ensures DoomList() && DirtyList() && Extends(old(dirty), dirty, conns.Keys)
    {
      var c := conns[fd];
      assert conns == conns[fd := c];
      if !c.dirty && c.out != [] {
        conns := conns[fd := c.(dirty := true)];
        dirty := dirty + [fd];
      }
    }

    method DispatchConn(fd: int)
      requires fd in conns && DoomList() && DirtyList()
      modifies `conns, `doomed, `dirty
      ensures St() == Update(old(St()), fd, Dispatch(batch, old(conns[fd])))
      ensures DoomList() && DirtyList()
      ensures Extends(old(doomed), doomed, conns.Keys) && Extends(old(dirty), dirty, Markable(conns.Keys))
    {
      if batch {
        MarkDirtyConn(fd);
      } else {
        FlushSendTo(fd);
      }
    }

    // ---- rooms

    /** One stop of the walk over a room. */
    method VisitMember(fd: int, typ: u16, payload: seq<byte>, except: int)
      requires DoomList() && DirtyList()
      modifies `conns, `doomed, `dirty
      ensures fd == except || fd !in old(conns) || old(conns)[fd].closing ==> conns == old(conns)
      ensures fd != except && fd in old(conns) && !old(conns)[fd].closing ==>
                conns == old(conns)[fd := Deliver(batch, old(conns)[fd], typ, payload)]
      ensures conns.Keys == old(conns.Keys) && DoomList() && DirtyList()
      ensures Extends(old(doomed), doomed, conns.Keys) && Extends(old(dirty), dirty, Markable(conns.Keys))
    {
      if fd != except && fd in conns && !conns[fd].closing {
        QueueSendTo(fd, typ, payload);
        DispatchConn(fd);
      }
    }

    method BroadcastRoom(room: Name, typ: u16, payload: seq<byte>, except: int)
      requires DoomList() && DirtyList()
      modifies `conns, `doomed, `dirty
      ensures St() == Broadcast(old(St()), room, typ, payload, except)
      ensures DoomList() && DirtyList() && conns.Keys == old(conns.Keys)
      ensures Extends(old(doomed), doomed, conns.Keys) && Extends(old(dirty), dirty, Markable(conns.Keys))
    {
      ghost var s := St();
      var todo := if room in rooms then rooms[room] else {};
      while todo != {}
        invariant conns.Keys == s.conns.Keys && DoomList() && DirtyList()
        invariant forall fd :: fd in todo ==> room in rooms && fd in rooms[room]
        invariant forall fd :: fd in conns ==>
                    conns[fd] == if fd !in todo && Hears(s, room, except, fd)
                                 then Deliver(batch, s.conns[fd], typ, payload) else s.conns[fd]
        invariant Extends(old(doomed), doomed, s.conns.Keys) && Extends(old(dirty), dirty, Markable(s.conns.Keys))
        decreases todo
      {
        var fd := Pick(todo);
        todo := todo - {fd};
        VisitMember(fd, typ, payload, except);
      }
      assert conns == Broadcast(s, room, typ, payload, except).conns;
    }

    method LeaveRoomOf(fd: int)
      requires fd in conns && DoomList() && DirtyList()
      modifies `conns, `rooms, `tick
      ensures St() == LeaveRoom(old(St()), fd) && DoomList() && DirtyList()
    {
      var room := conns[fd].room;
      if room == [] {
        assert conns == conns[fd := conns[fd].(room := [])];
        return;
      }
      if room in rooms {
        var members := rooms[room] - {fd};
        if members == {} {
          rooms := rooms - {room};
          if coalesce {
            tick := tick - {room};
          }
        } else {
          rooms := rooms[room := members];
        }
      }
      conns := conns[fd := conns[fd].(room := [])];
    }

    // ---- packets

    method ReplyTo(fd: int, payload: seq<byte>)
      requires fd in conns && DoomList() && DirtyList()
      modifies `conns, `doomed
      ensures St() == Reply(old(St()), fd, payload)
      ensures DoomList() && DirtyList() && Extends(old(doomed), doomed, conns.Keys)
    {
      QueueSendTo(fd, S_NOTICE, payload);
    }

    method SayGoodbye(fd: int, bye: seq<byte>)
      requires fd in conns && DoomList() && DirtyList()
      modifies `conns, `rooms, `tick, `doomed, `dirty
      ensures St() == LeaveRoom(Broadcast(old(St()), old(conns)[fd].room, S_NOTICE, bye, fd), fd)
      ensures conns.Keys == old(conns.Keys) && DoomList() && DirtyList()
      ensures Extends(old(doomed), doomed, conns.Keys) && Extends(old(dirty), dirty, Markable(conns.Keys))
    {
      BroadcastRoom(conns[fd].room, S_NOTICE, bye, fd);
      LeaveGrows(St(), fd);
      LeaveRoomOf(fd);
    }

    method EnterAndGreet(fd: int, room: Name, reply: seq<byte>, hello: seq<byte>)
      requires fd in conns && DoomList() && DirtyList()
      modifies `conns, `rooms, `doomed, `dirty
      ensures St() == Broadcast(Reply(EnterRoom(old(St()), fd, room), fd, reply), room, S_NOTICE, hello, fd)
      ensures DoomList() && DirtyList()
      ensures Extends(old(doomed), doomed, conns.Keys) && Extends(old(dirty), dirty, Markable(conns.Keys))
    {
      rooms := rooms[room := (if room in rooms then rooms[room] else {}) + {fd}];
      conns := conns[fd := conns[fd].(room := room)];
      ReplyTo(fd, reply);
      BroadcastRoom(room, S_NOTICE, hello, fd);
    }

    method OnJoin(fd: int, payload: seq<byte>)
      requires fd in conns && DoomList() && DirtyList()
      modifies `conns, `rooms, `tick, `doomed, `dirty
      ensures St() == Join(old(St()), fd, payload)
      ensures DoomList() && DirtyList()
      ensures Extends(old(doomed), doomed, conns.Keys) && Extends(old(dirty), dirty, Markable(conns.Keys))
    {
      var nick, room := conns[fd].nick, Prefix(payload, ROOM_MAX);
      if nick == [] {
        ReplyTo(fd, Text("set a nickname first"));
        return;
      }
      if room == [] {
        ReplyTo(fd, Text("room name required"));
        return;
      }
      if conns[fd].room != [] {
        SayGoodbye(fd, nick + Text(" left"));
      }
      EnterAndGreet(fd, room, Text("joined ") + room, nick + Text(" joined"));
    }

    method OnChat(fd: int, payload: seq<byte>)
      requires fd in conns && DoomList() && DirtyList()
      modifies `conns, `tick, `dropped, `doomed, `dirty
      ensures St() == Chat(old(St()), fd, payload)
      ensures DoomList() && DirtyList()
      ensures Extends(old(doomed), doomed, conns.Keys) && Extends(old(dirty), dirty, Markable(conns.Keys))
    {
      var c := conns[fd];
      if c.room == [] {
        ReplyTo(fd, Text("join a room first"));
        return;
      }
      var line := c.nick + Text(": ") + payload;
      if !coalesce {
        BroadcastRoom(c.room, S_CHAT, line, NOBODY);
        return;
      }
      if c.room !in tick {
        tick := tick[c.room := Buffer([], [])];
      }
      var buf := tick[c.room];
      assert tick == tick[c.room := buf];
      if |buf.bytes| + 2 + |line| > TICK_CAP {
        dropped := dropped + 1;
      } else {
        tick := tick[c.room := Buffer(buf.bytes + TickContainer.EncodeLine(line), buf.lines + [line])];
      }
    }

    method OnPacket(fd: int, f: Frame)
      requires fd in conns && DoomList() && DirtyList()
      modifies `conns, `rooms, `tick, `dropped, `doomed, `dirty
      ensures St() == HandlePacket(old(St()), fd, f)
      ensures DoomList() && DirtyList()
      ensures Extends(old(doomed), doomed, conns.Keys) && Extends(old(dirty), dirty, Markable(conns.Keys))
    {
      if f.typ == C_SET_NICK {
        var nick := Prefix(f.body, NICK_MAX);
        conns := conns[fd := conns[fd].(nick := nick)];
        ReplyTo(fd, Text("nick set to ") + nick);
      } else if f.typ == C_JOIN {
        OnJoin(fd, f.body);
      } else if f.typ == C_CHAT {
        OnChat(fd, f.body);
      } else {
        DoomConn(fd);
      }
    }

    // ---- reading

    /** While the event of `fd` is handled, `fd` itself may be unserved. */
    ghost predicate Busy(fd: int)
      reads `conns, `rooms, `tick, `dropped, `doomed, `dirty
    {
      Kept(St(), fd) && DoomList() && DirtyList() && fd in conns
    }

    method HandleFrame(fd: int, f: Frame)
      requires Busy(fd) && !conns[fd].closing
      modifies `conns, `rooms, `tick, `dropped, `doomed, `dirty
      ensures St() == PacketHandler(fd).handle(old(St()), f)
      ensures Busy(fd) && conns.Keys == old(conns.Keys)
      ensures Extends(old(doomed), doomed, conns.Keys) && Extends(old(dirty), dirty, Markable(conns.Keys))
    {
      PacketKeeps(St(), fd, f);
      OnPacket(fd, f);
    }

    method Refuse(fd: int)
      requires Busy(fd)
      modifies `conns, `doomed
      ensures St() == PacketHandler(fd).doom(old(St()))
      ensures Busy(fd) && conns.Keys == old(conns.Keys) && conns[fd].closing
      ensures Extends(old(doomed), doomed, conns.Keys)
    {
      DoomKeeps(St(), fd, fd);
      DoomConn(fd);
    }

    /** Hands over the complete frames of `bytes`; returns what is left. */
    method ParseFrames(fd: int, bytes: seq<byte>) returns (rest: seq<byte>)
      requires Busy(fd)
      modifies `conns, `rooms, `tick, `dropped, `doomed, `dirty
      ensures (St(), rest) == P.Parse(PacketHandler(fd), old(St()), bytes)
      ensures Busy(fd) && conns.Keys == old(conns.Keys)
      ensures Extends(old(doomed), doomed, conns.Keys) && Extends(old(dirty), dirty, Markable(conns.Keys))
    {
      rest := bytes;
      while !conns[fd].closing && |rest| >= HEADER
        invariant Busy(fd) && conns.Keys == old(conns.Keys)
        invariant P.Parse(PacketHandler(fd), St(), rest) == P.Parse(PacketHandler(fd), old(St()), bytes)
        invariant Extends(old(doomed), doomed, conns.Keys) && Extends(old(dirty), dirty, Markable(conns.Keys))
        decreases |rest|
      {
        var len := GetU16(rest);
        if len > MAX_PAYLOAD {
          Refuse(fd);
          return;
        }
        if |rest| < HEADER + len {
          break;
        }
        HandleFrame(fd, P.FirstFrame(rest));
        rest := rest[HEADER + len..];
      }
    }
  
    /** The recv loop. The backlog guard of the source cannot fire. */
    method DrainSocket(fd: int, pending: seq<byte>, recvs: seq<P.Recv>) returns (rest: seq<byte>)
      requires Busy(fd) && P.Plausible(recvs) && |pending| < MAX_FRAME
      modifies `conns, `rooms, `tick, `dropped, `doomed, `dirty
      ensures (St(), rest) == P.Drain(PacketHandler(fd), old(St()), pending, recvs)
      ensures Busy(fd) && conns.Keys == old(conns.Keys)
      ensures !conns[fd].closing ==> |rest| < MAX_FRAME
      ensures Extends(old(doomed), doomed, conns.Keys) && Extends(old(dirty), dirty, Markable(conns.Keys))
    {
      rest := pending;
      HandlerSound(fd);
      for i := 0 to |recvs|
        invariant Busy(fd) && conns.Keys == old(conns.Keys) && |rest| < MAX_FRAME
        invariant P.Drain(PacketHandler(fd), St(), rest, recvs[i..])
                    == P.Drain(PacketHandler(fd), old(St()), pending, recvs)
        invariant Extends(old(doomed), doomed, conns.Keys) && Extends(old(dirty), dirty, Markable(conns.Keys))
      {
        match recvs[i] {
          case Data(bytes) =>
            assert |rest| + |bytes| <= P.BACKLOG_LIMIT;
            P.LeftoverIsPartial(PacketHandler(fd), St(), rest + bytes);
            rest := ParseFrames(fd, rest + bytes);
            if conns[fd].closing {
              return;
            }
          case Intr =>
          case Again =>
            return;
          case Eof =>
            Refuse(fd);
            return;
          case Fail =>
            Refuse(fd);
            return;
        }
      }
    }

    lemma BusyIsWeaker(fd: int)
      requires Kept(St(), NOBODY) && NOBODY !in conns && DoomList() && DirtyList() && fd in conns
      ensures Busy(fd)
    {
    }

    method DrainAndDispatch(fd: int, pending: seq<byte>, recvs: seq<P.Recv>) returns (rest: seq<byte>)
      requires Kept(St(), NOBODY) && NOBODY !in conns && DoomList() && DirtyList() && fd in conns
      requires P.Plausible(recvs) && |pending| < MAX_FRAME
      modifies `conns, `rooms, `tick, `dropped, `doomed, `dirty
      ensures St() == ReadEvent(old(St()), fd, pending, recvs)
      ensures rest == P.Drain(PacketHandler(fd), old(St()), pending, recvs).1
      ensures Kept(St(), NOBODY) && DoomList() && DirtyList() && conns.Keys == old(conns.Keys)
      ensures !conns[fd].closing ==> |rest| < MAX_FRAME
      ensures Extends(old(doomed), doomed, conns.Keys) && Extends(old(dirty), dirty, Markable(conns.Keys))
    {
      BusyIsWeaker(fd);
      rest := DrainSocket(fd, pending, recvs);
      SettleKeeps(St(), fd);
      if !conns[fd].closing {
        DispatchConn(fd);
      }
    }

    /** Lists that were exact and grew only by live entries stay free of stale ones,
        and no connection stopped closing. */
    twostate lemma StaleFree()
      requires old(NoStale()) && old(DoomList()) && DoomList() && conns.Keys == old(conns.Keys)
      requires Extends(old(doomed), doomed, conns.Keys) && Extends(old(dirty), dirty, Markable(conns.Keys))
      ensures NoStale()
      ensures forall x :: x in conns && !conns[x].closing ==> !old(conns)[x].closing
    {
      forall x | x in conns && old(conns)[x].closing
        ensures conns[x].closing
      {
        assert x in old(doomed);
      }
    }

    method OnReadable(fd: int, recvs: seq<P.Recv>)
      requires Handling() && fd in conns && !conns[fd].closing && P.Plausible(recvs)
      modifies this
      ensures Handling() && conns.Keys == old(conns.Keys) && old(doomed) <= doomed
      ensures W() == ReadStep(old(W()), fd, recvs)
    {
      var rest := DrainAndDispatch(fd, inb[fd], recvs);
      StaleFree();
      KeepBacklog(fd, rest);
    }

    method KeepBacklog(fd: int, rest: seq<byte>)
      requires NOBODY !in conns && inb.Keys == conns.Keys && fd in conns
      requires forall x :: x in conns && x != fd && !conns[x].closing ==> |inb[x]| < MAX_FRAME
      requires !conns[fd].closing ==> |rest| < MAX_FRAME
      modifies `inb
      ensures Backlog() && inb == old(inb)[fd := rest]
    {
      inb := inb[fd := rest];
    }

    method OnWritable(fd: int)
      requires Handling() && fd in conns && !conns[fd].closing
      modifies `conns, `doomed
      ensures Handling() && conns.Keys == old(conns.Keys) && old(doomed) <= doomed
      ensures St() == Update(old(St()), fd, FlushSend(old(conns)[fd]))
    {
      WritableKeeps(St(), fd);
      FlushSendTo(fd);
      StaleFree();
    }

    method OnHangup(fd: int)
      requires Handling() && fd in conns
      modifies `conns, `doomed
      ensures Handling() && conns.Keys == old(conns.Keys) && old(doomed) <= doomed
      ensures St() == Doom(old(St()), fd)
    {
      DoomKeeps(St(), fd, NOBODY);
      DoomConn(fd);
      StaleFree();
    }

    /** A descriptor the kernel hands out is on neither list, so no entry made for
        an earlier connection can be taken for the new one. */
    method OnAccept(fd: int, script: seq<Send>)
      requires Handling() && fd >= 0 && fd !in conns
      modifies `conns, `inb
      ensures Handling() && fd !in doomed && fd !in dirty && doomed == old(doomed)
      ensures W() == EventStep(old(W()), maxConns, Incoming(fd, script))
    {
      if |conns| >= maxConns {
        return;
      }
      conns := conns[fd := NewConn(script)];
      inb := inb[fd := []];
      AcceptKeeps(old(St()), fd, script);
    }

    method OnEvent(e: Event)
      requires Handling() && Legal([e], conns.Keys, maxConns)
      modifies this
      ensures Handling() && W() == EventStep(old(W()), maxConns, e) && old(doomed) <= doomed
      ensures conns.Keys == Opened(old(conns.Keys), maxConns, e)
    {
      assert e == [e][0];
      match e {
        case Incoming(fd, script) =>
          OnAccept(fd, script);
        case Ready(fd, hangup, writable, readable, recvs) =>
          if fd !in conns || conns[fd].closing {
            return;
          }
          if hangup {
            OnHangup(fd);
            return;
          }
          if writable {
            OnWritable(fd);
          }
          if !conns[fd].closing && readable {
            OnReadable(fd, recvs);
          }
      }
    }
  
    // ---- the tick

    method TickMember(fd: int, bytes: seq<byte>)
      requires DoomList() && DirtyList()
      modifies `conns, `doomed, `dirty
      ensures fd !in old(conns) || old(conns)[fd].closing ==> conns == old(conns)
      ensures fd in old(conns) && !old(conns)[fd].closing ==>
                conns == old(conns)[fd := DeliverTick(batch, old(conns)[fd], bytes)]
      ensures conns.Keys == old(conns.Keys) && DoomList() && DirtyList()
      ensures Extends(old(doomed), doomed, conns.Keys) && Extends(old(dirty), dirty, Markable(conns.Keys))
    {
      if fd in conns && !conns[fd].closing {
        QueueTickTo(fd, bytes);
        DispatchConn(fd);
      }
    }

    method TickRoom(room: Name, bytes: seq<byte>)
      requires DoomList() && DirtyList() && room in rooms
      modifies `conns, `doomed, `dirty
      ensures conns.Keys == old(conns.Keys) && DoomList() && DirtyList()
      ensures forall fd :: fd in conns ==>
                conns[fd] == if fd in rooms[room] && !old(conns)[fd].closing
                             then DeliverTick(batch, old(conns)[fd], bytes) else old(conns)[fd]
      ensures Extends(old(doomed), doomed, conns.Keys) && Extends(old(dirty), dirty, Markable(conns.Keys))
    {
      var todo := rooms[room];
      while todo != {}
        invariant conns.Keys == old(conns.Keys) && DoomList() && DirtyList() && todo <= rooms[room]
        invariant forall fd :: fd in conns ==>
                    conns[fd] == if fd !in todo && fd in rooms[room] && !old(conns)[fd].closing
                                 then DeliverTick(batch, old(conns)[fd], bytes) else old(conns)[fd]
        invariant Extends(old(doomed), doomed, conns.Keys) && Extends(old(dirty), dirty, Markable(conns.Keys))
        decreases todo
      {
        var fd := Pick(todo);
        todo := todo - {fd};
        TickMember(fd, bytes);
      }
    }

    method SendBuffer(room: Name, ghost s: Core, ghost todo: set<Name>)
      requires DoomList() && DirtyList() && Members(s) && s.batch == batch && s.rooms == rooms
      requires room in tick && room in s.tick && tick[room] == s.tick[room]
      requires room !in todo && Ticked(s, conns, todo + {room})
      modifies `conns, `doomed, `dirty, `tick
      ensures Ticked(s, conns, todo) && tick == old(tick)[room := Buffer([], [])]
      ensures DoomList() && DirtyList()
      ensures Extends(old(doomed), doomed, conns.Keys) && Extends(old(dirty), dirty, Markable(conns.Keys))
    {
      if tick[room].bytes != [] && room in rooms {
        TickRoom(room, tick[room].bytes);
      }
      TickedStep(s, old(conns), conns, todo, room);
      tick := tick[room := Buffer([], [])];
    }

    method FlushTick()
      requires DoomList() && DirtyList() && Members(St())
      modifies `conns, `doomed, `dirty, `tick
      ensures St() == FlushTickRooms(old(St()))
      ensures DoomList() && DirtyList()
      ensures Extends(old(doomed), doomed, conns.Keys) && Extends(old(dirty), dirty, Markable(conns.Keys))
    {
      ghost var s := St();
      var todo := tick.Keys;
      while todo != {}
        invariant conns.Keys == s.conns.Keys && tick.Keys == s.tick.Keys && todo <= tick.Keys
        invariant DoomList() && DirtyList()
        invariant forall r :: r in tick ==> tick[r] == if r in todo then s.tick[r] else Buffer([], [])
        invariant Ticked(s, conns, todo)
        invariant Extends(old(doomed), doomed, conns.Keys) && Extends(old(dirty), dirty, Markable(conns.Keys))
        decreases todo
      {
        var room := Pick(todo);
        assert (todo - {room}) + {room} == todo;
        todo := todo - {room};
        SendBuffer(room, s, todo);
      }
      TickedAll(s, conns, tick);
    }

    // ---- the end of an iteration

    method FlushDirtyConn(fd: int)
      requires DoomList()
      modifies `conns, `doomed
      ensures fd !in old(conns) ==> conns == old(conns)
      ensures fd in old(conns) ==> conns == old(conns)[fd := FlushOne(old(conns)[fd])]
      ensures DoomList() && Extends(old(doomed), doomed, conns.Keys)
    {
      if fd in conns {
        conns := conns[fd := conns[fd].(dirty := false)];
        if !conns[fd].closing {
          FlushSendTo(fd);
        }
      }
    }

    method FlushDirtyAll()
      requires DoomList() && DirtyList()
      modifies `conns, `doomed, `dirty
      ensures St() == FlushDirty(old(St())) && dirty == []
      ensures DoomList() && Extends(old(doomed), doomed, conns.Keys)
    {
      ghost var s := St();
      for i := 0 to |dirty|
        invariant dirty == old(dirty) && conns.Keys == s.conns.Keys && DoomList()
        invariant forall fd :: fd in conns ==>
                    conns[fd] == if fd in dirty[..i] then FlushOne(s.conns[fd]) else s.conns[fd]
        invariant Extends(old(doomed), doomed, conns.Keys)
      {
        var fd := dirty[i];
        assert fd !in dirty[..i] && dirty[..i + 1] == dirty[..i] + [fd];
        FlushDirtyConn(fd);
      }
      assert dirty[..|dirty|] == dirty;
      FlushedAll(s, conns, dirty);
      dirty := [];
    }

    method ReapConn(fd: int)
      requires fd in conns && conns[fd].closing && Kept(St(), NOBODY) && DoomList() && DirtyList()
      modifies `conns, `rooms, `tick, `doomed, `dirty
      ensures St() == ReapOne(old(St()), fd) && Kept(St(), NOBODY) && DoomList() && DirtyList()
      ensures conns.Keys == old(conns.Keys) - {fd}
      ensures Extends(old(doomed), doomed, conns.Keys) && Extends(old(dirty), dirty, Markable(conns.Keys))
    {
      ReapKeeps(St(), fd);
      LeaveGrows(St(), fd);
      var c := conns[fd];
      LeaveRoomOf(fd);
      if c.room != [] && c.nick != [] {
        BroadcastRoom(c.room, S_NOTICE, c.nick + Text(" left"), fd);
      }
      EraseConn(fd);
    }

    method EraseConn(fd: int)
      requires DoomList() && DirtyList()
      modifies `conns
      ensures conns == old(conns) - {fd} && DoomList() && DirtyList()
    {
      conns := conns - {fd};
    }
  
    /** What the walk over the doomed list maintains at index `i`. */
    ghost predicate Reaping(i: nat, s0: Core)
      reads `conns, `rooms, `tick, `dropped, `doomed, `dirty
    {
      && i <= |doomed| && DoomList() && DirtyList() && Kept(St(), NOBODY)
      && (forall j :: i <= j < |doomed| ==> doomed[j] in conns)
      && Survivors(s0.conns.Keys, conns.Keys, doomed[..i])
      && St() == ReapAll(s0, doomed[..i]) && Walked(s0, doomed, i)
    }

    /** What remains of the list is led by the closing connections. */
    lemma RestLeads(i: nat)
      requires DoomList() && i <= |doomed|
      requires forall fd :: fd in doomed[..i] ==> fd !in conns
      requires forall j :: i <= j < |doomed| ==> doomed[j] in conns
      ensures Lead(St(), doomed[i..])
    {
      forall fd | Closing(St(), fd)
        ensures fd in doomed[i..]
      {
        assert fd in doomed;
        assert doomed == doomed[..i] + doomed[i..];
      }
      forall k | 0 <= k < |doomed[i..]|
        ensures Closing(St(), doomed[i..][k])
      {
        assert doomed[i + k] in doomed;
      }
    }

    lemma ListLeads()
      requires DoomList() && forall fd :: fd in doomed ==> fd in conns
      ensures Lead(St(), doomed) && doomed[0..] == doomed && doomed[..0] == []
    {
      forall k | 0 <= k < |doomed|
        ensures doomed[k] in conns && Closing(St(), doomed[k])
      {
        var fd := doomed[k];
        assert fd in doomed;
      }
    }

    method ReapNext(i: nat, ghost s0: Core)
      requires Reaping(i, s0) && i < |doomed|
      modifies `conns, `rooms, `tick, `doomed, `dirty
      ensures Reaping(i + 1, s0) && old(doomed) <= doomed
      ensures conns.Keys == old(conns.Keys) - {old(doomed)[i]}
      ensures Extends(old(dirty), dirty, Markable(s0.conns.Keys))
    {
      var fd := doomed[i];
      ReapConn(fd);
      ListAfterReap(old(doomed), doomed, i, old(conns.Keys));
      assert Survivors(s0.conns.Keys, conns.Keys, old(doomed)[..i] + [fd]);
      assert (old(doomed)[..i] + [fd])[..i] == old(doomed)[..i];
      RestLeads(i + 1);
      WalkedOn(s0, old(doomed), doomed, i);
    }

    /** Walks the list by index, re-reading its length. It terminates although the
        list grows under the walk: each stop removes a live connection. */
    method ReapWalk()
      requires Kept(St(), NOBODY) && DoomList() && DirtyList() && forall fd :: fd in doomed ==> fd in conns
      modifies `conns, `rooms, `tick, `doomed, `dirty
      ensures NoDup(doomed) && old(doomed) <= doomed
      ensures forall fd :: fd in conns <==> fd in old(conns) && fd !in doomed
      ensures forall fd :: fd in conns ==> !conns[fd].closing
      ensures St() == ReapAll(old(St()), doomed) && Reaps(old(St()), doomed) && Kept(St(), NOBODY)
      ensures DirtyList() && Extends(old(dirty), dirty, Markable(old(conns.Keys)))
    {
      ghost var s0 := St();
      var i := 0;
      assert doomed[..0] == [] && ReapAll(s0, []) == s0 && Survivors(s0.conns.Keys, conns.Keys, []);
      assert forall j :: 0 <= j < |doomed| ==> doomed[j] in doomed;
      ListLeads();
      while i < |doomed|
        invariant Reaping(i, s0) && old(doomed) <= doomed
        invariant Extends(old(dirty), dirty, Markable(s0.conns.Keys))
        decreases conns.Keys
      {
        assert doomed[i] in conns;
        ReapNext(i, s0);
        i := i + 1;
      }
      assert doomed[..i] == doomed;
    }

    method DropReaped()
      requires forall fd :: fd in conns ==> fd in inb
      modifies `doomed, `inb
      ensures doomed == [] && inb.Keys == conns.Keys && forall fd :: fd in conns ==> inb[fd] == old(inb)[fd]
    {
      doomed := [];
      inb := map fd | fd in conns :: inb[fd];
    }

    /** The reap: every doomed descriptor, old or new, is closed exactly once, and
        no connection is left closing. */
    method ReapDoomed() returns (closed: seq<int>)
      requires Kept(St(), NOBODY) && DoomList() && DirtyList() && inb.Keys == conns.Keys
      requires forall fd :: fd in doomed ==> fd in conns
      modifies `conns, `rooms, `tick, `doomed, `dirty, `inb
      ensures doomed == [] && forall fd :: fd in conns ==> !conns[fd].closing
      ensures NoDup(closed) && old(doomed) <= closed
      ensures forall fd :: fd in conns <==> fd in old(conns) && fd !in closed
      ensures St() == ReapAll(old(St()), closed) && Reaps(old(St()), closed)
      ensures Kept(St(), NOBODY) && DirtyList() && Extends(old(dirty), dirty, Markable(old(conns.Keys)))
      ensures inb.Keys == conns.Keys && forall fd :: fd in conns ==> inb[fd] == old(inb)[fd]
    {
      ReapWalk();
      closed := doomed;
      DropReaped();
    }

    /** Flush, reap, flush. Something is left doomed at the end exactly when, as the
        second flush begins, a dirty connection faces a send that fails. */
    method BatchTail() returns (closed: seq<int>)
      requires Handling()
      modifies this
      ensures Handling() && dirty == [] && old(doomed) <= closed
      ensures St() == FlushDirty(ReapAll(FlushDirty(old(St())), closed)) && Reaps(FlushDirty(old(St())), closed)
      ensures NoDup(closed) && forall fd :: fd in conns <==> fd in old(conns) && fd !in closed
      ensures inb == Surviving(old(inb), conns.Keys)
      ensures var mid := ReapAll(FlushDirty(old(St())), closed);
              doomed == [] <==> NoSendFails(mid)
    {
      FlushDirtyKeeps(St());
      FlushDirtyAll();
      StaleAfterFlush();
      closed := ReapDoomed();
      SurvivingIs(old(inb), inb, conns.Keys);
      SecondFlush();
    }

    method SecondFlush()
      requires Kept(St(), NOBODY) && DirtyList() && Backlog()
      requires doomed == [] && forall fd :: fd in conns ==> !conns[fd].closing
      modifies `conns, `doomed, `dirty
      ensures Handling() && dirty == [] && St() == FlushDirty(old(St()))
      ensures doomed == [] <==> NoSendFails(old(St()))
    {
      FlushDirtyKeeps(St());
      FlushDooms(St());
      FlushDirtyAll();
      SomeEntry(doomed);
    }

    /** After the first flush the lists are as clean as between events. */
    twostate lemma StaleAfterFlush()
      requires old(Handling()) && St() == FlushDirty(old(St())) && Kept(St(), NOBODY)
      requires inb == old(inb) && dirty == [] && DoomList() && Extends(old(doomed), doomed, conns.Keys)
      requires forall fd :: fd in conns ==> !conns[fd].dirty
      ensures Handling()
    {
      assert conns.Keys == old(conns.Keys);
      forall x | x in conns && old(conns)[x].closing
        ensures conns[x].closing
      {
        assert x in old(doomed);
      }
    }
  
    // ---- the loop

    method RunEvents(events: seq<Event>)
      requires Handling() && Legal(events, conns.Keys, maxConns)
      modifies this
      ensures Handling() && W() == EventSteps(old(W()), maxConns, events)
      ensures old(doomed) <= doomed && Queued(old(W()), maxConns, events, |events|, doomed)
    {
      ghost var w := W();
      assert events[0..] == events && events[..0] == [];
      ListLeads();
      for i := 0 to |events|
        invariant Handling() && Legal(events[i..], conns.Keys, maxConns)
        invariant W() == EventSteps(w, maxConns, events[..i])
        invariant old(doomed) <= doomed && Queued(w, maxConns, events, i, doomed)
      {
        NextEvent(events, i, w);
      }
      assert events[..|events|] == events;
    }

    method NextEvent(events: seq<Event>, i: nat, ghost w: World)
      requires i < |events| && Handling() && Legal(events[i..], conns.Keys, maxConns)
      requires W() == EventSteps(w, maxConns, events[..i]) && Queued(w, maxConns, events, i, doomed)
      modifies this
      ensures Handling() && Legal(events[i + 1..], conns.Keys, maxConns)
      ensures W() == EventSteps(w, maxConns, events[..i + 1])
      ensures old(doomed) <= doomed && Queued(w, maxConns, events, i + 1, doomed)
    {
      assert events[i..][0] == events[i] && events[i..][1..] == events[i + 1..];
      OnEvent(events[i]);
      LastEvent(w, maxConns, events, i);
      QueuedOn(w, maxConns, events, i, old(doomed), doomed);
      ListLeads();
      assert LeadAfter(w, maxConns, events, i + 1, doomed);
    }

    method RunTick()
      requires Handling()
      modifies `conns, `doomed, `dirty, `tick
      ensures Handling() && St() == FlushTickRooms(old(St())) && old(doomed) <= doomed
    {
      FlushTickKeeps(St());
      FlushTickGrows(St());
      FlushTick();
      StaleFree();
    }

    /** One pass of the loop: the batch of events, the tick if it is due, the tail.
        Whatever the events and the kernel do, the server is quiescent after it, and
        the reap has closed exactly who was doomed, in the order of their doom. A due
        tick leaves no line untold. */
    method Iteration(events: seq<Event>, tickDue: bool) returns (closed: seq<int>)
      requires Quiescent() && Legal(events, conns.Keys, maxConns)
      modifies this
      ensures Quiescent() && NoDup(closed) && old(doomed) <= closed
      ensures W() == Pass(old(W()), maxConns, events, tickDue, closed)
      ensures Closes(old(W()), maxConns, events, tickDue, closed)
      ensures tickDue && coalesce ==> T.NoLines(St())
    {
      ghost var w := W();
      if tickDue && coalesce {
        LinesAreTold(events);
      }
      RunEvents(events);
      ghost var queue := doomed;
      if tickDue && coalesce {
        RunTick();
      }
      closed := Finish();
      QueuedOn(w, maxConns, events, |events|, queue, closed);
    }

    lemma LinesAreTold(events: seq<Event>)
      requires Handling() && Legal(events, conns.Keys, maxConns) && coalesce
      ensures forall closed :: T.NoLines(Pass(W(), maxConns, events, true, closed).core)
    {
      forall closed {
        T.DueTickEmpties(W(), maxConns, events, closed);
      }
    }

    /** The tail of a pass. */
    method Finish() returns (closed: seq<int>)
      requires Handling()
      modifies this
      ensures Quiescent() && NoDup(closed) && old(doomed) <= closed
      ensures St() == Tail(old(St()), closed) && Reaps(Reapable(old(St())), closed)
      ensures inb == Surviving(old(inb), conns.Keys)
    {
      if batch {
        closed := BatchTail();
      } else {
        NothingDirty();
        ghost var before := inb;
        closed := ReapDoomed();
        SurvivingIs(before, inb, conns.Keys);
        SomeEntry(dirty);
      }
    }

    lemma NothingDirty()
      requires Handling() && !batch
      ensures dirty == []
    {
      forall fd | fd in conns
        ensures !conns[fd].dirty
      {
        assert ConnKept(conns[fd], batch, fd == NOBODY);
      }
      SomeEntry(dirty);
    }

    /** Any run of the server, batch after batch. A batch the kernel could not produce
        in the state reached is none. */
    method Run(batches: seq<(seq<Event>, bool)>) returns (closings: seq<seq<int>>)
      requires Quiescent()
      modifies this
      ensures Quiescent() && |closings| == |batches|
      ensures W() == Passes(old(W()), maxConns, batches, closings)
      ensures ClosesAll(old(W()), maxConns, batches, closings)
    {
      closings := [];
      for i := 0 to |batches|
        invariant Quiescent() && |closings| == i
        invariant W() == Passes(old(W()), maxConns, batches[..i], closings)
        invariant ClosesAll(old(W()), maxConns, batches[..i], closings)
      {
        assert batches[..i + 1][..i] == batches[..i];
        var closed: seq<int> := [];
        if Legal(batches[i].0, conns.Keys, maxConns) {
          closed := Iteration(batches[i].0, batches[i].1);
        }
        assert (closings + [closed])[..i] == closings;
        closings := closings + [closed];
      }
      assert batches[..|batches|] == batches;
    }

    /** What quiescence means to a client: no byte is stranded, EPOLLOUT is armed
        exactly while bytes wait, no connection is flagged dirty, no room holds a
        closed descriptor, and immediate mode has reaped everything. */
    lemma NothingStranded(fd: int)
      requires Quiescent() && fd in conns
      ensures !conns[fd].dirty
      ensures !conns[fd].closing ==> (conns[fd].armed <==> conns[fd].out != [])
      ensures Conserves(conns[fd])
      ensures !batch ==> !conns[fd].closing
      ensures forall r :: r in rooms ==> rooms[r] <= conns.Keys
      ensures forall r :: r in rooms ==> (fd in rooms[r] <==> conns[fd].room == r)
    {
      assert ConnKept(conns[fd], batch, fd == NOBODY);
      forall r | r in rooms
        ensures rooms[r] <= conns.Keys
      {
        assert forall x :: x in rooms[r] ==> x in conns;
      }
    }
  }
}
