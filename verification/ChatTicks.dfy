/** When room lines are told in coalesce mode. A pass whose tick is due sends every
    buffered room to each of its members, once, ahead of the notices of the reap, and
    leaves every buffer empty. A pass whose tick is not due sends no tick frame. */
module ChatTicks {
  import opened Wire
  import opened ChatConn
  import opened ChatCore
  import opened ChatLoop
  import TickContainer
  import P = FrameParser

  const SPOKEN: set<u16> := {S_NOTICE, S_CHAT}
  const NOTICES: set<u16> := {S_NOTICE}

  // ---- what connections are queued

  /** `d` was queued what `c` was, and then frames of the given kinds only. */
  ghost predicate Adds(c: Conn, d: Conn, kinds: set<u16>) {
    c.queued <= d.queued && forall k :: |c.queued| <= k < |d.queued| ==> d.queued[k].typ in kinds
  }

  /** So with every connection of `t`, the new ones included. */
  ghost predicate Gains(s: Core, t: Core, kinds: set<u16>) {
    forall fd :: fd in t.conns ==> Adds(if fd in s.conns then s.conns[fd] else NewConn([]), t.conns[fd], kinds)
  }

  ghost predicate SameMode(s: Core, t: Core) {
    t.batch == s.batch && t.coalesce == s.coalesce
  }

  lemma AddsTransitive(c: Conn, d: Conn, e: Conn, kinds: set<u16>)
    requires Adds(c, d, kinds) && Adds(d, e, kinds)
    ensures Adds(c, e, kinds)
  {
    forall k | |c.queued| <= k < |e.queued|
      ensures e.queued[k].typ in kinds
    {
      if k < |d.queued| {
        assert e.queued[k] == d.queued[k];
      }
    }
  }

  lemma GainsTransitive(s: Core, t: Core, u: Core, kinds: set<u16>)
    requires Gains(s, t, kinds) && Gains(t, u, kinds)
    requires s.conns.Keys <= t.conns.Keys || u.conns.Keys <= t.conns.Keys
    ensures Gains(s, u, kinds)
  {
    forall fd | fd in u.conns
      ensures Adds(if fd in s.conns then s.conns[fd] else NewConn([]), u.conns[fd], kinds)
    {
      if fd in t.conns {
        AddsTransitive(if fd in s.conns then s.conns[fd] else NewConn([]), t.conns[fd], u.conns[fd], kinds);
      }
    }
  }

  lemma DeliverGains(batch: bool, c: Conn, typ: u16, payload: seq<byte>, kinds: set<u16>)
    requires typ in kinds
    ensures Adds(c, QueueSend(c, typ, payload), kinds) && Adds(c, Deliver(batch, c, typ, payload), kinds)
  {
    FlushArms(QueueSend(c, typ, payload));
  }

  lemma BroadcastGains(s: Core, room: Name, typ: u16, payload: seq<byte>, except: int, kinds: set<u16>)
    requires typ in kinds
    ensures Gains(s, Broadcast(s, room, typ, payload, except), kinds)
  {
    forall fd | fd in s.conns
      ensures Adds(s.conns[fd], Broadcast(s, room, typ, payload, except).conns[fd], kinds)
    {
      DeliverGains(s.batch, s.conns[fd], typ, payload, kinds);
    }
  }

  /** Only one connection changed. */
  lemma UpdateGains(s: Core, t: Core, fd: int, kinds: set<u16>)
    requires fd in s.conns && t.conns.Keys == s.conns.Keys && Adds(s.conns[fd], t.conns[fd], kinds)
    requires forall x :: x in s.conns && x != fd ==> t.conns[x] == s.conns[x]
    ensures Gains(s, t, kinds)
  {
  }

  lemma ReplyGains(s: Core, fd: int, payload: seq<byte>, kinds: set<u16>)
    requires fd in s.conns && S_NOTICE in kinds
    ensures Gains(s, Reply(s, fd, payload), kinds)
  {
    DeliverGains(s.batch, s.conns[fd], S_NOTICE, payload, kinds);
    UpdateGains(s, Reply(s, fd, payload), fd, kinds);
  }

  lemma LeaveGains(s: Core, fd: int, kinds: set<u16>)
    requires fd in s.conns
    ensures Gains(s, LeaveRoom(s, fd), kinds)
  {
    LeaveGrows(s, fd);
    UpdateGains(s, LeaveRoom(s, fd), fd, kinds);
  }

  // ---- packets and events queue no tick frame

  lemma MoveGains(s: Core, fd: int, room: Name, answer: seq<byte>)
    requires fd in s.conns
    ensures Gains(s, Move(s, fd, room, answer), SPOKEN)
  {
    var nick, from, s1 := s.conns[fd].nick, s.conns[fd].room, s;
    if from != [] {
      var b := Broadcast(s, from, S_NOTICE, nick + Text(" left"), fd);
      s1 := LeaveRoom(b, fd);
      BroadcastGains(s, from, S_NOTICE, nick + Text(" left"), fd, SPOKEN);
      LeaveGains(b, fd, SPOKEN);
      LeaveGrows(b, fd);
      GainsTransitive(s, b, s1, SPOKEN);
    }
    ArriveGains(s1, fd, room, answer, nick + Text(" joined"));
    GainsTransitive(s, s1, Move(s, fd, room, answer), SPOKEN);
  }

  lemma ArriveGains(s: Core, fd: int, room: Name, answer: seq<byte>, hello: seq<byte>)
    requires fd in s.conns
    ensures var t := Broadcast(Reply(EnterRoom(s, fd, room), fd, answer), room, S_NOTICE, hello, fd);
            Gains(s, t, SPOKEN) && t.conns.Keys == s.conns.Keys
  {
    var s1 := EnterRoom(s, fd, room);
    UpdateGains(s, s1, fd, SPOKEN);
    ReplyGains(s1, fd, answer, SPOKEN);
    var s2 := Reply(s1, fd, answer);
    BroadcastGains(s2, room, S_NOTICE, hello, fd, SPOKEN);
    GainsTransitive(s, s1, s2, SPOKEN);
    GainsTransitive(s, s2, Broadcast(s2, room, S_NOTICE, hello, fd), SPOKEN);
  }

  lemma JoinGains(s: Core, fd: int, payload: seq<byte>)
    requires fd in s.conns
    ensures Gains(s, Join(s, fd, payload), SPOKEN)
  {
    var room := Prefix(payload, ROOM_MAX);
    if s.conns[fd].nick == [] {
      ReplyGains(s, fd, Text("set a nickname first"), SPOKEN);
    } else if room == [] {
      ReplyGains(s, fd, Text("room name required"), SPOKEN);
    } else {
      MoveGains(s, fd, room, Text("joined ") + room);
    }
  }

  lemma ChatGains(s: Core, fd: int, payload: seq<byte>)
    requires fd in s.conns
    ensures Gains(s, Chat(s, fd, payload), SPOKEN)
  {
    var c := s.conns[fd];
    if c.room == [] {
      ReplyGains(s, fd, Text("join a room first"), SPOKEN);
    } else if !s.coalesce {
      BroadcastGains(s, c.room, S_CHAT, c.nick + Text(": ") + payload, NOBODY, SPOKEN);
    }
  }

  lemma NickGains(s: Core, fd: int, payload: seq<byte>)
    requires fd in s.conns
    ensures Gains(s, SetNick(s, fd, payload), SPOKEN)
  {
    var s1 := Update(s, fd, s.conns[fd].(nick := Prefix(payload, NICK_MAX)));
    UpdateGains(s, s1, fd, SPOKEN);
    ReplyGains(s1, fd, Text("nick set to ") + Prefix(payload, NICK_MAX), SPOKEN);
    GainsTransitive(s, s1, SetNick(s, fd, payload), SPOKEN);
  }

  lemma PacketGains(s: Core, fd: int, f: Frame)
    requires fd in s.conns
    ensures Gains(s, HandlePacket(s, fd, f), SPOKEN)
  {
    if f.typ == C_SET_NICK {
      NickGains(s, fd, f.body);
    } else if f.typ == C_JOIN {
      JoinGains(s, fd, f.body);
    } else if f.typ == C_CHAT {
      ChatGains(s, fd, f.body);
    } else {
      UpdateGains(s, Doom(s, fd), fd, SPOKEN);
    }
  }

  /** What every step between two ticks keeps. */
  ghost predicate Goes(s: Core, t: Core, busy: int) {
    Kept(t, busy) && Gains(s, t, SPOKEN) && SameMode(s, t)
  }

  lemma {:induction false} ParseGoes(s: Core, fd: int, bytes: seq<byte>)
    requires fd in s.conns && Kept(s, fd)
    ensures var t := P.Parse(PacketHandler(fd), s, bytes).0;
            Goes(s, t, fd) && t.conns.Keys == s.conns.Keys
    decreases |bytes|
  {
    if s.conns[fd].closing || |bytes| < HEADER || GetU16(bytes) > MAX_PAYLOAD || |bytes| < HEADER + GetU16(bytes) {
      ParseStops(s, fd, bytes);
      DoomKeeps(s, fd, fd);
      UpdateGains(s, Doom(s, fd), fd, SPOKEN);
      UpdateGains(s, s, fd, SPOKEN);
    } else {
      ParseHandles(s, fd, bytes);
      PacketKeeps(s, fd, P.FirstFrame(bytes));
      PacketGains(s, fd, P.FirstFrame(bytes));
      var s1, more := HandlePacket(s, fd, P.FirstFrame(bytes)), bytes[HEADER + GetU16(bytes)..];
      ParseGoes(s1, fd, more);
      GainsTransitive(s, s1, P.Parse(PacketHandler(fd), s1, more).0, SPOKEN);
    }
  }

  /** One receive. */
  lemma DataGoes(s: Core, fd: int, bytes: seq<byte>, t: Core)
    requires fd in s.conns && Kept(s, fd)
    requires var s1 := P.Parse(PacketHandler(fd), s, bytes).0; Goes(s1, t, fd) && t.conns.Keys == s1.conns.Keys
    ensures Goes(s, t, fd) && t.conns.Keys == s.conns.Keys
  {
    ParseGoes(s, fd, bytes);
    GainsTransitive(s, P.Parse(PacketHandler(fd), s, bytes).0, t, SPOKEN);
  }

  lemma GoesNot(s: Core, fd: int)
    requires fd in s.conns && Kept(s, fd)
    ensures Goes(s, s, fd)
  {
  }

  /** The outcome of a receive loop. */
  function Drained(s: Core, fd: int, pending: seq<byte>, recvs: seq<P.Recv>): Core {
    P.Drain(PacketHandler(fd), s, pending, recvs).0
  }

  lemma DataDrains(s: Core, fd: int, pending: seq<byte>, recvs: seq<P.Recv>)
    requires fd in s.conns && Kept(s, fd) && recvs != [] && recvs[0].Data?
    ensures var (s1, rest) := P.Parse(PacketHandler(fd), s, pending + recvs[0].bytes);
            && Goes(s, s1, fd) && s1.conns.Keys == s.conns.Keys
            && Drained(s, fd, pending, recvs)
                 == if s1.conns[fd].closing then s1 else Drained(s1, fd, rest, recvs[1..])
  {
    ParseGoes(s, fd, pending + recvs[0].bytes);
  }

  lemma {:induction false} DrainGoes(s: Core, fd: int, pending: seq<byte>, recvs: seq<P.Recv>)
    requires fd in s.conns && Kept(s, fd)
    ensures Goes(s, Drained(s, fd, pending, recvs), fd)
    ensures Drained(s, fd, pending, recvs).conns.Keys == s.conns.Keys
    decreases |recvs|
  {
    if recvs == [] || recvs[0].Again? {
      GoesNot(s, fd);
    } else if recvs[0].Data? {
      var bytes := pending + recvs[0].bytes;
      DataDrains(s, fd, pending, recvs);
      var (s1, rest) := P.Parse(PacketHandler(fd), s, bytes);
      if !s1.conns[fd].closing {
        DrainGoes(s1, fd, rest, recvs[1..]);
        DataGoes(s, fd, bytes, Drained(s1, fd, rest, recvs[1..]));
      }
    } else if recvs[0].Intr? {
      DrainGoes(s, fd, pending, recvs[1..]);
    } else {
      DoomGoes(s, fd);
    }
  }

  lemma DoomGoes(s: Core, fd: int)
    requires fd in s.conns && Kept(s, fd)
    ensures Goes(s, PacketHandler(fd).doom(s), fd) && PacketHandler(fd).doom(s).conns.Keys == s.conns.Keys
  {
    DoomKeeps(s, fd, fd);
    UpdateGains(s, Doom(s, fd), fd, SPOKEN);
  }

  lemma ReadGoes(s: Core, fd: int, pending: seq<byte>, recvs: seq<P.Recv>)
    requires fd in s.conns && Kept(s, NOBODY) && NOBODY !in s.conns
    ensures var t := ReadEvent(s, fd, pending, recvs); Goes(s, t, NOBODY) && t.conns.Keys == s.conns.Keys
  {
    BusyKeeps(s, fd);
    DrainGoes(s, fd, pending, recvs);
    var s1 := P.Drain(PacketHandler(fd), s, pending, recvs).0;
    SettleKeeps(s1, fd);
    FlushArms(s1.conns[fd]);
    var t := Update(s1, fd, Dispatch(s1.batch, s1.conns[fd]));
    UpdateGains(s1, t, fd, SPOKEN);
    GainsTransitive(s, s1, t, SPOKEN);
  }

  /** A state between two events. */
  ghost predicate Steady(w: World) {
    Kept(w.core, NOBODY) && NOBODY !in w.core.conns && w.inb.Keys == w.core.conns.Keys
  }

  ghost predicate Stepped(w: World, v: World) {
    Steady(v) && Gains(w.core, v.core, SPOKEN) && SameMode(w.core, v.core) && w.core.conns.Keys <= v.core.conns.Keys
  }

  lemma WriteGoes(w: World, fd: int)
    requires Steady(w) && fd in w.core.conns
    ensures Stepped(w, World(Update(w.core, fd, FlushSend(w.core.conns[fd])), w.inb))
  {
    WriteKeeps(w.core, fd);
    FlushArms(w.core.conns[fd]);
    UpdateGains(w.core, Update(w.core, fd, FlushSend(w.core.conns[fd])), fd, SPOKEN);
  }

  lemma ReadStepGoes(w: World, fd: int, recvs: seq<P.Recv>)
    requires Steady(w) && fd in w.core.conns
    ensures Stepped(w, ReadStep(w, fd, recvs))
  {
    ReadGoes(w.core, fd, w.inb[fd], recvs);
  }

  lemma SteppedTransitive(w: World, v: World, u: World)
    requires Stepped(w, v) && Stepped(v, u)
    ensures Stepped(w, u)
  {
    GainsTransitive(w.core, v.core, u.core, SPOKEN);
  }

  lemma SteppedNot(w: World)
    requires Steady(w)
    ensures Stepped(w, w)
  {
  }

  lemma OpenGains(s: Core, fd: int, script: seq<Send>)
    requires fd !in s.conns
    ensures Gains(s, Update(s, fd, NewConn(script)), SPOKEN)
  {
  }

  lemma AcceptGoes(w: World, maxConns: nat, fd: int, script: seq<Send>)
    requires Steady(w) && fd >= 0 && fd !in w.core.conns
    ensures Stepped(w, EventStep(w, maxConns, Incoming(fd, script)))
  {
    SteppedNot(w);
    AcceptKeeps(w.core, fd, script);
    OpenGains(w.core, fd, script);
  }

  lemma ReadyGoes(w: World, maxConns: nat, e: Event)
    requires Steady(w) && e.Ready?
    ensures Stepped(w, EventStep(w, maxConns, e))
  {
    var fd := e.fd;
    SteppedNot(w);
    if fd in w.core.conns && !w.core.conns[fd].closing {
      if e.hangup {
        DoomKeeps(w.core, fd, NOBODY);
        UpdateGains(w.core, Doom(w.core, fd), fd, SPOKEN);
      } else {
        var w1 := w;
        if e.writable {
          WriteGoes(w, fd);
          w1 := World(Update(w.core, fd, FlushSend(w.core.conns[fd])), w.inb);
        }
        if !w1.core.conns[fd].closing && e.readable {
          ReadStepGoes(w1, fd, e.recvs);
          SteppedTransitive(w, w1, ReadStep(w1, fd, e.recvs));
        }
      }
    }
  }

  /** No event queues a tick frame, and every event keeps the invariant. */
  lemma {:induction false} EventsGo(w: World, maxConns: nat, events: seq<Event>)
    requires Steady(w) && Legal(events, w.core.conns.Keys, maxConns)
    ensures Stepped(w, EventSteps(w, maxConns, events))
    decreases |events|
  {
    if events == [] {
      SteppedNot(w);
    } else {
      var e, v := events[0], EventStep(w, maxConns, events[0]);
      if e.Incoming? {
        AcceptGoes(w, maxConns, e.newFd, e.script);
      } else {
        ReadyGoes(w, maxConns, e);
      }
      EventKeys(w, maxConns, e);
      EventsGo(v, maxConns, events[1..]);
      SteppedTransitive(w, v, EventSteps(v, maxConns, events[1..]));
    }
  }

  lemma EventKeys(w: World, maxConns: nat, e: Event)
    requires Steady(w) && (e.Incoming? ==> e.newFd !in w.core.conns)
    ensures EventStep(w, maxConns, e).core.conns.Keys == Opened(w.core.conns.Keys, maxConns, e)
  {
    assert |w.core.conns| == |w.core.conns.Keys|;
    if e.Ready? && e.fd in w.core.conns && !w.core.conns[e.fd].closing && !e.hangup && e.readable {
      var w1 := if e.writable then World(Update(w.core, e.fd, FlushSend(w.core.conns[e.fd])), w.inb) else w;
      WriteGoes(w, e.fd);
      ReadGoes(w1.core, e.fd, w1.inb[e.fd], e.recvs);
    }
  }

  // ---- the tail queues notices only

  ghost predicate NoLines(s: Core) {
    forall r :: r in s.tick ==> s.tick[r] == Buffer([], [])
  }

  /** Lines are lost only with their room. */
  ghost predicate Holds(s: Core, t: Core) {
    && t.tick.Keys <= s.tick.Keys && (forall r :: r in t.tick ==> t.tick[r] == s.tick[r])
    && forall r :: r in s.tick && r in t.rooms ==> r in t.tick
  }

  /** What the tail of a pass keeps. */
  ghost predicate Wanes(s: Core, t: Core) {
    && Gains(s, t, NOTICES) && t.conns.Keys <= s.conns.Keys && t.rooms.Keys <= s.rooms.Keys
    && t.dropped == s.dropped && Holds(s, t)
  }

  lemma WanesTransitive(s: Core, t: Core, u: Core)
    requires Wanes(s, t) && Wanes(t, u)
    ensures Wanes(s, u)
  {
    GainsTransitive(s, t, u, NOTICES);
  }

  lemma FlushWanes(s: Core)
    ensures Wanes(s, FlushDirty(s))
  {
    forall fd | fd in s.conns
      ensures Adds(s.conns[fd], FlushDirty(s).conns[fd], NOTICES)
    {
      FlushArms(s.conns[fd].(dirty := false));
    }
  }

  lemma FarewellWanes(s: Core, fd: int)
    requires fd in s.conns
    ensures Wanes(s, Farewell(s, fd))
  {
    var c, s1 := s.conns[fd], LeaveRoom(s, fd);
    LeaveGains(s, fd, NOTICES);
    LeaveGrows(s, fd);
    BroadcastGains(s1, c.room, S_NOTICE, c.nick + Text(" left"), fd, NOTICES);
    GainsTransitive(s, s1, Broadcast(s1, c.room, S_NOTICE, c.nick + Text(" left"), fd), NOTICES);
  }

  lemma ReapWanes(s: Core, fd: int)
    requires fd in s.conns
    ensures Wanes(s, ReapOne(s, fd))
  {
    FarewellWanes(s, fd);
    var t, u := Farewell(s, fd), ReapOne(s, fd);
    forall x | x in u.conns
      ensures Adds(s.conns[x], u.conns[x], NOTICES)
    {
      assert u.conns[x] == t.conns[x];
    }
  }

  lemma WanesNot(s: Core)
    ensures Wanes(s, s)
  {
  }

  lemma {:induction false} ReapAllWanes(s: Core, fds: seq<int>)
    ensures Wanes(s, ReapAll(s, fds))
  {
    WanesNot(s);
    if fds != [] {
      var s1 := ReapAll(s, fds[..|fds| - 1]);
      ReapAllWanes(s, fds[..|fds| - 1]);
      if fds[|fds| - 1] in s1.conns {
        ReapWanes(s1, fds[|fds| - 1]);
        WanesTransitive(s, s1, ReapOne(s1, fds[|fds| - 1]));
      }
    }
  }

  lemma TailWanes(s: Core, closed: seq<int>)
    ensures Wanes(s, Tail(s, closed))
  {
    FlushWanes(s);
    WanesNot(s);
    var m := Reapable(s);
    ReapAllWanes(m, closed);
    WanesTransitive(s, m, ReapAll(m, closed));
    FlushWanes(ReapAll(m, closed));
    if s.batch {
      WanesTransitive(s, ReapAll(m, closed), Tail(s, closed));
    }
  }

  // ---- a pass

  /** A due tick leaves no line in any buffer. */
  lemma DueTickEmpties(w: World, maxConns: nat, events: seq<Event>, closed: seq<int>)
    requires Steady(w) && Legal(events, w.core.conns.Keys, maxConns) && w.core.coalesce
    ensures NoLines(Pass(w, maxConns, events, true, closed).core)
    ensures Pass(w, maxConns, events, true, closed).core.dropped == EventSteps(w, maxConns, events).core.dropped
  {
    EventsGo(w, maxConns, events);
    var u := Worked(w, maxConns, events, true).core;
    assert NoLines(u);
    TailWanes(u, closed);
  }

  /** A member of a buffered room that stays within its cap with the room's tick. */
  predicate Fits(s: Core, fd: int)
    requires fd in s.conns
  {
    var c := s.conns[fd];
    && !c.closing && c.room in s.tick && s.tick[c.room].lines != []
    && |c.out| + HEADER + |s.tick[c.room].bytes| <= SEND_CAP
  }

  /** A due tick: whoever is still there after the pass was queued, behind what the
      events queued for it, exactly one tick frame if lines were buffered for its room
      then, and this frame decodes to those lines; and otherwise none. Behind it come
      only the notices of the reap. */
  lemma DueTickIsSent(w: World, maxConns: nat, events: seq<Event>, closed: seq<int>, fd: int)
    requires Steady(w) && Legal(events, w.core.conns.Keys, maxConns) && w.core.coalesce
    requires fd in Pass(w, maxConns, events, true, closed).core.conns
    ensures var u, t := EventSteps(w, maxConns, events).core, Pass(w, maxConns, events, true, closed).core;
            && fd in u.conns
            && var c, d := u.conns[fd], t.conns[fd];
            if Fits(u, fd) then
              var buf := u.tick[c.room];
              && Adds(c.(queued := c.queued + [Frame(S_TICK, buf.bytes)]), d, NOTICES)
              && |buf.bytes| < 65536 && TickContainer.DecodeLines(buf.bytes) == (buf.lines, false)
            else Adds(c, d, NOTICES)
  {
    EventsGo(w, maxConns, events);
    var u := EventSteps(w, maxConns, events).core;
    var v := FlushTickRooms(u);
    TailWanes(v, closed);
    assert fd in v.conns;
    TickedOnce(u, fd);
    AddsTransitive(v.conns[fd], v.conns[fd], Tail(v, closed).conns[fd], NOTICES);
  }

  /** What the tick itself queues. */
  lemma TickedOnce(s: Core, fd: int)
    requires Kept(s, NOBODY) && fd in s.conns
    ensures var c, d := s.conns[fd], FlushTickRooms(s).conns[fd];
            if Fits(s, fd) then
              var buf := s.tick[c.room];
              && d.queued == c.queued + [Frame(S_TICK, buf.bytes)]
              && |buf.bytes| < 65536 && TickContainer.DecodeLines(buf.bytes) == (buf.lines, false)
            else d.queued == c.queued
  {
    if !s.conns[fd].closing {
      TickDelivers(s, fd);
    }
  }

  lemma {:induction false} ReapLosesNoDoom(s: Core, fds: seq<int>, fd: int)
    requires Closing(s, fd) && fd in ReapAll(s, fds).conns
    ensures Closing(ReapAll(s, fds), fd)
  {
    if fds != [] {
      var init, last := fds[..|fds| - 1], fds[|fds| - 1];
      var s1 := ReapAll(s, init);
      if last in s1.conns {
        FarewellGrows(s1, last);
      }
      ReapLosesNoDoom(s, init, fd);
    }
  }

  /** A member whom the frame would take over its cap is closed by the reap of the same
      pass. */
  lemma OverCapIsClosed(w: World, maxConns: nat, events: seq<Event>, closed: seq<int>, fd: int)
    requires Steady(w) && Legal(events, w.core.conns.Keys, maxConns) && w.core.coalesce
    requires Reaps(Reapable(Worked(w, maxConns, events, true).core), closed)
    requires fd in EventSteps(w, maxConns, events).core.conns
    ensures var u := EventSteps(w, maxConns, events).core;
            var c := u.conns[fd];
            !c.closing && c.room in u.tick && u.tick[c.room].lines != [] && !Fits(u, fd) ==>
              fd !in Pass(w, maxConns, events, true, closed).core.conns
  {
    EventsGo(w, maxConns, events);
    var u := EventSteps(w, maxConns, events).core;
    var c := u.conns[fd];
    if !c.closing && c.room in u.tick && u.tick[c.room].lines != [] && !Fits(u, fd) {
      TickDelivers(u, fd);
      DoomedIsReaped(FlushTickRooms(u), closed, fd);
    }
  }

  /** Whoever is closing when the tail begins is gone when it ends. */
  lemma DoomedIsReaped(s: Core, closed: seq<int>, fd: int)
    requires Closing(s, fd) && Reaps(Reapable(s), closed)
    ensures fd !in Tail(s, closed).conns
  {
    var m := Reapable(s);
    FlushArms(s.conns[fd].(dirty := false));
    assert Closing(m, fd);
    var r := ReapAll(m, closed);
    assert closed[..|closed|] == closed && InTurn(m, closed, |closed|);
    assert closed[|closed|..] == [];
    if fd in r.conns {
      ReapLosesNoDoom(m, closed, fd);
      assert false;
    }
  }

  /** Without a due tick, or outside coalesce mode, nobody is queued a tick frame in a
      whole pass, and after the events a line is lost only with its room. */
  lemma NoTickUnlessDue(w: World, maxConns: nat, events: seq<Event>, tickDue: bool, closed: seq<int>)
    requires Steady(w) && Legal(events, w.core.conns.Keys, maxConns) && !(tickDue && w.core.coalesce)
    ensures var u, t := EventSteps(w, maxConns, events).core, Pass(w, maxConns, events, tickDue, closed).core;
            && Gains(w.core, t, SPOKEN) && S_TICK !in SPOKEN
            && t.dropped == u.dropped && Holds(u, t)
  {
    EventsGo(w, maxConns, events);
    var u := EventSteps(w, maxConns, events).core;
    TailWanes(u, closed);
    NoticesAreSpoken(u, Tail(u, closed));
    GainsTransitive(w.core, u, Tail(u, closed), SPOKEN);
  }

  lemma NoticesAreSpoken(s: Core, t: Core)
    requires Gains(s, t, NOTICES)
    ensures Gains(s, t, SPOKEN)
  {
  }
}
