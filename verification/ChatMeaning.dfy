/** What the packets of the chat protocol mean to the people connected: who is told
    what, and who is in which room. A connection still live afterwards was queued
    exactly the frames named here, in this order, and it is doomed exactly when the cap
    or a failing send says so. */
module ChatMeaning {
  import opened Wire
  import opened ChatConn
  import opened ChatCore
  import opened ChatSends

  /** The frame a payload becomes; one over the limit is dropped. */
  function Told(hears: bool, typ: u16, payload: seq<byte>): seq<RawFrame> {
    if hears && |payload| <= MAX_PAYLOAD then [Frame(typ, payload)] else []
  }

  lemma QueueAdds(c: Conn, typ: u16, payload: seq<byte>)
    ensures var d := QueueSend(c, typ, payload);
            !d.closing ==> !c.closing && d.queued == c.queued + Told(true, typ, payload)
  {
  }

  lemma DeliverAdds(batch: bool, c: Conn, typ: u16, payload: seq<byte>)
    ensures var d := Deliver(batch, c, typ, payload);
            !d.closing ==> !c.closing && d.queued == c.queued + Told(true, typ, payload)
  {
    QueueAdds(c, typ, payload);
    DispatchFlags(batch, QueueSend(c, typ, payload));
    FlushArms(QueueSend(c, typ, payload));
  }

  /** A connection after one stop of a broadcast. */
  function Heard(batch: bool, c: Conn, hears: bool, typ: u16, payload: seq<byte>): Conn {
    if hears && !c.closing then Deliver(batch, c, typ, payload) else c
  }

  /** One stop of a broadcast: who hears it is told once, and doomed exactly when the
      cap or its send says so. */
  lemma HeardTells(batch: bool, c: Conn, hears: bool, typ: u16, payload: seq<byte>)
    ensures var d := Heard(batch, c, hears, typ, payload);
            && d.room == c.room && d.nick == c.nick
            && (!d.closing ==> !c.closing && d.queued == c.queued + Told(hears, typ, payload))
            && (d.closing <==> c.closing || (hears && Breaks(batch, c, payload)))
  {
    DeliverAdds(batch, c, typ, payload);
    DeliverFlags(batch, c, typ, payload);
    if !c.closing {
      DeliverDoomsIff(batch, c, typ, payload);
    }
  }

  /** A broadcast reaches exactly the other members of the room, and changes nobody
      else. */
  lemma BroadcastTells(s: Core, room: Name, typ: u16, payload: seq<byte>, except: int, x: int)
    requires Members(s) && x in s.conns && room != []
    ensures var c, d := s.conns[x], Broadcast(s, room, typ, payload, except).conns[x];
            && d == Heard(s.batch, c, c.room == room && x != except, typ, payload)
            && d.room == c.room && d.nick == c.nick
            && (!d.closing ==> !c.closing && d.queued == c.queued + Told(c.room == room && x != except, typ, payload))
            && (d.closing <==> c.closing || (c.room == room && x != except && Breaks(s.batch, c, payload)))
  {
    HeardTells(s.batch, s.conns[x], s.conns[x].room == room && x != except, typ, payload);
    assert room in s.rooms && x in s.rooms[room] <==> s.conns[x].room == room;
  }

  // ---- nicks and refusals

  /** What a connection that was answered looks like. */
  ghost predicate Answered(c: Conn, d: Conn, answer: seq<byte>) {
    && (!d.closing ==> !c.closing && d.queued == c.queued + Told(true, S_NOTICE, answer))
    && (d.closing <==> c.closing || Overflows(c, answer))
    && d.sent == c.sent && c.out <= d.out && d.room == c.room
  }

  /** Nothing changes but one connection. */
  ghost predicate OnlyConn(s: Core, t: Core, fd: int)
    requires fd in s.conns
  {
    fd in t.conns && t == s.(conns := s.conns[fd := t.conns[fd]])
  }

  lemma ReplyAnswers(s: Core, fd: int, answer: seq<byte>)
    requires fd in s.conns
    ensures var t := Reply(s, fd, answer);
            && OnlyConn(s, t, fd) && t.conns[fd].nick == s.conns[fd].nick && Answered(s.conns[fd], t.conns[fd], answer)
  {
    QueueDoomsIff(s.conns[fd], S_NOTICE, answer);
  }

  /** A nick is what was sent, cut to 31 bytes; only its owner hears of it. */
  lemma NickTells(s: Core, fd: int, f: Frame)
    requires fd in s.conns && f.typ == C_SET_NICK
    ensures var t := HandlePacket(s, fd, f);
            && OnlyConn(s, t, fd) && t.conns[fd].nick == f.body[..Min(31, |f.body|)]
            && Answered(s.conns[fd], t.conns[fd], Text("nick set to ") + t.conns[fd].nick)
  {
    QueueDoomsIff(s.conns[fd], S_NOTICE, Text("nick set to ") + Prefix(f.body, NICK_MAX));
  }

  /** Why a packet is refused, if it is. */
  function Refusal(c: Conn, f: Frame): seq<byte> {
    if f.typ == C_JOIN && c.nick == [] then Text("set a nickname first")
    else if f.typ == C_JOIN && f.body == [] then Text("room name required")
    else if f.typ == C_CHAT && c.room == [] then Text("join a room first")
    else []
  }

  /** A refused packet is answered to its sender, and nobody else hears of it. */
  lemma RefusalTells(s: Core, fd: int, f: Frame)
    requires fd in s.conns && Refusal(s.conns[fd], f) != []
    ensures var t := HandlePacket(s, fd, f);
            && OnlyConn(s, t, fd) && t.conns[fd].nick == s.conns[fd].nick
            && Answered(s.conns[fd], t.conns[fd], Refusal(s.conns[fd], f))
  {
    ReplyAnswers(s, fd, Refusal(s.conns[fd], f));
    assert Prefix(f.body, ROOM_MAX) == [] <==> f.body == [];
    assert HandlePacket(s, fd, f) == Reply(s, fd, Refusal(s.conns[fd], f));
  }

  /** A packet that is none of the three dooms its sender, and does nothing else. */
  lemma UnknownDooms(s: Core, fd: int, f: Frame)
    requires fd in s.conns && f.typ !in {C_SET_NICK, C_JOIN, C_CHAT}
    ensures HandlePacket(s, fd, f) == s.(conns := s.conns[fd := s.conns[fd].(closing := true)])
  {
  }

  /** The answers are the bytes of their letters. */
  lemma TextIs(s: string, i: nat)
    requires i < |s| && s[i] as int < 256
    ensures |Text(s)| == |s| && Text(s)[i] == s[i] as int
  {
  }

  // ---- chat lines

  function Line(c: Conn, payload: seq<byte>): seq<byte> {
    c.nick + Text(": ") + payload
  }

  /** A chat line goes to everyone in the sender's room, the sender included, and to
      nobody else; membership does not change. */
  lemma ChatTells(s: Core, fd: int, f: Frame, x: int)
    requires Members(s) && fd in s.conns && x in s.conns && s.conns[fd].room != [] && !s.coalesce && x != NOBODY
    requires f.typ == C_CHAT
    ensures var t, line := HandlePacket(s, fd, f), Line(s.conns[fd], f.body);
            var c, d, here := s.conns[x], t.conns[x], s.conns[x].room == s.conns[fd].room;
            && t == s.(conns := t.conns) && d.room == c.room && d.nick == c.nick && (!here ==> d == c)
            && (!d.closing ==> d.queued == c.queued + Told(here, S_CHAT, line))
            && (d.closing <==> c.closing || (here && Breaks(s.batch, c, line)))
  {
    BroadcastTells(s, s.conns[fd].room, S_CHAT, Line(s.conns[fd], f.body), NOBODY, x);
  }

  /** A listener who is still there afterwards was told the line exactly when line and
      header make a legal frame: a line over the limit is dropped, and nobody told. */
  lemma LineIsToldIff(s: Core, fd: int, f: Frame, x: int)
    requires Members(s) && fd in s.conns && x in s.conns && s.conns[fd].room != [] && !s.coalesce && x != NOBODY
    requires f.typ == C_CHAT && s.conns[x].room == s.conns[fd].room && !HandlePacket(s, fd, f).conns[x].closing
    ensures HandlePacket(s, fd, f).conns[x].queued == s.conns[x].queued + [Frame(S_CHAT, Line(s.conns[fd], f.body))]
       <==> |s.conns[fd].nick| + 2 + |f.body| <= MAX_PAYLOAD
  {
    ChatTells(s, fd, f, x);
    assert |Text(": ")| == 2;
  }

  /** The payload is one the parser accepts, and the line one too long to send: nobody in
      the room is told anything. In coalesce mode the same line is recorded. */
  lemma LongLineIsLost(nick: seq<byte>, room: Name, payload: seq<byte>)
    requires |nick| == 1 && room != [] && |payload| == MAX_PAYLOAD
    ensures var c := NewConn([]).(nick := nick, room := room);
            var alone := Core(false, false, map[1 := c], map[room := {1}], map[], 0);
            && Chat(alone, 1, payload).conns[1].queued == []
            && Chat(alone.(coalesce := true), 1, payload).tick[room].lines == [Line(c, payload)]
  {
    assert |Text(": ")| == 2;
  }

  /** A coalesced line is recorded behind the lines of its room exactly when with its
      two bytes of length it fits the tick cap, and else counted as dropped; no
      connection and no other buffer changes. */
  lemma CoalesceRecords(s: Core, fd: int, f: Frame)
    requires Kept(s, fd) && fd in s.conns && s.conns[fd].room != [] && s.coalesce && f.typ == C_CHAT
    ensures var t, room, line := HandlePacket(s, fd, f), s.conns[fd].room, Line(s.conns[fd], f.body);
            var before := if room in s.tick then s.tick[room] else Buffer([], []);
            && t.conns == s.conns && t.rooms == s.rooms && room in t.tick && t.coalesce
            && (forall r :: r in t.tick <==> r in s.tick || r == room)
            && (forall r :: r in s.tick && r != room ==> t.tick[r] == s.tick[r])
            && if |before.bytes| + 2 + |line| <= TICK_CAP
               then t.tick[room].lines == before.lines + [line] && t.dropped == s.dropped
               else t.tick[room] == before && t.dropped == s.dropped + 1
  {
  }

  // ---- joining

  /** The state after the departure from the old room, if there was one. */
  function Departed(s: Core, fd: int): Core
    requires fd in s.conns
  {
    if s.conns[fd].room == [] then s
    else LeaveRoom(Broadcast(s, s.conns[fd].room, S_NOTICE, s.conns[fd].nick + Text(" left"), fd), fd)
  }

  lemma DepartTells(s: Core, fd: int, x: int)
    requires Members(s) && fd in s.conns && x in s.conns
    ensures Members(Departed(s, fd)) && Departed(s, fd).conns.Keys == s.conns.Keys
    ensures var c, d := s.conns[x], Departed(s, fd).conns[x];
            && d.nick == c.nick && d.room == (if x == fd then [] else c.room)
            && (x == fd ==> d == c.(room := []))
            && (x != fd ==> d == Heard(s.batch, c, s.conns[fd].room != [] && c.room == s.conns[fd].room,
                                       S_NOTICE, s.conns[fd].nick + Text(" left")))
            && (!d.closing ==>
                  d.queued == c.queued + Told(s.conns[fd].room != [] && c.room == s.conns[fd].room && x != fd,
                                              S_NOTICE, s.conns[fd].nick + Text(" left")))
  {
    var room, bye := s.conns[fd].room, s.conns[fd].nick + Text(" left");
    if room != [] {
      BroadcastTells(s, room, S_NOTICE, bye, fd, x);
      BroadcastTells(s, room, S_NOTICE, bye, fd, fd);
      BroadcastMembers(s, room, S_NOTICE, bye, fd);
      LeaveMembers(Broadcast(s, room, S_NOTICE, bye, fd), fd);
      LeaveGrows(Broadcast(s, room, S_NOTICE, bye, fd), fd);
    }
  }

  /** The state once the newcomer is linked in and has its answer. */
  function Arrived(s: Core, fd: int, room: Name, answer: seq<byte>): Core
    requires fd in s.conns
  {
    Reply(EnterRoom(s, fd, room), fd, answer)
  }

  lemma ArriveTells(s: Core, fd: int, room: Name, answer: seq<byte>, x: int)
    requires Members(s) && fd in s.conns && x in s.conns && s.conns[fd].room == [] && room != []
    ensures Members(Arrived(s, fd, room, answer)) && Arrived(s, fd, room, answer).conns.Keys == s.conns.Keys
    ensures var c, d := s.conns[x], Arrived(s, fd, room, answer).conns[x];
            && d.nick == c.nick && d.room == (if x == fd then room else c.room)
            && d == (if x == fd then QueueSend(c.(room := room), S_NOTICE, answer) else c)
            && (!d.closing ==> d.queued == c.queued + Told(x == fd, S_NOTICE, answer))
  {
    EnterMembers(s, fd, room);
    var s1 := EnterRoom(s, fd, room);
    QueueAdds(s1.conns[fd], S_NOTICE, answer);
    RelabelMembers(s1, Arrived(s, fd, room, answer).conns);
  }

  /** What a move to `room` means to connection `x`: exactly the mover moves; the old room
      hears the goodbye, the mover its answer, the new room the greeting, in this order
      and nobody else; and exactly those are doomed whom the cap or a failing send says,
      the mover by its answer, the others by what they hear. */
  ghost predicate Moved(s: Core, t: Core, fd: int, room: Name, answer: seq<byte>, x: int)
    requires fd in s.conns && x in s.conns && x in t.conns
  {
    var j, c, d := s.conns[fd], s.conns[x], t.conns[x];
    var bye, hello := j.nick + Text(" left"), j.nick + Text(" joined");
    var left, joined := j.room != [] && c.room == j.room, c.room == room;
    && d.room == (if x == fd then room else c.room) && d.nick == c.nick
    && (!d.closing ==>
          d.queued == c.queued + Told(left && x != fd, S_NOTICE, bye) + Told(x == fd, S_NOTICE, answer)
                               + Told(joined && x != fd, S_NOTICE, hello))
    && if x == fd then d.closing <==> c.closing || Overflows(c, answer)
       else
         var mid := Heard(s.batch, c, left, S_NOTICE, bye);
         && d == Heard(s.batch, mid, joined, S_NOTICE, hello)
         && (d.closing <==> c.closing || (left && Breaks(s.batch, c, bye)) || (joined && Breaks(s.batch, mid, hello)))
  }

  lemma MoveTells(s: Core, fd: int, room: Name, answer: seq<byte>, x: int)
    requires Members(s) && fd in s.conns && x in s.conns && room != []
    ensures x in Move(s, fd, room, answer).conns && Moved(s, Move(s, fd, room, answer), fd, room, answer, x)
  {
    var j, c := s.conns[fd], s.conns[x];
    DepartTells(s, fd, x);
    DepartTells(s, fd, fd);
    var s1 := Departed(s, fd);
    ArriveTells(s1, fd, room, answer, x);
    BroadcastTells(Arrived(s1, fd, room, answer), room, S_NOTICE, j.nick + Text(" joined"), fd, x);
    if x == fd {
      QueueDoomsIff(j.(room := room), S_NOTICE, answer);
    } else {
      HeardTells(s.batch, c, j.room != [] && c.room == j.room, S_NOTICE, j.nick + Text(" left"));
    }
  }

  /** A join with a nick and a room name moves the joiner to the name, cut to 63 bytes. */
  lemma JoinTells(s: Core, fd: int, f: Frame, x: int)
    requires Members(s) && fd in s.conns && x in s.conns && s.conns[fd].nick != [] && f.body != []
    requires f.typ == C_JOIN
    ensures var t, room := HandlePacket(s, fd, f), f.body[..Min(63, |f.body|)];
            x in t.conns && Moved(s, t, fd, room, Text("joined ") + room, x)
  {
    var room := Prefix(f.body, ROOM_MAX);
    MoveTells(s, fd, room, Text("joined ") + room, x);
  }

  /** The buffers after a connection leaves its room: that of a room it was alone in is
      gone, and no other line is lost. */
  function LinesLeft(s: Core, fd: int): map<Name, Buffer>
    requires fd in s.conns
  {
    var room := s.conns[fd].room;
    if s.coalesce && room in s.rooms && s.rooms[room] == {fd} then s.tick - {room} else s.tick
  }

  lemma LeaveLines(s: Core, fd: int)
    requires Members(s) && fd in s.conns
    ensures LeaveRoom(s, fd).tick == LinesLeft(s, fd) && LeaveRoom(s, fd).dropped == s.dropped
  {
    var room := s.conns[fd].room;
    if room in s.rooms {
      assert fd in s.rooms[room];
      assert s.rooms[room] - {fd} == {} <==> s.rooms[room] == {fd};
    }
  }

  /** A move loses lines only with the room the mover was alone in. */
  lemma MoveKeepsLines(s: Core, fd: int, room: Name, answer: seq<byte>)
    requires Members(s) && fd in s.conns
    ensures Move(s, fd, room, answer).tick == LinesLeft(s, fd) && Move(s, fd, room, answer).dropped == s.dropped
  {
    var bye := s.conns[fd].nick + Text(" left");
    if s.conns[fd].room != [] {
      BroadcastTells(s, s.conns[fd].room, S_NOTICE, bye, fd, fd);
      BroadcastMembers(s, s.conns[fd].room, S_NOTICE, bye, fd);
      LeaveLines(Broadcast(s, s.conns[fd].room, S_NOTICE, bye, fd), fd);
    }
  }

  // ---- the reap

  /** Closing a connection tells exactly the rest of its room, if it had a nick, and loses
      lines only with a room it was alone in. */
  lemma ReapTells(s: Core, fd: int, x: int)
    requires Members(s) && fd in s.conns && x in s.conns && x != fd
    ensures ReapOne(s, fd).tick == LinesLeft(s, fd)
    ensures var t, g, c := ReapOne(s, fd), s.conns[fd], s.conns[x];
            var bye, hears := g.nick + Text(" left"), g.nick != [] && g.room != [] && c.room == g.room;
            && fd !in t.conns && x in t.conns && t.conns[x].room == c.room
            && t.conns[x] == Heard(s.batch, c, hears, S_NOTICE, bye)
            && (!t.conns[x].closing ==> t.conns[x].queued == c.queued + Told(hears, S_NOTICE, bye))
            && (t.conns[x].closing <==> c.closing || (hears && Breaks(s.batch, c, bye)))
  {
    var g, s1 := s.conns[fd], LeaveRoom(s, fd);
    LeaveMembers(s, fd);
    LeaveGrows(s, fd);
    LeaveLines(s, fd);
    if g.room != [] && g.nick != [] {
      BroadcastTells(s1, g.room, S_NOTICE, g.nick + Text(" left"), fd, x);
    }
  }
}
