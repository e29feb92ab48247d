/** The chat protocol of server.cpp as functions on a value state: rooms, packet
    handling, coalesced ticks and reaping. A room is a set, so what a broadcast
    does to the connections does not depend on the order of the walk. */
module ChatCore {
  import opened Wire
  import opened ChatConn
  import opened TickContainer
  import FrameParser

  const C_SET_NICK: u16 := 1
  const C_JOIN: u16 := 2
  const C_CHAT: u16 := 3
  const S_NOTICE: u16 := 100
  const S_CHAT: u16 := 101
  const NICK_MAX: nat := 31
  const ROOM_MAX: nat := 63
  const TICK_CAP: nat := 32768
  const NOBODY: int := -1

  type Name = seq<byte>

  /** A room's tick buffer, with the lines it stands for (history). */
  datatype Buffer = Buffer(bytes: seq<byte>, lines: seq<seq<byte>>)

  datatype Core = Core(
    batch: bool,
    coalesce: bool,
    conns: map<int, Conn>,
    rooms: map<Name, set<int>>,
    tick: map<Name, Buffer>,
    dropped: nat
  )

  function Text(s: string): seq<byte> {
    seq(|s|, i requires 0 <= i < |s| => (s[i] as int) % 256)
  }

  function Prefix(s: seq<byte>, n: nat): seq<byte> {
    s[..Min(n, |s|)]
  }

  // ---- broadcast and rooms

  predicate Hears(s: Core, room: Name, except: int, fd: int)
    requires fd in s.conns
  {
    room in s.rooms && fd in s.rooms[room] && fd != except && !s.conns[fd].closing
  }

  function Broadcast(s: Core, room: Name, typ: u16, payload: seq<byte>, except: int): Core {
    s.(conns := map fd | fd in s.conns ::
                  if Hears(s, room, except, fd) then Deliver(s.batch, s.conns[fd], typ, payload) else s.conns[fd])
  }

  function Update(s: Core, fd: int, c: Conn): Core {
    s.(conns := s.conns[fd := c])
  }

  function Entered(rooms: map<Name, set<int>>, room: Name, fd: int): map<Name, set<int>> {
    rooms[room := (if room in rooms then rooms[room] else {}) + {fd}]
  }

  /** A room disappears with its last member. */
  function Left(rooms: map<Name, set<int>>, room: Name, fd: int): map<Name, set<int>> {
    if room !in rooms then rooms
    else if rooms[room] - {fd} == {} then rooms - {room}
    else rooms[room := rooms[room] - {fd}]
  }

  function LeaveRoom(s: Core, fd: int): Core
    requires fd in s.conns
  {
    var room := s.conns[fd].room;
    var out := Update(s, fd, s.conns[fd].(room := []));
    if room == [] then out
    else
      var rooms := Left(s.rooms, room, fd);
      out.(rooms := rooms, tick := if s.coalesce && room in s.rooms && room !in rooms then s.tick - {room} else s.tick)
  }

  function EnterRoom(s: Core, fd: int, room: Name): Core
    requires fd in s.conns
  {
    Update(s, fd, s.conns[fd].(room := room)).(rooms := Entered(s.rooms, room, fd))
  }

  function Reply(s: Core, fd: int, payload: seq<byte>): Core
    requires fd in s.conns
  {
    Update(s, fd, QueueSend(s.conns[fd], S_NOTICE, payload))
  }

  // ---- packets

  function SetNick(s: Core, fd: int, payload: seq<byte>): Core
    requires fd in s.conns
  {
    var nick := Prefix(payload, NICK_MAX);
    Reply(Update(s, fd, s.conns[fd].(nick := nick)), fd, Text("nick set to ") + nick)
  }

  function Join(s: Core, fd: int, payload: seq<byte>): Core
    requires fd in s.conns
  {
    var room := Prefix(payload, ROOM_MAX);
    if s.conns[fd].nick == [] then Reply(s, fd, Text("set a nickname first"))
    else if room == [] then Reply(s, fd, Text("room name required"))
    else Move(s, fd, room, Text("joined ") + room)
  }

  /** Out of the present room, if any, and into another. */
  function Move(s: Core, fd: int, room: Name, answer: seq<byte>): Core
    requires fd in s.conns
  {
    var nick, from := s.conns[fd].nick, s.conns[fd].room;
    var s1 := if from == [] then s
              else LeaveRoom(Broadcast(s, from, S_NOTICE, nick + Text(" left"), fd), fd);
    Broadcast(Reply(EnterRoom(s1, fd, room), fd, answer), room, S_NOTICE, nick + Text(" joined"), fd)
  }

  function Coalesce(s: Core, room: Name, line: seq<byte>): Core {
    var buf := if room in s.tick then s.tick[room] else Buffer([], []);
    if |buf.bytes| + 2 + |line| > TICK_CAP then s.(tick := s.tick[room := buf], dropped := s.dropped + 1)
    else s.(tick := s.tick[room := Buffer(buf.bytes + EncodeLine(line), buf.lines + [line])])
  }

  function Chat(s: Core, fd: int, payload: seq<byte>): Core
    requires fd in s.conns
  {
    var c := s.conns[fd];
    var line := c.nick + Text(": ") + payload;
    if c.room == [] then Reply(s, fd, Text("join a room first"))
    else if s.coalesce then Coalesce(s, c.room, line)
    else Broadcast(s, c.room, S_CHAT, line, NOBODY)
  }

  function Doom(s: Core, fd: int): Core
    requires fd in s.conns
  {
    Update(s, fd, s.conns[fd].(closing := true))
  }

  function HandlePacket(s: Core, fd: int, f: Frame): Core
    requires fd in s.conns
  {
    if f.typ == C_SET_NICK then SetNick(s, fd, f.body)
    else if f.typ == C_JOIN then Join(s, fd, f.body)
    else if f.typ == C_CHAT then Chat(s, fd, f.body)
    else Doom(s, fd)
  }

  /** The packet handler of one connection, in the parser's terms. */
  function PacketHandler(fd: int): FrameParser.Handler<Core> {
    FrameParser.Handler(
      (s: Core, f: Frame) => if fd in s.conns then HandlePacket(s, fd, f) else s,
      (s: Core) => fd !in s.conns || s.conns[fd].closing,
      (s: Core) => if fd in s.conns then Doom(s, fd) else s)
  }

  // ---- tick and reap

  predicate TickDue(s: Core, fd: int)
    requires fd in s.conns
  {
    var room := s.conns[fd].room;
    && room in s.tick && s.tick[room].bytes != []
    && room in s.rooms && fd in s.rooms[room] && !s.conns[fd].closing
  }

  function Emptied(tick: map<Name, Buffer>): map<Name, Buffer> {
    map room | room in tick :: Buffer([], [])
  }

  /** Every buffered room goes to each of its members as one frame. */
  function FlushTickRooms(s: Core): Core {
    s.(conns := map fd | fd in s.conns ::
                  if TickDue(s, fd) then DeliverTick(s.batch, s.conns[fd], s.tick[s.conns[fd].room].bytes)
                  else s.conns[fd],
       tick := Emptied(s.tick))
  }

  /** flush_dirty(): every dirty connection is flushed once. */
  function FlushDirty(s: Core): Core {
    s.(conns := map fd | fd in s.conns :: if s.conns[fd].dirty then FlushOne(s.conns[fd]) else s.conns[fd])
  }

  /** What a reap does before it erases the connection. */
  function Farewell(s: Core, fd: int): Core
    requires fd in s.conns
  {
    var c := s.conns[fd];
    var s1 := LeaveRoom(s, fd);
    if c.room != [] && c.nick != [] then Broadcast(s1, c.room, S_NOTICE, c.nick + Text(" left"), fd) else s1
  }

  function ReapOne(s: Core, fd: int): Core
    requires fd in s.conns
  {
    var t := Farewell(s, fd);
    t.(conns := t.conns - {fd})
  }

  // ---- what every operation keeps

  ghost predicate Members(s: Core) {
    && (forall r :: r in s.rooms ==> r != [] && s.rooms[r] != {})
    && (forall r, fd :: r in s.rooms && fd in s.rooms[r] ==> fd in s.conns && s.conns[fd].room == r)
    && (forall fd :: fd in s.conns && s.conns[fd].room != [] ==>
          s.conns[fd].room in s.rooms && fd in s.rooms[s.conns[fd].room])
  }

  /** `busy`: its event is being handled, and it is served at the end of that. */
  ghost predicate ConnKept(c: Conn, batch: bool, busy: bool) {
    && Conserves(c) && |c.nick| <= NICK_MAX
    && (!c.closing && c.armed ==> c.out != [])
    && (!busy ==> Served(c))
    && (!batch ==> !c.dirty)
  }

  ghost predicate BufferKept(b: Buffer) {
    && b.bytes == EncodeLines(b.lines) && |b.bytes| <= TICK_CAP
    && forall l :: l in b.lines ==> |l| < 65536
  }

  /** Buffered rooms are live, non-empty rooms; buffers hold whole lines. */
  ghost predicate TickKept(s: Core) {
    && s.tick.Keys <= s.rooms.Keys
    && forall r :: r in s.tick ==> BufferKept(s.tick[r])
  }

  ghost predicate Kept(s: Core, busy: int) {
    && Members(s) && TickKept(s) && (!s.coalesce ==> s.tick == map[])
    && ConnsKept(s.conns, s.batch, busy)
  }

  ghost predicate ConnsKept(conns: map<int, Conn>, batch: bool, busy: int) {
    forall fd :: fd in conns ==> ConnKept(conns[fd], batch, fd == busy)
  }

  /** No connection appears, disappears, or loses its closing or dirty flag. */
  ghost predicate Grows(s: Core, t: Core) {
    && t.conns.Keys == s.conns.Keys && t.batch == s.batch && t.coalesce == s.coalesce
    && forall fd :: fd in s.conns ==>
         && (s.conns[fd].closing ==> t.conns[fd].closing)
         && (s.conns[fd].dirty ==> t.conns[fd].dirty)
  }

  /** Replacing one connection by another in the same room. */
  lemma UpdateKeeps(s: Core, fd: int, c: Conn, busy: int)
    requires fd in s.conns && Kept(s, busy) && c.room == s.conns[fd].room
    requires ConnKept(c, s.batch, fd == busy)
    ensures Kept(Update(s, fd, c), busy)
  {
  }

  lemma UpdateGrows(s: Core, fd: int, c: Conn)
    requires fd in s.conns && (s.conns[fd].closing ==> c.closing) && (s.conns[fd].dirty ==> c.dirty)
    ensures Grows(s, Update(s, fd, c))
  {
  }

  /** Replacing all connections, each by one in the same room. */
  lemma ReplaceKeeps(s: Core, conns: map<int, Conn>, busy: int)
    requires Kept(s, busy) && conns.Keys == s.conns.Keys
    requires forall fd :: fd in s.conns ==> conns[fd].room == s.conns[fd].room
    requires ConnsKept(conns, s.batch, busy)
    ensures Kept(s.(conns := conns), busy)
  {
  }

  lemma DeliverKeeps(batch: bool, c: Conn, typ: u16, payload: seq<byte>, busy: bool)
    requires ConnKept(c, batch, busy)
    ensures ConnKept(Deliver(batch, c, typ, payload), batch, false)
  {
    DeliverFlags(batch, c, typ, payload);
    if c.closing || |payload| > MAX_PAYLOAD {
      DispatchKeeps(batch, c);
    } else {
      AcceptDispatchKeeps(batch, c, Frame(typ, payload));
    }
  }

  lemma DeliverFlags(batch: bool, c: Conn, typ: u16, payload: seq<byte>)
    ensures FlagsKept(c, Deliver(batch, c, typ, payload))
  {
    DispatchFlags(batch, QueueSend(c, typ, payload));
  }

  lemma BroadcastKeeps(s: Core, room: Name, typ: u16, payload: seq<byte>, except: int, busy: int)
    requires Kept(s, busy)
    ensures Kept(Broadcast(s, room, typ, payload, except), busy)
  {
    var t := Broadcast(s, room, typ, payload, except);
    forall fd | fd in s.conns
      ensures ConnKept(t.conns[fd], s.batch, fd == busy) && t.conns[fd].room == s.conns[fd].room
    {
      DeliverKeeps(s.batch, s.conns[fd], typ, payload, fd == busy);
      DeliverFlags(s.batch, s.conns[fd], typ, payload);
    }
    ReplaceKeeps(s, t.conns, busy);
  }

  lemma BroadcastMembers(s: Core, room: Name, typ: u16, payload: seq<byte>, except: int)
    requires Members(s)
    ensures Members(Broadcast(s, room, typ, payload, except))
  {
    BroadcastGrows(s, room, typ, payload, except);
    RelabelMembers(s, Broadcast(s, room, typ, payload, except).conns);
  }

  /** A new connection is in no room. */
  lemma OpenMembers(s: Core, fd: int, c: Conn)
    requires Members(s) && fd !in s.conns && c.room == []
    ensures Members(Update(s, fd, c))
  {
  }

  /** A connection that is in no room can go. */
  lemma EraseMembers(s: Core, fd: int)
    requires Members(s) && forall r :: r in s.rooms ==> fd !in s.rooms[r]
    ensures Members(s.(conns := s.conns - {fd}))
  {
  }

  /** Membership looks only at the room of each connection. */
  lemma RelabelMembers(s: Core, conns: map<int, Conn>)
    requires Members(s) && conns.Keys == s.conns.Keys
    requires forall fd :: fd in s.conns ==> conns[fd].room == s.conns[fd].room
    ensures Members(s.(conns := conns))
  {
  }

  lemma BroadcastGrows(s: Core, room: Name, typ: u16, payload: seq<byte>, except: int)
    ensures Grows(s, Broadcast(s, room, typ, payload, except))
    ensures forall fd :: fd in s.conns ==>
              SameIdentity(s.conns[fd], Broadcast(s, room, typ, payload, except).conns[fd])
  {
    forall fd | fd in s.conns
      ensures FlagsKept(s.conns[fd], Broadcast(s, room, typ, payload, except).conns[fd])
    {
      DeliverFlags(s.batch, s.conns[fd], typ, payload);
    }
  }

  /** Queueing to the busy connection needs no flush yet. */
  lemma ReplyKeeps(s: Core, fd: int, payload: seq<byte>)
    requires fd in s.conns && Kept(s, fd)
    ensures Kept(Reply(s, fd, payload), fd)
  {
    if |payload| <= MAX_PAYLOAD {
      AcceptConserves(s.conns[fd], Frame(S_NOTICE, payload));
    }
    UpdateKeeps(s, fd, QueueSend(s.conns[fd], S_NOTICE, payload), fd);
  }

  lemma ReplyGrows(s: Core, fd: int, payload: seq<byte>)
    requires fd in s.conns
    ensures Grows(s, Reply(s, fd, payload))
    ensures SameIdentity(s.conns[fd], Reply(s, fd, payload).conns[fd])
  {
  }

  lemma LeaveMembers(s: Core, fd: int)
    requires fd in s.conns && Members(s)
    ensures Members(LeaveRoom(s, fd))
    ensures forall r :: r in LeaveRoom(s, fd).rooms ==> fd !in LeaveRoom(s, fd).rooms[r]
  {
    var t := LeaveRoom(s, fd);
    var room := s.conns[fd].room;
    forall r | r in t.rooms
      ensures fd !in t.rooms[r] && r != [] && t.rooms[r] != {}
      ensures forall x :: x in t.rooms[r] ==> x in t.conns && t.conns[x].room == r
    {
      if r != room {
        assert t.rooms[r] == s.rooms[r];
      }
    }
    forall x | x in t.conns && t.conns[x].room != []
      ensures t.conns[x].room in t.rooms && x in t.rooms[t.conns[x].room]
    {
      assert t.conns[x] == s.conns[x];
      if s.conns[x].room == room {
        assert x in s.rooms[room] - {fd};
      }
    }
  }

  /** The buffer of an emptied room goes with it. */
  lemma LeaveTick(s: Core, fd: int)
    requires fd in s.conns && TickKept(s) && (!s.coalesce ==> s.tick == map[])
    ensures TickKept(LeaveRoom(s, fd)) && (!s.coalesce ==> LeaveRoom(s, fd).tick == map[])
  {
  }

  lemma LeaveKeeps(s: Core, fd: int, busy: int)
    requires fd in s.conns && Kept(s, busy)
    ensures Kept(LeaveRoom(s, fd), busy)
  {
    LeaveMembers(s, fd);
    LeaveTick(s, fd);
    LeaveGrows(s, fd);
    RoomChangeKeeps(s.conns, s.batch, busy, fd, []);
  }

  lemma LeaveGrows(s: Core, fd: int)
    requires fd in s.conns
    ensures LeaveRoom(s, fd).conns == s.conns[fd := s.conns[fd].(room := [])]
    ensures Grows(s, LeaveRoom(s, fd))
  {
  }

  lemma RoomChangeKeeps(conns: map<int, Conn>, batch: bool, busy: int, fd: int, room: Name)
    requires fd in conns && ConnsKept(conns, batch, busy)
    ensures ConnsKept(conns[fd := conns[fd].(room := room)], batch, busy)
  {
  }

  lemma EnterMembers(s: Core, fd: int, room: Name)
    requires fd in s.conns && Members(s) && s.conns[fd].room == [] && room != []
    ensures Members(EnterRoom(s, fd, room))
  {
  }

  lemma EnterKeeps(s: Core, fd: int, room: Name, busy: int)
    requires fd in s.conns && Kept(s, busy) && s.conns[fd].room == [] && room != []
    ensures Kept(EnterRoom(s, fd, room), busy)
  {
    EnterMembers(s, fd, room);
    RoomChangeKeeps(s.conns, s.batch, busy, fd, room);
  }

  lemma EnterGrows(s: Core, fd: int, room: Name)
    requires fd in s.conns
    ensures Grows(s, EnterRoom(s, fd, room))
  {
  }

  // ---- packets keep the invariant

  lemma LeftRoom(s: Core, fd: int, payload: seq<byte>) returns (t: Core)
    requires fd in s.conns && Kept(s, fd)
    ensures t == LeaveRoom(Broadcast(s, s.conns[fd].room, S_NOTICE, payload, fd), fd)
    ensures Kept(t, fd) && Grows(s, t) && t.conns[fd].room == []
  {
    var room := s.conns[fd].room;
    BroadcastKeeps(s, room, S_NOTICE, payload, fd, fd);
    BroadcastGrows(s, room, S_NOTICE, payload, fd);
    var b := Broadcast(s, room, S_NOTICE, payload, fd);
    LeaveKeeps(b, fd, fd);
    LeaveGrows(b, fd);
    t := LeaveRoom(b, fd);
  }

  lemma JoinKeeps(s: Core, fd: int, payload: seq<byte>)
    requires fd in s.conns && Kept(s, fd)
    ensures Kept(Join(s, fd, payload), fd) && Grows(s, Join(s, fd, payload))
  {
    var nick := s.conns[fd].nick;
    var room := Prefix(payload, ROOM_MAX);
    if nick == [] {
      ReplyKeeps(s, fd, Text("set a nickname first"));
      ReplyGrows(s, fd, Text("set a nickname first"));
    } else if room == [] {
      ReplyKeeps(s, fd, Text("room name required"));
      ReplyGrows(s, fd, Text("room name required"));
    } else {
      MoveKeeps(s, fd, room, Text("joined ") + room);
    }
  }

  lemma MoveKeeps(s: Core, fd: int, room: Name, answer: seq<byte>)
    requires fd in s.conns && Kept(s, fd) && room != []
    ensures Kept(Move(s, fd, room, answer), fd) && Grows(s, Move(s, fd, room, answer))
  {
    var nick, s1 := s.conns[fd].nick, s;
    if s.conns[fd].room != [] {
      s1 := LeftRoom(s, fd, nick + Text(" left"));
    }
    JoinedRoom(s1, fd, room, answer, nick + Text(" joined"));
  }

  lemma JoinedRoom(s: Core, fd: int, room: Name, reply: seq<byte>, hello: seq<byte>)
    requires fd in s.conns && Kept(s, fd) && s.conns[fd].room == [] && room != []
    ensures var t := Broadcast(Reply(EnterRoom(s, fd, room), fd, reply), room, S_NOTICE, hello, fd);
            Kept(t, fd) && Grows(s, t)
  {
    EnterKeeps(s, fd, room, fd);
    EnterGrows(s, fd, room);
    var s1 := EnterRoom(s, fd, room);
    ReplyKeeps(s1, fd, reply);
    ReplyGrows(s1, fd, reply);
    var s2 := Reply(s1, fd, reply);
    BroadcastKeeps(s2, room, S_NOTICE, hello, fd, fd);
    BroadcastGrows(s2, room, S_NOTICE, hello, fd);
  }

  lemma CoalesceBuffer(b: Buffer, line: seq<byte>)
    requires BufferKept(b) && |b.bytes| + 2 + |line| <= TICK_CAP
    ensures BufferKept(Buffer(b.bytes + EncodeLine(line), b.lines + [line]))
  {
  }

  lemma CoalesceKeeps(s: Core, room: Name, line: seq<byte>, busy: int)
    requires Kept(s, busy) && s.coalesce && room in s.rooms
    ensures Kept(Coalesce(s, room, line), busy)
  {
    var buf := if room in s.tick then s.tick[room] else Buffer([], []);
    assert BufferKept(buf);
    if |buf.bytes| + 2 + |line| <= TICK_CAP {
      CoalesceBuffer(buf, line);
    }
  }

  lemma ChatKeeps(s: Core, fd: int, payload: seq<byte>)
    requires fd in s.conns && Kept(s, fd)
    ensures Kept(Chat(s, fd, payload), fd) && Grows(s, Chat(s, fd, payload))
  {
    var c := s.conns[fd];
    var line := c.nick + Text(": ") + payload;
    if c.room == [] {
      ReplyKeeps(s, fd, Text("join a room first"));
      ReplyGrows(s, fd, Text("join a room first"));
    } else if s.coalesce {
      CoalesceKeeps(s, c.room, line, fd);
    } else {
      BroadcastKeeps(s, c.room, S_CHAT, line, NOBODY, fd);
      BroadcastGrows(s, c.room, S_CHAT, line, NOBODY);
    }
  }

  lemma SetNickKeeps(s: Core, fd: int, payload: seq<byte>)
    requires fd in s.conns && Kept(s, fd)
    ensures Kept(SetNick(s, fd, payload), fd) && Grows(s, SetNick(s, fd, payload))
  {
    var nick := Prefix(payload, NICK_MAX);
    UpdateKeeps(s, fd, s.conns[fd].(nick := nick), fd);
    UpdateGrows(s, fd, s.conns[fd].(nick := nick));
    var s1 := Update(s, fd, s.conns[fd].(nick := nick));
    ReplyKeeps(s1, fd, Text("nick set to ") + nick);
    ReplyGrows(s1, fd, Text("nick set to ") + nick);
  }

  lemma DoomKeeps(s: Core, fd: int, busy: int)
    requires fd in s.conns && Kept(s, busy)
    ensures Kept(Doom(s, fd), busy) && Grows(s, Doom(s, fd))
  {
  }

  lemma PacketKeeps(s: Core, fd: int, f: Frame)
    requires fd in s.conns && Kept(s, fd)
    ensures Kept(HandlePacket(s, fd, f), fd) && Grows(s, HandlePacket(s, fd, f))
  {
    if f.typ == C_SET_NICK {
      SetNickKeeps(s, fd, f.body);
    } else if f.typ == C_JOIN {
      JoinKeeps(s, fd, f.body);
    } else if f.typ == C_CHAT {
      ChatKeeps(s, fd, f.body);
    } else {
      DoomKeeps(s, fd, fd);
    }
  }

  // ---- the passes at the end of an iteration keep it

  lemma FlushDirtyKeeps(s: Core)
    requires Kept(s, NOBODY) && NOBODY !in s.conns
    ensures Kept(FlushDirty(s), NOBODY)
    ensures FlushDirty(s).conns.Keys == s.conns.Keys
    ensures forall fd :: fd in s.conns ==>
              && !FlushDirty(s).conns[fd].dirty
              && (s.conns[fd].closing ==> FlushDirty(s).conns[fd].closing)
  {
    var t := FlushDirty(s);
    forall fd | fd in s.conns
      ensures ConnKept(t.conns[fd], s.batch, fd == NOBODY) && t.conns[fd].room == s.conns[fd].room
      ensures !t.conns[fd].dirty && (s.conns[fd].closing ==> t.conns[fd].closing)
    {
      FlushOneKeeps(s.conns[fd], s.batch);
    }
    ReplaceKeeps(s, t.conns, NOBODY);
  }

  lemma FlushOneKeeps(c: Conn, batch: bool)
    requires ConnKept(c, batch, false)
    ensures ConnKept(FlushOne(c), batch, false) && FlushOne(c).room == c.room
    ensures !FlushOne(c).dirty && (c.closing ==> FlushOne(c).closing)
  {
    var d := c.(dirty := false);
    assert Conserves(d);
    FlushConserves(d);
    FlushArms(d);
  }

  lemma FarewellKeeps(s: Core, fd: int)
    requires fd in s.conns && Kept(s, NOBODY)
    ensures Kept(Farewell(s, fd), NOBODY)
    ensures forall r :: r in Farewell(s, fd).rooms ==> fd !in Farewell(s, fd).rooms[r]
  {
    var c, s1 := s.conns[fd], LeaveRoom(s, fd);
    LeaveKeeps(s, fd, NOBODY);
    LeaveMembers(s, fd);
    BroadcastKeeps(s1, c.room, S_NOTICE, c.nick + Text(" left"), fd, NOBODY);
  }

  lemma FarewellGrows(s: Core, fd: int)
    requires fd in s.conns
    ensures Grows(s, Farewell(s, fd))
  {
    var c, s1 := s.conns[fd], LeaveRoom(s, fd);
    LeaveGrows(s, fd);
    BroadcastGrows(s1, c.room, S_NOTICE, c.nick + Text(" left"), fd);
  }

  lemma ReapKeeps(s: Core, fd: int)
    requires fd in s.conns && Kept(s, NOBODY) && s.conns[fd].closing
    ensures Kept(ReapOne(s, fd), NOBODY)
    ensures ReapOne(s, fd).conns.Keys == s.conns.Keys - {fd}
    ensures forall x :: x in s.conns && x != fd ==>
              && (s.conns[x].closing ==> ReapOne(s, fd).conns[x].closing)
              && (s.conns[x].dirty ==> ReapOne(s, fd).conns[x].dirty)
  {
    FarewellKeeps(s, fd);
    FarewellGrows(s, fd);
    EraseKeeps(Farewell(s, fd), fd);
  }

  /** A connection that is in no room can be erased. */
  lemma EraseKeeps(s: Core, fd: int)
    requires Kept(s, NOBODY) && (forall r :: r in s.rooms ==> fd !in s.rooms[r])
    ensures Kept(s.(conns := s.conns - {fd}), NOBODY)
  {
  }

  lemma DeliverTickKeeps(batch: bool, c: Conn, payload: seq<byte>, busy: bool)
    requires ConnKept(c, batch, busy) && |payload| <= TICK_CAP
    ensures ConnKept(DeliverTick(batch, c, payload), batch, false) && DeliverTick(batch, c, payload).room == c.room
  {
    DispatchFlags(batch, QueueTick(c, payload));
    if c.closing {
      DispatchKeeps(batch, c);
    } else {
      AcceptDispatchKeeps(batch, c, Frame(S_TICK, payload));
    }
  }

  lemma EmptiedKeeps(s: Core, busy: int)
    requires Kept(s, busy)
    ensures Kept(s.(tick := Emptied(s.tick)), busy)
  {
  }

  lemma TickedConnKeeps(s: Core, fd: int)
    requires ConnsKept(s.conns, s.batch, NOBODY) && TickKept(s) && fd in s.conns
    ensures var d := FlushTickRooms(s).conns[fd];
            ConnKept(d, s.batch, fd == NOBODY) && d.room == s.conns[fd].room
  {
    if TickDue(s, fd) {
      assert BufferKept(s.tick[s.conns[fd].room]);
      DeliverTickKeeps(s.batch, s.conns[fd], s.tick[s.conns[fd].room].bytes, fd == NOBODY);
    }
  }

  lemma FlushTickConns(s: Core)
    requires ConnsKept(s.conns, s.batch, NOBODY) && TickKept(s)
    ensures var conns := FlushTickRooms(s).conns;
            && conns.Keys == s.conns.Keys && ConnsKept(conns, s.batch, NOBODY)
            && forall fd :: fd in s.conns ==> conns[fd].room == s.conns[fd].room
  {
    forall fd | fd in s.conns
      ensures ConnKept(FlushTickRooms(s).conns[fd], s.batch, fd == NOBODY)
      ensures FlushTickRooms(s).conns[fd].room == s.conns[fd].room
    {
      TickedConnKeeps(s, fd);
    }
  }

  lemma FlushTickKeeps(s: Core)
    requires Kept(s, NOBODY)
    ensures Kept(FlushTickRooms(s), NOBODY)
  {
    EmptiedKeeps(s, NOBODY);
    FlushTickConns(s);
    ReplaceKeeps(s.(tick := Emptied(s.tick)), FlushTickRooms(s).conns, NOBODY);
  }

  lemma FlushTickGrows(s: Core)
    ensures Grows(s, FlushTickRooms(s))
  {
    forall fd | fd in s.conns
      ensures FlagsKept(s.conns[fd], FlushTickRooms(s).conns[fd])
    {
      if TickDue(s, fd) {
        DispatchFlags(s.batch, QueueTick(s.conns[fd], s.tick[s.conns[fd].room].bytes));
      }
    }
  }

  /** Coalesced delivery. At the tick a member of a buffered room that stays within
      its send cap is sent exactly one frame, whose length field is exact and whose
      client decoding is the room's accepted lines since the last tick, in order;
      over the cap it is doomed; every other connection is untouched. */
  lemma TickDelivers(s: Core, fd: int)
    requires Kept(s, NOBODY) && fd in s.conns && !s.conns[fd].closing
    ensures var c, d := s.conns[fd], FlushTickRooms(s).conns[fd];
            if c.room in s.tick && s.tick[c.room].lines != [] then
              var buf := s.tick[c.room];
              if |c.out| + HEADER + |buf.bytes| <= SEND_CAP then
                && d.queued == c.queued + [Frame(S_TICK, buf.bytes)]
                && |buf.bytes| < 65536 && DecodeLines(buf.bytes) == (buf.lines, false)
              else d.closing && d.queued == c.queued
            else d == c
  {
    var c := s.conns[fd];
    if c.room in s.tick {
      var buf := s.tick[c.room];
      assert BufferKept(buf);
      LinesRoundTrip(buf.lines);
      assert c.room in s.rooms && fd in s.rooms[c.room];
      assert buf.lines != [] <==> buf.bytes != [];
      if buf.bytes != [] {
        assert TickDue(s, fd);
        FlushArms(QueueTick(c, buf.bytes));
      }
    }
  }

  // ---- a whole read event

  lemma GrowsTransitive(s: Core, t: Core, u: Core)
    requires Grows(s, t) && Grows(t, u)
    ensures Grows(s, u)
  {
  }

  lemma HandlerSound(fd: int)
    ensures FrameParser.Sound(PacketHandler(fd))
  {
  }

  /** The parser's first step, in the server's terms. */
  lemma ParseHandles(s: Core, fd: int, bytes: seq<byte>)
    requires fd in s.conns && !s.conns[fd].closing && |bytes| >= HEADER
    requires GetU16(bytes) <= MAX_PAYLOAD && |bytes| >= HEADER + GetU16(bytes)
    ensures FrameParser.Parse(PacketHandler(fd), s, bytes)
         == FrameParser.Parse(PacketHandler(fd), HandlePacket(s, fd, FrameParser.FirstFrame(bytes)),
                              bytes[HEADER + GetU16(bytes)..])
  {
  }

  lemma ParseStops(s: Core, fd: int, bytes: seq<byte>)
    requires fd in s.conns
    requires s.conns[fd].closing || |bytes| < HEADER || GetU16(bytes) > MAX_PAYLOAD || |bytes| < HEADER + GetU16(bytes)
    ensures var t := if !s.conns[fd].closing && |bytes| >= HEADER && GetU16(bytes) > MAX_PAYLOAD
                     then Doom(s, fd) else s;
            FrameParser.Parse(PacketHandler(fd), s, bytes) == (t, bytes)
  {
  }

  lemma {:induction false} ParseKeeps(s: Core, fd: int, bytes: seq<byte>)
    requires fd in s.conns && Kept(s, fd)
    ensures var t := FrameParser.Parse(PacketHandler(fd), s, bytes).0;
            Kept(t, fd) && Grows(s, t)
    decreases |bytes|
  {
    if s.conns[fd].closing || |bytes| < HEADER || GetU16(bytes) > MAX_PAYLOAD || |bytes| < HEADER + GetU16(bytes) {
      ParseStops(s, fd, bytes);
      DoomKeeps(s, fd, fd);
    } else {
      ParseHandles(s, fd, bytes);
      PacketKeeps(s, fd, FrameParser.FirstFrame(bytes));
      var s1, more := HandlePacket(s, fd, FrameParser.FirstFrame(bytes)), bytes[HEADER + GetU16(bytes)..];
      ParseKeeps(s1, fd, more);
      GrowsTransitive(s, s1, FrameParser.Parse(PacketHandler(fd), s1, more).0);
    }
  }

  /** At the end of its event a connection is dispatched, and nothing is busy. */
  lemma SettleKeeps(s: Core, fd: int)
    requires fd in s.conns && Kept(s, fd)
    ensures s.conns[fd].closing ==> Kept(s, NOBODY)
    ensures Kept(Update(s, fd, Dispatch(s.batch, s.conns[fd])), NOBODY)
    ensures Grows(s, Update(s, fd, Dispatch(s.batch, s.conns[fd])))
  {
    var c := s.conns[fd];
    DispatchKeeps(s.batch, c);
    DispatchFlags(s.batch, c);
    UpdateGrows(s, fd, Dispatch(s.batch, c));
    SettleConns(s, fd, Dispatch(s.batch, c));
    if c.closing {
      ClosingSettles(s, fd);
    }
  }

  lemma SettleConns(s: Core, fd: int, d: Conn)
    requires fd in s.conns && Kept(s, fd) && d.room == s.conns[fd].room && ConnKept(d, s.batch, false)
    ensures Kept(Update(s, fd, d), NOBODY)
  {
  }

  lemma ClosingSettles(s: Core, fd: int)
    requires fd in s.conns && Kept(s, fd) && s.conns[fd].closing
    ensures Kept(s, NOBODY)
  {
  }

  lemma WritableKeeps(s: Core, fd: int)
    requires fd in s.conns && Kept(s, NOBODY) && NOBODY !in s.conns
    ensures Kept(Update(s, fd, FlushSend(s.conns[fd])), NOBODY)
  {
    var c := s.conns[fd];
    FlushConserves(c);
    FlushArms(c);
    UpdateKeeps(s, fd, FlushSend(c), NOBODY);
  }
}
