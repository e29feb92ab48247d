/** A pass of batch mode, from the empty server, that ends with a doomed connection:
    two people join a room, one hangs up, and the goodbye to the other fails in the
    second flush. */
module DoomedPass {
  import opened Wire
  import opened ChatConn
  import opened ChatCore
  import opened ChatLoop
  import P = FrameParser

  const ROOM: Name := [65]
  const NICK: Name := [66]
  const SCRIPT: seq<Send> := [Took(262144), Failed]
  const EMPTY: World := World(Core(true, false, map[], map[], map[], 0), map[])

  function Hello(): seq<Frame> {
    [Frame(C_SET_NICK, NICK), Frame(C_JOIN, ROOM)]
  }

  function Says(fd: int): Event {
    Ready(fd, false, false, true, [P.Data(EncodeAll(Hello()))])
  }

  function Events(): seq<Event> {
    [Incoming(4, []), Incoming(5, SCRIPT), Says(4), Says(5), Ready(4, true, false, false, [])]
  }

  /** Nothing but queueing has happened to a connection. */
  ghost predicate Calm(c: Conn, script: seq<Send>, most: nat) {
    !c.closing && c.script == script && |c.out| <= most
  }

  ghost predicate Settled(c: Conn, script: seq<Send>, most: nat) {
    Calm(c, script, most) && c.room == ROOM && c.nick == NICK && c.out != [] && c.dirty
  }

  lemma QueueCalm(c: Conn, script: seq<Send>, most: nat, typ: u16, payload: seq<byte>)
    requires Calm(c, script, most) && |payload| <= 100 && most <= 1000
    ensures var d := QueueSend(c, typ, payload);
            Calm(d, script, most + 104) && d.out != [] && d.room == c.room && d.nick == c.nick && d.dirty == c.dirty
  {
  }

  /** One receive of two whole frames hands over both. */
  lemma DrainTwo<S>(h: P.Handler<S>, s: S, f: Frame, g: Frame)
    requires !h.closing(s) && !h.closing(h.handle(s, f)) && |f.body| <= MAX_PAYLOAD && |g.body| <= MAX_PAYLOAD
    ensures P.Drain(h, s, [], [P.Data(EncodeAll([f, g]))]).0 == h.handle(h.handle(s, f), g)
  {
    var fs, bytes := [f, g], EncodeAll([f, g]);
    P.ParseEncoded(h, s, fs);
    assert [] + bytes == bytes;
    var s1 := h.handle(s, f);
    assert fs[1..] == [g] && [g][1..] == [];
    assert P.HandleAll(h, s, fs) == P.HandleAll(h, s1, [g]);
    assert P.HandleAll(h, s1, [g]) == P.HandleAll(h, h.handle(s1, g), []);
    assert [P.Data(bytes)][1..] == [];
  }

  lemma NickHandled(s: Core, fd: int)
    requires fd in s.conns
    ensures PacketHandler(fd).handle(s, Frame(C_SET_NICK, NICK)) == SetNick(s, fd, NICK)
    ensures PacketHandler(fd).closing(s) == s.conns[fd].closing
  {
  }

  lemma JoinHandled(s: Core, fd: int)
    requires fd in s.conns
    ensures PacketHandler(fd).handle(s, Frame(C_JOIN, ROOM)) == Join(s, fd, ROOM)
    ensures PacketHandler(fd).closing(s) == s.conns[fd].closing
  {
  }

  /** After it the newcomer is in the room with its answers queued, and the others
      have at most a greeting more. */
  lemma HelloSettles(s: Core, fd: int, script: seq<Send>)
    requires s.batch && fd in s.conns && s.conns[fd] == NewConn(script)
    ensures var t := ReadEvent(s, fd, [], [P.Data(EncodeAll(Hello()))]);
            && t.conns.Keys == s.conns.Keys && t.batch && t.coalesce == s.coalesce
            && t.rooms == Entered(s.rooms, ROOM, fd) && Settled(t.conns[fd], script, 312)
            && forall x :: x in s.conns && x != fd ==> t.conns[x] == Greeted(s, fd, x)
  {
    var s1 := SetNick(s, fd, NICK);
    QueueCalm(s.conns[fd].(nick := NICK), script, 0, S_NOTICE, Text("nick set to ") + NICK);
    NickHandled(s, fd);
    JoinHandled(s1, fd);
    DrainTwo(PacketHandler(fd), s, Frame(C_SET_NICK, NICK), Frame(C_JOIN, ROOM));
    var s2 := EnterRoom(s1, fd, ROOM);
    assert Prefix(ROOM, ROOM_MAX) == ROOM && Prefix(NICK, NICK_MAX) == NICK;
    QueueCalm(s2.conns[fd], script, 104, S_NOTICE, Text("joined ") + ROOM);
  }

  function Greeted(s: Core, fd: int, x: int): Conn
    requires x in s.conns
  {
    if ROOM in s.rooms && x in s.rooms[ROOM] && !s.conns[x].closing
    then Deliver(s.batch, s.conns[x], S_NOTICE, NICK + Text(" joined")) else s.conns[x]
  }

  // ---- the pass, step by step

  function Opened2(): World {
    World(Core(true, false, map[4 := NewConn([]), 5 := NewConn(SCRIPT)], map[], map[], 0), map[4 := [], 5 := []])
  }

  lemma Opens()
    ensures EventStep(EventStep(EMPTY, 10, Incoming(4, [])), 10, Incoming(5, SCRIPT)) == Opened2()
  {
    var w := EventStep(EMPTY, 10, Incoming(4, []));
    assert |EMPTY.core.conns| == 0;
    assert w == World(Core(true, false, map[4 := NewConn([])], map[], map[], 0), map[4 := []]);
    assert |w.core.conns| == 1;
  }

  /** Both in the room, the first doomed, the second with bytes to send. */
  ghost predicate Ready2(s: Core) {
    && s.batch && !s.coalesce && s.conns.Keys == {4, 5} && s.rooms == map[ROOM := {4, 5}]
    && s.conns[4].closing && s.conns[4].room == ROOM && s.conns[4].nick == NICK
    && Settled(s.conns[5], SCRIPT, 312)
  }

  lemma SaysIs(w: World, fd: int)
    requires fd in w.core.conns && !w.core.conns[fd].closing && fd in w.inb && w.inb[fd] == []
    ensures var v := EventStep(w, 10, Says(fd));
            v.core == ReadEvent(w.core, fd, [], [P.Data(EncodeAll(Hello()))]) && v.inb.Keys == w.inb.Keys
            && forall x :: x in w.inb && x != fd ==> v.inb[x] == w.inb[x]
  {
  }

  lemma FirstJoins() returns (w: World)
    ensures w == EventStep(Opened2(), 10, Says(4)) && w.core.conns.Keys == {4, 5} && w.inb.Keys == {4, 5}
            && w.inb[5] == []
    ensures w.core.batch && !w.core.coalesce && w.core.rooms == map[ROOM := {4}]
    ensures Settled(w.core.conns[4], [], 312) && w.core.conns[5] == NewConn(SCRIPT)
  {
    var v := Opened2();
    HelloSettles(v.core, 4, []);
    SaysIs(v, 4);
    w := EventStep(v, 10, Says(4));
  }

  lemma SecondJoins(v: World) returns (w: World)
    requires v.core.conns.Keys == {4, 5} && v.inb.Keys == {4, 5} && v.inb[5] == []
    requires v.core.batch && !v.core.coalesce && v.core.rooms == map[ROOM := {4}]
    requires Settled(v.core.conns[4], [], 312) && v.core.conns[5] == NewConn(SCRIPT)
    ensures w == EventStep(v, 10, Says(5)) && w.core.conns.Keys == {4, 5}
    ensures w.core.batch && !w.core.coalesce && w.core.rooms == map[ROOM := {4, 5}]
    ensures !w.core.conns[4].closing && w.core.conns[4].room == ROOM && w.core.conns[4].nick == NICK
    ensures Settled(w.core.conns[5], SCRIPT, 312)
  {
    HelloSettles(v.core, 5, SCRIPT);
    SaysIs(v, 5);
    QueueCalm(v.core.conns[4], [], 312, S_NOTICE, NICK + Text(" joined"));
    w := EventStep(v, 10, Says(5));
    assert {4} + {5} == {4, 5};
  }

  lemma BothJoin()
    ensures Ready2(EventSteps(EMPTY, 10, Events()).core)
  {
    var es := Events();
    Opens();
    var v := FirstJoins();
    var w := SecondJoins(v);
    assert EventStep(w, 10, es[4]).core == Doom(w.core, 4);
    StepsAre(es);
  }

  lemma StepsAre(es: seq<Event>)
    requires |es| == 5
    ensures EventSteps(EMPTY, 10, es)
         == EventStep(EventStep(EventStep(EventStep(EventStep(EMPTY, 10, es[0]), 10, es[1]), 10, es[2]), 10, es[3]),
                      10, es[4])
  {
    assert es[1..][0] == es[1] && es[1..][1..] == es[2..];
    assert es[2..][0] == es[2] && es[2..][1..] == es[3..];
    assert es[3..][0] == es[3] && es[3..][1..] == es[4..];
    assert es[4..][0] == es[4] && es[4..][1..] == [];
    var a := EventStep(EMPTY, 10, es[0]);
    var b := EventStep(a, 10, es[1]);
    var c := EventStep(b, 10, es[2]);
    var d := EventStep(c, 10, es[3]);
    var e := EventStep(d, 10, es[4]);
    assert EventSteps(d, 10, es[4..]) == EventSteps(e, 10, []);
    assert EventSteps(c, 10, es[3..]) == EventSteps(d, 10, es[4..]);
    assert EventSteps(b, 10, es[2..]) == EventSteps(c, 10, es[3..]);
    assert EventSteps(a, 10, es[1..]) == EventSteps(b, 10, es[2..]);
  }

  /** The first flush sends what the second connection had; its next send fails. */
  lemma FirstFlush(s: Core)
    requires Ready2(s)
    ensures var m := FlushDirty(s);
            && m.conns[4].closing && m.conns[4].room == ROOM && m.conns[4].nick == NICK
            && m.conns[5].out == [] && m.conns[5].script == [Failed] && !m.conns[5].closing && !m.conns[5].dirty
            && m.conns[5].room == ROOM
  {
    var d := s.conns[5].(dirty := false);
    var k := Min(262144, |d.out|);
    var e := d.(script := [Failed], out := d.out[k..], sent := d.sent + d.out[..k]);
    assert SCRIPT[1..] == [Failed];
    assert FlushSend(d) == FlushSend(e) && e.out == [];
    FlushArms(s.conns[4].(dirty := false));
  }

  /** The reap leaves nothing closing, and the second flush dooms the survivor. */
  ghost predicate EndsDoomed(s: Core) {
    && (forall fd :: fd in FlushDirty(s).conns && FlushDirty(s).conns[fd].closing <==> fd in [4])
    && (forall fd :: fd in ReapAll(FlushDirty(s), [4]).conns ==> !ReapAll(FlushDirty(s), [4]).conns[fd].closing)
    && 5 in Tail(s, [4]).conns && Tail(s, [4]).conns[5].closing
  }

  lemma TailDooms(s: Core)
    requires Ready2(s)
    ensures EndsDoomed(s)
  {
    FirstFlush(s);
    var m := FlushDirty(s);
    assert ReapAll(m, []) == m && [4][..0] == [];
    var r := ReapOne(m, 4);
    assert ReapAll(m, [4]) == r;
    assert m.rooms[ROOM] - {4} == {5};
    assert r.conns[5] == Deliver(true, m.conns[5], S_NOTICE, NICK + Text(" left"));
    assert r.conns[5].dirty && r.conns[5].out != [] && r.conns[5].script == [Failed];
    FlushFails(r.conns[5].(dirty := false));
  }

  /** Two accepts, two joins and a hangup, from the empty server: exactly the one that
      hung up is closed by the reap, and the pass ends with the other doomed. */
  lemma SecondFlushMayDoom()
    ensures Legal(Events(), {}, 10) && EndsDoomed(Worked(EMPTY, 10, Events(), false).core)
    ensures var w := Pass(EMPTY, 10, Events(), false, [4]); 5 in w.core.conns && w.core.conns[5].closing
  {
    BothJoin();
    var u := Worked(EMPTY, 10, Events(), false).core;
    TailDooms(u);
    assert Pass(EMPTY, 10, Events(), false, [4]).core == Tail(u, [4]);
    EventsAreLegal();
  }

  lemma EventsAreLegal()
    ensures Legal(Events(), {}, 10)
  {
    var es := Events();
    assert es[1..][0] == es[1] && es[1..][1..] == es[2..];
    assert es[2..][0] == es[2] && es[2..][1..] == es[3..];
    assert es[3..][0] == es[3] && es[3..][1..] == es[4..];
    assert es[4..][0] == es[4] && es[4..][1..] == [];
    HelloFits();
    assert |{4, 5}| == 2 && |{4}| == 1;
    assert Legal(es[4..], {4, 5}, 10);
    assert Legal(es[3..], {4, 5}, 10);
    assert Legal(es[2..], {4, 5}, 10);
    assert {} + {4} == {4} && {4} + {5} == {4, 5};
    assert Legal(es[1..], {4}, 10);
  }

  lemma HelloFits()
    ensures |EncodeAll(Hello())| == 10
  {
    var fs: seq<RawFrame> := Hello();
    assert fs[..1] == [fs[0]] && [fs[0]][..0] == [];
    assert EncodeAll([fs[0]]) == EncodeAll([]) + Encode(fs[0]);
    assert EncodeAll(fs) == EncodeAll(fs[..1]) + Encode(fs[1]);
  }
}
