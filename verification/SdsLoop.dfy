/** What server_sds.cpp's loop does, on server.cpp's states and the names of its room
    records. The two servers differ in one place: a join enters the room of its name's
    C string, and is answered with what the room's name buffer shows. */
module SdsLoop {
  import opened Wire
  import opened Counting
  import opened ChatConn
  import opened ChatLoop
  import opened RoomNames
  import C = ChatCore
  import E = ChatEvents
  import M = ChatMeaning
  import P = FrameParser

  datatype State = State(core: C.Core, names: Names)

  /** A join the index knows by its whole name; `KeyIsWhole` says which those are. */
  predicate Clean(f: Frame) {
    f.typ == C.C_JOIN ==> Key(C.Prefix(f.body, C.ROOM_MAX)) == C.Prefix(f.body, C.ROOM_MAX)
  }

  /** The names once `fd` left its room: the last one out releases the record. */
  function NamesLeft(s: C.Core, fd: int, n: Names): Names
    requires fd in s.conns
  {
    var room := s.conns[fd].room;
    if room in s.rooms && room !in C.LeaveRoom(s, fd).rooms then Released(n, room) else n
  }

  function NamesMoved(s: C.Core, fd: int, n: Names, room: Name): Names
    requires fd in s.conns && |room| <= C.ROOM_MAX
  {
    Acquired(NamesLeft(s, fd, n), room)
  }

  /** Leaves the present room, enters the one of the name's key, and is answered with
      what that record shows. */
  function MoveAs(s: State, fd: int, room: Name): State
    requires fd in s.core.conns && |room| <= C.ROOM_MAX
  {
    var n := NamesMoved(s.core, fd, s.names, room);
    State(C.Move(s.core, fd, Key(room), C.Text("joined ") + Shown(n, room)), n)
  }

  /** Does the packet move its sender to another room? */
  predicate Moves(s: C.Core, fd: int, f: Frame)
    requires fd in s.conns
  {
    f.typ == C.C_JOIN && s.conns[fd].nick != [] && C.Prefix(f.body, C.ROOM_MAX) != []
  }

  /** A packet as this server handles it. */
  function HandleAs(s: State, fd: int, f: Frame): State
    requires fd in s.core.conns
  {
    if Moves(s.core, fd, f) then MoveAs(s, fd, C.Prefix(f.body, C.ROOM_MAX))
    else State(C.HandlePacket(s.core, fd, f), s.names)
  }

  /** Exactly the clean joins end as server.cpp's do: any other leaves the joiner in a
      room of another name. */
  lemma SameIffClean(s: State, fd: int, f: Frame)
    requires fd in s.core.conns && Moves(s.core, fd, f) && Sane(s.names)
    ensures HandleAs(s, fd, f).core == C.HandlePacket(s.core, fd, f) <==> Clean(f)
  {
    var room := C.Prefix(f.body, C.ROOM_MAX);
    var n := NamesMoved(s.core, fd, s.names, room);
    MoveEnters(s.core, fd, Key(room), C.Text("joined ") + Shown(n, room));
    MoveEnters(s.core, fd, room, C.Text("joined ") + room);
    if Clean(f) {
      CleanIsSame(s, fd, f);
    }
  }

  lemma CleanIsSame(s: State, fd: int, f: Frame)
    requires fd in s.core.conns && Clean(f) && Sane(s.names)
    ensures HandleAs(s, fd, f).core == C.HandlePacket(s.core, fd, f)
  {
    if Moves(s.core, fd, f) {
      LeftIsSane(s.core, fd, s.names);
      WholeKeyIsShown(NamesLeft(s.core, fd, s.names), C.Prefix(f.body, C.ROOM_MAX));
    }
  }

  lemma LeftIsSane(s: C.Core, fd: int, n: Names)
    requires fd in s.conns && Sane(n)
    ensures Sane(NamesLeft(s, fd, n))
  {
    ReleasedIsSane(n, s.conns[fd].room);
  }

  lemma HandleIsSane(s: State, fd: int, f: Frame)
    requires fd in s.core.conns && Sane(s.names)
    ensures Sane(HandleAs(s, fd, f).names)
  {
    if Moves(s.core, fd, f) {
      LeftIsSane(s.core, fd, s.names);
      AcquiredIsSane(NamesLeft(s.core, fd, s.names), C.Prefix(f.body, C.ROOM_MAX));
    }
  }

  lemma MoveEnters(s: C.Core, fd: int, room: Name, answer: seq<byte>)
    requires fd in s.conns
    ensures fd in C.Move(s, fd, room, answer).conns && C.Move(s, fd, room, answer).conns[fd].room == room
  {
    var nick, from := s.conns[fd].nick, s.conns[fd].room;
    var s1 := if from == [] then s
              else C.LeaveRoom(C.Broadcast(s, from, C.S_NOTICE, nick + C.Text(" left"), fd), fd);
    EnterEnters(s1, fd, room, answer, nick + C.Text(" joined"));
  }

  lemma EnterEnters(s: C.Core, fd: int, room: Name, answer: seq<byte>, hello: seq<byte>)
    requires fd in s.conns
    ensures var t := C.Broadcast(C.Reply(C.EnterRoom(s, fd, room), fd, answer), room, C.S_NOTICE, hello, fd);
            fd in t.conns && t.conns[fd].room == room
  {
    C.BroadcastGrows(C.Reply(C.EnterRoom(s, fd, room), fd, answer), room, C.S_NOTICE, hello, fd);
  }

  /** Any join, clean or not: the joiner ends in the room of the name's key, is answered
      with what the record's buffer shows, and the members of both rooms hear what they
      would in server.cpp of a move to that room. */
  lemma JoinTellsAs(s: State, fd: int, f: Frame, x: int)
    requires C.Members(s.core) && fd in s.core.conns && x in s.core.conns && Moves(s.core, fd, f)
    ensures var room, t := f.body[..Min(63, |f.body|)], HandleAs(s, fd, f);
            && x in t.core.conns && t.names == NamesMoved(s.core, fd, s.names, room)
            && M.Moved(s.core, t.core, fd, Key(room), C.Text("joined ") + Shown(t.names, room), x)
  {
    var room := C.Prefix(f.body, C.ROOM_MAX);
    var n := NamesMoved(s.core, fd, s.names, room);
    M.MoveTells(s.core, fd, Key(room), C.Text("joined ") + Shown(n, room), x);
  }

  /** Every other packet is handled as in server.cpp, and leaves the names alone. */
  lemma OthersAsThere(s: State, fd: int, f: Frame)
    requires fd in s.core.conns
    requires f.typ != C.C_JOIN || s.core.conns[fd].nick == [] || f.body == []
    ensures HandleAs(s, fd, f) == State(C.HandlePacket(s.core, fd, f), s.names)
  {
  }

  lemma HandleAsKeeps(s: State, fd: int, f: Frame)
    requires fd in s.core.conns && C.Kept(s.core, fd)
    ensures C.Kept(HandleAs(s, fd, f).core, fd) && C.Grows(s.core, HandleAs(s, fd, f).core)
  {
    if Moves(s.core, fd, f) {
      var room := C.Prefix(f.body, C.ROOM_MAX);
      var n := NamesMoved(s.core, fd, s.names, room);
      C.MoveKeeps(s.core, fd, Key(room), C.Text("joined ") + Shown(n, room));
    } else {
      C.PacketKeeps(s.core, fd, f);
    }
  }

  // ---- parsing

  function Handler(fd: int): P.Handler<State> {
    P.Handler(
      (s: State, f: Frame) => if fd in s.core.conns then HandleAs(s, fd, f) else s,
      (s: State) => fd !in s.core.conns || s.core.conns[fd].closing,
      (s: State) => if fd in s.core.conns then s.(core := C.Doom(s.core, fd)) else s)
  }

  lemma HandlerSound(fd: int)
    ensures P.Sound(Handler(fd))
  {
  }

  /** Nothing is left to hand over. */
  predicate Done(s: C.Core, fd: int, bytes: seq<byte>)
    requires fd in s.conns
  {
    s.conns[fd].closing || |bytes| < HEADER || GetU16(bytes) > MAX_PAYLOAD || |bytes| < HEADER + GetU16(bytes)
  }

  /** The parser's first step, in the server's terms. */
  lemma ParseHandles(s: State, fd: int, bytes: seq<byte>)
    requires fd in s.core.conns && !Done(s.core, fd, bytes)
    ensures P.Parse(Handler(fd), s, bytes)
         == P.Parse(Handler(fd), HandleAs(s, fd, P.FirstFrame(bytes)), bytes[HEADER + GetU16(bytes)..])
  {
  }

  /** The state after the parser's last turn: an oversize header dooms. */
  function Stopped(s: C.Core, fd: int, bytes: seq<byte>): C.Core
    requires fd in s.conns
  {
    if !s.conns[fd].closing && |bytes| >= HEADER && GetU16(bytes) > MAX_PAYLOAD then C.Doom(s, fd) else s
  }

  lemma ParseStops(s: State, fd: int, bytes: seq<byte>)
    requires fd in s.core.conns && Done(s.core, fd, bytes)
    ensures P.Parse(Handler(fd), s, bytes) == (s.(core := Stopped(s.core, fd, bytes)), bytes)
  {
  }

  // ---- receiving

  /** What a script has left after part of it was taken. */
  ghost predicate Shorter(more: seq<P.Recv>, recvs: seq<P.Recv>) {
    || |more| < |recvs|
    || (0 < |more| == |recvs| && more[0].Data? && recvs[0].Data? && |more[0].bytes| < |recvs[0].bytes|)
  }

  /** One turn of the receive loop took (s, pending) to (t, rest); with `go` the loop
      goes on with `more`, and ends as the whole would. */
  ghost predicate DrainTurn(fd: int, s: State, pending: seq<byte>, recvs: seq<P.Recv>,
                            go: bool, t: State, rest: seq<byte>, more: seq<P.Recv>)
  {
    var h := Handler(fd);
    if go then
      && P.Plausible(more) && |rest| < MAX_FRAME && Shorter(more, recvs)
      && P.SameOutcome(h, P.Drain(h, t, rest, more), P.Drain(h, s, pending, recvs))
    else P.SameOutcome(h, (t, rest), P.Drain(h, s, pending, recvs))
  }

  function Rest(recvs: seq<P.Recv>, k: nat): seq<P.Recv>
    requires recvs != [] && recvs[0].Data? && k <= |recvs[0].bytes|
  {
    if k < |recvs[0].bytes| then [P.Data(recvs[0].bytes[k..])] + recvs[1..] else recvs[1..]
  }

  lemma RestIsPlausible(recvs: seq<P.Recv>, k: nat)
    requires recvs != [] && recvs[0].Data? && 0 < k <= |recvs[0].bytes| && P.Plausible(recvs)
    ensures P.Plausible(Rest(recvs, k)) && Shorter(Rest(recvs, k), recvs)
  {
    assert recvs[0] in recvs;
  }

  /** The turn that takes `k` bytes of a receive. */
  lemma DataTurn(fd: int, s: State, pending: seq<byte>, recvs: seq<P.Recv>, k: nat, t: State, rest: seq<byte>)
    requires recvs != [] && recvs[0].Data? && 0 < k <= |recvs[0].bytes| && P.Plausible(recvs) && fd in t.core.conns
    requires (t, rest) == P.Parse(Handler(fd), s, pending + recvs[0].bytes[..k])
    ensures DrainTurn(fd, s, pending, recvs, !t.core.conns[fd].closing, t, rest, Rest(recvs, k))
  {
    HandlerSound(fd);
    RestIsPlausible(recvs, k);
    P.LeftoverIsPartial(Handler(fd), s, pending + recvs[0].bytes[..k]);
    P.PartialRecv(Handler(fd), s, pending, recvs, k);
  }

  lemma EndTurn(fd: int, s: State, pending: seq<byte>, recvs: seq<P.Recv>)
    requires recvs == [] || recvs[0].Again?
    ensures DrainTurn(fd, s, pending, recvs, false, s, pending, [])
  {
  }

  lemma SkipTurn(fd: int, s: State, pending: seq<byte>, recvs: seq<P.Recv>)
    requires recvs != [] && recvs[0].Intr? && P.Plausible(recvs) && |pending| < MAX_FRAME
    ensures DrainTurn(fd, s, pending, recvs, true, s, pending, recvs[1..])
  {
  }

  lemma DoomTurn(fd: int, s: State, pending: seq<byte>, recvs: seq<P.Recv>)
    requires recvs != [] && (recvs[0].Eof? || recvs[0].Fail?) && fd in s.core.conns
    ensures DrainTurn(fd, s, pending, recvs, false, s.(core := C.Doom(s.core, fd)), pending, [])
  {
  }

  /** What a live connection's receive loop leaves is a partial frame. */
  lemma {:induction false} DrainLeaves<S(!new)>(h: P.Handler<S>, s: S, pending: seq<byte>, recvs: seq<P.Recv>)
    requires P.Sound(h) && |pending| < MAX_FRAME
    ensures !h.closing(P.Drain(h, s, pending, recvs).0) ==> |P.Drain(h, s, pending, recvs).1| < MAX_FRAME
    decreases |recvs|
  {
    if recvs != [] {
      if recvs[0].Data? {
        P.LeftoverIsPartial(h, s, pending + recvs[0].bytes);
        var (s1, rest) := P.Parse(h, s, pending + recvs[0].bytes);
        if !h.closing(s1) {
          DrainLeaves(h, s1, rest, recvs[1..]);
        }
      } else if recvs[0].Intr? {
        DrainLeaves(h, s, pending, recvs[1..]);
      }
    }
  }

  // ---- what reading keeps

  lemma {:induction false} ParseAsKeeps(s: State, fd: int, bytes: seq<byte>)
    requires fd in s.core.conns && C.Kept(s.core, fd)
    ensures var t := P.Parse(Handler(fd), s, bytes).0; C.Kept(t.core, fd) && C.Grows(s.core, t.core)
    decreases |bytes|
  {
    if Done(s.core, fd, bytes) {
      ParseStops(s, fd, bytes);
      C.DoomKeeps(s.core, fd, fd);
    } else {
      ParseHandles(s, fd, bytes);
      HandleAsKeeps(s, fd, P.FirstFrame(bytes));
      var s1, more := HandleAs(s, fd, P.FirstFrame(bytes)), bytes[HEADER + GetU16(bytes)..];
      ParseAsKeeps(s1, fd, more);
      C.GrowsTransitive(s.core, s1.core, P.Parse(Handler(fd), s1, more).0.core);
    }
  }

  lemma {:induction false} DrainAsKeeps(s: State, fd: int, pending: seq<byte>, recvs: seq<P.Recv>)
    requires fd in s.core.conns && C.Kept(s.core, fd)
    ensures var t := P.Drain(Handler(fd), s, pending, recvs).0; C.Kept(t.core, fd) && C.Grows(s.core, t.core)
    decreases |recvs|
  {
    if recvs != [] {
      match recvs[0] {
        case Data(bytes) =>
          ParseAsKeeps(s, fd, pending + bytes);
          var (s1, rest) := P.Parse(Handler(fd), s, pending + bytes);
          if !Handler(fd).closing(s1) {
            DrainAsKeeps(s1, fd, rest, recvs[1..]);
            C.GrowsTransitive(s.core, s1.core, P.Drain(Handler(fd), s1, rest, recvs[1..]).0.core);
          }
        case Intr => DrainAsKeeps(s, fd, pending, recvs[1..]);
        case Again =>
        case Eof => C.DoomKeeps(s.core, fd, fd);
        case Fail => C.DoomKeeps(s.core, fd, fd);
      }
    }
  }

  lemma ReadAsKeeps(s: State, fd: int, pending: seq<byte>, recvs: seq<P.Recv>)
    requires fd in s.core.conns && C.Kept(s.core, C.NOBODY) && C.NOBODY !in s.core.conns
    ensures var t := ReadAs(s, fd, pending, recvs).core; C.Kept(t, C.NOBODY) && C.Grows(s.core, t)
  {
    BusyKeeps(s.core, fd);
    DrainAsKeeps(s, fd, pending, recvs);
    var t := P.Drain(Handler(fd), s, pending, recvs).0.core;
    C.SettleKeeps(t, fd);
    C.GrowsTransitive(s.core, t, ReadAs(s, fd, pending, recvs).core);
  }

  // ---- events and passes

  /** The end of a read event: dispatched unless closing. */
  function Settled(s: C.Core, fd: int): C.Core {
    if fd !in s.conns || s.conns[fd].closing then s else C.Update(s, fd, Dispatch(s.batch, s.conns[fd]))
  }

  /** A read event. */
  function ReadAs(s: State, fd: int, pending: seq<byte>, recvs: seq<P.Recv>): State {
    var t := P.Drain(Handler(fd), s, pending, recvs).0;
    t.(core := Settled(t.core, fd))
  }

  /** server.cpp's world with the names of the room records. */
  datatype Site = Site(world: World, names: Names)

  function With(w: Site, s: C.Core): Site {
    w.(world := w.world.(core := s))
  }

  function ReadStepAs(w: Site, fd: int, recvs: seq<P.Recv>): Site
    requires fd in w.world.inb
  {
    var s, pending := State(w.world.core, w.names), w.world.inb[fd];
    var t := ReadAs(s, fd, pending, recvs);
    Site(World(t.core, w.world.inb[fd := P.Drain(Handler(fd), s, pending, recvs).1]), t.names)
  }

  /** What an event does before anything is read: all of server.cpp's. */
  function Before(e: Event): Event {
    if e.Ready? then e.(readable := false) else e
  }

  predicate Reads(w: World, fd: int) {
    fd in w.core.conns && !w.core.conns[fd].closing && fd in w.inb
  }

  /** One event; only reading differs from server.cpp. */
  function StepAs(w: Site, maxConns: nat, e: Event): Site {
    var v := w.(world := EventStep(w.world, maxConns, Before(e)));
    if e.Ready? && e.readable && Reads(v.world, e.fd) then ReadStepAs(v, e.fd, e.recvs) else v
  }

  /** Only reading differs: every other event is server.cpp's, and leaves the names alone. */
  lemma OnlyReadingDiffers(w: Site, maxConns: nat, e: Event)
    requires e.Ready? ==> !e.readable || e.hangup
    ensures StepAs(w, maxConns, e) == w.(world := EventStep(w.world, maxConns, e))
  {
  }

  /** The packets of one connection, handled in order until it is doomed. */
  function HandleFramesAs(s: State, fd: int, fs: seq<Frame>): State
    requires fd in s.core.conns
    decreases |fs|
  {
    if fs == [] || s.core.conns[fd].closing then s
    else
      StaysOpen(s, fd, fs[0]);
      HandleFramesAs(HandleAs(s, fd, fs[0]), fd, fs[1..])
  }

  lemma StaysOpen(s: State, fd: int, f: Frame)
    requires fd in s.core.conns
    ensures fd in HandleAs(s, fd, f).core.conns
  {
    if Moves(s.core, fd, f) {
      var room := C.Prefix(f.body, C.ROOM_MAX);
      MoveEnters(s.core, fd, Key(room), C.Text("joined ") + Shown(NamesMoved(s.core, fd, s.names, room), room));
    } else {
      E.PacketGrows(s.core, fd, f);
    }
  }

  lemma {:induction false} HandlesAs(s: State, fd: int, fs: seq<Frame>)
    requires fd in s.core.conns
    ensures fd in HandleFramesAs(s, fd, fs).core.conns
    ensures P.HandleAll(Handler(fd), s, fs) == HandleFramesAs(s, fd, fs)
    decreases |fs|
  {
    if fs != [] && !s.core.conns[fd].closing {
      StaysOpen(s, fd, fs[0]);
      HandlesAs(HandleAs(s, fd, fs[0]), fd, fs[1..]);
    }
  }

  /** A readable event here, whatever the names in it: buffered and received bytes are
      handled packet by packet, and then the connection is doomed, sent to or marked. */
  lemma ReadMeansAs(w: Site, maxConns: nat, fd: int, recvs: seq<P.Recv>, fs: seq<Frame>, tail: seq<byte>)
    requires Reads(w.world, fd) && P.Plausible(recvs) && E.Legible(fs) && E.Partial(tail)
    requires E.Got(recvs) != [] && w.world.inb[fd] + E.Got(recvs) == EncodeAll(fs) + tail
    ensures var v := StepAs(w, maxConns, Ready(fd, false, false, true, recvs));
            var s1 := HandleFramesAs(State(w.world.core, w.names), fd, fs);
            && fd in s1.core.conns && v.names == s1.names
            && E.ReadDone(s1.core, v.world.core, fd, E.Gone(recvs))
            && v.world.inb.Keys == w.world.inb.Keys
            && (forall x :: x in w.world.inb && x != fd ==> v.world.inb[x] == w.world.inb[x])
            && (!s1.core.conns[fd].closing && !E.Gone(recvs) ==> v.world.inb[fd] == tail)
  {
    var s, h := State(w.world.core, w.names), Handler(fd);
    HandlerSound(fd);
    E.DrainMeans(h, s, w.world.inb[fd], recvs);
    HandlesAs(s, fd, fs);
    P.ParseEncoded(h, s, fs);
    P.ParseSplit(h, s, EncodeAll(fs), tail);
    assert [] + tail == tail;
    var s1 := HandleFramesAs(s, fd, fs);
    E.SettleDone(s1.core, fd);
    assert StepAs(w, maxConns, Ready(fd, false, false, true, recvs)) == ReadStepAs(w, fd, recvs);
  }

  function StepsAs(w: Site, maxConns: nat, events: seq<Event>): Site
    decreases |events|
  {
    if events == [] then w else StepsAs(StepAs(w, maxConns, events[0]), maxConns, events[1..])
  }

  /** The names after a reap. */
  function NamesReaped(s: C.Core, n: Names, closed: seq<int>): Names {
    if closed == [] then n
    else
      var k := |closed| - 1;
      var before := ReapAll(s, closed[..k]);
      if closed[k] in before.conns then NamesLeft(before, closed[k], NamesReaped(s, n, closed[..k]))
      else NamesReaped(s, n, closed[..k])
  }

  /** The world after a reap. */
  function Reaped(w: Site, closed: seq<int>): Site {
    var t := ReapAll(w.world.core, closed);
    Site(World(t, Surviving(w.world.inb, t.conns.Keys)), NamesReaped(w.world.core, w.names, closed))
  }

  /** The world after the tail of a pass. */
  function Ended(w: Site, closed: seq<int>): Site {
    var t := Tail(w.world.core, closed);
    Site(World(t, Surviving(w.world.inb, t.conns.Keys)), NamesReaped(Reapable(w.world.core), w.names, closed))
  }

  /** One pass. There is no tick in this server. */
  function PassAs(w: Site, maxConns: nat, events: seq<Event>, closed: seq<int>): Site {
    Ended(StepsAs(w, maxConns, events), closed)
  }

  /** A run of passes. A batch the kernel could not produce is none. */
  function PassesAs(w: Site, maxConns: nat, batches: seq<seq<Event>>, closings: seq<seq<int>>): Site
    requires |batches| == |closings|
  {
    if batches == [] then w
    else
      var k := |batches| - 1;
      NextAs(PassesAs(w, maxConns, batches[..k], closings[..k]), maxConns, batches[k], closings[k])
  }

  function NextAs(w: Site, maxConns: nat, events: seq<Event>, closed: seq<int>): Site {
    if Legal(events, w.world.core.conns.Keys, maxConns) then PassAs(w, maxConns, events, closed) else w
  }

  // ---- who is closed, and in which order

  ghost predicate LeadAfterAs(w: Site, maxConns: nat, events: seq<Event>, k: int, list: seq<int>)
    requires 0 <= k <= |events|
  {
    Lead(StepsAs(w, maxConns, events[..k]).world.core, list)
  }

  ghost predicate QueuedAs(w: Site, maxConns: nat, events: seq<Event>, n: nat, list: seq<int>) {
    n <= |events| && forall k :: 0 <= k <= n ==> LeadAfterAs(w, maxConns, events, k, list)
  }

  /** What a pass closes, as in server.cpp. */
  ghost predicate ClosesAs(w: Site, maxConns: nat, events: seq<Event>, closed: seq<int>) {
    && QueuedAs(w, maxConns, events, |events|, closed)
    && Reaps(Reapable(StepsAs(w, maxConns, events).world.core), closed)
  }

  ghost predicate ClosesAllAs(w: Site, maxConns: nat, batches: seq<seq<Event>>, closings: seq<seq<int>>)
    requires |batches| == |closings|
  {
    batches == [] ||
    var k := |batches| - 1;
    ClosesAllAs(w, maxConns, batches[..k], closings[..k])
    && ClosesNext(PassesAs(w, maxConns, batches[..k], closings[..k]), maxConns, batches[k], closings[k])
  }

  ghost predicate ClosesNext(w: Site, maxConns: nat, events: seq<Event>, closed: seq<int>) {
    Legal(events, w.world.core.conns.Keys, maxConns) ==> ClosesAs(w, maxConns, events, closed)
  }

  lemma QueuedOnAs(w: Site, maxConns: nat, events: seq<Event>, i: nat, before: seq<int>, after: seq<int>)
    requires QueuedAs(w, maxConns, events, i, before) && before <= after && NoDup(after)
    ensures QueuedAs(w, maxConns, events, i, after)
  {
    forall k | 0 <= k <= i
      ensures LeadAfterAs(w, maxConns, events, k, after)
    {
      assert LeadAfterAs(w, maxConns, events, k, before);
      LeadGrows(StepsAs(w, maxConns, events[..k]).world.core, before, after);
    }
  }

  // ---- clean streams are served as server.cpp does

  /** Every complete frame of the bytes is clean. */
  predicate CleanBytes(bytes: seq<byte>)
    decreases |bytes|
  {
    || |bytes| < HEADER || GetU16(bytes) > MAX_PAYLOAD || |bytes| < HEADER + GetU16(bytes)
    || (Clean(P.FirstFrame(bytes)) && CleanBytes(bytes[HEADER + GetU16(bytes)..]))
  }

  /** A front of clean bytes is clean. */
  lemma {:induction false} CleanFront(x: seq<byte>, y: seq<byte>)
    requires CleanBytes(x + y)
    ensures CleanBytes(x)
    decreases |x|
  {
    if |x| >= HEADER && GetU16(x) <= MAX_PAYLOAD && |x| >= HEADER + GetU16(x) {
      SameFront(x, y);
      CleanFront(x[HEADER + GetU16(x)..], y);
    }
  }

  lemma SameFront(x: seq<byte>, y: seq<byte>)
    requires |x| >= HEADER
    ensures GetU16(x + y) == GetU16(x) && GetU16((x + y)[2..]) == GetU16(x[2..])
    ensures |x| >= HEADER + GetU16(x) ==>
              P.FirstFrame(x + y) == P.FirstFrame(x) && (x + y)[HEADER + GetU16(x)..] == x[HEADER + GetU16(x)..] + y
  {
    assert (x + y)[2..][..2] == x[2..][..2];
  }

  /** What a parse leaves of a clean stream is clean with what follows. */
  lemma {:induction false} CleanRest<S(!new)>(h: P.Handler<S>, s: S, x: seq<byte>, y: seq<byte>)
    requires P.Sound(h) && CleanBytes(x + y) && !h.closing(P.Parse(h, s, x).0)
    ensures CleanBytes(P.Parse(h, s, x).1 + y)
    decreases |x|
  {
    if !h.closing(s) && |x| >= HEADER && GetU16(x) <= MAX_PAYLOAD && |x| >= HEADER + GetU16(x) {
      SameFront(x, y);
      CleanRest(h, h.handle(s, P.FirstFrame(x)), x[HEADER + GetU16(x)..], y);
    }
  }

  /** An outcome of this server that is server.cpp's. */
  ghost predicate SameAs(here: (State, seq<byte>), there: (C.Core, seq<byte>)) {
    here.0.core == there.0 && here.1 == there.1 && Sane(here.0.names)
  }

  lemma {:induction false} ParseClean(s: State, fd: int, bytes: seq<byte>)
    requires CleanBytes(bytes) && Sane(s.names)
    ensures SameAs(P.Parse(Handler(fd), s, bytes), P.Parse(C.PacketHandler(fd), s.core, bytes))
    decreases |bytes|
  {
    if fd in s.core.conns {
      if Done(s.core, fd, bytes) {
        ParseStops(s, fd, bytes);
        C.ParseStops(s.core, fd, bytes);
      } else {
        ParseHandles(s, fd, bytes);
        C.ParseHandles(s.core, fd, bytes);
        CleanIsSame(s, fd, P.FirstFrame(bytes));
        HandleIsSane(s, fd, P.FirstFrame(bytes));
        ParseClean(HandleAs(s, fd, P.FirstFrame(bytes)), fd, bytes[HEADER + GetU16(bytes)..]);
      }
    }
  }

  lemma {:induction false} DrainClean(s: State, fd: int, pending: seq<byte>, recvs: seq<P.Recv>)
    requires CleanBytes(pending + P.Bytes(recvs)) && Sane(s.names)
    ensures SameAs(P.Drain(Handler(fd), s, pending, recvs), P.Drain(C.PacketHandler(fd), s.core, pending, recvs))
    decreases |recvs|
  {
    if recvs != [] {
      if recvs[0].Data? {
        var bytes, more := recvs[0].bytes, P.Bytes(recvs[1..]);
        var h := Handler(fd);
        assert pending + P.Bytes(recvs) == (pending + bytes) + more;
        CleanFront(pending + bytes, more);
        ParseClean(s, fd, pending + bytes);
        var (s1, rest) := P.Parse(h, s, pending + bytes);
        if !h.closing(s1) {
          HandlerSound(fd);
          CleanRest(h, s, pending + bytes, more);
          DrainClean(s1, fd, rest, recvs[1..]);
        }
      } else if recvs[0].Intr? {
        assert P.Bytes(recvs) == P.Bytes(recvs[1..]);
        DrainClean(s, fd, pending, recvs[1..]);
      }
    }
  }

  /** Every join that the event brings to a whole frame is clean. */
  predicate CleanEvent(w: World, e: Event) {
    e.Ready? && e.fd in w.inb ==> CleanBytes(w.inb[e.fd] + P.Bytes(e.recvs))
  }

  lemma StepClean(w: Site, maxConns: nat, e: Event)
    requires CleanEvent(w.world, e) && Sane(w.names)
    ensures StepAs(w, maxConns, e).world == EventStep(w.world, maxConns, e) && Sane(StepAs(w, maxConns, e).names)
  {
    var v := EventStep(w.world, maxConns, Before(e));
    if e.Ready? && e.readable && Reads(v, e.fd) {
      DrainClean(State(v.core, w.names), e.fd, v.inb[e.fd], e.recvs);
    }
  }

  /** Every event of a batch is clean as it comes up. */
  predicate CleanEvents(w: World, maxConns: nat, events: seq<Event>)
    decreases |events|
  {
    events == [] || (CleanEvent(w, events[0]) && CleanEvents(EventStep(w, maxConns, events[0]), maxConns, events[1..]))
  }

  lemma {:induction false} StepsClean(w: Site, maxConns: nat, events: seq<Event>)
    requires CleanEvents(w.world, maxConns, events) && Sane(w.names)
    ensures StepsAs(w, maxConns, events).world == EventSteps(w.world, maxConns, events)
    ensures Sane(StepsAs(w, maxConns, events).names)
    decreases |events|
  {
    if events != [] {
      StepClean(w, maxConns, events[0]);
      StepsClean(StepAs(w, maxConns, events[0]), maxConns, events[1..]);
    }
  }

  lemma {:induction false} FrontOfClean(w: World, maxConns: nat, events: seq<Event>, k: nat)
    requires CleanEvents(w, maxConns, events) && k <= |events|
    ensures CleanEvents(w, maxConns, events[..k])
    decreases k
  {
    if k > 0 {
      assert events[..k][0] == events[0] && events[..k][1..] == events[1..][..k - 1];
      FrontOfClean(EventStep(w, maxConns, events[0]), maxConns, events[1..], k - 1);
    }
  }

  lemma {:induction false} ReapIsSane(s: C.Core, n: Names, closed: seq<int>)
    requires Sane(n)
    ensures Sane(NamesReaped(s, n, closed))
  {
    if closed != [] {
      var k := |closed| - 1;
      ReapIsSane(s, n, closed[..k]);
      var before := ReapAll(s, closed[..k]);
      if closed[k] in before.conns {
        LeftIsSane(before, closed[k], NamesReaped(s, n, closed[..k]));
      }
    }
  }

  /** A pass over clean events is server.cpp's pass, and closes whom that may close. */
  lemma PassClean(w: Site, maxConns: nat, events: seq<Event>, closed: seq<int>)
    requires CleanEvents(w.world, maxConns, events) && Sane(w.names)
    ensures PassAs(w, maxConns, events, closed).world == Pass(w.world, maxConns, events, false, closed)
    ensures Sane(PassAs(w, maxConns, events, closed).names)
    ensures ClosesAs(w, maxConns, events, closed) <==> Closes(w.world, maxConns, events, false, closed)
  {
    StepsClean(w, maxConns, events);
    ReapIsSane(Reapable(StepsAs(w, maxConns, events).world.core), StepsAs(w, maxConns, events).names, closed);
    forall k | 0 <= k <= |events|
      ensures LeadAfterAs(w, maxConns, events, k, closed) <==> LeadAfter(w.world, maxConns, events, k, closed)
    {
      FrontOfClean(w.world, maxConns, events, k);
      StepsClean(w, maxConns, events[..k]);
    }
  }

  /** The batches as server.cpp takes them, with no tick due. */
  function Untimed(batches: seq<seq<Event>>): seq<(seq<Event>, bool)> {
    seq(|batches|, i requires 0 <= i < |batches| => (batches[i], false))
  }

  /** Every event of a run is clean as it comes up. */
  predicate CleanRun(w: World, maxConns: nat, batches: seq<seq<Event>>, closings: seq<seq<int>>)
    requires |batches| == |closings|
  {
    batches == [] ||
    var k := |batches| - 1;
    var v := Passes(w, maxConns, Untimed(batches[..k]), closings[..k]);
    && CleanRun(w, maxConns, batches[..k], closings[..k])
    && (Legal(batches[k], v.core.conns.Keys, maxConns) ==> CleanEvents(v, maxConns, batches[k]))
  }

  /** A run whose joins are clean is server.cpp's run, and closes whom that may close. */
  lemma {:induction false} RunClean(w: Site, maxConns: nat, batches: seq<seq<Event>>, closings: seq<seq<int>>)
    requires |batches| == |closings| && CleanRun(w.world, maxConns, batches, closings) && Sane(w.names)
    ensures PassesAs(w, maxConns, batches, closings).world == Passes(w.world, maxConns, Untimed(batches), closings)
    ensures Sane(PassesAs(w, maxConns, batches, closings).names)
    ensures ClosesAllAs(w, maxConns, batches, closings) <==> ClosesAll(w.world, maxConns, Untimed(batches), closings)
  {
    if batches != [] {
      var k := |batches| - 1;
      assert Untimed(batches)[..k] == Untimed(batches[..k]);
      RunClean(w, maxConns, batches[..k], closings[..k]);
      var v := PassesAs(w, maxConns, batches[..k], closings[..k]);
      if Legal(batches[k], v.world.core.conns.Keys, maxConns) {
        PassClean(v, maxConns, batches[k], closings[k]);
      }
    }
  }
}
