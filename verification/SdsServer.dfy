/** server_sds.cpp as one object: connections with linear queues in a slab, rooms as
    intrusive lists with a C-string index. Its `View` is a state of server.cpp's
    protocol, and every operation does to the view what server.cpp does. */
module SdsServers {
  import opened Wire
  import opened Counting
  import opened ChatConn
  import opened SdsConns
  import opened RoomNames
  import R = RoomStores
  import C = ChatCore
  import opened ChatLoop
  import opened SdsLoop
  import P = FrameParser
  import B = RingBuffers

  datatype Front = Partial | Oversize | Whole(len: u16, typ: u16)

  ghost predicate Fronts(front: Front, bytes: seq<byte>) {
    && (front.Partial? <==> |bytes| < HEADER || (GetU16(bytes) <= MAX_PAYLOAD && |bytes| < HEADER + GetU16(bytes)))
    && (front.Oversize? <==> |bytes| >= HEADER && GetU16(bytes) > MAX_PAYLOAD)
    && (front.Whole? ==> front.len == GetU16(bytes) && front.typ == GetU16(bytes[2..]))
  }

  /** The peeked header: what stands at the front of the ring. */
  method Inspect(ring: B.RingBuffer) returns (front: Front)
    requires ring.Valid()
    ensures Fronts(front, ring.Contents())
  {
    if ring.UsedSize() < HEADER {
      return Partial;
    }
    var hdr := ring.Peek(HEADER);
    SameHeader(ring.Contents(), hdr);
    var len := GetU16(hdr);
    if len > MAX_PAYLOAD {
      return Oversize;
    }
    return if ring.UsedSize() < HEADER + len then Partial else Whole(len, GetU16(hdr[2..]));
  }

  /** Delivery to the listed connections one after the other. */
  function Delivered(batch: bool, conns: map<int, Conn>, order: seq<int>, typ: u16, payload: seq<byte>, except: int)
    : map<int, Conn>
  {
    if order == [] then conns
    else
      var before, fd := Delivered(batch, conns, order[..|order| - 1], typ, payload, except), order[|order| - 1];
      if fd in before && fd != except && !before[fd].closing
      then before[fd := Deliver(batch, before[fd], typ, payload)]
      else before
  }

  lemma {:induction false} DeliveredAt(batch: bool, conns: map<int, Conn>, order: seq<int>, typ: u16,
                                       payload: seq<byte>, except: int)
    requires NoDup(order)
    ensures Delivered(batch, conns, order, typ, payload, except).Keys == conns.Keys
    ensures var after := Delivered(batch, conns, order, typ, payload, except);
            forall fd :: fd in conns ==>
              after[fd] == if fd in order && fd != except && !conns[fd].closing
                           then Deliver(batch, conns[fd], typ, payload) else conns[fd]
  {
    if order != [] {
      var init, last := order[..|order| - 1], order[|order| - 1];
      DeliveredAt(batch, conns, init, typ, payload, except);
      assert last !in init && order == init + [last];
    }
  }

  /** A walk over exactly the members of a room is a broadcast. */
  lemma DeliveredIsBroadcast(s: C.Core, room: Name, order: seq<int>, typ: u16, payload: seq<byte>, except: int)
    requires NoDup(order)
    requires forall fd :: fd in order <==> room in s.rooms && fd in s.rooms[room]
    ensures Delivered(s.batch, s.conns, order, typ, payload, except) == C.Broadcast(s, room, typ, payload, except).conns
  {
    DeliveredAt(s.batch, s.conns, order, typ, payload, except);
    var d := Delivered(s.batch, s.conns, order, typ, payload, except);
    var b := C.Broadcast(s, room, typ, payload, except).conns;
    forall fd | fd in s.conns
      ensures fd in d && fd in b && d[fd] == b[fd]
    {
    }
  }

  /** A step that changes one connection, but not its room. */
  lemma OneStays(s: C.Core, fd: int, c: Conn)
    requires C.Members(s) && fd in s.conns && c.room == s.conns[fd].room
    ensures C.Members(C.Update(s, fd, c))
  {
  }

  // ---- the lists

  /** The doomed list holds the closing connections, once each, and begins with what
      was walked. Entries of connections closed by a reap linger. */
  ghost predicate Dooms(conns: map<int, Conn>, doomed: seq<int>, walked: seq<int>, gone: set<int>) {
    && NoDup(doomed) && walked <= doomed && (forall x :: x in gone ==> x !in conns)
    && (forall x :: x in conns ==> (conns[x].closing <==> x in doomed))
    && (forall x :: x in doomed ==> x in conns || x in gone)
  }

  /** The dirty list likewise holds the dirty ones. */
  ghost predicate Marked(conns: map<int, Conn>, dirty: seq<int>) {
    NoDup(dirty) && forall x :: x in conns ==> (conns[x].dirty <==> x in dirty)
  }

  ghost predicate Dirties(conns: map<int, Conn>, dirty: seq<int>, gone: set<int>) {
    Marked(conns, dirty) && forall x :: x in dirty ==> x in conns || x in gone
  }

  /** A list after a flag of `fd` may have been raised. */
  function Raised(list: seq<int>, fd: int, was: bool, now: bool): seq<int> {
    if now && !was then list + [fd] else list
  }

  lemma DoomNoted(conns: map<int, Conn>, doomed: seq<int>, walked: seq<int>, gone: set<int>, fd: int, c: Conn)
    requires Dooms(conns, doomed, walked, gone) && fd in conns && (conns[fd].closing ==> c.closing)
    ensures Dooms(conns[fd := c], Raised(doomed, fd, conns[fd].closing, c.closing), walked, gone)
  {
  }

  lemma DirtyNoted(conns: map<int, Conn>, dirty: seq<int>, gone: set<int>, fd: int, c: Conn)
    requires Dirties(conns, dirty, gone) && fd in conns && (conns[fd].dirty ==> c.dirty)
    ensures Dirties(conns[fd := c], Raised(dirty, fd, conns[fd].dirty, c.dirty), gone)
  {
  }

  lemma ListsOpened(conns: map<int, Conn>, doomed: seq<int>, dirty: seq<int>, walked: seq<int>, fd: int, c: Conn)
    requires Dooms(conns, doomed, walked, {}) && Dirties(conns, dirty, {}) && fd !in conns && !c.closing && !c.dirty
    ensures Dooms(conns[fd := c], doomed, walked, {}) && Dirties(conns[fd := c], dirty, {})
  {
  }

  lemma ListsClosed(conns: map<int, Conn>, doomed: seq<int>, dirty: seq<int>, walked: seq<int>, gone: set<int>, fd: int)
    requires Dooms(conns, doomed, walked, gone) && Dirties(conns, dirty, gone) && fd in conns
    ensures Dooms(conns - {fd}, doomed, walked, gone + {fd}) && Dirties(conns - {fd}, dirty, gone + {fd})
  {
  }

  // ---- against server.cpp's world

  /** The state is that world's, and the unparsed bytes of live connections agree. */
  ghost predicate Matches(s: C.Core, inbox: map<int, seq<byte>>, w: World) {
    && s == w.core
    && forall fd :: fd in s.conns && !s.conns[fd].closing ==>
         fd in inbox && fd in w.inb && inbox[fd] == w.inb[fd] && |inbox[fd]| < MAX_FRAME
  }

  /** A step that reads nothing. */
  lemma MatchesKept(s: C.Core, t: C.Core, inbox: map<int, seq<byte>>, w: World)
    requires Matches(s, inbox, w) && C.Grows(s, t)
    ensures Matches(t, inbox, w.(core := t))
  {
  }

  lemma MatchesRead(s: State, inbox: map<int, seq<byte>>, w: Site, fd: int, recvs: seq<P.Recv>, rest: seq<byte>)
    requires Matches(s.core, inbox, w.world) && s.names == w.names && fd in s.core.conns && !s.core.conns[fd].closing
    requires C.Kept(s.core, C.NOBODY) && C.NOBODY !in s.core.conns
    requires var d := P.Drain(Handler(fd), s, inbox[fd], recvs);
             fd in d.0.core.conns && !d.0.core.conns[fd].closing ==> rest == d.1 && |rest| < MAX_FRAME
    ensures fd in w.world.inb
    ensures var v := ReadStepAs(w, fd, recvs).world; Matches(v.core, inbox[fd := rest], v)
  {
    var d := P.Drain(Handler(fd), s, inbox[fd], recvs);
    ReadAsKeeps(s, fd, inbox[fd], recvs);
    BusyKeeps(s.core, fd);
    DrainAsKeeps(s, fd, inbox[fd], recvs);
    DispatchFlags(d.0.core.batch, d.0.core.conns[fd]);
    MatchesTaken(s.core, ReadAs(s, fd, inbox[fd], recvs).core, inbox, w.world, fd, rest, d.1);
  }

  /** A step that leaves `rest` of what one connection received. */
  lemma MatchesTaken(s: C.Core, t: C.Core, inbox: map<int, seq<byte>>, w: World, fd: int, rest: seq<byte>,
                     left: seq<byte>)
    requires Matches(s, inbox, w) && C.Grows(s, t)
    requires fd in t.conns && !t.conns[fd].closing ==> rest == left && |rest| < MAX_FRAME
    ensures Matches(t, inbox[fd := rest], World(t, w.inb[fd := left]))
  {
  }

  /** A read event ends with the connection dispatched, unless it is closing. */
  lemma ReadIs(s: State, fd: int, pending: seq<byte>, recvs: seq<P.Recv>, t: State, rest: seq<byte>)
    requires fd in t.core.conns && DrainTurn(fd, s, pending, recvs, false, t, rest, [])
    ensures ReadAs(s, fd, pending, recvs) == t.(core := Settled(t.core, fd))
    ensures t == P.Drain(Handler(fd), s, pending, recvs).0
    ensures !t.core.conns[fd].closing ==> rest == P.Drain(Handler(fd), s, pending, recvs).1
  {
  }

  /** Leaving looks only at the room of the leaver and at who is in it. */
  lemma LeftLooks(s: C.Core, t: C.Core, fd: int, n: Names)
    requires fd in s.conns && fd in t.conns && t.conns[fd].room == s.conns[fd].room && t.rooms == s.rooms
    ensures NamesLeft(t, fd, n) == NamesLeft(s, fd, n)
  {
  }

  lemma MatchesOpened(s: C.Core, inbox: map<int, seq<byte>>, w: World, fd: int, script: seq<Send>)
    requires Matches(s, inbox, w) && fd !in s.conns
    ensures Matches(C.Update(s, fd, NewConn(script)), inbox[fd := []],
                    World(C.Update(w.core, fd, NewConn(script)), w.inb[fd := []]))
  {
  }

  /** The connections once the listed ones were flushed. */
  function Flushed(conns: map<int, Conn>, order: seq<int>): map<int, Conn> {
    map fd | fd in conns :: if fd in order then FlushOne(conns[fd]) else conns[fd]
  }

  lemma FlushedOne(conns: map<int, Conn>, order: seq<int>, fd: int)
    requires fd !in order
    ensures fd in conns ==>
              Flushed(conns, order)[fd] == conns[fd]
              && Flushed(conns, order + [fd]) == Flushed(conns, order)[fd := FlushOne(conns[fd])]
    ensures fd !in conns ==> Flushed(conns, order + [fd]) == Flushed(conns, order)
  {
  }

  /** After a flush pass nothing is dirty, and no list has a stale entry. */
  lemma ListsFlushed(conns: map<int, Conn>, doomed: seq<int>, walked: seq<int>, gone: set<int>, dirty: seq<int>)
    requires Marked(conns, dirty) && Dooms(Flushed(conns, dirty), doomed, walked, gone)
    requires forall x :: x in doomed ==> x in conns
    ensures Dooms(Flushed(conns, dirty), doomed, walked, {}) && Dirties(Flushed(conns, dirty), [], {})
  {
    forall fd | fd in conns
      ensures !Flushed(conns, dirty)[fd].dirty
    {
      FlushArms(conns[fd].(dirty := false));
    }
  }

  lemma MatchesFlushed(s: C.Core, inbox: map<int, seq<byte>>, w: World)
    requires Matches(s, inbox, w) && C.Kept(s, C.NOBODY) && C.NOBODY !in s.conns
    ensures Matches(C.FlushDirty(s), inbox, w.(core := C.FlushDirty(s)))
  {
    C.FlushDirtyKeeps(s);
  }

  /** The next entry of the walk over the doomed list is still open. */
  lemma NextIsOpen(conns: map<int, Conn>, doomed: seq<int>, walked: seq<int>, i: nat)
    requires i < |doomed| && Dooms(conns, doomed, walked, Elems(doomed[..i]))
    ensures doomed[i] in conns && conns[doomed[i]].closing
  {
    assert doomed[i] in doomed && doomed[i] !in doomed[..i];
  }

  /** The walk has reaped one more, whatever was appended meanwhile. */
  lemma NextReaped(s0: State, before: seq<int>, after: seq<int>, i: nat)
    requires i < |before| && before <= after && before[i] in ReapAll(s0.core, before[..i]).conns
    ensures ReapAll(s0.core, after[..i + 1]) == C.ReapOne(ReapAll(s0.core, before[..i]), before[i])
    ensures NamesReaped(s0.core, s0.names, after[..i + 1])
         == NamesLeft(ReapAll(s0.core, before[..i]), before[i], NamesReaped(s0.core, s0.names, before[..i]))
    ensures Elems(after[..i + 1]) == Elems(before[..i]) + {before[i]}
  {
    assert after[..i + 1] == before[..i] + [before[i]];
    assert after[..i + 1][..i] == before[..i];
  }

  lemma NextSurvives(inbox: map<int, seq<byte>>, open: set<int>, fd: int)
    ensures Surviving(inbox, open - {fd}) == Surviving(inbox, open) - {fd}
  {
  }

  /** A walked list can be dropped: what it names is gone. */
  lemma AllReaped(conns: map<int, Conn>, doomed: seq<int>, walked: seq<int>)
    requires Dooms(conns, doomed, walked, Elems(doomed))
    ensures Dooms(conns, [], [], Elems(doomed)) && forall x :: x in conns ==> !conns[x].closing
  {
  }

  /** Those that were closing before are not among the survivors. */
  lemma MatchesReaped(s: C.Core, inbox: map<int, seq<byte>>, w: World, closed: seq<int>)
    requires Matches(s, inbox, w)
    requires forall x :: x in ReapAll(s, closed).conns ==> x in s.conns && !s.conns[x].closing
    ensures var t := ReapAll(s, closed);
            Matches(t, Surviving(inbox, t.conns.Keys), World(t, Surviving(w.inb, t.conns.Keys)))
  {
  }

  lemma ReapsNothing(s: State, inbox: map<int, seq<byte>>, doomed: seq<int>)
    requires inbox.Keys == s.core.conns.Keys
    ensures ReapAll(s.core, doomed[..0]) == s.core && NamesReaped(s.core, s.names, doomed[..0]) == s.names
    ensures Elems(doomed[..0]) == {} && Surviving(inbox, s.core.conns.Keys) == inbox
    ensures Lead(s.core, doomed) ==> Walked(s.core, doomed, 0)
  {
    assert doomed[0..] == doomed;
  }

  /** The events this server serves: a descriptor past its last slot is refused. */
  function Admitted(events: seq<Event>, slots: nat): seq<Event> {
    if events == [] then []
    else (if Refused(events[0], slots) then [] else [events[0]]) + Admitted(events[1..], slots)
  }

  function AdmittedAll(batches: seq<seq<Event>>, slots: nat): seq<seq<Event>> {
    seq(|batches|, i requires 0 <= i < |batches| => Admitted(batches[i], slots))
  }

  predicate Refused(e: Event, slots: nat) {
    e.Incoming? && e.newFd >= slots
  }

  lemma FirstAdmitted(events: seq<Event>, i: nat, slots: nat)
    requires i < |events|
    ensures var here, next := Admitted(events[i..], slots), Admitted(events[i + 1..], slots);
            if Refused(events[i], slots) then here == next
            else here != [] && here[0] == events[i] && here[1..] == next
  {
    assert events[i..][0] == events[i] && events[i..][1..] == events[i + 1..];
  }

  lemma {:induction false} LastAdmitted(events: seq<Event>, i: nat, slots: nat)
    requires i < |events|
    ensures var before, after := Admitted(events[..i], slots), Admitted(events[..i + 1], slots);
            after == if Refused(events[i], slots) then before else before + [events[i]]
  {
    if i > 0 {
      assert events[..i + 1][1..] == events[1..][..i] && events[..i][1..] == events[1..][..i - 1];
      LastAdmitted(events[1..], i - 1, slots);
    }
  }

  lemma LastPass(w: Site, maxConns: nat, batches: seq<seq<Event>>, i: nat, slots: nat,
                 closings: seq<seq<int>>, closed: seq<int>)
    requires |closings| == i < |batches|
    ensures var front := AdmittedAll(batches[..i], slots);
            var all, v := AdmittedAll(batches[..i + 1], slots), PassesAs(w, maxConns, front, closings);
            && PassesAs(w, maxConns, all, closings + [closed])
              == NextAs(v, maxConns, Admitted(batches[i], slots), closed)
            && (ClosesAllAs(w, maxConns, all, closings + [closed]) <==>
                  && ClosesAllAs(w, maxConns, front, closings)
                  && ClosesNext(v, maxConns, Admitted(batches[i], slots), closed))
  {
    var all := AdmittedAll(batches[..i + 1], slots);
    assert all[..i] == AdmittedAll(batches[..i], slots);
    assert (closings + [closed])[..i] == closings;
  }

  lemma EmptyKept(batch: bool)
    ensures C.Kept(C.Core(batch, false, map[], map[], map[], 0), C.NOBODY)
  {
  }

  /** The last step of a batch. */
  lemma {:induction false} LastStep(w: Site, maxConns: nat, events: seq<Event>, e: Event)
    ensures StepsAs(w, maxConns, events + [e]) == StepAs(StepsAs(w, maxConns, events), maxConns, e)
    decreases |events|
  {
    if events == [] {
      assert StepsAs(w, maxConns, [e]) == StepAs(w, maxConns, e);
    } else {
      assert (events + [e])[1..] == events[1..] + [e];
      LastStep(StepAs(w, maxConns, events[0]), maxConns, events[1..], e);
    }
  }

  lemma QueuedNext(w: Site, maxConns: nat, events: seq<Event>, e: Event, before: seq<int>, after: seq<int>)
    requires QueuedAs(w, maxConns, events, |events|, before) && before <= after && NoDup(after)
    requires Lead(StepsAs(w, maxConns, events + [e]).world.core, after)
    ensures QueuedAs(w, maxConns, events + [e], |events| + 1, after)
  {
    QueuedOnAs(w, maxConns, events, |events|, before, after);
    forall k | 0 <= k <= |events| + 1
      ensures LeadAfterAs(w, maxConns, events + [e], k, after)
    {
      if k <= |events| {
        assert LeadAfterAs(w, maxConns, events, k, after) && (events + [e])[..k] == events[..k];
      } else {
        assert (events + [e])[..k] == events + [e];
      }
    }
  }

  /** The doomed list is led by the closing connections, from what was walked on. */
  lemma DoomsLead(s: C.Core, doomed: seq<int>, walked: seq<int>, gone: set<int>, i: nat)
    requires i <= |doomed| && Dooms(s.conns, doomed, walked, gone) && gone == Elems(doomed[..i])
    ensures Lead(s, doomed[i..])
  {
    forall fd | Closing(s, fd)
      ensures fd in doomed[i..]
    {
      assert fd in doomed && fd !in doomed[..i] && doomed == doomed[..i] + doomed[i..];
    }
    forall k | 0 <= k < |doomed[i..]|
      ensures Closing(s, doomed[i..][k])
    {
      var fd := doomed[i..][k];
      assert fd == doomed[i + k] && fd in doomed && fd !in doomed[..i];
    }
  }

  class SdsServer {
    const batch: bool
    const slots: nat
    const maxConns: nat
    const store: R.RoomStore
    var conns: map<int, SdsConn>      // the live slots
    var doomed: seq<int>
    var dirty: seq<int>
    ghost var owner: map<object, int>
    ghost var walked: seq<int>        // doomed as it was when the present walk over it began
    ghost var gone: set<int>          // descriptors closed by the present reap

    /** The connections and their send regions. */
    ghost function Repr(): set<object>
      reads `conns
    {
      (set fd | fd in conns :: conns[fd]) + (set fd | fd in conns :: conns[fd].tx)
    }

    /** No two connections share a region or a ring: `owner` tells whose each is. */
    ghost predicate Owns(fd: int, c: SdsConn)
      reads `owner
    {
      && c.fd == fd && c.ring.buf != c.tx && c in owner
      && c.tx in owner && owner[c.tx] == fd && c.ring in owner && owner[c.ring] == fd
      && c.ring.buf in owner && owner[c.ring.buf] == fd
    }

    ghost predicate Apart()
      reads `conns, `owner
    {
      this !in owner && store !in owner && forall fd :: fd in conns ==> Owns(fd, conns[fd])
    }

    ghost predicate Shape()
      reads `conns, `owner, Repr()
    {
      this !in Repr() && store !in Repr() && Apart() && forall fd :: fd in conns ==> conns[fd].Valid()
    }

    ghost function Views(): map<int, Conn>
      requires Shape()
      reads `conns, `owner, Repr()
    {
      map fd | fd in conns :: conns[fd].View()
    }

    /** The state of server.cpp this server stands for. */
    ghost function View(): C.Core
      requires Shape() && store.Shape()
      reads `conns, `owner, Repr(), store
    {
      C.Core(batch, false, Views(), store.Members(), map[], 0)
    }

    /** The same with the names of the room records. */
    ghost function Full(): State
      requires Shape() && store.Shape()
      reads `conns, `owner, Repr(), store
    {
      State(View(), store.Titles())
    }

    ghost predicate Lists()
      requires Shape()
      reads `conns, `owner, `doomed, `dirty, `walked, `gone, Repr()
    {
      Dooms(Views(), doomed, walked, gone) && Dirties(Views(), dirty, gone) && (!batch ==> dirty == [])
    }

    /** Connections and rooms agree. */
    ghost predicate Sane()
      reads `conns, `owner, Repr(), store
    {
      && Shape() && store.Valid() && C.Members(View()) && |store.slots| == slots
      && forall fd :: fd in conns ==> 0 <= fd < slots
    }

    ghost predicate Valid()
      reads `conns, `owner, `doomed, `dirty, `walked, `gone, Repr(), store
    {
      Sane() && Lists() && forall x :: x in gone ==> 0 <= x < slots
    }

    /** Both lists are reserved to the slot count, and never grow past it. */
    lemma ListsFit()
      requires Valid()
      ensures |doomed| <= slots && |dirty| <= slots
    {
      assert conns.Keys == Views().Keys;
      forall x | x in doomed || x in dirty
        ensures 0 <= x < slots
      {
      }
      ListFits(doomed);
      ListFits(dirty);
    }

    lemma ListFits(list: seq<int>)
      requires NoDup(list) && forall x :: x in list ==> 0 <= x < slots
      ensures |list| <= slots
    {
      forall i | 0 <= i < |list|
        ensures 0 <= list[i] < slots
      {
        var x := list[i];
        assert x in list;
      }
      Pigeonhole(list, slots);
    }

    constructor (batch: bool, slots: nat, maxConns: nat)
      ensures Valid() && fresh(store) && this.batch == batch && this.slots == slots && this.maxConns == maxConns
      ensures View() == C.Core(batch, false, map[], map[], map[], 0) && conns == map[]
      ensures doomed == [] && dirty == [] && walked == [] && gone == {}
    {
      this.batch, this.slots, this.maxConns := batch, slots, maxConns;
      store := new R.RoomStore(slots);
      conns, doomed, dirty, owner, walked, gone := map[], [], [], map[], [], {};
    }

    // ---- one connection

    twostate lemma OneChanged(fd: int)
      requires old(Shape()) && Shape() && conns == old(conns) && fd in conns
      requires forall x :: x in conns && x != fd ==> conns[x].View() == old(conns[x].View())
      ensures Views() == old(Views())[fd := conns[fd].View()]
    {
      var was, now := old(Views()), Views();
      forall x | x in conns
        ensures x in was && x in now && (x != fd ==> now[x] == was[x])
      {
      }
    }

    lemma RoomSeen(fd: int)
      requires Shape() && fd in conns
      ensures fd in Views() && Views()[fd].room == conns[fd].room
    {
    }

    lemma FlagsOf(fd: int)
      requires Shape() && fd in conns
      ensures fd in Views() && Views()[fd].closing == conns[fd].closing && Views()[fd].dirty == conns[fd].dirty
    {
    }

    /** doom() and mark_dirty() put a connection on their list when they set its flag. */
    method Note(fd: int, wasClosing: bool, wasDirty: bool, ghost was: map<int, Conn>, ghost c: Conn)
      requires Shape() && fd in conns && fd in was && Views() == was[fd := c]
      requires Dooms(was, doomed, walked, gone) && Dirties(was, dirty, gone)
      requires !batch ==> dirty == [] && c.dirty == was[fd].dirty
      requires was[fd].closing == wasClosing && was[fd].dirty == wasDirty
      requires (wasClosing ==> c.closing) && (wasDirty ==> c.dirty)
      modifies `doomed, `dirty
      ensures Shape() && Lists() && Views() == was[fd := c]
    {
      DoomNoted(was, doomed, walked, gone, fd, c);
      DirtyNoted(was, dirty, gone, fd, c);
      FlagsOf(fd);
      Push(fd, !wasClosing && conns[fd].closing, !wasDirty && conns[fd].dirty);
    }

    method Push(fd: int, doom: bool, mark: bool)
      requires Shape()
      modifies `doomed, `dirty
      ensures Shape() && Views() == old(Views())
      ensures doomed == (if doom then old(doomed) + [fd] else old(doomed))
      ensures dirty == (if mark then old(dirty) + [fd] else old(dirty))
    {
      PushDoomed(fd, doom);
      PushDirty(fd, mark);
    }

    method PushDirty(fd: int, mark: bool)
      requires Shape()
      modifies `dirty
      ensures Shape() && Views() == old(Views()) && dirty == if mark then old(dirty) + [fd] else old(dirty)
    {
      if mark {
        dirty := dirty + [fd];
        ConnsStay();
      }
    }

    method QueueOn(fd: int, typ: u16, payload: seq<byte>)
      requires Shape() && fd in conns
      modifies conns[fd], conns[fd].tx
      ensures Shape() && Views() == old(Views())[fd := QueueSend(old(Views())[fd], typ, payload)]
    {
      conns[fd].QueueSend(typ, payload);
      OneChanged(fd);
    }

    method DeliverOn(fd: int, typ: u16, payload: seq<byte>)
      requires Shape() && fd in conns
      modifies conns[fd], conns[fd].tx
      ensures Shape() && Views() == old(Views())[fd := Deliver(batch, old(Views())[fd], typ, payload)]
    {
      conns[fd].Deliver(batch, typ, payload);
      OneChanged(fd);
    }

    method Queue(fd: int, typ: u16, payload: seq<byte>)
      requires Shape() && Lists() && fd in conns
      modifies conns[fd], conns[fd].tx, `doomed, `dirty
      ensures Shape() && Lists() && Views() == old(Views())[fd := QueueSend(old(Views())[fd], typ, payload)]
    {
      var wasClosing, wasDirty := conns[fd].closing, conns[fd].dirty;
      ghost var was := Views();
      QueueOn(fd, typ, payload);
      Note(fd, wasClosing, wasDirty, was, QueueSend(was[fd], typ, payload));
    }

    method DeliverTo(fd: int, typ: u16, payload: seq<byte>)
      requires Shape() && Lists() && fd in conns
      modifies conns[fd], conns[fd].tx, `doomed, `dirty
      ensures Shape() && Lists() && Views() == old(Views())[fd := Deliver(batch, old(Views())[fd], typ, payload)]
    {
      var wasClosing, wasDirty := conns[fd].closing, conns[fd].dirty;
      ghost var was := Views();
      C.DeliverFlags(batch, was[fd], typ, payload);
      FlushArms(QueueSend(was[fd], typ, payload));
      DeliverOn(fd, typ, payload);
      Note(fd, wasClosing, wasDirty, was, Deliver(batch, was[fd], typ, payload));
    }

    // ---- rooms

    /** A slot is linked exactly when its connection has a room, and into that room. */
    lemma RoomOf(fd: int)
      requires Valid() && fd in conns
      ensures conns[fd].room == [] <==> store.slots[fd] == R.LOOSE
      ensures store.slots[fd] != R.LOOSE ==>
                var idx := store.slots[fd].room;
                && 0 <= idx < |store.rooms| && store.rooms[idx].live
                && Key(store.rooms[idx].name) == store.Home(fd) == conns[fd].room
    {
      var room := conns[fd].room;
      assert View().conns[fd].room == room;
      store.HomeIsMembership(fd, room);
      if store.slots[fd] != R.LOOSE {
        store.HomeIsMembership(fd, store.Home(fd));
        ghost var k := store.Position(fd);
      }
    }

    /** One stop of the walk. */
    method Visit(fd: int, typ: u16, payload: seq<byte>, except: int, ghost was: map<int, Conn>, ghost order: seq<int>)
      requires Shape() && Lists() && fd in conns && Views() == Delivered(batch, was, order, typ, payload, except)
      modifies Repr(), `doomed, `dirty
      ensures Shape() && Lists() && Views() == Delivered(batch, was, order + [fd], typ, payload, except)
    {
      assert (order + [fd])[..|order|] == order;
      FlagsOf(fd);
      if fd != except && !conns[fd].closing {
        DeliverTo(fd, typ, payload);
      }
    }

    method VisitAt(order: seq<int>, i: nat, typ: u16, payload: seq<byte>, except: int, ghost was: map<int, Conn>)
      requires Shape() && Lists() && i < |order| && forall fd :: fd in order ==> fd in conns
      requires Views() == Delivered(batch, was, order[..i], typ, payload, except)
      modifies Repr(), `doomed, `dirty
      ensures Shape() && Lists() && Views() == Delivered(batch, was, order[..i + 1], typ, payload, except)
    {
      var fd := order[i];
      assert fd in order && order[..i + 1] == order[..i] + [fd];
      Visit(fd, typ, payload, except, was, order[..i]);
    }

    method DeliverAll(order: seq<int>, typ: u16, payload: seq<byte>, except: int)
      requires Shape() && Lists() && forall fd :: fd in order ==> fd in conns
      modifies Repr(), `doomed, `dirty
      ensures Shape() && Lists() && Views() == Delivered(batch, old(Views()), order, typ, payload, except)
    {
      ghost var was := Views();
      for i := 0 to |order|
        invariant conns == old(conns)
        invariant Shape() && Lists() && Views() == Delivered(batch, was, order[..i], typ, payload, except)
      {
        VisitAt(order, i, typ, payload, except, was);
      }
      assert order[..|order|] == order;
    }

    /** The walk along next links; nothing is unlinked while it lasts. */
    method MembersOf(idx: int, ghost room: Name) returns (order: seq<int>)
      requires Valid()
      requires 0 <= idx < |store.rooms| && RoomIs(idx, room)
      ensures NoDup(order) && forall fd :: fd in order ==> fd in conns
      ensures forall fd :: fd in order <==> room in store.Members() && fd in store.Members()[room]
      ensures Valid() && View() == old(View())
    {
      order := [];
      if store.rooms[idx].live {
        order := store.Walk(idx);
        SendSideStays();
        assert forall fd :: fd in order <==> fd in Elems(order);
        ghost var s := View();
        assert forall fd :: fd in s.rooms[room] ==> fd in s.conns;
      }
    }

    method Broadcast(idx: int, ghost room: Name, typ: u16, payload: seq<byte>, except: int)
      requires Valid()
      requires 0 <= idx < |store.rooms| && RoomIs(idx, room)
      modifies Repr(), `doomed, `dirty
      ensures Valid() && View() == C.Broadcast(old(View()), room, typ, payload, except)
    {
      var order := MembersOf(idx, room);
      DeliveredIsBroadcast(View(), room, order, typ, payload, except);
      Spread(order, room, typ, payload, except);
    }

    method Spread(order: seq<int>, ghost room: Name, typ: u16, payload: seq<byte>, except: int)
      requires Valid() && forall fd :: fd in order ==> fd in conns
      requires Delivered(batch, Views(), order, typ, payload, except)
            == C.Broadcast(View(), room, typ, payload, except).conns
      modifies Repr(), `doomed, `dirty
      ensures Valid() && View() == C.Broadcast(old(View()), room, typ, payload, except)
    {
      C.BroadcastMembers(View(), room, typ, payload, except);
      DeliverAll(order, typ, payload, except);
    }

    /** Ghost bookkeeping: the name of the room the slot is now linked into. */
    method Relocate(fd: int, ghost room: Name)
      requires Shape() && Lists() && fd in conns
      modifies conns[fd]
      ensures Shape() && Lists() && Views() == old(Views())[fd := old(Views())[fd].(room := room)]
              && conns[fd].room == room
    {
      DoomNoted(Views(), doomed, walked, gone, fd, Views()[fd].(room := room));
      DirtyNoted(Views(), dirty, gone, fd, Views()[fd].(room := room));
      conns[fd].room := room;
      OneChanged(fd);
    }

    /** What the store says once `fd` left its room. */
    method UnlinkSlot(fd: int)
      requires Valid() && fd in conns
      modifies store
      ensures Shape() && Lists() && Views() == old(Views()) && store.Valid() && |store.slots| == old(|store.slots|)
      ensures store.Members() == C.LeaveRoom(old(View()), fd).rooms
      ensures store.Titles() == NamesLeft(old(View()), fd, old(store.Titles()))
      ensures old(store.slots)[fd] != R.LOOSE ==>
                && 0 <= old(store.slots)[fd].room < |store.rooms|
                && RoomIs(old(store.slots)[fd].room, old(conns[fd].room))
    {
      RoomOf(fd);
      store.Leave(fd);
      ConnsStay();
    }

    /** Record `idx` is live exactly when room `room` exists, and then it is that room. */
    ghost predicate RoomIs(idx: int, room: Name)
      requires store.Shape() && 0 <= idx < |store.rooms|
      reads store
    {
      && (store.rooms[idx].live <==> room in store.Members())
      && (store.rooms[idx].live ==> Key(store.rooms[idx].name) == room)
    }

    method LeaveOf(fd: int)
      requires Valid() && fd in conns
      modifies store, conns[fd]
      ensures Valid() && View() == C.LeaveRoom(old(View()), fd) && conns[fd].room == []
      ensures store.Titles() == NamesLeft(old(View()), fd, old(store.Titles()))
      ensures old(store.slots)[fd] != R.LOOSE ==>
                && 0 <= old(store.slots)[fd].room < |store.rooms|
                && RoomIs(old(store.slots)[fd].room, old(conns[fd].room))
    {
      C.LeaveMembers(View(), fd);
      UnlinkSlot(fd);
      Relocate(fd, []);
    }

    method LinkSlot(fd: int, room: Name)
      requires Valid() && fd in conns && conns[fd].room == [] && 0 < |room| < NAME_SIZE
      modifies store
      ensures Shape() && Lists() && Views() == old(Views()) && store.Valid() && |store.slots| == old(|store.slots|)
      ensures store.Members() == C.EnterRoom(old(View()), fd, Key(room)).rooms
      ensures store.Titles() == Acquired(old(store.Titles()), room)
    {
      RoomOf(fd);
      store.Join(fd, room);
      ConnsStay();
    }

    /** Joining enters the room of the name's key. */
    method EnterOf(fd: int, room: Name)
      requires Valid() && fd in conns && conns[fd].room == [] && 0 < |room| < NAME_SIZE
      modifies store, conns[fd]
      ensures Valid() && View() == C.EnterRoom(old(View()), fd, Key(room)) && conns[fd].room == Key(room)
      ensures store.Titles() == Acquired(old(store.Titles()), room)
    {
      C.EnterMembers(View(), fd, Key(room));
      LinkSlot(fd, room);
      Relocate(fd, Key(room));
    }

    /** What the record of a connection's room shows at the length of a name of that key. */
    function ReadName(fd: int, room: Name): (shown: seq<byte>)
      requires Valid() && fd in conns && conns[fd].room == Key(room) && 0 < |room| < NAME_SIZE
      reads `conns, `owner, `doomed, `dirty, `walked, `gone, Repr(), store
      ensures shown == Shown(store.Titles(), room)
    {
      RoomOf(fd);
      store.rooms[store.slots[fd].room].name[..|room|]
    }

    // ---- packets

    method ReplyTo(fd: int, payload: seq<byte>)
      requires Valid() && fd in conns
      modifies conns[fd], conns[fd].tx, `doomed, `dirty
      ensures Valid() && View() == C.Reply(old(View()), fd, payload) && conns[fd].room == old(conns[fd].room)
    {
      OneStays(View(), fd, QueueSend(Views()[fd], C.S_NOTICE, payload));
      RoomSeen(fd);
      Queue(fd, C.S_NOTICE, payload);
      RoomSeen(fd);
    }

    method Rename(fd: int, nick: seq<byte>)
      requires Valid() && fd in conns
      modifies conns[fd]
      ensures Valid() && View() == C.Update(old(View()), fd, old(Views())[fd].(nick := nick))
    {
      OneStays(View(), fd, Views()[fd].(nick := nick));
      SetNickOf(fd, nick);
    }

    method SetNickOf(fd: int, nick: seq<byte>)
      requires Shape() && Lists() && fd in conns
      modifies conns[fd]
      ensures Shape() && Lists() && Views() == old(Views())[fd := old(Views())[fd].(nick := nick)]
    {
      DoomNoted(Views(), doomed, walked, gone, fd, Views()[fd].(nick := nick));
      DirtyNoted(Views(), dirty, gone, fd, Views()[fd].(nick := nick));
      conns[fd].nick := nick;
      OneChanged(fd);
    }

    method OnSetNick(fd: int, payload: seq<byte>)
      requires Valid() && fd in conns
      modifies conns[fd], conns[fd].tx, `doomed, `dirty
      ensures Valid() && View() == C.SetNick(old(View()), fd, payload)
    {
      var nick := C.Prefix(payload, C.NICK_MAX);
      Rename(fd, nick);
      ReplyTo(fd, C.Text("nick set to ") + nick);
    }

    method DoomConn(fd: int)
      requires Valid() && fd in conns
      modifies conns[fd], `doomed, `dirty
      ensures Valid() && View() == C.Doom(old(View()), fd)
    {
      OneStays(View(), fd, Views()[fd].(closing := true));
      RaiseClosing(fd);
    }

    method RaiseClosing(fd: int)
      requires Shape() && Lists() && fd in conns
      modifies conns[fd], `doomed, `dirty
      ensures Shape() && Lists() && Views() == old(Views())[fd := old(Views())[fd].(closing := true)]
    {
      var wasClosing, wasDirty := conns[fd].closing, conns[fd].dirty;
      ghost var was := Views();
      SetClosing(fd);
      Note(fd, wasClosing, wasDirty, was, was[fd].(closing := true));
    }

    method SetClosing(fd: int)
      requires Shape() && fd in conns
      modifies conns[fd]
      ensures Shape() && Views() == old(Views())[fd := old(Views())[fd].(closing := true)]
    {
      conns[fd].closing := true;
      OneChanged(fd);
    }

    /** To whatever room the connection is in. */
    method Tell(fd: int, typ: u16, payload: seq<byte>, except: int)
      requires Valid() && fd in conns && conns[fd].room != []
      modifies Repr(), `doomed, `dirty
      ensures Valid() && View() == C.Broadcast(old(View()), old(conns[fd].room), typ, payload, except)
    {
      RoomOf(fd);
      store.HomeIsMembership(fd, conns[fd].room);
      Broadcast(store.slots[fd].room, conns[fd].room, typ, payload, except);
    }

    method Depart(fd: int, bye: seq<byte>)
      requires Valid() && fd in conns && conns[fd].room != []
      modifies store, Repr(), `doomed, `dirty
      ensures Valid() && conns[fd].room == []
      ensures View() == C.LeaveRoom(C.Broadcast(old(View()), old(conns[fd].room), C.S_NOTICE, bye, fd), fd)
      ensures store.Titles() == NamesLeft(old(View()), fd, old(store.Titles()))
    {
      ghost var s := View();
      RoomSeen(fd);
      Tell(fd, C.S_NOTICE, bye, fd);
      C.BroadcastGrows(s, conns[fd].room, C.S_NOTICE, bye, fd);
      LeftLooks(s, View(), fd, store.Titles());
      LeaveOf(fd);
    }

    method Arrive(fd: int, room: Name, hello: seq<byte>)
      requires Valid() && fd in conns && conns[fd].room == [] && 0 < |room| < NAME_SIZE
      modifies store, Repr(), `doomed, `dirty
      ensures Valid() && store.Titles() == Acquired(old(store.Titles()), room)
      ensures View() == C.Broadcast(C.Reply(C.EnterRoom(old(View()), fd, Key(room)), fd,
                                            C.Text("joined ") + Shown(store.Titles(), room)),
                                    Key(room), C.S_NOTICE, hello, fd)
    {
      EnterAndAnswer(fd, room);
      Tell(fd, C.S_NOTICE, hello, fd);
    }

    /** The answer is copied out of the record, at the length that was asked for. */
    method EnterAndAnswer(fd: int, room: Name)
      requires Valid() && fd in conns && conns[fd].room == [] && 0 < |room| < NAME_SIZE
      modifies store, conns[fd], conns[fd].tx, `doomed, `dirty
      ensures Valid() && store.Titles() == Acquired(old(store.Titles()), room) && conns[fd].room == Key(room)
      ensures View() == C.Reply(C.EnterRoom(old(View()), fd, Key(room)), fd,
                                C.Text("joined ") + Shown(store.Titles(), room))
    {
      EnterOf(fd, room);
      var answer := C.Text("joined ") + ReadName(fd, room);
      ghost var s, titles := View(), store.Titles();
      ReplyTo(fd, answer);
      assert View() == C.Reply(s, fd, answer) && store.Titles() == titles;
    }

    method MoveTo(fd: int, room: Name)
      requires Valid() && fd in conns && 0 < |room| <= C.ROOM_MAX
      modifies store, Repr(), `doomed, `dirty
      ensures Valid() && Full() == MoveAs(old(Full()), fd, room)
    {
      RoomOf(fd);
      RoomSeen(fd);
      var nick := conns[fd].nick;
      if store.slots[fd] != R.LOOSE {
        Depart(fd, nick + C.Text(" left"));
      }
      Arrive(fd, room, nick + C.Text(" joined"));
    }

    /** A join, whatever it names. */
    method OnJoin(fd: int, f: Frame)
      requires Valid() && fd in conns && f.typ == C.C_JOIN
      modifies store, Repr(), `doomed, `dirty
      ensures Valid() && Full() == HandleAs(old(Full()), fd, f)
    {
      var room := C.Prefix(f.body, C.ROOM_MAX);
      if conns[fd].nick == [] {
        ReplyTo(fd, C.Text("set a nickname first"));
      } else if room == [] {
        ReplyTo(fd, C.Text("room name required"));
      } else {
        MoveTo(fd, room);
      }
    }

    method OnChat(fd: int, payload: seq<byte>)
      requires Valid() && fd in conns
      modifies Repr(), `doomed, `dirty
      ensures Valid() && View() == C.Chat(old(View()), fd, payload)
    {
      RoomOf(fd);
      if store.slots[fd] == R.LOOSE {
        ReplyTo(fd, C.Text("join a room first"));
      } else {
        Tell(fd, C.S_CHAT, conns[fd].nick + C.Text(": ") + payload, C.NOBODY);
      }
    }

    /** Every packet, whatever it names. */
    method HandlePacket(fd: int, f: Frame)
      requires Valid() && fd in conns
      modifies store, Repr(), `doomed, `dirty
      ensures Valid() && Full() == HandleAs(old(Full()), fd, f)
    {
      if f.typ == C.C_SET_NICK {
        OnSetNick(fd, f.body);
      } else if f.typ == C.C_JOIN {
        OnJoin(fd, f);
      } else if f.typ == C.C_CHAT {
        OnChat(fd, f.body);
      } else {
        DoomConn(fd);
      }
    }

    // ---- reading

    /** A ring that is no part of the connections' send regions. */
    ghost predicate Beside(ring: B.RingBuffer)
      reads `conns, ring
    {
      ring.Valid() && ring !in Repr() && ring.buf !in Repr()
    }

    method HandleBeside(fd: int, f: Frame, ring: B.RingBuffer)
      requires Valid() && fd in conns && Beside(ring)
      modifies store, Repr(), `doomed, `dirty
      ensures Valid() && Beside(ring) && Full() == HandleAs(old(Full()), fd, f)
      ensures ring.Contents() == old(ring.Contents())
    {
      HandlePacket(fd, f);
      BesideStays(ring);
    }

    twostate lemma BesideStays(ring: B.RingBuffer)
      requires old(Beside(ring)) && conns == old(conns) && unchanged(ring) && unchanged(ring.buf)
      ensures Beside(ring) && ring.Contents() == old(ring.Contents())
    {
    }

    method CommitBeside(ring: B.RingBuffer, k: nat)
      requires Valid() && Beside(ring) && k <= |ring.Contents()|
      modifies ring`deq
      ensures Valid() && Beside(ring) && Full() == old(Full())
      ensures ring.Contents() == old(ring.Contents())[k..]
    {
      ring.CommitDequeue(k);
      SendSideStays();
    }

    /** What touches neither connections nor their regions keeps them as they were. */
    twostate lemma ConnsStay()
      requires old(Shape()) && unchanged(`conns) && unchanged(`owner) && unchanged(old(Repr()))
      ensures Shape() && Views() == old(Views()) && Repr() == old(Repr())
    {
    }

    /** What touches only rings leaves the server as it was. */
    twostate lemma SendSideStays()
      requires old(Valid()) && unchanged(this) && unchanged(store) && unchanged(old(Repr()))
      ensures Valid() && Full() == old(Full()) && Repr() == old(Repr())
    {
      assert Shape() && Views() == old(Views());
    }

    method DequeueBeside(ring: B.RingBuffer, k: nat) returns (bytes: seq<byte>)
      requires Valid() && Beside(ring) && k <= |ring.Contents()|
      modifies ring`deq
      ensures Valid() && Beside(ring) && Full() == old(Full())
      ensures bytes == old(ring.Contents())[..k] && ring.Contents() == old(ring.Contents())[k..]
    {
      bytes := ring.DequeueExactly(k);
      SendSideStays();
    }

    /** Takes the first frame off the ring: a contiguous one is handled in place and
        committed afterwards, one that straddles the wrap is dequeued first. */
    method HandleFirst(fd: int, ring: B.RingBuffer, ghost f: Frame, len: u16, typ: u16)
      requires Valid() && fd in conns && Beside(ring)
      requires |ring.Contents()| >= HEADER && |ring.Contents()| >= HEADER + len && len == GetU16(ring.Contents())
      requires f == P.FirstFrame(ring.Contents()) && typ == f.typ
      modifies ring`deq, store, Repr(), `doomed, `dirty
      ensures Valid() && Beside(ring) && Full() == HandleAs(old(Full()), fd, f)
      ensures ring.Contents() == old(ring.Contents())[HEADER + len..]
    {
      ghost var bytes := ring.Contents();
      if ring.DirectDequeueSize() >= HEADER + len {
        HandleInPlace(fd, ring, f, len, typ);
      } else {
        var frame := DequeueBeside(ring, HEADER + len);
        P.FrameFields(bytes, frame);
        HandleBeside(fd, Frame(typ, frame[HEADER..]), ring);
      }
    }

    method HandleInPlace(fd: int, ring: B.RingBuffer, ghost f: Frame, len: u16, typ: u16)
      requires Valid() && fd in conns && Beside(ring) && ring.DirectDequeueSize() >= HEADER + len
      requires |ring.Contents()| >= HEADER && |ring.Contents()| >= HEADER + len && len == GetU16(ring.Contents())
      requires f == P.FirstFrame(ring.Contents()) && typ == f.typ
      modifies ring`deq, store, Repr(), `doomed, `dirty
      ensures Valid() && Beside(ring) && Full() == HandleAs(old(Full()), fd, f)
      ensures ring.Contents() == old(ring.Contents())[HEADER + len..]
    {
      var frame := ring.DirectView(HEADER + len);
      P.FrameFields(ring.Contents(), frame);
      HandleCommit(fd, Frame(typ, frame[HEADER..]), ring, HEADER + len);
    }

    method HandleCommit(fd: int, f: Frame, ring: B.RingBuffer, k: nat)
      requires Valid() && fd in conns && Beside(ring) && k <= |ring.Contents()|
      modifies ring`deq, store, Repr(), `doomed, `dirty
      ensures Valid() && Beside(ring) && Full() == HandleAs(old(Full()), fd, f)
      ensures ring.Contents() == old(ring.Contents())[k..]
    {
      HandleBeside(fd, f, ring);
      CommitBeside(ring, k);
    }

    method DoomBeside(fd: int, ring: B.RingBuffer)
      requires Valid() && fd in conns && Beside(ring)
      modifies conns[fd], `doomed, `dirty
      ensures Valid() && Beside(ring) && Full() == old(Full()).(core := C.Doom(old(View()), fd))
      ensures ring.Contents() == old(ring.Contents())
    {
      assert conns[fd] in Repr();
      DoomConn(fd);
      BesideStays(ring);
    }

    /** The turn that ends parse_frames. */
    method ParseStop(fd: int, ring: B.RingBuffer, oversize: bool, ghost s: State, ghost bytes: seq<byte>)
      requires Valid() && fd in conns && Beside(ring) && s == Full() && bytes == ring.Contents()
      requires Done(s.core, fd, bytes)
      requires oversize == (!s.core.conns[fd].closing && |bytes| >= HEADER && GetU16(bytes) > MAX_PAYLOAD)
      modifies Repr(), `doomed, `dirty
      ensures Valid() && Beside(ring) && P.Parse(Handler(fd), s, bytes) == (Full(), ring.Contents())
    {
      ParseStops(s, fd, bytes);
      if oversize {
        DoomBeside(fd, ring);
      }
    }

    /** The turn that hands over a frame. */
    method ParseGo(fd: int, ring: B.RingBuffer, len: u16, typ: u16, ghost s: State, ghost bytes: seq<byte>)
      requires Valid() && fd in conns && Beside(ring) && s == Full() && bytes == ring.Contents()
      requires !Done(s.core, fd, bytes) && len == GetU16(bytes) && typ == GetU16(bytes[2..])
      modifies ring`deq, store, Repr(), `doomed, `dirty
      ensures Valid() && Beside(ring) && |ring.Contents()| < |bytes|
      ensures P.Parse(Handler(fd), s, bytes) == P.Parse(Handler(fd), Full(), ring.Contents())
    {
      ghost var f, rest := P.FirstFrame(bytes), bytes[HEADER + len..];
      HandleFirst(fd, ring, f, len, typ);
      assert Full() == HandleAs(s, fd, f) && ring.Contents() == rest;
      ParseHandles(s, fd, bytes);
    }

    method InspectBeside(ring: B.RingBuffer) returns (front: Front)
      requires Valid() && Beside(ring)
      ensures Valid() && Beside(ring) && Full() == old(Full()) && ring.Contents() == old(ring.Contents())
      ensures Fronts(front, ring.Contents())
    {
      front := Inspect(ring);
      assert Shape() && Views() == old(Views());
    }

    /** One turn of parse_frames on state `s` and pending `bytes`; `more` asks for
        another. */
    method ParseOne(fd: int, ring: B.RingBuffer, ghost s: State, ghost bytes: seq<byte>) returns (more: bool)
      requires Valid() && fd in conns && Beside(ring) && s == Full() && bytes == ring.Contents()
      modifies ring`deq, store, Repr(), `doomed, `dirty
      ensures Valid() && Beside(ring) && (more ==> |ring.Contents()| < |bytes|)
      ensures P.Parse(Handler(fd), s, bytes)
           == if more then P.Parse(Handler(fd), Full(), ring.Contents()) else (Full(), ring.Contents())
    {
      var front := InspectBeside(ring);
      more := !conns[fd].closing && front.Whole?;
      if more {
        ParseGo(fd, ring, front.len, front.typ, s, bytes);
      } else {
        ParseStop(fd, ring, !conns[fd].closing && front.Oversize?, s, bytes);
      }
    }

    /** parse_frames over the inbound ring. */
    method ParseFrames(fd: int, ring: B.RingBuffer)
      requires Valid() && fd in conns && Beside(ring)
      modifies ring`deq, store, Repr(), `doomed, `dirty
      ensures Valid() && Beside(ring)
      ensures (Full(), ring.Contents()) == P.Parse(Handler(fd), old(Full()), old(ring.Contents()))
    {
      ghost var s0, bytes0 := Full(), ring.Contents();
      var more := true;
      while more
        invariant Valid() && Beside(ring) && conns == old(conns)
        invariant P.Parse(Handler(fd), s0, bytes0)
               == if more then P.Parse(Handler(fd), Full(), ring.Contents()) else (Full(), ring.Contents())
        decreases more, |ring.Contents()|
      {
        more := ParseOne(fd, ring, Full(), ring.Contents());
      }
    }

    // ---- the other operations of the loop

    method SettleOn(fd: int)
      requires Shape() && fd in conns
      modifies conns[fd]
      ensures Shape() && Views() == old(Views())[fd := Dispatch(batch, old(Views())[fd])]
    {
      conns[fd].Settle(batch);
      OneChanged(fd);
    }

    method Settle(fd: int)
      requires Shape() && Lists() && fd in conns
      modifies conns[fd], `doomed, `dirty
      ensures Shape() && Lists() && Views() == old(Views())[fd := Dispatch(batch, old(Views())[fd])]
    {
      var wasClosing, wasDirty := conns[fd].closing, conns[fd].dirty;
      ghost var was := Views();
      DispatchFlags(batch, was[fd]);
      FlushArms(was[fd]);
      SettleOn(fd);
      Note(fd, wasClosing, wasDirty, was, Dispatch(batch, was[fd]));
    }

    /** The end of a read event. */
    method SettleConn(fd: int)
      requires Valid() && fd in conns
      modifies conns[fd], `doomed, `dirty
      ensures Valid() && View() == C.Update(old(View()), fd, Dispatch(batch, old(Views())[fd]))
    {
      DispatchFlags(batch, Views()[fd]);
      OneStays(View(), fd, Dispatch(batch, Views()[fd]));
      Settle(fd);
    }

    method WriteOn(fd: int)
      requires Shape() && fd in conns
      modifies conns[fd]
      ensures Shape() && Views() == old(Views())[fd := FlushSend(old(Views())[fd])]
    {
      conns[fd].FlushSend();
      OneChanged(fd);
    }

    method Write(fd: int)
      requires Shape() && Lists() && fd in conns
      modifies conns[fd], `doomed, `dirty
      ensures Shape() && Lists() && Views() == old(Views())[fd := FlushSend(old(Views())[fd])]
    {
      var wasClosing, wasDirty := conns[fd].closing, conns[fd].dirty;
      ghost var was := Views();
      FlushArms(was[fd]);
      WriteOn(fd);
      Note(fd, wasClosing, wasDirty, was, FlushSend(was[fd]));
    }

    /** A writable event: the send loop, whether or not the connection is dirty. */
    method WriteConn(fd: int)
      requires Valid() && fd in conns
      modifies conns[fd], `doomed, `dirty
      ensures Valid() && View() == C.Update(old(View()), fd, FlushSend(old(Views())[fd]))
    {
      FlushArms(Views()[fd]);
      OneStays(View(), fd, FlushSend(Views()[fd]));
      Write(fd);
    }

    /** Accept into a free slot. */
    method Open(fd: int, script: seq<Send>)
      requires Valid() && gone == {} && fd !in conns && 0 <= fd < slots
      modifies `conns, `owner
      ensures Valid() && View() == C.Update(old(View()), fd, NewConn(script)) && fd in conns
      ensures fresh(conns[fd]) && fresh(conns[fd].tx) && fresh(conns[fd].ring) && fresh(conns[fd].ring.buf)
      ensures conns == old(conns)[fd := conns[fd]] && owner.Keys == old(owner.Keys) + Parts(conns[fd])
      ensures conns[fd].ring.Valid() && conns[fd].ring.n == RX_RING && conns[fd].ring.Contents() == []
    {
      var c := ConstructBeside(fd, script);
      C.OpenMembers(View(), fd, NewConn(script));
      Occupy(fd, c);
    }

    method ConstructBeside(fd: int, script: seq<Send>) returns (c: SdsConn)
      requires Valid()
      ensures Valid() && View() == old(View())
      ensures fresh(c) && fresh(c.tx) && fresh(c.ring) && fresh(c.ring.buf) && Foreign(c)
      ensures c.Valid() && c.View() == NewConn(script) && c.fd == fd && c.ring.buf != c.tx
      ensures c.ring.Valid() && c.ring.n == RX_RING && c.ring.Contents() == []
    {
      c := Construct(fd, script);
      assert Shape() && Views() == old(Views());
    }

    method Construct(fd: int, script: seq<Send>) returns (c: SdsConn)
      ensures fresh(c) && fresh(c.tx) && fresh(c.ring) && fresh(c.ring.buf) && Foreign(c)
      ensures c.Valid() && c.View() == NewConn(script) && c.fd == fd && c.ring.buf != c.tx
      ensures c.ring.Valid() && c.ring.n == RX_RING && c.ring.Contents() == []
    {
      c := new SdsConn(fd, script);
    }

    method Occupy(fd: int, c: SdsConn)
      requires Shape() && Lists() && gone == {} && fd !in conns && c.Valid() && c.fd == fd && c.ring.buf != c.tx
      requires !c.closing && !c.dirty && Foreign(c)
      modifies `conns, `owner
      ensures Shape() && Lists() && Views() == old(Views())[fd := c.View()] && conns == old(conns)[fd := c]
      ensures owner.Keys == old(owner.Keys) + Parts(c)
    {
      ListsOpened(Views(), doomed, dirty, walked, fd, c.View());
      Place(fd, c);
    }

    /** Nothing of a connection belongs to another. */
    ghost predicate Foreign(c: SdsConn)
      reads `conns
    {
      forall x :: x in conns ==>
        && c != conns[x] && c.tx != conns[x].tx && c.ring != conns[x].ring && c.ring.buf != conns[x].ring.buf
        && c.tx != conns[x].ring.buf && c.ring.buf != conns[x].tx
    }

    ghost function Parts(c: SdsConn): set<object> {
      {c, c.tx, c.ring, c.ring.buf}
    }

    lemma Strangers()
      ensures this !in Repr() && store !in Repr()
    {
    }

    method Place(fd: int, c: SdsConn)
      requires Shape() && fd !in conns && c.Valid() && c.fd == fd && c.ring.buf != c.tx && Foreign(c)
      modifies `conns, `owner
      ensures Shape() && Views() == old(Views())[fd := c.View()] && conns == old(conns)[fd := c]
      ensures owner.Keys == old(owner.Keys) + Parts(c)
    {
      Claim(fd, c);
      Put(fd, c);
    }

    ghost method Claim(fd: int, c: SdsConn)
      requires Shape() && c.fd == fd && c.ring.buf != c.tx && Foreign(c)
      modifies `owner
      ensures Shape() && Views() == old(Views()) && Owns(fd, c) && owner.Keys == old(owner.Keys) + Parts(c)
    {
      owner := owner[c := fd][c.tx := fd][c.ring := fd][c.ring.buf := fd];
    }

    method Put(fd: int, c: SdsConn)
      requires Shape() && fd !in conns && c.Valid() && Owns(fd, c)
      modifies `conns
      ensures Shape() && Views() == old(Views())[fd := c.View()] && conns == old(conns)[fd := c]
    {
      ghost var was := Views();
      conns := conns[fd := c];
      Strangers();
      ghost var now := Views();
      forall x | x in conns && x != fd
        ensures x in was && x in now && now[x] == was[x]
      {
      }
    }

    /** Erases a connection that is in no room; its list entries linger. */
    method Close(fd: int)
      requires Valid() && fd in conns && forall r :: r in View().rooms ==> fd !in View().rooms[r]
      modifies `conns, `gone
      ensures Valid() && View() == old(View()).(conns := old(Views()) - {fd})
      ensures conns == old(conns) - {fd} && gone == old(gone) + {fd}
    {
      C.EraseMembers(View(), fd);
      Empty(fd);
    }

    method Empty(fd: int)
      requires Shape() && Lists() && fd in conns
      modifies `conns, `gone
      ensures Shape() && Lists() && Views() == old(Views()) - {fd}
      ensures conns == old(conns) - {fd} && gone == old(gone) + {fd}
    {
      ListsClosed(Views(), doomed, dirty, walked, gone, fd);
      Vacate(fd);
      label Vacated:
      gone := gone + {fd};
      ConnsStay@Vacated();
    }

    method Vacate(fd: int)
      requires Shape() && fd in conns
      modifies `conns
      ensures Shape() && Views() == old(Views()) - {fd} && conns == old(conns) - {fd}
    {
      ghost var was := Views();
      conns := conns - {fd};
      ghost var now := Views();
      forall x | x in conns
        ensures x in was && x in now && now[x] == was[x]
      {
      }
    }

    /** One stop of the reap: leave first, so the goodbye cannot reach the leaver. */
    method Reap(fd: int)
      requires Valid() && fd in conns
      modifies `conns, `gone, `doomed, `dirty, store, Repr()
      ensures Valid() && View() == C.ReapOne(old(View()), fd)
      ensures store.Titles() == NamesLeft(old(View()), fd, old(store.Titles()))
      ensures conns == old(conns) - {fd} && gone == old(gone) + {fd}
    {
      Part(fd);
      Close(fd);
    }

    method Part(fd: int)
      requires Valid() && fd in conns
      modifies store, Repr(), `doomed, `dirty
      ensures Valid() && View() == C.Farewell(old(View()), fd)
      ensures store.Titles() == NamesLeft(old(View()), fd, old(store.Titles()))
      ensures forall r :: r in View().rooms ==> fd !in View().rooms[r]
    {
      RoomOf(fd);
      C.LeaveMembers(View(), fd);
      var idx, nick := store.slots[fd].room, conns[fd].nick;
      ghost var room := conns[fd].room;
      var wasIn := store.slots[fd] != R.LOOSE;
      LeaveOf(fd);
      if wasIn && nick != [] {
        Broadcast(idx, room, C.S_NOTICE, nick + C.Text(" left"), fd);
      }
    }

    // ---- receiving

    /** Every ring is sound and no part of the send side. */
    ghost predicate Rings()
      reads `conns, RingRepr()
    {
      && RingRepr() !! Repr() && this !in RingRepr() && store !in RingRepr()
      && forall fd :: fd in conns ==> Beside(conns[fd].ring) && conns[fd].ring.n == RX_RING
    }

    ghost function RingRepr(): set<object>
      reads `conns
    {
      (set fd | fd in conns :: conns[fd].ring) + (set fd | fd in conns :: conns[fd].ring.buf)
    }

    /** The bytes received and not yet parsed. */
    ghost function Inbox(): map<int, seq<byte>>
      requires Rings()
      reads `conns, RingRepr()
    {
      map fd | fd in conns :: conns[fd].ring.Contents()
    }

    twostate lemma OneRing(fd: int)
      requires old(Rings()) && conns == old(conns) && fd in conns && Beside(conns[fd].ring)
      requires forall x :: x in conns && x != fd ==> unchanged(conns[x].ring) && unchanged(conns[x].ring.buf)
      ensures Rings() && Inbox() == old(Inbox())[fd := conns[fd].ring.Contents()]
    {
      var was, now := old(Inbox()), Inbox();
      forall x | x in conns
        ensures x in was && x in now && (x != fd ==> now[x] == was[x])
      {
      }
    }

    method EnqueueBeside(ring: B.RingBuffer, bytes: seq<byte>)
      requires Valid() && Beside(ring) && |bytes| <= ring.FreeSize()
      modifies ring, ring.buf
      ensures Valid() && Beside(ring) && Full() == old(Full())
      ensures ring.Contents() == old(ring.Contents()) + bytes
    {
      var got := ring.Enqueue(bytes);
      SendSideStays();
    }

    /** Appends received bytes to the connection's ring and parses. */
    method TakeBytes(fd: int, bytes: seq<byte>)
      requires Valid() && fd in conns && Beside(conns[fd].ring) && |bytes| <= conns[fd].ring.FreeSize()
      modifies conns[fd].ring, conns[fd].ring.buf, store, Repr(), `doomed, `dirty
      ensures Valid() && Beside(conns[fd].ring)
      ensures (Full(), conns[fd].ring.Contents())
           == P.Parse(Handler(fd), old(Full()), old(conns[fd].ring.Contents()) + bytes)
    {
      EnqueueBeside(conns[fd].ring, bytes);
      ParseFrames(fd, conns[fd].ring);
    }

    /** recv() asks for at most the free space, so a large outcome may be taken in
        pieces; there is always room. */
    method TakeData(fd: int, recvs: seq<P.Recv>, ghost s: State, ghost pending: seq<byte>)
      returns (go: bool, more: seq<P.Recv>)
      requires Valid() && fd in conns && Beside(conns[fd].ring) && conns[fd].ring.n == RX_RING
      requires s == Full() && pending == conns[fd].ring.Contents() && |pending| < MAX_FRAME
      requires P.Plausible(recvs) && recvs != [] && recvs[0].Data?
      modifies conns[fd].ring, conns[fd].ring.buf, store, Repr(), `doomed, `dirty
      ensures Valid() && Beside(conns[fd].ring)
      ensures DrainTurn(fd, s, pending, recvs, go, Full(), conns[fd].ring.Contents(), more)
    {
      var bytes := recvs[0].bytes;
      assert recvs[0] in recvs;
      var k := Min(Min(conns[fd].ring.FreeSize(), P.RECV_SIZE), |bytes|);
      TakeBytes(fd, bytes[..k]);
      FlagsOf(fd);
      DataTurn(fd, s, pending, recvs, k, Full(), conns[fd].ring.Contents());
      go, more := !conns[fd].closing, Rest(recvs, k);
    }

    /** One turn of the receive loop. */
    method DrainOne(fd: int, recvs: seq<P.Recv>, ghost s: State, ghost pending: seq<byte>)
      returns (go: bool, more: seq<P.Recv>)
      requires Valid() && fd in conns && Beside(conns[fd].ring) && conns[fd].ring.n == RX_RING
      requires s == Full() && pending == conns[fd].ring.Contents() && |pending| < MAX_FRAME && P.Plausible(recvs)
      modifies conns[fd].ring, conns[fd].ring.buf, store, Repr(), `doomed, `dirty
      ensures Valid() && Beside(conns[fd].ring)
      ensures DrainTurn(fd, s, pending, recvs, go, Full(), conns[fd].ring.Contents(), more)
    {
      if recvs == [] || recvs[0].Again? {
        EndTurn(fd, s, pending, recvs);
        return false, [];
      }
      if recvs[0].Data? {
        go, more := TakeData(fd, recvs, s, pending);
      } else if recvs[0].Intr? {
        SkipTurn(fd, s, pending, recvs);
        return true, recvs[1..];
      } else {
        DoomTurn(fd, s, pending, recvs);
        DoomBeside(fd, conns[fd].ring);
        return false, [];
      }
    }

    /** The receive loop over the connection's ring. */
    method Drain(fd: int, recvs: seq<P.Recv>)
      requires Valid() && fd in conns && Beside(conns[fd].ring) && conns[fd].ring.n == RX_RING
      requires |conns[fd].ring.Contents()| < MAX_FRAME && P.Plausible(recvs)
      modifies conns[fd].ring, conns[fd].ring.buf, store, Repr(), `doomed, `dirty
      ensures Valid() && Beside(conns[fd].ring)
      ensures DrainTurn(fd, old(Full()), old(conns[fd].ring.Contents()), recvs, false,
                        Full(), conns[fd].ring.Contents(), [])
    {
      ghost var h, goal := Handler(fd), P.Drain(Handler(fd), Full(), conns[fd].ring.Contents(), recvs);
      var go, more := true, recvs;
      while go
        invariant Valid() && Beside(conns[fd].ring) && conns == old(conns)
        invariant go ==> P.Plausible(more) && |conns[fd].ring.Contents()| < MAX_FRAME
        invariant go ==> P.SameOutcome(h, P.Drain(h, Full(), conns[fd].ring.Contents(), more), goal)
        invariant !go ==> P.SameOutcome(h, (Full(), conns[fd].ring.Contents()), goal)
        decreases go, |more|, if more != [] && more[0].Data? then |more[0].bytes| else 0
      {
        go, more := DrainOne(fd, more, Full(), conns[fd].ring.Contents());
      }
    }

    /** The receive loop, with what it leaves the other rings. */
    method DrainConn(fd: int, recvs: seq<P.Recv>)
      requires Valid() && Rings() && fd in conns && |conns[fd].ring.Contents()| < MAX_FRAME && P.Plausible(recvs)
      modifies conns[fd].ring, conns[fd].ring.buf, store, Repr(), `doomed, `dirty
      ensures Valid() && Rings() && Inbox() == old(Inbox())[fd := conns[fd].ring.Contents()]
      ensures DrainTurn(fd, old(Full()), old(conns[fd].ring.Contents()), recvs, false,
                        Full(), conns[fd].ring.Contents(), [])
    {
      OtherRings(fd);
      Drain(fd, recvs);
      OneRing(fd);
    }

    /** The rings of the others are apart from all that a read of `fd` writes. */
    lemma OtherRings(fd: int)
      requires Shape() && Rings() && fd in conns
      ensures forall x :: x in conns && x != fd ==>
                && conns[x].ring != conns[fd].ring && conns[x].ring.buf != conns[fd].ring.buf
                && conns[x].ring !in Repr() && conns[x].ring.buf !in Repr()
    {
    }

    twostate lemma RingsStay()
      requires old(Rings()) && conns == old(conns)
      requires forall x :: x in conns ==> unchanged(conns[x].ring) && unchanged(conns[x].ring.buf)
      ensures Rings() && Inbox() == old(Inbox())
    {
    }

    method SettleBeside(fd: int)
      requires Valid() && Rings() && fd in conns
      modifies conns[fd], `doomed, `dirty
      ensures Valid() && Rings() && Inbox() == old(Inbox())
      ensures Full() == old(Full()).(core := Settled(old(View()), fd))
    {
      FlagsOf(fd);
      if !conns[fd].closing {
        SettleConn(fd);
        RingsStay();
      }
    }

    /** A read event: receive and parse, then dispatch. */
    method ReadConn(fd: int, recvs: seq<P.Recv>) returns (ghost rest: seq<byte>)
      requires Valid() && Rings() && fd in conns && |conns[fd].ring.Contents()| < MAX_FRAME && P.Plausible(recvs)
      modifies conns[fd].ring, conns[fd].ring.buf, store, Repr(), `doomed, `dirty
      ensures Valid() && Rings() && Inbox() == old(Inbox())[fd := rest]
      ensures Full() == ReadAs(old(Full()), fd, old(conns[fd].ring.Contents()), recvs)
      ensures var d := P.Drain(Handler(fd), old(Full()), old(conns[fd].ring.Contents()), recvs);
              fd in d.0.core.conns && !d.0.core.conns[fd].closing ==> rest == d.1
    {
      ghost var s, pending := Full(), conns[fd].ring.Contents();
      DrainConn(fd, recvs);
      rest := conns[fd].ring.Contents();
      FlagsOf(fd);
      ReadIs(s, fd, pending, recvs, Full(), rest);
      SettleBeside(fd);
    }

    method WriteBeside(fd: int)
      requires Valid() && Rings() && fd in conns
      modifies conns[fd], `doomed, `dirty
      ensures Valid() && Rings() && Inbox() == old(Inbox())
      ensures Full() == old(Full()).(core := C.Update(old(View()), fd, FlushSend(old(Views())[fd])))
    {
      assert conns[fd] in Repr();
      WriteConn(fd);
      RingsStay();
    }

    method HangUpBeside(fd: int)
      requires Valid() && Rings() && fd in conns
      modifies conns[fd], `doomed, `dirty
      ensures Valid() && Rings() && Inbox() == old(Inbox())
      ensures Full() == old(Full()).(core := C.Doom(old(View()), fd))
    {
      assert conns[fd] in Repr();
      DoomConn(fd);
      RingsStay();
    }

    // ---- events

    /** Standing for the world `w`. */
    ghost predicate Stands(w: Site)
      requires Shape() && store.Shape() && Rings()
      reads `conns, `owner, Repr(), RingRepr(), store
    {
      C.Kept(View(), C.NOBODY) && Matches(View(), Inbox(), w.world) && store.Titles() == w.names
    }

    /** Between two events. */
    ghost predicate Handling(w: Site)
      reads `conns, `owner, `doomed, `dirty, `walked, `gone, Repr(), RingRepr(), store
    {
      Valid() && Rings() && gone == {} && Stands(w)
    }

    lemma NobodyIsHere()
      requires Valid()
      ensures C.NOBODY !in View().conns
    {
    }

    method OnReadable(fd: int, recvs: seq<P.Recv>, ghost w: Site)
      requires Handling(w) && fd in conns && !conns[fd].closing && fd in w.world.inb && P.Plausible(recvs)
      modifies conns[fd].ring, conns[fd].ring.buf, store, Repr(), `doomed, `dirty
      ensures Handling(ReadStepAs(w, fd, recvs))
    {
      ghost var s, inbox, rest: seq<byte> := Full(), Inbox(), [];
      NobodyIsHere();
      FlagsOf(fd);
      assert inbox[fd] == conns[fd].ring.Contents();
      HandlerSound(fd);
      DrainLeaves(Handler(fd), s, inbox[fd], recvs);
      ReadAsKeeps(s, fd, inbox[fd], recvs);
      rest := ReadConn(fd, recvs);
      MatchesRead(s, inbox, w, fd, recvs, rest);
    }

    method OnWritable(fd: int, ghost w: Site)
      requires Handling(w) && fd in conns
      modifies conns[fd], `doomed, `dirty
      ensures fd in w.world.core.conns
      ensures Handling(With(w, C.Update(w.world.core, fd, FlushSend(w.world.core.conns[fd]))))
    {
      ghost var s, inbox := View(), Inbox();
      NobodyIsHere();
      WriteKeeps(s, fd);
      WriteBeside(fd);
      MatchesKept(s, View(), inbox, w.world);
    }

    method OnHangup(fd: int, ghost w: Site)
      requires Handling(w) && fd in conns
      modifies conns[fd], `doomed, `dirty
      ensures fd in w.world.core.conns && Handling(With(w, C.Doom(w.world.core, fd)))
    {
      ghost var s, inbox := View(), Inbox();
      C.DoomKeeps(s, fd, C.NOBODY);
      HangUpBeside(fd);
      MatchesKept(s, View(), inbox, w.world);
    }

    /** A constructed slot brings its own ring. */
    method OpenBeside(fd: int, script: seq<Send>)
      requires Valid() && Rings() && gone == {} && fd !in conns && 0 <= fd < slots
      modifies `conns, `owner
      ensures Valid() && Rings() && Inbox() == old(Inbox())[fd := []]
      ensures View() == C.Update(old(View()), fd, NewConn(script)) && conns.Keys == old(conns.Keys) + {fd}
      ensures fresh(owner.Keys - old(owner.Keys))
    {
      Open(fd, script);
      RingsJoined(fd);
      InboxJoined(fd);
    }

    twostate lemma InboxJoined(fd: int)
      requires old(Rings()) && Rings() && fd in conns && conns == old(conns)[fd := conns[fd]] && fd !in old(conns)
      requires forall x :: x in old(conns) ==> unchanged(conns[x].ring) && unchanged(conns[x].ring.buf)
      ensures Inbox() == old(Inbox())[fd := conns[fd].ring.Contents()]
    {
      var was, now := old(Inbox()), Inbox();
      forall x | x in conns
        ensures x in now && (x != fd ==> x in was && now[x] == was[x])
      {
      }
    }

    twostate lemma RingsJoined(fd: int)
      requires old(Rings()) && fd in conns && conns == old(conns)[fd := conns[fd]] && fd !in old(conns) && Shape()
      requires fresh(conns[fd]) && fresh(conns[fd].tx) && fresh(conns[fd].ring) && fresh(conns[fd].ring.buf)
      requires conns[fd].ring.Valid() && conns[fd].ring.n == RX_RING
      requires forall x :: x in old(conns) ==> unchanged(conns[x].ring) && unchanged(conns[x].ring.buf)
      ensures Rings()
    {
    }

    lemma SameKeys(w: World)
      requires Valid() && View() == w.core
      ensures conns.Keys == w.core.conns.Keys && |conns| == |w.core.conns|
    {
      assert conns.Keys == Views().Keys;
      assert |conns| == |conns.Keys| && |w.core.conns| == |w.core.conns.Keys|;
    }

    method OnAccept(fd: int, script: seq<Send>, ghost w: Site)
      requires Handling(w) && 0 <= fd < slots && fd !in conns
      modifies `conns, `owner
      ensures Handling(w.(world := EventStep(w.world, maxConns, Incoming(fd, script))))
      ensures fresh(owner.Keys - old(owner.Keys))
      ensures conns.Keys == Opened(old(conns.Keys), maxConns, Incoming(fd, script))
    {
      SameKeys(w.world);
      if |conns| < maxConns {
        Admit(fd, script, w);
      }
    }

    method Admit(fd: int, script: seq<Send>, ghost w: Site)
      requires Handling(w) && 0 <= fd < slots && fd !in conns
      modifies `conns, `owner
      ensures Handling(w.(world := World(C.Update(w.world.core, fd, NewConn(script)), w.world.inb[fd := []])))
      ensures conns.Keys == old(conns.Keys) + {fd} && fresh(owner.Keys - old(owner.Keys))
    {
      ghost var s, inbox := View(), Inbox();
      AcceptKeeps(s, fd, script);
      MatchesOpened(s, inbox, w.world, fd, script);
      OpenBeside(fd, script);
    }

    method WriteIf(fd: int, writable: bool, ghost w: Site)
      requires Handling(w) && fd in conns
      modifies conns[fd], `doomed, `dirty
      ensures fd in w.world.core.conns
      ensures Handling(if writable then With(w, C.Update(w.world.core, fd, FlushSend(w.world.core.conns[fd]))) else w)
    {
      SameKeys(w.world);
      if writable {
        OnWritable(fd, w);
      }
    }

    method ReadIf(fd: int, readable: bool, recvs: seq<P.Recv>, ghost w: Site)
      requires Handling(w) && P.Plausible(recvs)
      modifies `doomed, `dirty, store, owner.Keys
      ensures Handling(if readable && Reads(w.world, fd) then ReadStepAs(w, fd, recvs) else w)
    {
      SameKeys(w.world);
      if readable && fd in conns && !conns[fd].closing {
        Present(w, fd);
        Mine(fd);
        OnReadable(fd, recvs, w);
      } else if fd in conns {
        Present(w, fd);
      }
    }

    lemma HangupIs(w: World, e: Event)
      requires e.Ready? && e.fd in w.core.conns && !w.core.conns[e.fd].closing && e.hangup
      ensures EventStep(w, maxConns, e) == w.(core := C.Doom(w.core, e.fd))
    {
    }

    lemma Mine(fd: int)
      requires Shape() && fd in conns
      ensures conns[fd] in owner && conns[fd].ring in owner && conns[fd].ring.buf in owner && Repr() <= owner.Keys
    {
      ReprOwned();
    }

    /** What the world says of a descriptor that is closed or closing, */
    lemma Absent(w: Site, e: Event)
      requires Handling(w) && e.Ready? && (e.fd !in conns || conns[e.fd].closing)
      ensures EventStep(w.world, maxConns, e) == w.world
    {
      if e.fd in conns {
        FlagsOf(e.fd);
      }
    }

    /** and of one that is open. */
    lemma Present(w: Site, fd: int)
      requires Handling(w) && fd in conns
      ensures fd in w.world.core.conns && w.world.core.conns[fd].closing == conns[fd].closing
      ensures !conns[fd].closing ==> fd in w.world.inb
    {
      FlagsOf(fd);
    }

    lemma WriteIs(w: World, e: Event)
      requires e.Ready? && e.fd in w.core.conns && !w.core.conns[e.fd].closing && !e.hangup
      ensures EventStep(w, maxConns, Before(e))
           == if e.writable then w.(core := C.Update(w.core, e.fd, FlushSend(w.core.conns[e.fd]))) else w
    {
    }

    /** An event of an open connection, up to its reading. */
    method BeforeRead(e: Event, ghost w: Site)
      requires Handling(w) && e.Ready?
      modifies `doomed, `dirty, owner.Keys
      ensures Handling(w.(world := EventStep(w.world, maxConns, Before(e))))
    {
      if e.fd !in conns || conns[e.fd].closing {
        Absent(w, Before(e));
      } else {
        Mine(e.fd);
        Present(w, e.fd);
        if e.hangup {
          HangupIs(w.world, Before(e));
          OnHangup(e.fd, w);
        } else {
          WriteIs(w.world, e);
          WriteIf(e.fd, e.writable, w);
        }
      }
    }

    method OnReady(e: Event, ghost w: Site)
      requires Handling(w) && e.Ready? && P.Plausible(e.recvs)
      modifies `doomed, `dirty, store, owner.Keys
      ensures Handling(StepAs(w, maxConns, e))
    {
      BeforeRead(e, w);
      ReadIf(e.fd, e.readable, e.recvs, w.(world := EventStep(w.world, maxConns, Before(e))));
    }

    /** One event. */
    method OnEvent(e: Event, ghost w: Site)
      requires Handling(w) && Legal([e], conns.Keys, maxConns) && (e.Incoming? ==> e.newFd < slots)
      modifies `conns, `owner, `doomed, `dirty, store, owner.Keys
      ensures Handling(StepAs(w, maxConns, e)) && conns.Keys == Opened(old(conns.Keys), maxConns, e)
      ensures walked <= doomed && fresh(owner.Keys - old(owner.Keys))
    {
      assert [e][0] == e;
      if e.Incoming? {
        OnAccept(e.newFd, e.script, w);
      } else {
        OnReady(e, w);
      }
      WalkedLeads();
    }

    /** What is known after the first events of a batch, those in `done`. */
    ghost predicate Midway(w: Site, done: seq<Event>)
      reads `conns, `owner, `doomed, `dirty, `walked, `gone, Repr(), RingRepr(), store
    {
      Handling(StepsAs(w, maxConns, done)) && QueuedAs(w, maxConns, done, |done|, doomed)
    }

    ghost method BeginEvent(w: Site)
      requires Handling(w)
      modifies `walked
      ensures Handling(w) && walked == doomed
    {
      Begin();
      RingsStay();
    }

    /** An event only adds to the doomed list. */
    method QueueEvent(e: Event, ghost w: Site)
      requires Handling(w) && Legal([e], conns.Keys, maxConns) && !Refused(e, slots)
      modifies `conns, `owner, `doomed, `dirty, `walked, store, owner.Keys
      ensures Handling(StepAs(w, maxConns, e)) && conns.Keys == Opened(old(conns.Keys), maxConns, e)
      ensures old(doomed) <= doomed && fresh(owner.Keys - old(owner.Keys))
    {
      BeginEvent(w);
      OnEvent(e, w);
    }

    lemma WalkedLeads()
      requires Valid()
      ensures walked <= doomed
    {
    }

    method AdmitEvent(e: Event, ghost w: Site, ghost done: seq<Event>)
      requires Midway(w, done) && Legal([e], conns.Keys, maxConns) && !Refused(e, slots)
      modifies `conns, `owner, `doomed, `dirty, `walked, store, owner.Keys
      ensures Midway(w, done + [e]) && conns.Keys == Opened(old(conns.Keys), maxConns, e) && old(doomed) <= doomed
      ensures fresh(owner.Keys - old(owner.Keys))
    {
      ghost var before := doomed;
      QueueEvent(e, StepsAs(w, maxConns, done));
      LastStep(w, maxConns, done, e);
      ListLeads(StepsAs(w, maxConns, done + [e]));
      QueuedNext(w, maxConns, done, e, before, doomed);
    }

    lemma ListLeads(w: Site)
      requires Handling(w)
      ensures Lead(w.world.core, doomed) && NoDup(doomed)
    {
      assert doomed[..0] == [] && doomed[0..] == doomed && Elems([]) == {};
      DoomsLead(View(), doomed, walked, gone, 0);
    }

    /** The next event of a batch; a descriptor past the last slot is refused. */
    method NextEvent(events: seq<Event>, i: nat, ghost w: Site)
      requires i < |events| && Legal(Admitted(events[i..], slots), conns.Keys, maxConns)
      requires Midway(w, Admitted(events[..i], slots))
      modifies `conns, `owner, `doomed, `dirty, `walked, store, owner.Keys
      ensures Legal(Admitted(events[i + 1..], slots), conns.Keys, maxConns)
      ensures Midway(w, Admitted(events[..i + 1], slots)) && old(doomed) <= doomed
      ensures fresh(owner.Keys - old(owner.Keys))
    {
      FirstAdmitted(events, i, slots);
      LastAdmitted(events, i, slots);
      if !Refused(events[i], slots) {
        OneLegal(Admitted(events[i..], slots), conns.Keys);
        AdmitEvent(events[i], w, Admitted(events[..i], slots));
      }
    }

    /** A batch of events, one after the other. */
    method RunEvents(events: seq<Event>, ghost w: Site)
      requires Handling(w) && Legal(Admitted(events, slots), conns.Keys, maxConns)
      modifies `conns, `owner, `doomed, `dirty, `walked, store, owner.Keys
      ensures Midway(w, Admitted(events, slots)) && old(doomed) <= doomed && fresh(owner.Keys - old(owner.Keys))
    {
      assert events[0..] == events && events[..0] == [];
      ListLeads(w);
      for i := 0 to |events|
        invariant Legal(Admitted(events[i..], slots), conns.Keys, maxConns)
        invariant Midway(w, Admitted(events[..i], slots)) && old(doomed) <= doomed
        invariant forall o :: o in owner ==> o in old(owner) || fresh(o)
      {
        NextEvent(events, i, w);
      }
      assert events[..|events|] == events;
    }

    // ---- the flush pass

    method FlushOn(fd: int)
      requires Shape() && fd in conns
      modifies conns[fd]
      ensures Shape() && Views() == old(Views())[fd := FlushOne(old(Views())[fd])]
    {
      conns[fd].FlushOnce();
      OneChanged(fd);
    }

    /** One stop of the flush pass; a failed send dooms. */
    method FlushStop(fd: int)
      requires Shape() && Dooms(Views(), doomed, walked, gone) && fd in conns
      modifies conns[fd], `doomed
      ensures Shape() && Views() == old(Views())[fd := FlushOne(old(Views())[fd])]
      ensures Dooms(Views(), doomed, walked, gone) && Extends(old(doomed), doomed, conns.Keys)
    {
      var wasClosing := conns[fd].closing;
      ghost var was := Views();
      FlushArms(was[fd].(dirty := false));
      DoomNoted(was, doomed, walked, gone, fd, FlushOne(was[fd]));
      FlagsOf(fd);
      FlushOn(fd);
      FlagsOf(fd);
      PushDoomed(fd, !wasClosing && conns[fd].closing);
    }

    method PushDoomed(fd: int, doom: bool)
      requires Shape()
      modifies `doomed
      ensures Shape() && Views() == old(Views()) && doomed == if doom then old(doomed) + [fd] else old(doomed)
    {
      if doom {
        doomed := doomed + [fd];
        ConnsStay();
      }
    }

    /** The stop at a list entry, whose connection may be gone. */
    method FlushNext(fd: int, ghost was: map<int, Conn>, ghost order: seq<int>)
      requires Shape() && Dooms(Views(), doomed, walked, gone) && Views() == Flushed(was, order) && fd !in order
      modifies Repr(), `doomed
      ensures Shape() && Dooms(Views(), doomed, walked, gone) && Views() == Flushed(was, order + [fd])
      ensures Extends(old(doomed), doomed, conns.Keys)
    {
      FlushedOne(was, order, fd);
      assert fd in conns <==> fd in Views();
      if fd in conns {
        FlushStop(fd);
      }
    }

    method FlushAll()
      requires Shape() && Dooms(Views(), doomed, walked, gone) && NoDup(dirty)
      modifies Repr(), `doomed
      ensures Shape() && Dooms(Views(), doomed, walked, gone) && Views() == Flushed(old(Views()), dirty)
      ensures Extends(old(doomed), doomed, conns.Keys)
    {
      ghost var was, done: seq<int> := Views(), [];
      assert Flushed(was, []) == was;
      for i := 0 to |dirty|
        invariant done == dirty[..i] && conns == old(conns)
        invariant Shape() && Dooms(Views(), doomed, walked, gone) && Views() == Flushed(was, done)
        invariant Extends(old(doomed), doomed, conns.Keys)
      {
        var fd := dirty[i];
        assert fd !in done;
        FlushNext(fd, was, done);
        done := done + [fd];
      }
      assert done == dirty;
    }

    method FlushLists()
      requires Shape() && Lists() && forall x :: x in doomed ==> x in conns
      modifies Repr(), `doomed, `dirty, `gone
      ensures Shape() && Lists() && dirty == [] && gone == {}
      ensures Views() == Flushed(old(Views()), old(dirty))
      ensures Extends(old(doomed), doomed, conns.Keys)
    {
      ghost var was := Views();
      FlushAll();
      assert conns.Keys == Views().Keys == was.Keys;
      DropDirty(was);
    }

    method DropDirty(ghost was: map<int, Conn>)
      requires Shape() && Marked(was, dirty) && Views() == Flushed(was, dirty)
      requires Dooms(Views(), doomed, walked, gone) && forall x :: x in doomed ==> x in was
      modifies `dirty, `gone
      ensures Shape() && Lists() && Views() == old(Views()) && dirty == [] && gone == {}
    {
      ListsFlushed(was, doomed, walked, gone, dirty);
      dirty, gone := [], {};
      ConnsStay();
    }

    /** flush_dirty is the flush of every dirty connection. */
    method FlushDirty()
      requires Valid() && C.Kept(View(), C.NOBODY) && forall x :: x in doomed ==> x in conns
      modifies Repr(), `doomed, `dirty, `gone
      ensures Valid() && View() == C.FlushDirty(old(View())) && dirty == [] && gone == {}
      ensures old(doomed) <= doomed
    {
      ghost var s := View();
      NobodyIsHere();
      C.FlushDirtyKeeps(s);
      FlushedAll(s, Flushed(s.conns, dirty), dirty);
      FlushLists();
    }

    /** Within the tail of a pass: a reap may have left stale entries on the dirty list. */
    ghost predicate Tailing(w: Site)
      reads `conns, `owner, `doomed, `dirty, `walked, `gone, Repr(), RingRepr(), store
    {
      Valid() && Rings() && Stands(w) && forall x :: x in doomed ==> x in conns
    }

    lemma HandlingTails(w: Site)
      requires Handling(w)
      ensures Tailing(w)
    {
      assert conns.Keys == Views().Keys;
    }

    method FlushBeside()
      requires Valid() && Rings() && C.Kept(View(), C.NOBODY) && forall x :: x in doomed ==> x in conns
      modifies Repr(), `doomed, `dirty, `gone
      ensures Valid() && View() == C.FlushDirty(old(View())) && dirty == [] && gone == {}
      ensures Rings() && Inbox() == old(Inbox()) && old(doomed) <= doomed
    {
      FlushDirty();
      RingsStay();
    }

    method FlushPass(ghost w: Site)
      requires Tailing(w)
      modifies Repr(), `doomed, `dirty, `gone
      ensures Handling(With(w, C.FlushDirty(w.world.core))) && dirty == [] && old(doomed) <= doomed
    {
      NobodyIsHere();
      C.FlushDirtyKeeps(View());
      MatchesFlushed(View(), Inbox(), w.world);
      FlushBeside();
    }

    // ---- the reap

    twostate lemma RingsLeft(fd: int)
      requires old(Rings()) && conns == old(conns) - {fd}
      requires forall x :: x in conns ==> unchanged(conns[x].ring) && unchanged(conns[x].ring.buf)
      ensures Rings() && Inbox() == old(Inbox()) - {fd} && Repr() <= old(Repr())
    {
      assert RingRepr() <= old(RingRepr()) && Repr() <= old(Repr());
      var was, now := old(Inbox()), Inbox();
      forall x | x in conns
        ensures x in was && x in now && now[x] == was[x]
      {
      }
    }

    method ReapBeside(fd: int)
      requires Valid() && Rings() && fd in conns
      modifies `conns, `gone, `doomed, `dirty, store, Repr()
      ensures Valid() && View() == C.ReapOne(old(View()), fd)
      ensures store.Titles() == NamesLeft(old(View()), fd, old(store.Titles()))
      ensures conns == old(conns) - {fd} && gone == old(gone) + {fd}
      ensures Rings() && Inbox() == old(Inbox()) - {fd} && Repr() <= old(Repr())
    {
      Reap(fd);
      RingsLeft(fd);
    }

    ghost method Begin()
      requires Valid()
      modifies `walked
      ensures Valid() && Full() == old(Full()) && walked == doomed
    {
      walked := doomed;
      ConnsStay();
    }

    /** What the walk over the doomed list maintains at index `i`. */
    ghost predicate Reaping(i: nat, s0: State, inbox: map<int, seq<byte>>)
      reads `conns, `owner, `doomed, `dirty, `walked, `gone, Repr(), RingRepr(), store
    {
      && i <= |doomed| && gone == Elems(doomed[..i]) && Valid() && Rings() && C.Kept(View(), C.NOBODY)
      && View() == ReapAll(s0.core, doomed[..i]) && store.Titles() == NamesReaped(s0.core, s0.names, doomed[..i])
      && Inbox() == Surviving(inbox, View().conns.Keys) && Walked(s0.core, doomed, i)
    }

    method ReapNext(i: nat, ghost s0: State, ghost inbox: map<int, seq<byte>>)
      requires Reaping(i, s0, inbox) && i < |doomed| && walked == doomed
      modifies `conns, `gone, `doomed, `dirty, store, Repr()
      ensures Reaping(i + 1, s0, inbox) && walked == old(doomed) <= doomed
      ensures old(doomed)[i] in old(conns) && conns == old(conns) - {old(doomed)[i]} && Repr() <= old(Repr())
    {
      var fd := doomed[i];
      ghost var before := doomed;
      NextIsOpen(Views(), doomed, walked, i);
      C.ReapKeeps(View(), fd);
      NextSurvives(inbox, View().conns.Keys, fd);
      ReapBeside(fd);
      NextReaped(s0, before, doomed, i);
      DoomsLead(View(), doomed, walked, gone, i + 1);
      WalkedOn(s0.core, before, doomed, i);
    }

    ghost method BeginReap(i: nat, s0: State, inbox: map<int, seq<byte>>)
      requires Reaping(i, s0, inbox)
      modifies `walked
      ensures Reaping(i, s0, inbox) && walked == doomed
    {
      Begin();
      RingsStay();
    }

    method ReapStop(i: nat, ghost s0: State, ghost inbox: map<int, seq<byte>>)
      requires Reaping(i, s0, inbox) && i < |doomed|
      modifies `conns, `gone, `walked, `doomed, `dirty, store, Repr()
      ensures Reaping(i + 1, s0, inbox) && old(doomed) <= doomed && Repr() <= old(Repr())
      ensures conns.Keys < old(conns.Keys)
    {
      BeginReap(i, s0, inbox);
      ReapNext(i, s0, inbox);
    }

    /** Walks the list by index, re-reading its length; the list grows under the walk. */
    method ReapWalk(ghost s0: State, ghost inbox: map<int, seq<byte>>)
      requires Reaping(0, s0, inbox)
      modifies `conns, `gone, `walked, `doomed, `dirty, store, Repr()
      ensures Reaping(|doomed|, s0, inbox) && old(doomed) <= doomed && Repr() <= old(Repr())
    {
      var i := 0;
      while i < |doomed|
        invariant Reaping(i, s0, inbox) && old(doomed) <= doomed && Repr() <= old(Repr())
        decreases conns.Keys
      {
        ReapStop(i, s0, inbox);
        i := i + 1;
      }
    }

    /** Those left are open, were open, and had not been doomed. */
    lemma Survivors(s0: State, inbox: map<int, seq<byte>>, was: seq<int>)
      requires Reaping(|doomed|, s0, inbox) && was <= doomed && inbox.Keys == s0.core.conns.Keys
      requires forall x :: x in s0.core.conns && s0.core.conns[x].closing ==> x in was
      ensures forall x :: x in ReapAll(s0.core, doomed).conns ==> x in s0.core.conns && !s0.core.conns[x].closing
    {
      assert doomed[..|doomed|] == doomed;
      assert Inbox().Keys == conns.Keys == Views().Keys;
    }

    method Forget(ghost s0: State, ghost inbox: map<int, seq<byte>>)
      requires Reaping(|doomed|, s0, inbox)
      modifies `doomed, `walked
      ensures Valid() && Rings() && C.Kept(View(), C.NOBODY) && doomed == []
      ensures View() == ReapAll(s0.core, old(doomed)) && Inbox() == Surviving(inbox, View().conns.Keys)
      ensures store.Titles() == NamesReaped(s0.core, s0.names, old(doomed)) && Reaps(s0.core, old(doomed))
    {
      assert doomed[..|doomed|] == doomed;
      DropList();
    }

    method DropList()
      requires Valid() && Rings() && gone == Elems(doomed)
      modifies `doomed, `walked
      ensures Valid() && Full() == old(Full()) && doomed == []
      ensures Rings() && Inbox() == old(Inbox())
    {
      AllReaped(Views(), doomed, walked);
      ClearDoomed();
    }

    method ClearDoomed()
      requires Shape() && Rings()
      modifies `doomed, `walked
      ensures Shape() && Views() == old(Views()) && Rings() && Inbox() == old(Inbox()) && doomed == [] && walked == []
    {
      doomed, walked := [], [];
      ConnsStay();
      RingsStay();
    }

    /** reap_doomed: exactly those doomed before and meanwhile are closed, in that order. */
    method ReapDoomed(ghost w: Site) returns (closed: seq<int>)
      requires Handling(w)
      modifies `conns, `gone, `walked, `doomed, `dirty, store, Repr()
      ensures Tailing(Reaped(w, closed)) && doomed == [] && NoDup(closed) && Repr() <= old(Repr())
      ensures Reaps(w.world.core, closed) && old(doomed) <= closed
    {
      ghost var s0, inbox, was := Full(), Inbox(), doomed;
      assert inbox.Keys == conns.Keys == Views().Keys;
      ReapsNothing(s0, inbox, doomed);
      ListLeads(w);
      ReapWalk(s0, inbox);
      Survivors(s0, inbox, was);
      closed := doomed;
      MatchesReaped(s0.core, inbox, w.world, closed);
      Forget(s0, inbox);
    }

    // ---- the loop

    /** At the end of a pass. */
    ghost predicate Quiescent(w: Site)
      reads `conns, `owner, `doomed, `dirty, `walked, `gone, Repr(), RingRepr(), store
    {
      Handling(w) && dirty == [] && (!batch ==> doomed == [])
    }

    /** A new server is. */
    lemma StartsQuiescent()
      requires Valid() && conns == map[] && View() == C.Core(batch, false, map[], map[], map[], 0)
      requires doomed == [] && dirty == [] && gone == {}
      ensures Quiescent(Site(World(View(), map[]), store.Titles())) && RoomNames.Sane(store.Titles())
    {
      EmptyKept(batch);
      store.TitlesAreSane();
      assert Inbox() == map[];
    }

    ghost method Clear(w: Site)
      requires Tailing(w) && doomed == [] && dirty == []
      modifies `gone
      ensures Handling(w)
    {
      ForgetGone();
      RingsStay();
    }

    ghost method ForgetGone()
      requires Valid() && doomed == [] && dirty == []
      modifies `gone
      ensures Valid() && Full() == old(Full()) && gone == {}
    {
      gone := {};
      ConnsStay();
    }

    lemma ReprOwned()
      requires Shape()
      ensures Repr() <= owner.Keys
    {
    }

    /** Immediate mode reaps. */
    method PlainTail(ghost w: Site) returns (closed: seq<int>)
      requires Handling(w) && !batch
      modifies `conns, `gone, `walked, `doomed, `dirty, store, Repr()
      ensures Quiescent(Ended(w, closed)) && NoDup(closed)
      ensures Reaps(Reapable(w.world.core), closed) && old(doomed) <= closed
    {
      closed := ReapDoomed(w);
      Clear(Reaped(w, closed));
    }

    /** Batch mode flushes, reaps and flushes again. */
    method BatchTail(ghost w: Site) returns (closed: seq<int>)
      requires Handling(w) && batch
      modifies `conns, `gone, `walked, `doomed, `dirty, store, Repr()
      ensures Quiescent(Ended(w, closed)) && NoDup(closed)
      ensures Reaps(Reapable(w.world.core), closed) && old(doomed) <= closed
    {
      HandlingTails(w);
      FlushPass(w);
      closed := ReapDoomed(With(w, C.FlushDirty(w.world.core)));
      FlushPass(Reaped(With(w, C.FlushDirty(w.world.core)), closed));
    }

    method Finish(ghost w: Site) returns (closed: seq<int>)
      requires Handling(w)
      modifies `conns, `gone, `walked, `doomed, `dirty, store, owner.Keys
      ensures Quiescent(Ended(w, closed)) && NoDup(closed)
      ensures Reaps(Reapable(w.world.core), closed) && old(doomed) <= closed
    {
      ReprOwned();
      if batch {
        closed := BatchTail(w);
      } else {
        closed := PlainTail(w);
      }
    }

    /** One pass of the loop. */
    method Iteration(events: seq<Event>, ghost w: Site) returns (closed: seq<int>)
      requires Quiescent(w) && Legal(Admitted(events, slots), conns.Keys, maxConns)
      modifies `conns, `owner, `gone, `walked, `doomed, `dirty, store, owner.Keys
      ensures Quiescent(PassAs(w, maxConns, Admitted(events, slots), closed))
      ensures NoDup(closed) && old(doomed) <= closed && ClosesAs(w, maxConns, Admitted(events, slots), closed)
      ensures fresh(owner.Keys - old(owner.Keys))
    {
      RunEvents(events, w);
      ghost var queue, done := doomed, Admitted(events, slots);
      closed := Finish(StepsAs(w, maxConns, done));
      QueuedOnAs(w, maxConns, done, |done|, queue, closed);
    }

    method Turn(events: seq<Event>, ghost w: Site) returns (closed: seq<int>)
      requires Quiescent(w)
      modifies `conns, `owner, `gone, `walked, `doomed, `dirty, store, owner.Keys
      ensures Quiescent(NextAs(w, maxConns, Admitted(events, slots), closed))
      ensures ClosesNext(w, maxConns, Admitted(events, slots), closed)
      ensures fresh(owner.Keys - old(owner.Keys))
    {
      SameKeys(w.world);
      closed := [];
      if Legal(Admitted(events, slots), conns.Keys, maxConns) {
        closed := Iteration(events, w);
      }
    }

    /** Any run of this server, batch after batch. */
    method Run(batches: seq<seq<Event>>, ghost w: Site) returns (closings: seq<seq<int>>)
      requires Quiescent(w)
      modifies `conns, `owner, `gone, `walked, `doomed, `dirty, store, owner.Keys
      ensures |batches| == |closings| && Quiescent(PassesAs(w, maxConns, AdmittedAll(batches, slots), closings))
      ensures ClosesAllAs(w, maxConns, AdmittedAll(batches, slots), closings)
    {
      closings := [];
      for i := 0 to |batches|
        invariant |closings| == i && forall o :: o in owner ==> o in old(owner) || fresh(o)
        invariant Quiescent(PassesAs(w, maxConns, AdmittedAll(batches[..i], slots), closings))
        invariant ClosesAllAs(w, maxConns, AdmittedAll(batches[..i], slots), closings)
      {
        closings := NextBatch(batches, i, w, closings);
      }
      assert batches[..|batches|] == batches;
    }

    method NextBatch(batches: seq<seq<Event>>, i: nat, ghost w: Site, closings: seq<seq<int>>)
      returns (after: seq<seq<int>>)
      requires |closings| == i < |batches|
      requires Quiescent(PassesAs(w, maxConns, AdmittedAll(batches[..i], slots), closings))
      requires ClosesAllAs(w, maxConns, AdmittedAll(batches[..i], slots), closings)
      modifies `conns, `owner, `gone, `walked, `doomed, `dirty, store, owner.Keys
      ensures |after| == i + 1 && Quiescent(PassesAs(w, maxConns, AdmittedAll(batches[..i + 1], slots), after))
      ensures ClosesAllAs(w, maxConns, AdmittedAll(batches[..i + 1], slots), after)
      ensures fresh(owner.Keys - old(owner.Keys))
    {
      var closed := Turn(batches[i], PassesAs(w, maxConns, AdmittedAll(batches[..i], slots), closings));
      LastPass(w, maxConns, batches, i, slots, closings, closed);
      after := closings + [closed];
    }

    lemma OneLegal(events: seq<Event>, open: set<int>)
      requires events != [] && Legal(events, open, maxConns)
      ensures Legal([events[0]], open, maxConns) && Legal(events[1..], Opened(open, maxConns, events[0]), maxConns)
    {
      assert [events[0]][1..] == [];
    }
  }
}
