/** The event loop of the epoll chat server as functions on values: what one event,
    one batch, the tick and the flush/reap/flush tail do. */
module ChatLoop {
  import opened Wire
  import opened Counting
  import opened ChatConn
  import opened ChatCore
  import P = FrameParser

  /** One entry of an epoll batch. A connection event carries the outcomes recv()
      will produce; an accept event carries the new descriptor and its kernel. */
  datatype Event =
    | Incoming(newFd: int, script: seq<Send>)
    | Ready(fd: int, hangup: bool, writable: bool, readable: bool, recvs: seq<P.Recv>)

  /** `t` extends `s` by members of `keys` only. */
  ghost predicate Extends(s: seq<int>, t: seq<int>, keys: set<int>) {
    s <= t && forall x :: x in t ==> x in s || x in keys
  }

  /** The descriptors open after an event: at the cap a new one is refused and closed
      at once. */
  function Opened(open: set<int>, maxConns: nat, e: Event): set<int> {
    if e.Incoming? && |open| < maxConns then open + {e.newFd} else open
  }

  /** What the kernel guarantees of a batch: a new descriptor is not one that is
      open, and recv() returns at most what was asked for. */
  predicate Legal(events: seq<Event>, open: set<int>, maxConns: nat)
    decreases |events|
  {
    || events == []
    || (&& (events[0].Incoming? ==> events[0].newFd >= 0 && events[0].newFd !in open)
        && (events[0].Ready? ==> P.Plausible(events[0].recvs))
        && Legal(events[1..], Opened(open, maxConns, events[0]), maxConns))
  }

  /** A read event: drain, parse and handle, then dispatch unless closing. */
  function ReadEvent(s: Core, fd: int, pending: seq<byte>, recvs: seq<P.Recv>): Core
    requires fd in s.conns
  {
    var s1 := P.Drain(PacketHandler(fd), s, pending, recvs).0;
    if fd !in s1.conns || s1.conns[fd].closing then s1
    else Update(s1, fd, Dispatch(s1.batch, s1.conns[fd]))
  }

  /** The protocol state with the unparsed bytes of each connection. */
  datatype World = World(core: Core, inb: map<int, seq<byte>>)

  function ReadStep(w: World, fd: int, recvs: seq<P.Recv>): World
    requires fd in w.core.conns && fd in w.inb
  {
    World(ReadEvent(w.core, fd, w.inb[fd], recvs),
          w.inb[fd := P.Drain(PacketHandler(fd), w.core, w.inb[fd], recvs).1])
  }

  /** What one epoll event does. */
  function EventStep(w: World, maxConns: nat, e: Event): World {
    var s := w.core;
    match e
    case Incoming(fd, script) =>
      if |s.conns| >= maxConns then w else World(Update(s, fd, NewConn(script)), w.inb[fd := []])
    case Ready(fd, hangup, writable, readable, recvs) =>
      if fd !in s.conns || s.conns[fd].closing then w
      else if hangup then World(Doom(s, fd), w.inb)
      else
        var w1 := if writable then World(Update(s, fd, FlushSend(s.conns[fd])), w.inb) else w;
        if !w1.core.conns[fd].closing && readable && fd in w.inb then ReadStep(w1, fd, recvs) else w1
  }

  function EventSteps(w: World, maxConns: nat, events: seq<Event>): World
    decreases |events|
  {
    if events == [] then w else EventSteps(EventStep(w, maxConns, events[0]), maxConns, events[1..])
  }

  /** What the events of a pass and its tick do. */
  function Worked(w: World, maxConns: nat, events: seq<Event>, tickDue: bool): World {
    var u := EventSteps(w, maxConns, events);
    if tickDue && u.core.coalesce then u.(core := FlushTickRooms(u.core)) else u
  }

  /** The state in which the reap of a pass begins. */
  function Reapable(s: Core): Core {
    if s.batch then FlushDirty(s) else s
  }

  /** The tail of a pass, given the order in which the reap closed. */
  function Tail(s: Core, closed: seq<int>): Core {
    var t := ReapAll(Reapable(s), closed);
    if s.batch then FlushDirty(t) else t
  }

  /** What one pass of the loop does. */
  function Pass(w: World, maxConns: nat, events: seq<Event>, tickDue: bool, closed: seq<int>): World {
    var u := Worked(w, maxConns, events, tickDue);
    var t := Tail(u.core, closed);
    World(t, Surviving(u.inb, t.conns.Keys))
  }

  function Surviving(inb: map<int, seq<byte>>, open: set<int>): map<int, seq<byte>> {
    map fd | fd in inb && fd in open :: inb[fd]
  }

  lemma SurvivingIs(before: map<int, seq<byte>>, after: map<int, seq<byte>>, open: set<int>)
    requires after.Keys == open && forall fd :: fd in open ==> fd in before && after[fd] == before[fd]
    ensures after == Surviving(before, open)
  {
    var t := Surviving(before, open);
    forall fd | fd in open
      ensures fd in t && fd in after && t[fd] == after[fd]
    {
    }
  }

  /** A run of passes. A batch the kernel could not produce is none. */
  function Passes(w: World, maxConns: nat, batches: seq<(seq<Event>, bool)>, closings: seq<seq<int>>): World
    requires |closings| == |batches|
  {
    if batches == [] then w
    else
      var k := |batches| - 1;
      var v := Passes(w, maxConns, batches[..k], closings[..k]);
      if Legal(batches[k].0, v.core.conns.Keys, maxConns)
      then Pass(v, maxConns, batches[k].0, batches[k].1, closings[k])
      else v
  }

  function ReapAll(s: Core, fds: seq<int>): Core {
    if fds == [] then s
    else
      var s1 := ReapAll(s, fds[..|fds| - 1]);
      var fd := fds[|fds| - 1];
      if fd in s1.conns then ReapOne(s1, fd) else s1
  }

  /** The connections once every buffered room but those in `todo` was sent. */
  ghost predicate Ticked(s: Core, conns: map<int, Conn>, todo: set<Name>) {
    && conns.Keys == s.conns.Keys
    && forall fd :: fd in conns ==>
         conns[fd] == if s.conns[fd].room !in todo && TickDue(s, fd)
                      then DeliverTick(s.batch, s.conns[fd], s.tick[s.conns[fd].room].bytes)
                      else s.conns[fd]
  }

  /** The members of a room as one walk with a tick payload leaves them. */
  ghost predicate RoomTicked(s: Core, before: map<int, Conn>, after: map<int, Conn>, room: Name)
    requires room in s.tick && room in s.rooms
  {
    && after.Keys == before.Keys
    && forall fd :: fd in after ==>
         after[fd] == if fd in s.rooms[room] && !before[fd].closing
                      then DeliverTick(s.batch, before[fd], s.tick[room].bytes) else before[fd]
  }

  lemma TickedStep(s: Core, before: map<int, Conn>, after: map<int, Conn>, todo: set<Name>, room: Name)
    requires Members(s) && room in s.tick && room !in todo && Ticked(s, before, todo + {room})
    requires if s.tick[room].bytes != [] && room in s.rooms then RoomTicked(s, before, after, room)
             else after == before
    ensures Ticked(s, after, todo)
  {
  }

  lemma TickedAll(s: Core, conns: map<int, Conn>, tick: map<Name, Buffer>)
    requires Ticked(s, conns, {}) && tick.Keys == s.tick.Keys
    requires forall r :: r in tick ==> tick[r] == Buffer([], [])
    ensures s.(conns := conns, tick := tick) == FlushTickRooms(s)
  {
  }

  // ---- who is closed, and in which order

  ghost predicate Closing(s: Core, fd: int) {
    fd in s.conns && s.conns[fd].closing
  }

  /** The connections that are closing are the first of the list. */
  ghost predicate Lead(s: Core, list: seq<int>) {
    && (forall fd :: Closing(s, fd) ==> fd in list)
    && (forall j, k :: 0 <= j < k < |list| && Closing(s, list[k]) ==> Closing(s, list[j]))
  }

  /** Stop `i` of a walk over `list` closes a closing connection. */
  ghost predicate Stops(s: Core, list: seq<int>, i: int)
    requires 0 <= i < |list|
  {
    Closing(ReapAll(s, list[..i]), list[i])
  }

  /** Before stop `i` the closing connections are the first of those to come. */
  ghost predicate InTurn(s: Core, list: seq<int>, i: int)
    requires 0 <= i <= |list|
  {
    Lead(ReapAll(s, list[..i]), list[i..])
  }

  /** The first `n` stops of a walk over `list`. */
  ghost predicate Walked(s: Core, list: seq<int>, n: nat) {
    && n <= |list|
    && (forall i :: 0 <= i < n ==> Stops(s, list, i))
    && (forall i :: 0 <= i <= n ==> InTurn(s, list, i))
  }

  /** What a reap closes: first in, first out, the connections that are closing and
      those that become so meanwhile, until nobody is. */
  ghost predicate Reaps(s: Core, closed: seq<int>) {
    Walked(s, closed, |closed|)
  }

  /** What a pass closes: who was doomed by an earlier event comes earlier. */
  ghost predicate Closes(w: World, maxConns: nat, events: seq<Event>, tickDue: bool, closed: seq<int>) {
    && Queued(w, maxConns, events, |events|, closed)
    && Reaps(Reapable(Worked(w, maxConns, events, tickDue).core), closed)
  }

  /** After every one of the first `n` events, those closing lead the list. */
  ghost predicate Queued(w: World, maxConns: nat, events: seq<Event>, n: nat, list: seq<int>) {
    n <= |events| && forall k :: 0 <= k <= n ==> LeadAfter(w, maxConns, events, k, list)
  }

  ghost predicate LeadAfter(w: World, maxConns: nat, events: seq<Event>, k: int, list: seq<int>)
    requires 0 <= k <= |events|
  {
    Lead(EventSteps(w, maxConns, events[..k]).core, list)
  }

  /** What the passes of a run close. */
  ghost predicate ClosesAll(w: World, maxConns: nat, batches: seq<(seq<Event>, bool)>, closings: seq<seq<int>>)
    requires |closings| == |batches|
  {
    batches == [] ||
    var k := |batches| - 1;
    var v := Passes(w, maxConns, batches[..k], closings[..k]);
    && ClosesAll(w, maxConns, batches[..k], closings[..k])
    && (Legal(batches[k].0, v.core.conns.Keys, maxConns) ==>
          Closes(v, maxConns, batches[k].0, batches[k].1, closings[k]))
  }

  /** A list that only grew at its end is led by whoever led it before. */
  lemma LeadGrows(s: Core, before: seq<int>, after: seq<int>)
    requires Lead(s, before) && before <= after && NoDup(after)
    ensures Lead(s, after)
  {
    forall fd | Closing(s, fd)
      ensures fd in after
    {
      assert fd in before;
    }
    forall j, k | 0 <= j < k < |after| && Closing(s, after[k])
      ensures Closing(s, after[j])
    {
      assert after[k] in before;
    }
  }

  lemma LeadSuffix(s: Core, before: seq<int>, after: seq<int>, i: nat)
    requires i <= |before| && Lead(s, before[i..]) && before <= after && NoDup(after)
    ensures Lead(s, after[i..])
  {
    assert before[i..] <= after[i..];
    LeadGrows(s, before[i..], after[i..]);
  }

  /** The walk goes on, whatever was appended meanwhile. */
  lemma WalkedOn(s: Core, before: seq<int>, after: seq<int>, i: nat)
    requires i < |before| && Walked(s, before, i) && Stops(s, before, i)
    requires before <= after && NoDup(after) && InTurn(s, after, i + 1)
    ensures Walked(s, after, i + 1)
  {
    forall k | 0 <= k < i + 1
      ensures Stops(s, after, k) && InTurn(s, after, k)
    {
      assert before[..k] == after[..k] && before[k] == after[k];
      assert Stops(s, before, k) && InTurn(s, before, k);
      LeadSuffix(ReapAll(s, before[..k]), before, after, k);
    }
  }

  lemma QueuedOn(w: World, maxConns: nat, events: seq<Event>, i: nat, before: seq<int>, after: seq<int>)
    requires Queued(w, maxConns, events, i, before) && before <= after && NoDup(after)
    ensures Queued(w, maxConns, events, i, after)
  {
    forall k | 0 <= k <= i
      ensures LeadAfter(w, maxConns, events, k, after)
    {
      assert LeadAfter(w, maxConns, events, k, before);
      LeadGrows(EventSteps(w, maxConns, events[..k]).core, before, after);
    }
  }

  /** The last step of a batch. */
  lemma {:induction false} LastEvent(w: World, maxConns: nat, events: seq<Event>, i: nat)
    requires i < |events|
    ensures EventSteps(w, maxConns, events[..i + 1])
         == EventStep(EventSteps(w, maxConns, events[..i]), maxConns, events[i])
    decreases i
  {
    if i > 0 {
      assert events[..i + 1][1..] == events[1..][..i] && events[..i][1..] == events[1..][..i - 1];
      LastEvent(EventStep(w, maxConns, events[0]), maxConns, events[1..], i - 1);
    } else {
      assert events[..1][1..] == [] && events[..0] == [];
    }
  }

  ghost predicate Survivors(before: set<int>, after: set<int>, reaped: seq<int>) {
    forall fd :: fd in after <==> fd in before && fd !in reaped
  }

  /** The list after one stop of the reap: what was walked is a prefix of it, and
      what remains to walk is still live. */
  lemma ListAfterReap(d: seq<int>, e: seq<int>, i: nat, keys: set<int>)
    requires i < |d| && d <= e && NoDup(e)
    requires forall j :: i <= j < |d| ==> d[j] in keys
    requires forall x :: x in e ==> x in d || x in keys - {d[i]}
    ensures e[..i + 1] == d[..i] + [d[i]]
    ensures forall j :: i + 1 <= j < |e| ==> e[j] in keys - {d[i]}
  {
  }

  /** An arbitrary member: hash order is not specified. */
  method Pick<T>(s: set<T>) returns (x: T)
    requires s != {}
    ensures x in s
  {
    x :| x in s;
  }

  lemma SomeEntry(s: seq<int>)
    ensures s == [] || exists x :: x in s
  {
    if s != [] {
      var x := s[0];
      assert x in s;
    }
  }

  /** No dirty connection faces a failing send. */
  predicate NoSendFails(s: Core) {
    forall fd :: fd in s.conns && s.conns[fd].dirty ==> !SendFails(|s.conns[fd].out|, s.conns[fd].script)
  }

  /** A flush pass over live connections dooms exactly those whose send fails. */
  lemma FlushDooms(s: Core)
    requires forall fd :: fd in s.conns ==> !s.conns[fd].closing
    ensures NoSendFails(s) <==> forall fd :: fd in s.conns ==> !FlushDirty(s).conns[fd].closing
    ensures forall fd :: fd in s.conns ==>
              (FlushDirty(s).conns[fd].closing <==>
                 s.conns[fd].dirty && SendFails(|s.conns[fd].out|, s.conns[fd].script))
  {
    forall fd | fd in s.conns
      ensures FlushDirty(s).conns[fd].closing <==>
                s.conns[fd].dirty && SendFails(|s.conns[fd].out|, s.conns[fd].script)
    {
      FlushFails(s.conns[fd].(dirty := false));
    }
  }

  /** Flushing exactly the listed connections is flushing the dirty ones. */
  lemma FlushedAll(s: Core, conns: map<int, Conn>, dirty: seq<int>)
    requires conns.Keys == s.conns.Keys
    requires forall fd :: fd in s.conns ==> (s.conns[fd].dirty <==> fd in dirty)
    requires forall fd :: fd in conns ==>
               conns[fd] == if fd in dirty then FlushOne(s.conns[fd]) else s.conns[fd]
    ensures conns == FlushDirty(s).conns
  {
    var t := FlushDirty(s).conns;
    forall fd | fd in conns
      ensures fd in t && t[fd] == conns[fd]
    {
    }
  }

  lemma AcceptKeeps(s: Core, fd: int, script: seq<Send>)
    requires Kept(s, NOBODY) && fd !in s.conns
    ensures Kept(Update(s, fd, NewConn(script)), NOBODY)
  {
    var t := Update(s, fd, NewConn(script));
    assert ConnKept(NewConn(script), s.batch, false) by {
      assert EncodeAll([]) == [];
    }
    assert ConnsKept(t.conns, s.batch, NOBODY);
    assert Members(t);
  }

  // ---- what an event keeps

  lemma BusyKeeps(s: Core, fd: int)
    requires Kept(s, NOBODY) && NOBODY !in s.conns
    ensures Kept(s, fd)
  {
    assert ConnsKept(s.conns, s.batch, fd);
  }

  lemma WriteKeeps(s: Core, fd: int)
    requires fd in s.conns && Kept(s, NOBODY) && NOBODY !in s.conns
    ensures var t := Update(s, fd, FlushSend(s.conns[fd])); Kept(t, NOBODY) && Grows(s, t)
  {
    WritableKeeps(s, fd);
    FlushArms(s.conns[fd]);
    UpdateGrows(s, fd, FlushSend(s.conns[fd]));
  }
}
