/** Length-prefixed framing over the two-thread ring: mesh_post on the producer
    side, mesh_try_recv on the consumer side, each broken into the ring steps it
    performs. Loads may be stale, copies are byte by byte, and the two sides
    interleave freely. */
module Mesh {
  import opened Wire
  import R = SpscRing

  /** What one successful mesh_try_recv hands back: header fields and body. */
  datatype Delivery = Delivery(size: nat, typ: u16, body: seq<byte>)

  /** Program counter of the consumer. `Trapped` is a failed internal check. */
  datatype Pc =
    | Ready
    | WillPeek
    | Peeking
    | CheckFrame(size: u16, typ: u16)
    | WillDrop(size: u16, typ: u16)
    | Dropping(size: u16, typ: u16)
    | WillTake(size: u16, typ: u16)
    | Taking(size: u16, typ: u16)
    | Trapped

  datatype Mesh = Mesh(
    ring: R.Ring,
    cap: nat,                  // body_cap of the receiver
    pc: Pc,
    begun: nat,                // consumer cursor when the current receive began
    attempts: seq<Frame>,      // history: every frame handed to mesh_post
    posted: seq<Frame>,        // history: the posts that returned true
    received: seq<Delivery>    // history: the receives that returned true
  )

  ghost predicate Init(s: Mesh) {
    && R.Init(s.ring) && s.pc == Ready && s.begun == 0
    && s.attempts == [] && s.posted == [] && s.received == []
  }

  // ---- mesh_post

  ghost predicate PostBegin(s: Mesh, t: Mesh, f: Frame) {
    && R.PBegin(s.ring, t.ring, Header(|f.body|, f.typ), f.body)
    && t == s.(ring := t.ring, attempts := s.attempts + [f])
  }

  /** enqueue2 returned 0: mesh_post returns false. */
  ghost predicate PostRefused(s: Mesh, t: Mesh) {
    && (exists v :: R.PRefuse(s.ring, t.ring, v))
    && t == s.(ring := t.ring)
  }

  ghost predicate PostWork(s: Mesh, t: Mesh) {
    && ((exists v :: R.PAdmit(s.ring, t.ring, v)) || (exists i :: R.PStore(s.ring, t.ring, i)))
    && t == s.(ring := t.ring)
  }

  ghost predicate PostDone(s: Mesh, t: Mesh) {
    && R.PPublish(s.ring, t.ring) && s.attempts != []
    && t == s.(ring := t.ring, posted := s.posted + [s.attempts[|s.attempts| - 1]])
  }

  // ---- mesh_try_recv

  /** Check (1): too few bytes for a header, so the call returns false. */
  ghost predicate RecvBegin(s: Mesh, t: Mesh, v: nat) {
    && s.pc == Ready && R.CProbe(s.ring, t.ring, v)
    && t == s.(ring := t.ring, begun := s.ring.deq,
               pc := if v - s.ring.deq < HEADER then Ready else WillPeek)
  }

  ghost predicate PeekBegin(s: Mesh, t: Mesh) {
    && s.pc == WillPeek && R.CBegin(s.ring, t.ring, false, HEADER)
    && t == s.(ring := t.ring, pc := Peeking)
  }

  ghost predicate CopyWork(s: Mesh, t: Mesh) {
    && (s.pc == Peeking || s.pc.Dropping? || s.pc.Taking?)
    && ((exists v :: R.CAcquire(s.ring, t.ring, v)) || (exists i :: R.CLoad(s.ring, t.ring, i)))
    && t == s.(ring := t.ring)
  }

  /** Step (2): the peek must have produced a whole header. */
  ghost predicate PeekDone(s: Mesh, t: Mesh) {
    && s.pc == Peeking && R.CFinish(s.ring, t.ring)
    && var h := s.ring.cons.dst;
    t == s.(ring := t.ring,
            pc := if |h| == HEADER then CheckFrame(GetU16(h), GetU16(h[2..])) else Trapped)
  }

  /** Step (3): the whole frame must be present, or the call returns false. */
  ghost predicate RecvCheck(s: Mesh, t: Mesh, v: nat) {
    && s.pc.CheckFrame? && R.CProbe(s.ring, t.ring, v)
    && t == s.(ring := t.ring,
               pc := if v - s.ring.deq < HEADER + s.pc.size then Ready
                     else if s.pc.size > s.cap then Trapped
                     else WillDrop(s.pc.size, s.pc.typ))
  }

  ghost predicate DropBegin(s: Mesh, t: Mesh) {
    && s.pc.WillDrop? && R.CBegin(s.ring, t.ring, true, HEADER)
    && t == s.(ring := t.ring, pc := Dropping(s.pc.size, s.pc.typ))
  }

  ghost predicate DropDone(s: Mesh, t: Mesh) {
    && s.pc.Dropping? && R.CFinish(s.ring, t.ring)
    && t == if s.pc.size > 0
            then s.(ring := t.ring, pc := WillTake(s.pc.size, s.pc.typ))
            else s.(ring := t.ring, pc := Ready,
                    received := s.received + [Delivery(0, s.pc.typ, [])])
  }

  ghost predicate TakeBegin(s: Mesh, t: Mesh) {
    && s.pc.WillTake? && R.CBegin(s.ring, t.ring, true, s.pc.size)
    && t == s.(ring := t.ring, pc := Taking(s.pc.size, s.pc.typ))
  }

  ghost predicate TakeDone(s: Mesh, t: Mesh) {
    && s.pc.Taking? && R.CFinish(s.ring, t.ring)
    && t == s.(ring := t.ring, pc := Ready,
               received := s.received + [Delivery(s.pc.size, s.pc.typ, s.ring.cons.dst)])
  }

  ghost predicate PostStep(s: Mesh, t: Mesh) {
    || (exists f :: PostBegin(s, t, f))
    || PostRefused(s, t) || PostWork(s, t) || PostDone(s, t)
  }

  ghost predicate RecvStep(s: Mesh, t: Mesh) {
    || (exists v :: RecvBegin(s, t, v))
    || PeekBegin(s, t) || CopyWork(s, t) || PeekDone(s, t)
    || (exists v :: RecvCheck(s, t, v))
    || DropBegin(s, t) || DropDone(s, t) || TakeBegin(s, t) || TakeDone(s, t)
  }

  ghost predicate Next(s: Mesh, t: Mesh) {
    PostStep(s, t) || RecvStep(s, t)
  }

  // ---- the invariant

  /** Byte position at which posted frame k starts. */
  ghost function Boundary(fs: seq<Frame>, k: nat): nat
    requires k <= |fs|
  {
    |EncodeAll(fs[..k])|
  }

  ghost predicate IsBoundary(fs: seq<Frame>, p: nat) {
    exists k: nat :: k <= |fs| && p == Boundary(fs, k)
  }

  function Deliver(f: Frame): Delivery {
    Delivery(|f.body|, f.typ, f.body)
  }

  /** The posted frames are the published bytes, and every cursor value the
      producer ever published is a frame boundary. */
  ghost predicate PostInv(s: Mesh) {
    && s.ring.stream == EncodeAll(s.posted)
    && (forall v :: v in s.ring.enqLog ==> IsBoundary(s.posted, v))
    && (s.ring.prod.PIdle? || InFlight(s))
  }

  /** The enqueue2 in flight is the encoding of the last attempt. */
  ghost predicate InFlight(s: Mesh)
    requires !s.ring.prod.PIdle?
  {
    && s.attempts != []
    && var f := s.attempts[|s.attempts| - 1];
    s.ring.prod.a == Header(|f.body|, f.typ) && s.ring.prod.b == f.body
  }

  /** The next frame is wholly visible to the consumer and is (size, typ). */
  ghost predicate Pending(s: Mesh, size: u16, typ: u16) {
    && |s.received| < |s.posted|
    && var f := s.posted[|s.received|];
    && size == |f.body| && typ == f.typ
    && Boundary(s.posted, |s.received| + 1) <= s.ring.seenEnq
  }

  ghost predicate RecvInv(s: Mesh) {
    && |s.received| <= |s.posted|
    && (forall i :: 0 <= i < |s.received| ==> s.received[i] == Deliver(s.posted[i]))
    && var start := Boundary(s.posted, |s.received|);
    match s.pc
    case Ready => s.ring.deq == start && s.ring.cons == R.CIdle
    case WillPeek =>
      && s.ring.deq == s.begun == start && s.ring.cons == R.CIdle && s.ring.seenEnq >= start + HEADER
    case Peeking =>
      && s.ring.deq == s.begun == start && s.ring.seenEnq >= start + HEADER
      && Copying(s.ring.cons, false, HEADER)
    case CheckFrame(size, typ) =>
      s.ring.deq == s.begun == start && s.ring.cons == R.CIdle && Pending(s, size, typ)
    case WillDrop(size, typ) =>
      s.ring.deq == s.begun == start && s.ring.cons == R.CIdle && Pending(s, size, typ)
    case Dropping(size, typ) =>
      s.ring.deq == s.begun == start && Pending(s, size, typ) && Copying(s.ring.cons, true, HEADER)
    case WillTake(size, typ) =>
      && s.ring.deq == start + HEADER && s.ring.cons == R.CIdle && Pending(s, size, typ) && size > 0
    case Taking(size, typ) =>
      && s.ring.deq == start + HEADER && Pending(s, size, typ) && Copying(s.ring.cons, true, size)
    case Trapped =>
      |s.received| < |s.posted| && |s.posted[|s.received|].body| > s.cap
  }

  ghost predicate Copying(c: R.Consumer, take: bool, want: nat) {
    && !c.CIdle? && c.take == take
    && (c.CLoaded? ==> c.want == want)
    && (c.CCopying? ==> |c.dst| == want)
  }

  ghost predicate Inv(s: Mesh) {
    R.Inv(s.ring) && PostInv(s) && RecvInv(s)
  }

  // ---- framing lemmas

  lemma BoundaryNext(fs: seq<Frame>, k: nat)
    requires k < |fs|
    ensures Boundary(fs, k + 1) == Boundary(fs, k) + HEADER + |fs[k].body|
    ensures EncodeAll(fs[..k + 1]) == EncodeAll(fs[..k]) + Encode(fs[k])
  {
    assert fs[..k + 1] == fs[..k] + [fs[k]];
    EncodeAllAppend(fs[..k], fs[k]);
  }

  lemma {:induction false} BoundaryMonotone(fs: seq<Frame>, j: nat, k: nat)
    requires j <= k <= |fs|
    ensures Boundary(fs, j) <= Boundary(fs, k)
    ensures j < k ==> Boundary(fs, j) < Boundary(fs, k)
    ensures EncodeAll(fs[..j]) <= EncodeAll(fs[..k])
    decreases k
  {
    if j < k {
      BoundaryMonotone(fs, j, k - 1);
      BoundaryNext(fs, k - 1);
    }
  }

  /** A boundary past frame k is at or past the end of frame k. */
  lemma NextBoundary(fs: seq<Frame>, k: nat, p: nat)
    requires k <= |fs| && IsBoundary(fs, p) && p > Boundary(fs, k)
    ensures k < |fs| && Boundary(fs, k + 1) <= p
  {
    var j: nat :| j <= |fs| && p == Boundary(fs, j);
    if j <= k {
      BoundaryMonotone(fs, j, k);
    } else {
      BoundaryMonotone(fs, k + 1, j);
    }
  }

  /** The encoding of frame k sits at its boundary in the stream. */
  lemma FrameInStream(fs: seq<Frame>, k: nat)
    requires k < |fs|
    ensures Boundary(fs, k) <= Boundary(fs, k + 1) <= |EncodeAll(fs)|
    ensures EncodeAll(fs)[Boundary(fs, k)..Boundary(fs, k + 1)] == Encode(fs[k])
  {
    BoundaryNext(fs, k);
    BoundaryMonotone(fs, k + 1, |fs|);
    assert fs[..|fs|] == fs;
    var p, q, e := EncodeAll(fs[..k]), EncodeAll(fs[..k + 1]), EncodeAll(fs);
    assert e[..|q|] == q;
    assert e[|p|..|q|] == q[|p|..];
  }

  lemma BoundariesKept(fs: seq<Frame>, f: Frame, p: nat)
    requires IsBoundary(fs, p)
    ensures IsBoundary(fs + [f], p)
  {
    var k: nat :| k <= |fs| && p == Boundary(fs, k);
    assert (fs + [f])[..k] == fs[..k];
    assert k <= |fs + [f]| && p == Boundary(fs + [f], k);
  }

  // ---- preservation

  lemma PostDoneKeepsPost(s: Mesh, t: Mesh)
    requires PostInv(s) && PostDone(s, t) && s.ring.prod.w == |s.ring.stream|
    ensures PostInv(t)
  {
    var f := s.attempts[|s.attempts| - 1];
    EncodeAllAppend(s.posted, f);
    assert t.posted[..|t.posted|] == t.posted;
    forall v | v in t.ring.enqLog
      ensures IsBoundary(t.posted, v)
    {
      if v in s.ring.enqLog {
        BoundariesKept(s.posted, f, v);
      } else {
        assert v == Boundary(t.posted, |t.posted|);
      }
    }
  }

  lemma PostDoneKeepsRecv(s: Mesh, t: Mesh)
    requires RecvInv(s) && PostDone(s, t)
    ensures RecvInv(t)
  {
    var k := |s.received|;
    assert t.posted[..k] == s.posted[..k];
    if k < |s.posted| {
      assert t.posted[..k + 1] == s.posted[..k + 1];
    }
  }

  lemma PostDoneKeepsInv(s: Mesh, t: Mesh)
    requires Inv(s) && PostDone(s, t)
    ensures Inv(t)
  {
    R.ProducerKeepsInv(s.ring, t.ring);
    PostDoneKeepsPost(s, t);
    PostDoneKeepsRecv(s, t);
  }

  /** Producer steps short of publishing leave the consumer's view alone. */
  lemma PostRecvFrame(s: Mesh, t: Mesh)
    requires RecvInv(s)
    requires t.posted == s.posted && t.received == s.received && t.pc == s.pc
    requires t.begun == s.begun && t.cap == s.cap
    requires t.ring.cons == s.ring.cons && t.ring.deq == s.ring.deq && t.ring.seenEnq == s.ring.seenEnq
    ensures RecvInv(t)
  {
  }

  lemma PostWorkKeepsInv(s: Mesh, t: Mesh)
    requires Inv(s) && (PostRefused(s, t) || PostWork(s, t))
    ensures Inv(t)
  {
    R.ProducerKeepsInv(s.ring, t.ring);
    PostRecvFrame(s, t);
    assert t.ring.prod == R.PIdle || (t.ring.prod.a == s.ring.prod.a && t.ring.prod.b == s.ring.prod.b);
    assert PostInv(t);
  }

  lemma PostBeginKeepsInv(s: Mesh, t: Mesh, f: Frame)
    requires Inv(s) && PostBegin(s, t, f)
    ensures Inv(t)
  {
    R.ProducerKeepsInv(s.ring, t.ring);
    PostRecvFrame(s, t);
    assert InFlight(t);
  }

  lemma PostKeepsInv(s: Mesh, t: Mesh)
    requires Inv(s) && PostStep(s, t)
    ensures Inv(t)
  {
    if PostDone(s, t) {
      PostDoneKeepsInv(s, t);
    } else if f :| PostBegin(s, t, f) {
      PostBeginKeepsInv(s, t, f);
    } else {
      PostWorkKeepsInv(s, t);
    }
  }

  /** What the consumer can see past the start of a frame covers that frame. */
  lemma VisibleFrame(s: Mesh, v: nat)
    requires PostInv(s) && |s.received| <= |s.posted|
    requires v in s.ring.enqLog && v > Boundary(s.posted, |s.received|)
    ensures |s.received| < |s.posted|
    ensures v >= Boundary(s.posted, |s.received| + 1)
    ensures Boundary(s.posted, |s.received| + 1)
         == Boundary(s.posted, |s.received|) + HEADER + |s.posted[|s.received|].body|
  {
    NextBoundary(s.posted, |s.received|, v);
    BoundaryNext(s.posted, |s.received|);
  }

  lemma PeekDoneKeepsInv(s: Mesh, t: Mesh)
    requires Inv(s) && PeekDone(s, t) && SeenWasPublished(s)
    ensures Inv(t)
  {
    R.FinishKeepsInv(s.ring, t.ring);
    VisibleFrame(s, s.ring.seenEnq);
    var k := |s.received|;
    var f := s.posted[k];
    FrameInStream(s.posted, k);
    var start := Boundary(s.posted, k);
    var h := s.ring.cons.dst;
    assert h == s.ring.stream[start..start + HEADER];
    assert h == Encode(f)[..HEADER] == Header(|f.body|, f.typ);
  }

  /** The bytes a finished body copy holds are the body of the pending frame. */
  lemma TakenIsBody(s: Mesh, start: nat)
    requires s.ring.stream == EncodeAll(s.posted) && |s.received| < |s.posted|
    requires start == Boundary(s.posted, |s.received|)
    ensures var f := s.posted[|s.received|];
            && start + HEADER + |f.body| == Boundary(s.posted, |s.received| + 1) <= |s.ring.stream|
            && s.ring.stream[start + HEADER..start + HEADER + |f.body|] == f.body
  {
    var f := s.posted[|s.received|];
    FrameInStream(s.posted, |s.received|);
    BoundaryNext(s.posted, |s.received|);
    var e := s.ring.stream[start..start + HEADER + |f.body|];
    assert e == Encode(f);
    assert e[HEADER..] == f.body;
    assert s.ring.stream[start + HEADER..start + HEADER + |f.body|] == e[HEADER..];
  }

  lemma TakeDoneKeepsRecv(s: Mesh, t: Mesh, start: nat)
    requires PostInv(s) && RecvInv(s) && TakeDone(s, t) && start == Boundary(s.posted, |s.received|)
    requires start + HEADER + |s.ring.cons.dst| <= |s.ring.stream| && s.ring.cons.r == s.ring.deq
    requires s.ring.cons.dst == s.ring.stream[start + HEADER..start + HEADER + |s.ring.cons.dst|]
    ensures RecvInv(t)
  {
    TakenIsBody(s, start);
    assert t.received[|s.received|] == Deliver(s.posted[|s.received|]);
  }

  lemma TakeDoneKeepsInv(s: Mesh, t: Mesh)
    requires Inv(s) && TakeDone(s, t)
    ensures Inv(t)
  {
    R.FinishKeepsInv(s.ring, t.ring);
    RecvPostFrame(s, t);
    TakeDoneKeepsRecv(s, t, Boundary(s.posted, |s.received|));
  }

  lemma DropDoneKeepsRecv(s: Mesh, t: Mesh)
    requires RecvInv(s) && DropDone(s, t) && s.ring.cons.r == s.ring.deq
    ensures RecvInv(t)
  {
    BoundaryNext(s.posted, |s.received|);
    if s.pc.size == 0 {
      assert t.received[|s.received|] == Deliver(s.posted[|s.received|]);
    }
  }

  lemma DropDoneKeepsInv(s: Mesh, t: Mesh)
    requires Inv(s) && DropDone(s, t)
    ensures Inv(t)
  {
    R.FinishKeepsInv(s.ring, t.ring);
    RecvPostFrame(s, t);
    DropDoneKeepsRecv(s, t);
  }

  /** Consumer steps leave the producer's side alone. */
  lemma RecvPostFrame(s: Mesh, t: Mesh)
    requires PostInv(s)
    requires t.ring.stream == s.ring.stream && t.ring.enqLog == s.ring.enqLog && t.ring.prod == s.ring.prod
    requires t.posted == s.posted && t.attempts == s.attempts && t.cap == s.cap
    ensures PostInv(t)
  {
  }

  lemma BeginKeepsRecv(s: Mesh, t: Mesh)
    requires RecvInv(s) && (PeekBegin(s, t) || DropBegin(s, t) || TakeBegin(s, t))
    ensures RecvInv(t)
  {
  }

  lemma BeginKeepsInv(s: Mesh, t: Mesh)
    requires Inv(s) && (PeekBegin(s, t) || DropBegin(s, t) || TakeBegin(s, t))
    ensures Inv(t)
  {
    R.ConsumerKeepsInv(s.ring, t.ring);
    RecvPostFrame(s, t);
    BeginKeepsRecv(s, t);
  }

  /** Every copy the receiver starts finds all the bytes it asks for. */
  lemma AcquireFindsAll(s: Mesh, t: Mesh, v: nat)
    requires R.Cursors(s.ring) && R.ConsumerInv(s.ring) && RecvInv(s)
    requires CopyWork(s, t) && R.CAcquire(s.ring, t.ring, v)
    ensures Copying(t.ring.cons, s.ring.cons.take, s.ring.cons.want)
    ensures s.ring.seenEnq <= t.ring.seenEnq
  {
    if s.pc.Dropping? || s.pc.Taking? {
      BoundaryNext(s.posted, |s.received|);
    }
  }

  lemma CopyWorkKeepsInv(s: Mesh, t: Mesh)
    requires Inv(s) && CopyWork(s, t)
    ensures Inv(t)
  {
    R.ConsumerKeepsInv(s.ring, t.ring);
    RecvPostFrame(s, t);
    if v :| R.CAcquire(s.ring, t.ring, v) {
      AcquireFindsAll(s, t, v);
    }
    CopyRecvFrame(s, t);
  }

  lemma CopyRecvFrame(s: Mesh, t: Mesh)
    requires RecvInv(s) && (s.pc == Peeking || s.pc.Dropping? || s.pc.Taking?)
    requires t == s.(ring := t.ring) && t.ring.deq == s.ring.deq && s.ring.seenEnq <= t.ring.seenEnq
    requires forall take, want :: Copying(s.ring.cons, take, want) ==> Copying(t.ring.cons, take, want)
    ensures RecvInv(t)
  {
  }

  /** Once the header is visible the whole frame is: check (3) passes. */
  lemma CheckPasses(s: Mesh, t: Mesh, v: nat)
    requires RecvInv(s) && RecvCheck(s, t, v)
    ensures t.pc != Ready && RecvInv(t)
  {
    BoundaryNext(s.posted, |s.received|);
  }

  /** One test of the producer's cursor: the call returns at once exactly when it
      observes no byte past its own. */
  lemma BeginSeesFrame(s: Mesh, t: Mesh, v: nat)
    requires Inv(s) && RecvBegin(s, t, v)
    ensures t.pc == if v == s.ring.deq then Ready else WillPeek
    ensures t.ring.seenEnq == v && t.ring.deq == s.ring.deq == Boundary(s.posted, |s.received|)
  {
    if v > s.ring.deq {
      VisibleFrame(s, v);
    }
  }

  lemma BeginProbes(s: Mesh, t: Mesh, v: nat)
    requires RecvInv(s) && RecvBegin(s, t, v)
    ensures RecvInv(t)
  {
  }

  lemma ProbeKeepsInv(s: Mesh, t: Mesh, v: nat)
    requires Inv(s) && (RecvBegin(s, t, v) || RecvCheck(s, t, v))
    ensures Inv(t)
  {
    assert R.ConsumerStep(s.ring, t.ring);
    R.ConsumerKeepsInv(s.ring, t.ring);
    RecvPostFrame(s, t);
    if RecvBegin(s, t, v) {
      BeginProbes(s, t, v);
    } else {
      CheckPasses(s, t, v);
    }
  }

  lemma RecvKeepsInv(s: Mesh, t: Mesh)
    requires Inv(s) && RecvStep(s, t) && SeenWasPublished(s)
    ensures Inv(t)
  {
    if PeekDone(s, t) {
      PeekDoneKeepsInv(s, t);
    } else if DropDone(s, t) {
      DropDoneKeepsInv(s, t);
    } else if TakeDone(s, t) {
      TakeDoneKeepsInv(s, t);
    } else if CopyWork(s, t) {
      CopyWorkKeepsInv(s, t);
    } else if PeekBegin(s, t) || DropBegin(s, t) || TakeBegin(s, t) {
      BeginKeepsInv(s, t);
    } else {
      var v :| RecvBegin(s, t, v) || RecvCheck(s, t, v);
      ProbeKeepsInv(s, t, v);
    }
  }

  // ---- every run

  ghost predicate StepAt(run: seq<Mesh>, i: nat)
    requires i + 1 < |run|
  {
    Next(run[i], run[i + 1])
  }

  ghost predicate Run(run: seq<Mesh>) {
    && |run| > 0 && Init(run[0])
    && forall i: nat :: i + 1 < |run| ==> StepAt(run, i)
  }

  lemma InitInv(s: Mesh)
    requires Init(s)
    ensures Inv(s) && SeenWasPublished(s)
  {
    assert s.ring.enqLog[0] == 0;
    assert 0 <= |s.posted| && 0 == Boundary(s.posted, 0);
  }

  /** The consumer only ever observed a cursor value that was published. */
  ghost predicate SeenWasPublished(s: Mesh) {
    s.ring.seenEnq in s.ring.enqLog
  }

  lemma SeenStaysPublished(s: Mesh, t: Mesh)
    requires SeenWasPublished(s) && Next(s, t)
    ensures SeenWasPublished(t)
  {
  }

  lemma {:induction false} RunInv(run: seq<Mesh>, k: nat)
    requires Run(run) && k < |run|
    ensures Inv(run[k]) && SeenWasPublished(run[k])
  {
    if k == 0 {
      InitInv(run[0]);
    } else {
      RunInv(run, k - 1);
      assert StepAt(run, k - 1);
      SeenStaysPublished(run[k - 1], run[k]);
      if PostStep(run[k - 1], run[k]) {
        PostKeepsInv(run[k - 1], run[k]);
      } else {
        RecvKeepsInv(run[k - 1], run[k]);
      }
    }
  }

  /** Frame FIFO over every interleaving: what was received is, frame by frame, a
      prefix of what was successfully posted, and the only internal check that
      can trap is the body bound, on a frame longer than the receiver's buffer. */
  lemma FramesArriveInOrder(run: seq<Mesh>, k: nat)
    requires Run(run) && k < |run|
    ensures run[k].pc == Trapped ==>
              && |run[k].received| < |run[k].posted|
              && |run[k].posted[|run[k].received|].body| > run[k].cap
    ensures |run[k].received| <= |run[k].posted|
    ensures forall i :: 0 <= i < |run[k].received| ==>
              && run[k].received[i].size == |run[k].posted[i].body| == |run[k].received[i].body|
              && run[k].received[i].typ == run[k].posted[i].typ
              && run[k].received[i].body == run[k].posted[i].body
    ensures run[k].ring.stream == EncodeAll(run[k].posted)
  {
    RunInv(run, k);
  }

  /** What the producer owns. */
  ghost predicate SameProducer(s: Mesh, t: Mesh) {
    && t.ring.n == s.ring.n && t.ring.buf == s.ring.buf && t.ring.enq == s.ring.enq && t.ring.stream == s.ring.stream
    && t.posted == s.posted && t.attempts == s.attempts && t.ring.prod == s.ring.prod
  }

  lemma RecvTouchesNoProducer(s: Mesh, t: Mesh)
    requires RecvStep(s, t)
    ensures SameProducer(s, t)
  {
  }

  /** A step into a post that has not yet looked at the consumer either begins it or
      is a consumer step. */
  lemma LoadedIsFresh(s: Mesh, t: Mesh)
    requires Next(s, t) && t.ring.prod.PLoaded?
    ensures SameProducer(s, t) || |t.attempts| == |s.attempts| + 1
  {
    if RecvStep(s, t) {
      RecvTouchesNoProducer(s, t);
    }
  }

  lemma AttemptsGrow(s: Mesh, t: Mesh)
    requires Next(s, t)
    ensures |s.attempts| <= |t.attempts|
  {
    if RecvStep(s, t) {
      RecvTouchesNoProducer(s, t);
    }
  }

  lemma {:induction false} AttemptsGrowOver(run: seq<Mesh>, i: nat, j: nat)
    requires Run(run) && i <= j < |run|
    ensures |run[i].attempts| <= |run[j].attempts|
    decreases j
  {
    if i < j {
      AttemptsGrowOver(run, i, j - 1);
      assert StepAt(run, j - 1);
      AttemptsGrow(run[j - 1], run[j]);
    }
  }

  /** While a post waits for its decision, whatever the consumer does, nothing of the
      producer's changes. */
  lemma {:induction false} PendingPostIsStill(run: seq<Mesh>, i: nat, j: nat)
    requires Run(run) && i <= j < |run| && run[j].ring.prod.PLoaded? && |run[i].attempts| == |run[j].attempts|
    ensures SameProducer(run[i], run[j])
    decreases j
  {
    if i < j {
      assert StepAt(run, j - 1);
      AttemptsGrowOver(run, i, j - 1);
      AttemptsGrow(run[j - 1], run[j]);
      LoadedIsFresh(run[j - 1], run[j]);
      PendingPostIsStill(run, i, j - 1);
    }
  }

  /** A post that is refused writes nothing: from its begin to its refusal, whatever
      the consumer does in between, storage, producer cursor, stream and accepted
      frames stay as they were; and the frame did not fit behind the cursor that was
      observed, which the consumer had reached by then. */
  lemma RefusedPostWritesNothing(run: seq<Mesh>, i: nat, j: nat, f: Frame)
    requires Run(run) && i < j && j + 1 < |run| && PostBegin(run[i], run[i + 1], f)
    requires PostRefused(run[j], run[j + 1]) && |run[j].attempts| == |run[i + 1].attempts|
    ensures var s, t := run[i], run[j + 1];
            && t.ring.buf == s.ring.buf && t.ring.enq == s.ring.enq && t.ring.stream == s.ring.stream
            && t.posted == s.posted && t.ring.prod == R.PIdle
            && t.ring.seenDeq <= t.ring.deq && s.ring.enq - t.ring.seenDeq + HEADER + |f.body| > s.ring.n
  {
    PendingPostIsStill(run, i + 1, j);
  }

  /** A receive that ends without a frame ends where it began, at its first test, and
      saw no byte of a further frame. */
  lemma IncompleteFrameConsumesNothing(run: seq<Mesh>, k: nat)
    requires Run(run) && k + 1 < |run|
    requires run[k + 1].pc == Ready && run[k + 1].received == run[k].received
    requires RecvStep(run[k], run[k + 1])
    ensures run[k].pc == Ready
    ensures run[k + 1].ring.deq == run[k].ring.deq == run[k + 1].begun
    ensures run[k + 1].ring.taken == run[k].ring.taken
    ensures run[k + 1].ring.seenEnq == run[k].ring.deq
  {
    RunInv(run, k);
    var s, t := run[k], run[k + 1];
    if s.pc.CheckFrame? {
      var v :| RecvCheck(s, t, v);
      CheckPasses(s, t, v);
    } else if s.pc == Ready {
      var v :| RecvBegin(s, t, v);
      BeginSeesFrame(s, t, v);
    } else {
      assert false;
    }
  }
}
