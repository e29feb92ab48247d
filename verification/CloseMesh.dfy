/** The close-notify protocol over the pipe it really uses: every close is posted by
    mesh_post and consumed by mesh_try_recv, byte by byte and with stale cursors, while
    slots are allocated and adopted. Seen as closes and cursors, this is CloseNotify. */
module CloseMesh {
  import opened Wire
  import M = Mesh
  import N = CloseNotify
  import R = SpscRing

  datatype Edge = Edge(
    mesh: M.Mesh,
    size: nat,           // bytes of a session_closed body
    slots: seq<N.Slot>,
    closes: seq<nat>     // history: slot of every close mesh_post decided to accept
  )

  /** The slot a message is about: its session is in it. */
  function SlotIn(body: seq<byte>): nat {
    if |body| < 2 then 0 else GetU16(body)
  }

  /** The close that mesh_post is working on. */
  function InHand(m: M.Mesh): nat
    requires m.attempts != []
  {
    SlotIn(m.attempts[|m.attempts| - 1].body)
  }

  ghost predicate Init(s: Edge) {
    && M.Init(s.mesh) && s.closes == [] && (forall i :: 0 <= i < |s.slots| ==> s.slots[i] == N.Free)
    && 2 <= s.size <= s.mesh.cap && |s.slots| * (HEADER + s.size) <= s.mesh.ring.n
  }

  ghost predicate Allocate(s: Edge, t: Edge, i: nat) {
    && i < |s.slots| && s.slots[i] == N.Free
    && (t == s.(slots := s.slots[i := N.Adopting(s.mesh.ring.deq)]) || t == s.(slots := s.slots[i := N.Elsewhere]))
  }

  ghost predicate ClosedElsewhere(s: Edge, t: Edge, i: nat) {
    i < |s.slots| && s.slots[i] == N.Elsewhere && t == s.(slots := s.slots[i := N.Free])
  }

  /** What a received message tells: the cursor stood at `v` when it was sent. */
  function Heard(m: M.Mesh, v: nat): M.Mesh {
    m.(ring := m.ring.(seenDeq := if m.ring.seenDeq < v then v else m.ring.seenDeq))
  }

  ghost predicate Adopt(s: Edge, t: Edge, i: nat) {
    && i < |s.slots| && s.slots[i].Adopting?
    && t == s.(slots := s.slots[i := N.Owned], mesh := Heard(s.mesh, s.slots[i].consumed))
  }

  /** The worker calls mesh_post for the session in slot `i`. */
  ghost predicate CloseBegin(s: Edge, t: Edge, i: nat, f: Frame) {
    && i < |s.slots| && s.slots[i] == N.Owned && |f.body| == s.size && SlotIn(f.body) == i
    && M.PostBegin(s.mesh, t.mesh, f) && t == s.(mesh := t.mesh)
  }

  /** mesh_post finds room: the close will be published. */
  ghost predicate CloseAdmitted(s: Edge, t: Edge, v: nat) {
    && s.mesh.attempts != [] && InHand(s.mesh) < |s.slots|
    && R.PAdmit(s.mesh.ring, t.mesh.ring, v) && t.mesh == s.mesh.(ring := t.mesh.ring)
    && t == s.(mesh := t.mesh, closes := s.closes + [InHand(s.mesh)], slots := s.slots[InHand(s.mesh) := N.Closing])
  }

  ghost predicate CloseStored(s: Edge, t: Edge, i: nat) {
    && R.PStore(s.mesh.ring, t.mesh.ring, i) && t.mesh == s.mesh.(ring := t.mesh.ring)
    && t == s.(mesh := t.mesh)
  }

  ghost predicate CloseDone(s: Edge, t: Edge) {
    M.PostDone(s.mesh, t.mesh) && t == s.(mesh := t.mesh)
  }

  /** mesh_post returns false, and the close is lost. */
  ghost predicate CloseDropped(s: Edge, t: Edge) {
    M.PostRefused(s.mesh, t.mesh) && t == s.(mesh := t.mesh)
  }

  /** A step of mesh_try_recv; a message received frees the slot it names. */
  ghost predicate Recv(s: Edge, t: Edge) {
    M.RecvStep(s.mesh, t.mesh) && Freed(s, t)
  }

  ghost predicate Freed(s: Edge, t: Edge) {
    var n := |t.mesh.received|;
    if n == |s.mesh.received| then t == s.(mesh := t.mesh)
    else
      n > 0 && SlotIn(t.mesh.received[n - 1].body) < |s.slots|
      && t == s.(mesh := t.mesh, slots := s.slots[SlotIn(t.mesh.received[n - 1].body) := N.Free])
  }

  ghost predicate Next(s: Edge, t: Edge) {
    || (exists i :: Allocate(s, t, i))
    || (exists i :: ClosedElsewhere(s, t, i))
    || (exists i :: Adopt(s, t, i))
    || (exists i, f :: CloseBegin(s, t, i, f))
    || (exists v :: CloseAdmitted(s, t, v))
    || (exists i :: CloseStored(s, t, i))
    || CloseDone(s, t) || CloseDropped(s, t) || Recv(s, t)
  }

  // ---- as closes and cursors

  /** The header of the next frame is already dequeued. */
  predicate Half(pc: M.Pc) {
    pc.WillTake? || pc.Taking?
  }

  function Abs(s: Edge): N.Edge {
    N.Edge(HEADER + s.size, s.mesh.ring.n, s.slots, s.closes, |s.mesh.received|, Half(s.mesh.pc),
           s.mesh.ring.seenDeq, 0)
  }

  /** Every accepted frame is the close of its number. */
  ghost predicate Closes(fs: seq<Frame>, closes: seq<nat>, size: nat) {
    |fs| <= |closes| && forall k :: 0 <= k < |fs| ==> |fs[k].body| == size && SlotIn(fs[k].body) == closes[k]
  }

  /** What mesh_post is doing fits the slots. */
  ghost predicate Posting(m: M.Mesh, slots: seq<N.Slot>, closes: seq<nat>, size: nat) {
    match m.ring.prod
    case PIdle => |closes| == |m.posted|
    case PLoaded(_, _, _) =>
      && |closes| == |m.posted| && m.attempts != [] && |m.attempts[|m.attempts| - 1].body| == size
      && InHand(m) < |slots| && slots[InHand(m)] == N.Owned
    case PCopying(_, _, _, _) =>
      && |closes| == |m.posted| + 1 && m.attempts != [] && |m.attempts[|m.attempts| - 1].body| == size
      && closes[|m.posted|] == InHand(m)
  }

  ghost predicate Inv(s: Edge) {
    && M.Inv(s.mesh) && M.SeenWasPublished(s.mesh) && 2 <= s.size <= s.mesh.cap
    && Closes(s.mesh.posted, s.closes, s.size) && Posting(s.mesh, s.slots, s.closes, s.size)
    && N.Inv(Abs(s))
  }

  lemma {:induction false} EqualFrames(fs: seq<Frame>, size: nat, k: nat)
    requires k <= |fs| && forall f :: f in fs ==> |f.body| == size
    ensures M.Boundary(fs, k) == k * (HEADER + size)
    decreases k
  {
    if k > 0 {
      EqualFrames(fs, size, k - 1);
      M.BoundaryNext(fs, k - 1);
      assert fs[k - 1] in fs;
      OneMore(k, HEADER + size);
    }
  }

  lemma OneMore(k: nat, frame: nat)
    requires k > 0
    ensures k * frame == (k - 1) * frame + frame
  {
  }

  /** Cursors count frames. */
  lemma CursorsCount(s: Edge)
    requires M.Inv(s.mesh) && 2 <= s.size <= s.mesh.cap && Closes(s.mesh.posted, s.closes, s.size)
    ensures s.mesh.pc != M.Trapped && N.Cursor(Abs(s)) == s.mesh.ring.deq
    ensures s.mesh.ring.enq == |s.mesh.posted| * (HEADER + s.size)
  {
    forall f | f in s.mesh.posted
      ensures |f.body| == s.size
    {
    }
    EqualFrames(s.mesh.posted, s.size, |s.mesh.received|);
    EqualFrames(s.mesh.posted, s.size, |s.mesh.posted|);
    assert s.mesh.posted[..|s.mesh.posted|] == s.mesh.posted;
  }

  /** Hearing of the cursor later than one saw it keeps the pipe. */
  lemma HeardKeeps(m: M.Mesh, v: nat)
    requires M.Inv(m) && M.SeenWasPublished(m) && v <= m.ring.deq
    ensures M.Inv(Heard(m, v)) && M.SeenWasPublished(Heard(m, v))
  {
    var t := Heard(m, v);
    HeardRing(m.ring, t.ring.seenDeq);
    M.PostRecvFrame(m, t);
  }

  lemma HeardRing(s: R.Ring, v: nat)
    requires R.Inv(s) && s.seenDeq <= v <= s.deq
    ensures R.Inv(s.(seenDeq := v))
  {
  }

  /** What a consumer step does to the counts. */
  ghost predicate Counted(s: M.Mesh, t: M.Mesh) {
    && M.SameProducer(s, t) && t.ring.seenDeq == s.ring.seenDeq && t.cap == s.cap
    && (|t.received| == |s.received| || |t.received| == |s.received| + 1)
    && (|t.received| == |s.received| && Half(t.pc) != Half(s.pc) ==> Half(t.pc) && |s.received| < |s.posted|)
    && (|t.received| > |s.received| ==> !Half(t.pc) && |s.received| < |s.posted|)
    && (|t.received| > |s.received| && !Half(s.pc) ==> s.posted[|s.received|].body == [])
  }

  lemma RecvCounts(s: M.Mesh, t: M.Mesh)
    requires M.RecvInv(s) && M.RecvStep(s, t)
    ensures Counted(s, t)
  {
    M.RecvTouchesNoProducer(s, t);
  }

  lemma RecvKeeps(s: M.Mesh, t: M.Mesh)
    requires M.Inv(s) && M.SeenWasPublished(s) && M.RecvStep(s, t)
    ensures M.Inv(t) && M.SeenWasPublished(t) && Counted(s, t)
  {
    M.RecvKeepsInv(s, t);
    M.SeenStaysPublished(s, t);
    RecvCounts(s, t);
  }

  // ---- every step is a step of the protocol, or none

  /** Slots the worker holds stay in its hands. */
  lemma PostingKept(m: M.Mesh, slots: seq<N.Slot>, after: seq<N.Slot>, closes: seq<nat>, size: nat)
    requires Posting(m, slots, closes, size) && |after| == |slots|
    requires forall j :: 0 <= j < |slots| && slots[j] == N.Owned ==> after[j] == N.Owned
    ensures Posting(m, after, closes, size)
  {
  }

  lemma SamePosting(s: M.Mesh, t: M.Mesh, slots: seq<N.Slot>, closes: seq<nat>, size: nat)
    requires M.SameProducer(s, t) && Posting(s, slots, closes, size)
    ensures Posting(t, slots, closes, size)
  {
  }

  lemma AllocateStep(s: Edge, t: Edge, i: nat)
    requires Inv(s) && Allocate(s, t, i)
    ensures Inv(t) && N.Next(Abs(s), Abs(t))
  {
    CursorsCount(s);
    PostingKept(s.mesh, s.slots, t.slots, s.closes, s.size);
    assert N.Allocate(Abs(s), Abs(t), i);
    N.AllocateKeepsInv(Abs(s), Abs(t), i);
  }

  lemma ElsewhereStep(s: Edge, t: Edge, i: nat)
    requires Inv(s) && ClosedElsewhere(s, t, i)
    ensures Inv(t) && N.Next(Abs(s), Abs(t))
  {
    PostingKept(s.mesh, s.slots, t.slots, s.closes, s.size);
    assert N.ClosedElsewhere(Abs(s), Abs(t), i);
    N.ElsewhereKeepsInv(Abs(s), Abs(t), i);
  }

  lemma AdoptStep(s: Edge, t: Edge, i: nat)
    requires Inv(s) && Adopt(s, t, i)
    ensures Inv(t) && N.Next(Abs(s), Abs(t))
  {
    CursorsCount(s);
    HeardKeeps(s.mesh, s.slots[i].consumed);
    assert N.Adopt(Abs(s), Abs(t), i);
    N.AdoptKeepsInv(Abs(s), Abs(t), i);
  }

  lemma BeginStep(s: Edge, t: Edge, i: nat, f: Frame)
    requires Inv(s) && CloseBegin(s, t, i, f)
    ensures Inv(t) && Abs(t) == Abs(s)
  {
    M.PostBeginKeepsInv(s.mesh, t.mesh, f);
  }

  lemma AdmitStep(s: Edge, t: Edge, v: nat)
    requires Inv(s) && CloseAdmitted(s, t, v)
    ensures Inv(t)
  {
    CursorsCount(s);
    assert M.PostWork(s.mesh, t.mesh);
    M.PostWorkKeepsInv(s.mesh, t.mesh);
    AdmitIsPost(s, t, v);
    N.PostKeepsInv(Abs(s), Abs(t), InHand(s.mesh), v);
  }

  /** The decision of mesh_post is the decision of the protocol. */
  lemma AdmitIsPost(s: Edge, t: Edge, v: nat)
    requires CloseAdmitted(s, t, v) && Posting(s.mesh, s.slots, s.closes, s.size) && R.Inv(s.mesh.ring)
    requires Closes(s.mesh.posted, s.closes, s.size) && M.PostInv(s.mesh) && M.SeenWasPublished(s.mesh)
    requires N.Cursor(Abs(s)) == s.mesh.ring.deq && s.mesh.ring.enq == |s.mesh.posted| * (HEADER + s.size)
    ensures N.PostClose(Abs(s), Abs(t), InHand(s.mesh), v)
    ensures Closes(t.mesh.posted, t.closes, t.size) && Posting(t.mesh, t.slots, t.closes, t.size)
    ensures M.SeenWasPublished(t.mesh) && t.mesh.cap == s.mesh.cap
  {
  }

  lemma StoreStep(s: Edge, t: Edge, i: nat)
    requires Inv(s) && CloseStored(s, t, i)
    ensures Inv(t)
  {
    assert M.PostWork(s.mesh, t.mesh);
    M.PostWorkKeepsInv(s.mesh, t.mesh);
    StoredSame(s, t, i);
  }

  lemma StoredSame(s: Edge, t: Edge, i: nat)
    requires CloseStored(s, t, i) && Posting(s.mesh, s.slots, s.closes, s.size) && M.SeenWasPublished(s.mesh)
    ensures Abs(t) == Abs(s) && Posting(t.mesh, t.slots, t.closes, t.size) && M.SeenWasPublished(t.mesh)
    ensures t.mesh.posted == s.mesh.posted && t.mesh.cap == s.mesh.cap
  {
  }

  lemma DoneStep(s: Edge, t: Edge)
    requires Inv(s) && CloseDone(s, t)
    ensures Inv(t)
  {
    M.PostDoneKeepsInv(s.mesh, t.mesh);
    M.SeenStaysPublished(s.mesh, t.mesh);
    DoneSame(s, t);
    DoneCloses(s.mesh, t.mesh, s.slots, s.closes, s.size);
  }

  lemma DoneSame(s: Edge, t: Edge)
    requires CloseDone(s, t)
    ensures Abs(t) == Abs(s) && t.mesh.cap == s.mesh.cap
  {
  }

  lemma DoneCloses(s: M.Mesh, t: M.Mesh, slots: seq<N.Slot>, closes: seq<nat>, size: nat)
    requires M.PostDone(s, t) && Closes(s.posted, closes, size) && Posting(s, slots, closes, size)
    ensures Closes(t.posted, closes, size) && Posting(t, slots, closes, size)
  {
  }

  /** A post that is about to decide finds room, whatever cursor it observes. */
  lemma NothingIsDropped(s: Edge, t: M.Mesh)
    requires Inv(s)
    ensures !M.PostRefused(s.mesh, t)
  {
    if v :| R.PRefuse(s.mesh.ring, t.ring, v) {
      CursorsCount(s);
      RefusalIsOverfull(s, t.ring, v);
      N.CloseFits(Abs(s), InHand(s.mesh), v);
      assert false;
    }
  }

  lemma RefusalIsOverfull(s: Edge, t: R.Ring, v: nat)
    requires R.PRefuse(s.mesh.ring, t, v) && Posting(s.mesh, s.slots, s.closes, s.size) && R.Inv(s.mesh.ring)
    requires M.PostInv(s.mesh) && s.mesh.ring.enq == |s.mesh.posted| * (HEADER + s.size)
    ensures InHand(s.mesh) < |s.slots| && s.slots[InHand(s.mesh)] == N.Owned
    ensures s.mesh.ring.seenDeq <= v <= s.mesh.ring.deq
    ensures |s.closes| * (HEADER + s.size) - v + (HEADER + s.size) > s.mesh.ring.n
  {
  }

  lemma RecvStep(s: Edge, t: Edge)
    requires Inv(s) && Recv(s, t)
    ensures Inv(t)
  {
    CursorsCount(s);
    RecvKeeps(s.mesh, t.mesh);
    FreedStep(s, t);
  }

  lemma FreedStep(s: Edge, t: Edge)
    requires Inv(s) && Freed(s, t) && Counted(s.mesh, t.mesh) && M.Inv(t.mesh) && M.SeenWasPublished(t.mesh)
    ensures Inv(t) && (Abs(t) == Abs(s) || N.Next(Abs(s), Abs(t)))
  {
    SamePosting(s.mesh, t.mesh, s.slots, s.closes, s.size);
    if |t.mesh.received| > |s.mesh.received| {
      BodyStep(s, t);
    } else if Half(t.mesh.pc) != Half(s.mesh.pc) {
      HeaderStep(s, t);
    } else {
      assert Abs(t) == Abs(s);
    }
  }

  lemma HeaderStep(s: Edge, t: Edge)
    requires N.Inv(Abs(s)) && Abs(t) == Abs(s).(half := true) && !Half(s.mesh.pc)
    requires |s.mesh.received| < |s.mesh.posted| <= |s.closes|
    ensures N.Next(Abs(s), Abs(t)) && N.Inv(Abs(t))
  {
    assert N.ConsumeHeader(Abs(s), Abs(t));
    N.HeaderKeepsInv(Abs(s), Abs(t));
  }

  lemma BodyStep(s: Edge, t: Edge)
    requires Inv(s) && Freed(s, t) && Counted(s.mesh, t.mesh) && M.Inv(t.mesh) && |t.mesh.received| > |s.mesh.received|
    ensures N.ConsumeBody(Abs(s), Abs(t)) && N.Inv(Abs(t))
    ensures Posting(t.mesh, t.slots, t.closes, t.size)
  {
    var k := |s.mesh.received|;
    assert t.mesh.received[k] == M.Deliver(t.mesh.posted[k]);
    assert N.ConsumeBody(Abs(s), Abs(t));
    N.BodyKeepsInv(Abs(s), Abs(t));
  }

  lemma StepKeepsInv(s: Edge, t: Edge)
    requires Inv(s) && Next(s, t)
    ensures Inv(t)
  {
    if i :| Allocate(s, t, i) {
      AllocateStep(s, t, i);
    } else if i :| ClosedElsewhere(s, t, i) {
      ElsewhereStep(s, t, i);
    } else if i :| Adopt(s, t, i) {
      AdoptStep(s, t, i);
    } else if i, f :| CloseBegin(s, t, i, f) {
      BeginStep(s, t, i, f);
    } else if v :| CloseAdmitted(s, t, v) {
      AdmitStep(s, t, v);
    } else if i :| CloseStored(s, t, i) {
      StoreStep(s, t, i);
    } else if CloseDone(s, t) {
      DoneStep(s, t);
    } else if Recv(s, t) {
      RecvStep(s, t);
    } else {
      NothingIsDropped(s, t.mesh);
    }
  }

  // ---- every run

  ghost predicate StepAt(run: seq<Edge>, i: nat)
    requires i + 1 < |run|
  {
    Next(run[i], run[i + 1])
  }

  ghost predicate Run(run: seq<Edge>) {
    && |run| > 0 && Init(run[0])
    && forall i: nat :: i + 1 < |run| ==> StepAt(run, i)
  }

  lemma InitInv(s: Edge)
    requires Init(s)
    ensures Inv(s)
  {
    M.InitInv(s.mesh);
  }

  lemma {:induction false} RunInv(run: seq<Edge>, k: nat)
    requires Run(run) && k < |run|
    ensures Inv(run[k])
  {
    if k == 0 {
      InitInv(run[0]);
    } else {
      RunInv(run, k - 1);
      assert StepAt(run, k - 1);
      StepKeepsInv(run[k - 1], run[k]);
    }
  }

  /** In no run does mesh_post return false for a close, and what the acceptor has
      received are the closes in the order in which they were posted. */
  lemma NoCloseIsRefused(run: seq<Edge>, k: nat)
    requires Run(run) && k < |run|
    ensures forall t :: !M.PostRefused(run[k].mesh, t)
    ensures var m := run[k].mesh;
            && |m.received| <= |m.posted| <= |run[k].closes| && m.pc != M.Trapped
            && forall i :: 0 <= i < |m.received| ==> SlotIn(m.received[i].body) == run[k].closes[i]
  {
    RunInv(run, k);
    CursorsCount(run[k]);
    forall t
      ensures !M.PostRefused(run[k].mesh, t)
    {
      NothingIsDropped(run[k], t);
    }
  }

  /** And the bytes in flight never exceed one frame per session slot. */
  lemma InFlightFits(run: seq<Edge>, k: nat)
    requires Run(run) && k < |run|
    ensures var e := Abs(run[k]); run[k].mesh.ring.enq - run[k].mesh.ring.deq <= |e.slots| * e.frame <= e.pipe
  {
    RunInv(run, k);
    CursorsCount(run[k]);
    FlightFits(run[k].mesh.ring, |run[k].mesh.posted|, Abs(run[k]));
  }

  lemma FlightFits(ring: R.Ring, posted: nat, e: N.Edge)
    requires N.Inv(e) && posted <= |e.closes| && N.Cursor(e) == ring.deq && ring.enq == posted * e.frame
    ensures ring.enq - ring.deq <= |e.slots| * e.frame
  {
    N.InFlightFew(e);
    FlightArithmetic(posted, |e.closes|, e.consumed, |e.slots|, e.frame, ring.deq);
  }

  lemma FlightArithmetic(posted: nat, closes: nat, received: nat, slots: nat, frame: nat, deq: nat)
    requires posted <= closes <= received + slots && received * frame <= deq
    ensures posted * frame - deq <= slots * frame
  {
    N.MulMonotone(posted, closes, frame);
    N.ProductGap(closes, received, slots, frame);
  }

  // ---- nothing gets stuck

  /** A worker that posts nothing else can close any session it owns. */
  lemma OwnerCanPost(s: Edge, i: nat, f: Frame) returns (t: Edge)
    requires Inv(s) && s.mesh.ring.prod == R.PIdle && i < |s.slots| && s.slots[i] == N.Owned
    requires |f.body| == s.size && SlotIn(f.body) == i
    ensures CloseBegin(s, t, i, f) && Next(s, t) && Inv(t)
  {
    var ring := s.mesh.ring.(prod := R.PLoaded(Header(|f.body|, f.typ), f.body, s.mesh.ring.enq));
    t := s.(mesh := s.mesh.(ring := ring, attempts := s.mesh.attempts + [f]));
    assert CloseBegin(s, t, i, f);
    StepKeepsInv(s, t);
  }

  /** Whatever cursor it observes, the post is then admitted: the close goes on its way. */
  lemma PostIsAdmitted(s: Edge, v: nat) returns (t: Edge)
    requires Inv(s) && s.mesh.ring.prod.PLoaded? && R.DeqVisible(s.mesh.ring, v)
    ensures CloseAdmitted(s, t, v) && Next(s, t)
    ensures t.closes == s.closes + [InHand(s.mesh)] && t.slots[InHand(s.mesh)] == N.Closing
  {
    var ring := s.mesh.ring;
    var p := ring.prod;
    if p.w - v + |p.a| + |p.b| > ring.n {
      var refused := s.mesh.(ring := ring.(prod := R.PIdle, seenDeq := v));
      assert R.PRefuse(ring, refused.ring, v);
      NothingIsDropped(s, refused);
      assert false;
    }
    t := s.(mesh := s.mesh.(ring := ring.(seenDeq := v, prod := R.PCopying(p.a, p.b, p.w, {}))),
            closes := s.closes + [InHand(s.mesh)], slots := s.slots[InHand(s.mesh) := N.Closing]);
    assert CloseAdmitted(s, t, v);
  }
}
