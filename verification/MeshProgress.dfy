/** Progress of the framed pipe. A receive that ends without a frame saw none, and once
    a byte of a frame was observed every step of the receiver brings its delivery
    closer, whatever the producer does meanwhile. The same for a post. */
module MeshProgress {
  import opened Wire
  import opened Mesh
  import R = SpscRing

  const ROUND: nat := 65537      // more than the work of any one copy

  // ---- measures

  /** Bytes of a copy that are still to be moved. */
  function Missing(done: set<nat>, k: nat): (m: nat)
    ensures m <= k
  {
    if k == 0 then 0 else Missing(done, k - 1) + if k - 1 in done then 0 else 1
  }

  lemma {:induction false} MissingKept(done: set<nat>, i: nat, k: nat)
    requires k <= i
    ensures Missing(done + {i}, k) == Missing(done, k)
    decreases k
  {
    if k > 0 {
      MissingKept(done, i, k - 1);
    }
  }

  lemma {:induction false} MissingStep(done: set<nat>, i: nat, k: nat)
    requires i < k && i !in done
    ensures Missing(done + {i}, k) == Missing(done, k) - 1
    decreases k
  {
    if i == k - 1 {
      MissingKept(done, i, i);
    } else {
      MissingStep(done, i, k - 1);
    }
  }

  lemma {:induction false} NextMissing(done: set<nat>, k: nat) returns (i: nat)
    requires !R.AllDone(done, k)
    ensures i < k && i !in done
    decreases k
  {
    if k - 1 in done {
      i := NextMissing(done, k - 1);
    } else {
      i := k - 1;
    }
  }

  function CopyLeft(c: R.Consumer): nat {
    match c
    case CIdle => 0
    case CLoaded(take, want, r) => want + 1
    case CCopying(take, r, dst, done) => Missing(done, |dst|)
  }

  function Phase(pc: Pc): nat {
    match pc
    case Ready => 8
    case WillPeek => 7
    case Peeking => 6
    case CheckFrame(_, _) => 5
    case WillDrop(_, _) => 4
    case Dropping(_, _) => 3
    case WillTake(_, _) => 2
    case Taking(_, _) => 1
    case Trapped => 0
  }

  /** How far the receiver is from its next delivery. */
  function Distance(s: Mesh): nat {
    Phase(s.pc) * ROUND + CopyLeft(s.ring.cons)
  }

  // ---- the receiver

  /** In the middle of a receive, or about to begin one with bytes observed. */
  ghost predicate Engaged(s: Mesh) {
    s.pc != Trapped && (s.pc == Ready ==> s.ring.seenEnq > s.ring.deq)
  }

  /** The buffer of the receiver holds the body of the next frame. */
  ghost predicate Roomy(s: Mesh) {
    |s.received| < |s.posted| ==> |s.posted[|s.received|].body| <= s.cap
  }

  /** What an engaged receiver is working on is a whole posted frame. */
  lemma EngagedHasFrame(s: Mesh)
    requires Inv(s) && SeenWasPublished(s) && Engaged(s)
    ensures |s.received| < |s.posted| && Boundary(s.posted, |s.received| + 1) <= s.ring.seenEnq
    ensures Boundary(s.posted, |s.received| + 1)
         == Boundary(s.posted, |s.received|) + HEADER + |s.posted[|s.received|].body|
  {
    if s.pc == Ready || s.pc == WillPeek || s.pc == Peeking {
      VisibleFrame(s, s.ring.seenEnq);
    } else {
      BoundaryNext(s.posted, |s.received|);
    }
  }

  /** The receiver is one step closer. */
  ghost predicate Closer(s: Mesh, t: Mesh) {
    t.received == s.received && Engaged(t) && Distance(t) < Distance(s)
  }

  ghost predicate Delivers(s: Mesh, t: Mesh) {
    |s.received| < |s.posted| && t.received == s.received + [Deliver(s.posted[|s.received|])]
  }

  lemma CopyCloser(s: Mesh, t: Mesh)
    requires Inv(s) && Engaged(s) && CopyWork(s, t)
    ensures Closer(s, t)
  {
    if i :| R.CLoad(s.ring, t.ring, i) {
      MissingStep(s.ring.cons.done, i, |s.ring.cons.dst|);
    }
  }

  lemma StartCloser(s: Mesh, t: Mesh)
    requires Inv(s) && Engaged(s) && (PeekBegin(s, t) || DropBegin(s, t) || TakeBegin(s, t))
    ensures Closer(s, t)
  {
  }

  lemma ProbeCloser(s: Mesh, t: Mesh, v: nat)
    requires Inv(s) && SeenWasPublished(s) && Engaged(s) && Roomy(s) && (RecvBegin(s, t, v) || RecvCheck(s, t, v))
    ensures Closer(s, t)
  {
    if RecvBegin(s, t, v) {
      BeginSeesFrame(s, t, v);
    } else {
      CheckPasses(s, t, v);
    }
  }

  /** Every step of an engaged receiver delivers the next posted frame, whole, or is
      strictly closer to it. */
  lemma RecvProgress(s: Mesh, t: Mesh)
    requires Inv(s) && SeenWasPublished(s) && Engaged(s) && Roomy(s) && RecvStep(s, t)
    ensures Delivers(s, t) || Closer(s, t)
  {
    EngagedHasFrame(s);
    RecvKeepsInv(s, t);
    if CopyWork(s, t) {
      CopyCloser(s, t);
    } else if PeekBegin(s, t) || DropBegin(s, t) || TakeBegin(s, t) {
      StartCloser(s, t);
    } else if v :| RecvBegin(s, t, v) || RecvCheck(s, t, v) {
      ProbeCloser(s, t, v);
    } else if PeekDone(s, t) {
      assert Closer(s, t);
    } else {
      RecvTouchesNoProducer(s, t);
      FinishProgress(s, t);
    }
  }

  lemma FinishProgress(s: Mesh, t: Mesh)
    requires RecvInv(s) && RecvInv(t) && t.posted == s.posted && |s.received| < |s.posted|
    requires DropDone(s, t) || TakeDone(s, t)
    ensures Delivers(s, t) || Closer(s, t)
  {
    var k := |s.received|;
    if |t.received| > k {
      assert t.received[k] == Deliver(t.posted[k]);
    }
  }

  /** An engaged receiver is never stuck. */
  lemma RecvEnabled(s: Mesh) returns (t: Mesh)
    requires Inv(s) && SeenWasPublished(s) && Engaged(s)
    ensures RecvStep(s, t)
  {
    match s.pc {
      case Ready =>
        t := s.(begun := s.ring.deq, pc := if s.ring.seenEnq - s.ring.deq < HEADER then Ready else WillPeek);
        assert RecvBegin(s, t, s.ring.seenEnq);
      case CheckFrame(size, typ) =>
        t := s.(pc := if s.ring.seenEnq - s.ring.deq < HEADER + size then Ready
                      else if size > s.cap then Trapped else WillDrop(size, typ));
        assert RecvCheck(s, t, s.ring.seenEnq);
      case WillPeek =>
        t := s.(ring := s.ring.(cons := R.CLoaded(false, HEADER, s.ring.deq)), pc := Peeking);
      case WillDrop(size, typ) =>
        t := s.(ring := s.ring.(cons := R.CLoaded(true, HEADER, s.ring.deq)), pc := Dropping(size, typ));
      case WillTake(size, typ) =>
        t := s.(ring := s.ring.(cons := R.CLoaded(true, size, s.ring.deq)), pc := Taking(size, typ));
      case Peeking => t := CopyEnabled(s);
      case Dropping(_, _) => t := CopyEnabled(s);
      case Taking(_, _) => t := CopyEnabled(s);
    }
  }

  lemma CopyEnabled(s: Mesh) returns (t: Mesh)
    requires Inv(s) && SeenWasPublished(s) && (s.pc == Peeking || s.pc.Dropping? || s.pc.Taking?)
    ensures RecvStep(s, t)
  {
    var c := s.ring.cons;
    if c.CLoaded? {
      t := s.(ring := Acquired(s.ring, s.ring.seenEnq));
      assert R.CAcquire(s.ring, t.ring, s.ring.seenEnq);
    } else if R.AllDone(c.done, |c.dst|) {
      t := Finished(s);
      assert R.CFinish(s.ring, t.ring);
    } else {
      var r := LoadEnabled(s.ring);
      t := s.(ring := r);
    }
  }

  lemma LoadEnabled(r: R.Ring) returns (q: R.Ring)
    requires R.Inv(r) && r.cons.CCopying? && !R.AllDone(r.cons.done, |r.cons.dst|)
    ensures exists i :: R.CLoad(r, q, i)
  {
    var c := r.cons;
    var i := NextMissing(c.done, |c.dst|);
    assert |c.dst| <= r.n;
    q := r.(cons := c.(dst := c.dst[i := r.buf[R.Slot(c.r, |c.dst|, r.n, i)]], done := c.done + {i}));
    assert R.CLoad(r, q, i);
  }

  function Acquired(r: R.Ring, v: nat): R.Ring
    requires r.cons.CLoaded? && r.cons.r <= v
  {
    r.(seenEnq := v, cons := R.CCopying(r.cons.take, r.cons.r, seq(Min(r.cons.want, v - r.cons.r), _ => 0), {}))
  }

  function Finished(s: Mesh): Mesh
    requires s.ring.cons.CCopying? && (s.pc == Peeking || s.pc.Dropping? || s.pc.Taking?)
  {
    var c := s.ring.cons;
    var r := if c.take then s.ring.(cons := R.CIdle, deq := c.r + |c.dst|, taken := s.ring.taken + c.dst)
             else s.ring.(cons := R.CIdle);
    match s.pc
    case Peeking =>
      s.(ring := r, pc := if |c.dst| == HEADER then CheckFrame(GetU16(c.dst), GetU16(c.dst[2..])) else Trapped)
    case Dropping(size, typ) =>
      if size > 0 then s.(ring := r, pc := WillTake(size, typ))
      else s.(ring := r, pc := Ready, received := s.received + [Delivery(0, typ, [])])
    case Taking(size, typ) =>
      s.(ring := r, pc := Ready, received := s.received + [Delivery(size, typ, c.dst)])
  }

  /** The producer's cursor is always one that was published. */
  lemma {:induction false} CursorIsPublished(run: seq<Mesh>, k: nat)
    requires Run(run) && k < |run|
    ensures run[k].ring.enq in run[k].ring.enqLog
  {
    if k == 0 {
      assert run[0].ring.enqLog[0] == 0;
    } else {
      CursorIsPublished(run, k - 1);
      assert StepAt(run, k - 1);
      CursorLogged(run[k - 1], run[k]);
    }
  }

  lemma CursorLogged(s: Mesh, t: Mesh)
    requires Next(s, t) && s.ring.enq in s.ring.enqLog
    ensures t.ring.enq in t.ring.enqLog
  {
    if PostDone(s, t) {
      assert t.ring.enqLog[|s.ring.enqLog|] == t.ring.enq;
    }
  }

  /** A receiver that loads the newest cursor is engaged if a frame is waiting. */
  lemma FreshLoadEngages(run: seq<Mesh>, k: nat) returns (t: Mesh)
    requires Run(run) && k < |run| && run[k].pc == Ready
    ensures RecvBegin(run[k], t, run[k].ring.enq) && RecvStep(run[k], t)
    ensures |run[k].received| < |run[k].posted| ==> Engaged(t) && t.received == run[k].received
  {
    RunInv(run, k);
    CursorIsPublished(run, k);
    t := FreshLoad(run[k]);
  }

  lemma FreshLoad(s: Mesh) returns (t: Mesh)
    requires Inv(s) && s.pc == Ready && s.ring.enq in s.ring.enqLog
    ensures RecvBegin(s, t, s.ring.enq) && RecvStep(s, t)
    ensures |s.received| < |s.posted| ==> Engaged(t) && t.received == s.received
  {
    var v := s.ring.enq;
    t := s.(ring := s.ring.(seenEnq := v), begun := s.ring.deq,
            pc := if v - s.ring.deq < HEADER then Ready else WillPeek);
    assert RecvBegin(s, t, v);
    if |s.received| < |s.posted| {
      BoundaryNext(s.posted, |s.received|);
      BoundaryMonotone(s.posted, |s.received| + 1, |s.posted|);
      assert s.posted[..|s.posted|] == s.posted;
    }
  }

  ghost predicate Path(path: seq<Mesh>) {
    forall i :: 0 <= i < |path| - 1 ==> RecvStep(path[i], path[i + 1])
  }

  lemma PathCons(s: Mesh, path: seq<Mesh>)
    requires path != [] && Path(path) && RecvStep(s, path[0])
    ensures Path([s] + path)
  {
    var longer := [s] + path;
    forall i | 0 <= i < |longer| - 1
      ensures RecvStep(longer[i], longer[i + 1])
    {
      assert i > 0 ==> longer[i] == path[i - 1];
    }
  }

  lemma OneStepOn(s: Mesh) returns (t: Mesh)
    requires Inv(s) && SeenWasPublished(s) && Engaged(s) && Roomy(s)
    ensures RecvStep(s, t) && (Delivers(s, t) || Closer(s, t))
    ensures Inv(t) && SeenWasPublished(t) && t.posted == s.posted && t.cap == s.cap
  {
    t := RecvEnabled(s);
    RecvProgress(s, t);
    RecvKeepsInv(s, t);
    SeenStaysPublished(s, t);
    RecvTouchesNoProducer(s, t);
    ReceivedGrows(s, t);
  }

  /** Left to itself, an engaged receiver hands over the frame: some steps of its own
      lead to the delivery. */
  lemma {:induction false} ReceiverFinishes(s: Mesh) returns (path: seq<Mesh>)
    requires Inv(s) && SeenWasPublished(s) && Engaged(s) && Roomy(s)
    ensures |path| >= 2 && path[0] == s && Path(path)
    ensures |path| - 1 <= Distance(s) && Delivers(s, path[|path| - 1])
    decreases Distance(s)
  {
    var t := OneStepOn(s);
    if Closer(s, t) {
      var more := ReceiverFinishes(t);
      PathCons(s, more);
      path := [s] + more;
    } else {
      DistanceIsPositive(s);
      path := [s, t];
    }
  }

  lemma DistanceIsPositive(s: Mesh)
    requires Engaged(s)
    ensures Distance(s) > 0
  {
  }

  // ---- over runs

  /** Producer steps leave the receiver where it is. */
  lemma PostLeavesReceiver(s: Mesh, t: Mesh)
    requires PostStep(s, t)
    ensures t.pc == s.pc && t.received == s.received && t.cap == s.cap && s.posted <= t.posted
    ensures t.ring.cons == s.ring.cons && t.ring.deq == s.ring.deq && t.ring.seenEnq == s.ring.seenEnq
  {
  }

  lemma ReceivedGrows(s: Mesh, t: Mesh)
    requires Next(s, t)
    ensures s.received <= t.received && s.posted <= t.posted && t.cap == s.cap
  {
  }

  lemma {:induction false} ReceivedGrowsOver(run: seq<Mesh>, i: nat, j: nat)
    requires Run(run) && i <= j < |run|
    ensures run[i].received <= run[j].received && run[i].posted <= run[j].posted && run[j].cap == run[i].cap
    decreases j
  {
    if i < j {
      ReceivedGrowsOver(run, i, j - 1);
      assert StepAt(run, j - 1);
      ReceivedGrows(run[j - 1], run[j]);
    }
  }

  /** The receiver's own steps between two moments of a run. */
  ghost function Turns(run: seq<Mesh>, i: nat, j: nat): nat
    requires i <= j < |run|
    decreases j
  {
    if i == j then 0 else Turns(run, i, j - 1) + if RecvStep(run[j - 1], run[j]) then 1 else 0
  }

  lemma StepCloser(s: Mesh, t: Mesh)
    requires Inv(s) && SeenWasPublished(s) && Engaged(s) && Roomy(s) && Next(s, t) && |t.received| == |s.received|
    ensures Engaged(t) && Distance(t) + (if RecvStep(s, t) then 1 else 0) <= Distance(s)
  {
    if RecvStep(s, t) {
      RecvProgress(s, t);
    } else {
      PostLeavesReceiver(s, t);
    }
  }

  /** While the frame has not arrived, each of the receiver's steps was one closer. */
  lemma {:induction false} DistanceFalls(run: seq<Mesh>, i: nat, j: nat)
    requires Run(run) && i <= j < |run| && Engaged(run[i]) && Roomy(run[i])
    requires |run[j].received| == |run[i].received|
    ensures Engaged(run[j]) && Turns(run, i, j) + Distance(run[j]) <= Distance(run[i])
    decreases j
  {
    if i < j {
      var s, t := run[j - 1], run[j];
      ReceivedGrowsOver(run, i, j - 1);
      assert StepAt(run, j - 1);
      ReceivedGrows(s, t);
      DistanceFalls(run, i, j - 1);
      StaysRoomy(run, i, j - 1);
      StepCloser(s, t);
    }
  }

  lemma StaysRoomy(run: seq<Mesh>, i: nat, j: nat)
    requires Run(run) && i <= j < |run| && Engaged(run[i]) && Roomy(run[i])
    requires |run[j].received| == |run[i].received|
    ensures Inv(run[j]) && SeenWasPublished(run[j]) && Roomy(run[j])
  {
    RunInv(run, i);
    EngagedHasFrame(run[i]);
    ReceivedGrowsOver(run, i, j);
    RunInv(run, j);
  }

  /** A frame that was observed is received: over every interleaving, once the receiver
      has taken more steps of its own than its distance, the next posted frame is
      handed over with its length, type and body. */
  lemma ObservedFrameArrives(run: seq<Mesh>, i: nat, j: nat)
    requires Run(run) && i <= j < |run| && Engaged(run[i]) && Roomy(run[i])
    requires Turns(run, i, j) > Distance(run[i])
    ensures |run[i].received| < |run[i].posted| && |run[i].received| < |run[j].received|
    ensures run[j].received[|run[i].received|] == Deliver(run[i].posted[|run[i].received|])
  {
    RunInv(run, i);
    EngagedHasFrame(run[i]);
    ReceivedGrowsOver(run, i, j);
    if |run[j].received| == |run[i].received| {
      DistanceFalls(run, i, j);
    }
    RunInv(run, j);
  }

  /** A body over the receiver's buffer is never handed out. */
  ghost predicate Bounded(s: Mesh) {
    && (forall i :: 0 <= i < |s.received| ==> s.received[i].size <= s.cap)
    && (s.pc.WillDrop? || s.pc.Dropping? || s.pc.WillTake? || s.pc.Taking? ==> s.pc.size <= s.cap)
  }

  lemma {:induction false} BodiesFit(run: seq<Mesh>, k: nat)
    requires Run(run) && k < |run|
    ensures Bounded(run[k])
  {
    if k > 0 {
      BodiesFit(run, k - 1);
      assert StepAt(run, k - 1);
    }
  }

  // ---- the producer

  /** An idle producer can begin any post. */
  lemma PostBegins(s: Mesh, f: Frame) returns (t: Mesh)
    requires s.ring.prod == R.PIdle
    ensures PostBegin(s, t, f)
  {
    t := s.(ring := s.ring.(prod := R.PLoaded(Header(|f.body|, f.typ), f.body, s.ring.enq)),
            attempts := s.attempts + [f]);
  }

  /** How far a post in flight is from its end. */
  function PostDistance(p: R.Producer): nat {
    match p
    case PIdle => 0
    case PLoaded(a, b, w) => |a| + |b| + 2
    case PCopying(a, b, w, done) => Missing(done, |a| + |b|) + 1
  }

  /** What a step of a post in flight can be: it looks at the consumer once and is
      refused exactly when the frame does not fit behind what it saw; admitted, it
      comes closer with every byte, and ends with the frame accepted. */
  lemma PostProgress(s: Mesh, t: Mesh)
    requires Inv(s) && PostStep(s, t) && !s.ring.prod.PIdle?
    ensures PostDistance(t.ring.prod) < PostDistance(s.ring.prod)
    ensures s.ring.prod.PLoaded? ==>
              t.posted == s.posted && t.ring.seenDeq <= s.ring.deq &&
              (t.ring.prod.PIdle? <==>
                 s.ring.enq - t.ring.seenDeq + |s.ring.prod.a| + |s.ring.prod.b| > s.ring.n)
    ensures s.ring.prod.PCopying? && t.ring.prod.PIdle? ==>
              s.attempts != [] && t.posted == s.posted + [s.attempts[|s.attempts| - 1]]
    ensures !t.ring.prod.PIdle? ==> t.posted == s.posted
  {
    if i :| R.PStore(s.ring, t.ring, i) {
      MissingStep(s.ring.prod.done, i, |s.ring.prod.a| + |s.ring.prod.b|);
    }
  }

  /** Either side may observe any cursor the other has published since it last looked. */
  lemma AnyLoad(s: Mesh, v: nat, w: nat) returns (t: Mesh, u: Mesh)
    requires Inv(s) && s.pc == Ready && R.EnqVisible(s.ring, v)
    requires s.ring.prod.PLoaded? && s.ring.seenDeq <= w <= s.ring.deq
    ensures RecvStep(s, t) && t.ring.seenEnq == v
    ensures PostStep(s, u) && u.ring.seenDeq == w
  {
    t := s.(ring := s.ring.(seenEnq := v), begun := s.ring.deq,
            pc := if v - s.ring.deq < HEADER then Ready else WillPeek);
    assert RecvBegin(s, t, v);
    var p := s.ring.prod;
    if p.w - w + |p.a| + |p.b| > s.ring.n {
      u := s.(ring := s.ring.(prod := R.PIdle, seenDeq := w));
      assert R.PRefuse(s.ring, u.ring, w);
    } else {
      u := s.(ring := s.ring.(prod := R.PCopying(p.a, p.b, p.w, {}), seenDeq := w));
      assert R.PAdmit(s.ring, u.ring, w);
    }
  }

  /** A post in flight is never stuck. */
  lemma PostEnabled(s: Mesh) returns (t: Mesh)
    requires Inv(s) && !s.ring.prod.PIdle?
    ensures PostStep(s, t)
  {
    var p, v := s.ring.prod, s.ring.seenDeq;
    if p.PLoaded? {
      if p.w - v + |p.a| + |p.b| > s.ring.n {
        t := s.(ring := s.ring.(prod := R.PIdle));
        assert R.PRefuse(s.ring, t.ring, v);
      } else {
        t := s.(ring := s.ring.(prod := R.PCopying(p.a, p.b, p.w, {})));
        assert R.PAdmit(s.ring, t.ring, v);
      }
    } else if R.AllDone(p.done, |p.a| + |p.b|) {
      var e := p.w + |p.a| + |p.b|;
      t := s.(ring := s.ring.(prod := R.PIdle, enq := e, enqLog := s.ring.enqLog + [e],
                              stream := s.ring.stream + (p.a + p.b)),
              posted := s.posted + [s.attempts[|s.attempts| - 1]]);
    } else {
      var i := NextMissing(p.done, |p.a| + |p.b|);
      t := s.(ring := s.ring.(buf := s.ring.buf[R.StoreAt(s.ring, i) := (p.a + p.b)[i]],
                              prod := p.(done := p.done + {i})));
      assert R.PStore(s.ring, t.ring, i);
    }
  }
}
