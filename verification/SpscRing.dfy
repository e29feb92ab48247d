/** The two-thread bounded byte ring as a step relation. The producer and the
    consumer interleave arbitrarily at the granularity of one cursor load, one
    byte copied, or one cursor published. A load of the other side's cursor may
    be stale: it returns any value that side has published since the last one
    observed. The bytes of one copy may land in any order. */
module SpscRing {
  import opened Wire
  import opened Modulo
  import opened Words

  /** enqueue2(a, b) in flight; plain enqueue(a) is enqueue2(a, []). */
  datatype Producer =
    | PIdle
    | PLoaded(a: seq<byte>, b: seq<byte>, w: nat)
    | PCopying(a: seq<byte>, b: seq<byte>, w: nat, done: set<nat>)

  /** peek(want) (take == false) or dequeue(want) (take == true) in flight. */
  datatype Consumer =
    | CIdle
    | CLoaded(take: bool, want: nat, r: nat)
    | CCopying(take: bool, r: nat, dst: seq<byte>, done: set<nat>)

  datatype Ring = Ring(
    n: nat,
    buf: seq<byte>,
    enq: nat,              // producer cursor, as last published
    deq: nat,              // consumer cursor, as last published
    seenDeq: nat,          // what the producer last observed of deq
    seenEnq: nat,          // what the consumer last observed of enq
    enqLog: seq<nat>,      // every value ever published to enq
    prod: Producer,
    cons: Consumer,
    stream: seq<byte>,     // history: every byte published
    taken: seq<byte>       // history: every byte dequeued
  )

  ghost predicate Init(s: Ring) {
    && s.n >= 2 && |s.buf| == s.n
    && s.enq == s.deq == s.seenDeq == s.seenEnq == 0 && s.enqLog == [0]
    && s.prod == PIdle && s.cons == CIdle && s.stream == [] && s.taken == []
  }

  /** Storage index of byte `i` of an `len`-byte copy that starts at `cursor`:
      one contiguous run up to the buffer end, the remainder from offset 0. */
  function Slot(cursor: nat, len: nat, n: nat, i: nat): (o: nat)
    requires n > 0 && i < len <= n
    ensures o < n
  {
    var off := cursor % n;
    var first := Min(len, n - off);
    if i < first then off + i else i - first
  }

  /** The offset as the code computes it, with a mask. */
  lemma SlotIsMasked(cursor: nat, len: nat, n: nat, i: nat)
    requires PowerOfTwo(n) && i < len <= n
    ensures var off := And(cursor, n - 1);
            off < n && Slot(cursor, len, n, i) == if i < Min(len, n - off) then off + i else i - Min(len, n - off)
  {
    MaskIsModulo(cursor, n);
  }

  /** Where enqueue2 puts byte `i` of `a + b`: two separate split copies. */
  function GatherSlot(w: nat, na: nat, nb: nat, n: nat, i: nat): (o: nat)
    requires n > 0 && i < na + nb <= n
    ensures o < n
  {
    if i < na then Slot(w, na, n, i) else Slot(w + na, nb, n, i - na)
  }

  ghost predicate AllDone(done: set<nat>, k: nat) {
    forall i: nat :: i < k ==> i in done
  }

  // ---- producer steps

  ghost predicate PBegin(s: Ring, t: Ring, a: seq<byte>, b: seq<byte>) {
    s.prod == PIdle && t == s.(prod := PLoaded(a, b, s.enq))
  }

  ghost predicate DeqVisible(s: Ring, v: nat) {
    s.seenDeq <= v <= s.deq
  }

  ghost predicate PRefuse(s: Ring, t: Ring, v: nat) {
    && s.prod.PLoaded? && DeqVisible(s, v)
    && s.prod.w - v + |s.prod.a| + |s.prod.b| > s.n
    && t == s.(prod := PIdle, seenDeq := v)
  }

  ghost predicate PAdmit(s: Ring, t: Ring, v: nat) {
    && s.prod.PLoaded? && DeqVisible(s, v)
    && s.prod.w - v + |s.prod.a| + |s.prod.b| <= s.n
    && t == s.(seenDeq := v,
               prod := PCopying(s.prod.a, s.prod.b, s.prod.w, {}))
  }

  ghost predicate PStore(s: Ring, t: Ring, i: nat) {
    && s.prod.PCopying? && i !in s.prod.done
    && 0 < s.n && i < |s.prod.a| + |s.prod.b| <= s.n == |s.buf|
    && t == s.(buf := s.buf[StoreAt(s, i) := (s.prod.a + s.prod.b)[i]],
               prod := s.prod.(done := s.prod.done + {i}))
  }

  function StoreAt(s: Ring, i: nat): nat
    requires s.prod.PCopying? && 0 < s.n && i < |s.prod.a| + |s.prod.b| <= s.n
  {
    GatherSlot(s.prod.w, |s.prod.a|, |s.prod.b|, s.n, i)
  }

  ghost predicate PPublish(s: Ring, t: Ring) {
    && s.prod.PCopying? && AllDone(s.prod.done, |s.prod.a| + |s.prod.b|)
    && var e := s.prod.w + |s.prod.a| + |s.prod.b|;
    t == s.(prod := PIdle, enq := e, enqLog := s.enqLog + [e],
            stream := s.stream + (s.prod.a + s.prod.b))
  }

  // ---- consumer steps

  ghost predicate EnqVisible(s: Ring, v: nat) {
    s.seenEnq <= v && v in s.enqLog
  }

  /** used_size(): one load of the producer cursor; the result is v - deq. */
  ghost predicate CProbe(s: Ring, t: Ring, v: nat) {
    s.cons == CIdle && EnqVisible(s, v) && t == s.(seenEnq := v)
  }

  ghost predicate CBegin(s: Ring, t: Ring, take: bool, want: nat) {
    s.cons == CIdle && t == s.(cons := CLoaded(take, want, s.deq))
  }

  ghost predicate CAcquire(s: Ring, t: Ring, v: nat) {
    && s.cons.CLoaded? && EnqVisible(s, v) && s.cons.r <= v
    && var m := Min(s.cons.want, v - s.cons.r);
    t == s.(seenEnq := v, cons := CCopying(s.cons.take, s.cons.r, seq(m, _ => 0), {}))
  }

  ghost predicate CLoad(s: Ring, t: Ring, i: nat) {
    && s.cons.CCopying? && i !in s.cons.done
    && 0 < s.n && i < |s.cons.dst| <= s.n == |s.buf|
    && t == s.(cons := s.cons.(dst := s.cons.dst[i := s.buf[Slot(s.cons.r, |s.cons.dst|, s.n, i)]],
                               done := s.cons.done + {i}))
  }

  /** The copy is complete: peek returns it, dequeue also publishes the cursor. */
  ghost predicate CFinish(s: Ring, t: Ring) {
    && s.cons.CCopying? && AllDone(s.cons.done, |s.cons.dst|)
    && t == if s.cons.take
            then s.(cons := CIdle, deq := s.cons.r + |s.cons.dst|, taken := s.taken + s.cons.dst)
            else s.(cons := CIdle)
  }

  ghost predicate ProducerStep(s: Ring, t: Ring) {
    || (exists a, b :: PBegin(s, t, a, b))
    || (exists v :: PRefuse(s, t, v))
    || (exists v :: PAdmit(s, t, v))
    || (exists i :: PStore(s, t, i))
    || PPublish(s, t)
  }

  ghost predicate ConsumerStep(s: Ring, t: Ring) {
    || (exists v :: CProbe(s, t, v))
    || (exists take, want :: CBegin(s, t, take, want))
    || (exists v :: CAcquire(s, t, v))
    || (exists i :: CLoad(s, t, i))
    || CFinish(s, t)
  }

  ghost predicate Next(s: Ring, t: Ring) {
    ProducerStep(s, t) || ConsumerStep(s, t)
  }

  // ---- offsets

  /** The split copy arithmetic addresses position cursor + i modulo n. */
  lemma SlotIsMod(cursor: nat, len: nat, n: nat, i: nat)
    requires n > 0 && i < len <= n
    ensures Slot(cursor, len, n, i) == (cursor + i) % n
  {
    ModShift(cursor, i, n);
  }

  lemma GatherSlotIsMod(w: nat, na: nat, nb: nat, n: nat, i: nat)
    requires n > 0 && i < na + nb <= n
    ensures GatherSlot(w, na, nb, n, i) == (w + i) % n
  {
    if i < na {
      SlotIsMod(w, na, n, i);
    } else {
      SlotIsMod(w + na, nb, n, i - na);
    }
  }

  // ---- the invariant

  ghost predicate Cursors(s: Ring) {
    && s.n >= 2 && |s.buf| == s.n
    && s.seenDeq <= s.deq <= s.seenEnq <= s.enq <= s.deq + s.n
    && |s.stream| == s.enq && s.taken == s.stream[..s.deq]
    && (forall v :: v in s.enqLog ==> v <= s.enq)
  }

  /** Every unread position holds the byte published for it. */
  ghost predicate UnreadIntact(s: Ring)
    requires Cursors(s)
  {
    forall p: nat :: s.deq <= p < s.enq ==> s.buf[p % s.n] == s.stream[p]
  }

  ghost predicate ProducerInv(s: Ring)
    requires Cursors(s)
  {
    match s.prod
    case PIdle => true
    case PLoaded(a, b, w) => w == s.enq
    case PCopying(a, b, w, done) =>
      && w == s.enq && w + |a| + |b| <= s.seenDeq + s.n
      && (forall i: nat :: i < |a| + |b| && i in done ==> s.buf[(w + i) % s.n] == (a + b)[i])
  }

  ghost predicate ConsumerInv(s: Ring)
    requires Cursors(s)
  {
    match s.cons
    case CIdle => true
    case CLoaded(take, want, r) => r == s.deq
    case CCopying(take, r, dst, done) =>
      && r == s.deq && r + |dst| <= s.seenEnq
      && (forall i: nat :: i < |dst| && i in done ==> dst[i] == s.stream[r + i])
  }

  ghost predicate Inv(s: Ring) {
    Cursors(s) && UnreadIntact(s) && ProducerInv(s) && ConsumerInv(s)
  }

  /** A byte store in flight, in either region and across the wrap, never lands
      on a position that is published and unread. */
  lemma StoreMissesUnread(s: Ring, i: nat, p: nat)
    requires Inv(s) && s.prod.PCopying? && i < |s.prod.a| + |s.prod.b|
    requires s.deq <= p < s.enq
    ensures |s.prod.a| + |s.prod.b| <= s.n
    ensures StoreAt(s, i) != p % s.n
  {
    GatherSlotIsMod(s.prod.w, |s.prod.a|, |s.prod.b|, s.n, i);
    DistinctSlots(p, s.prod.w + i, s.n);
  }

  lemma StoreKeepsInv(s: Ring, t: Ring, i: nat)
    requires Inv(s) && PStore(s, t, i)
    ensures Inv(t)
  {
    var na, nb, w := |s.prod.a|, |s.prod.b|, s.prod.w;
    forall p: nat | t.deq <= p < t.enq
      ensures t.buf[p % t.n] == t.stream[p]
    {
      StoreMissesUnread(s, i, p);
    }
    GatherSlotIsMod(w, na, nb, s.n, i);
    forall j: nat | j < na + nb && j in t.prod.done
      ensures t.buf[(w + j) % t.n] == (s.prod.a + s.prod.b)[j]
    {
      if j < i {
        DistinctSlots(w + j, w + i, s.n);
      } else if i < j {
        DistinctSlots(w + i, w + j, s.n);
      }
    }
  }

  lemma PublishKeepsInv(s: Ring, t: Ring)
    requires Inv(s) && PPublish(s, t)
    ensures Inv(t)
  {
    var w := s.prod.w;
    forall p: nat | t.deq <= p < t.enq
      ensures t.buf[p % t.n] == t.stream[p]
    {
      if s.enq <= p {
        assert t.stream[p] == (s.prod.a + s.prod.b)[p - w];
      }
    }
    assert t.taken == t.stream[..t.deq];
    match t.cons {
      case CIdle =>
      case CLoaded(_, _, _) =>
      case CCopying(_, _, _, _) =>
    }
  }

  lemma ProducerKeepsInv(s: Ring, t: Ring)
    requires Inv(s) && ProducerStep(s, t)
    ensures Inv(t)
  {
    if i :| PStore(s, t, i) {
      StoreKeepsInv(s, t, i);
    } else if PPublish(s, t) {
      PublishKeepsInv(s, t);
    } else {
      assert t.buf == s.buf && t.stream == s.stream && t.cons == s.cons;
    }
  }

  lemma LoadKeepsInv(s: Ring, t: Ring, i: nat)
    requires Inv(s) && CLoad(s, t, i)
    ensures Inv(t)
  {
    SlotIsMod(s.cons.r, |s.cons.dst|, s.n, i);
    assert s.buf[(s.cons.r + i) % s.n] == s.stream[s.cons.r + i];
  }

  lemma FinishKeepsInv(s: Ring, t: Ring)
    requires Inv(s) && CFinish(s, t)
    ensures Inv(t)
    ensures s.cons.dst == s.stream[s.deq..s.deq + |s.cons.dst|]
  {
    var r, m := s.cons.r, |s.cons.dst|;
    assert s.cons.dst == s.stream[r..r + m];
    assert s.stream[..r] + s.stream[r..r + m] == s.stream[..r + m];
    match t.prod {
      case PIdle =>
      case PLoaded(_, _, _) =>
      case PCopying(_, _, _, _) =>
    }
  }

  lemma ConsumerKeepsInv(s: Ring, t: Ring)
    requires Inv(s) && ConsumerStep(s, t)
    ensures Inv(t)
  {
    if i :| CLoad(s, t, i) {
      LoadKeepsInv(s, t, i);
    } else if CFinish(s, t) {
      FinishKeepsInv(s, t);
    } else {
      assert t.buf == s.buf && t.stream == s.stream && t.prod == s.prod;
    }
  }

  // ---- every run

  ghost predicate StepAt(run: seq<Ring>, i: nat)
    requires i + 1 < |run|
  {
    Next(run[i], run[i + 1])
  }

  ghost predicate Run(run: seq<Ring>) {
    && |run| > 0 && Init(run[0])
    && forall i: nat :: i + 1 < |run| ==> StepAt(run, i)
  }

  lemma {:induction false} RunInv(run: seq<Ring>, k: nat)
    requires Run(run) && k < |run|
    ensures Inv(run[k])
  {
    if k > 0 {
      RunInv(run, k - 1);
      assert StepAt(run, k - 1);
      if ProducerStep(run[k - 1], run[k]) {
        ProducerKeepsInv(run[k - 1], run[k]);
      } else {
        ConsumerKeepsInv(run[k - 1], run[k]);
      }
    }
  }

  lemma {:induction false} HistoryGrows(run: seq<Ring>, j: nat, k: nat)
    requires Run(run) && j <= k < |run|
    ensures run[j].stream <= run[k].stream && run[j].taken <= run[k].taken
  {
    if j < k {
      HistoryGrows(run, j, k - 1);
      assert StepAt(run, k - 1);
    }
  }

  /** FIFO over every interleaving: occupancy stays within the capacity, and what
      was dequeued by any moment is a prefix of what was published by then. */
  lemma RingIsFifo(run: seq<Ring>, j: nat, k: nat)
    requires Run(run) && j <= k < |run|
    ensures 0 <= run[k].enq - run[k].deq <= run[k].n
    ensures run[j].taken <= run[k].taken <= run[k].stream
    ensures |run[k].taken| == run[k].deq && |run[k].stream| == run[k].enq
  {
    RunInv(run, k);
    HistoryGrows(run, j, k);
  }
}
