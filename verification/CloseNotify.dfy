/** The undroppable worker-to-acceptor edge. A session slot is adopted by the
    worker, closed once, and reusable only after the acceptor consumed that
    close. The worker's view of the acceptor's cursor may lag; it is refreshed
    only by its own loads and by the adopt messages it receives, each of which
    carries everything the acceptor had consumed when it was sent. */
module CloseNotify {
  import opened Counting
  import opened Wire

  const SESSION_CAPACITY: nat := 256
  const CLOSE_FRAME: nat := 28          // 4-byte header, 24-byte session_closed_msg
  const NOTIFY_PIPE: nat := 16 * 1024

  datatype Slot =
    | Free
    | Elsewhere                  // allocated to another worker's edge
    | Adopting(consumed: nat)    // adopt in flight; acceptor cursor when it was posted
    | Owned
    | Closing                    // close posted, not yet consumed

  datatype Edge = Edge(
    frame: nat,          // bytes per close frame
    pipe: nat,           // pipe capacity in bytes
    slots: seq<Slot>,
    closes: seq<nat>,    // history: slot of every close posted
    consumed: nat,       // closes wholly consumed by the acceptor
    half: bool,          // the header of the next one is already dequeued
    seen: nat,           // acceptor cursor, as the worker last knew it
    drops: nat           // posts that were refused
  )

  function Cursor(s: Edge): nat {
    s.consumed * s.frame + if s.half then HEADER else 0
  }

  /** The compile-time rule: one close per session fits the pipe. */
  predicate Sized(s: Edge) {
    s.frame > HEADER && |s.slots| * s.frame <= s.pipe
  }

  ghost predicate Init(s: Edge) {
    && Sized(s) && (forall i :: 0 <= i < |s.slots| ==> s.slots[i] == Free)
    && s.closes == [] && s.consumed == 0 && !s.half && s.seen == 0 && s.drops == 0
  }

  ghost predicate Allocate(s: Edge, t: Edge, i: nat) {
    && i < |s.slots| && s.slots[i] == Free
    && (t == s.(slots := s.slots[i := Adopting(Cursor(s))]) || t == s.(slots := s.slots[i := Elsewhere]))
  }

  ghost predicate ClosedElsewhere(s: Edge, t: Edge, i: nat) {
    i < |s.slots| && s.slots[i] == Elsewhere && t == s.(slots := s.slots[i := Free])
  }

  ghost predicate Adopt(s: Edge, t: Edge, i: nat) {
    && i < |s.slots| && s.slots[i].Adopting?
    && t == s.(slots := s.slots[i := Owned],
               seen := if s.seen < s.slots[i].consumed then s.slots[i].consumed else s.seen)
  }

  /** mesh_post of session_closed, deciding on a possibly stale cursor `v`. */
  ghost predicate PostClose(s: Edge, t: Edge, i: nat, v: nat) {
    && i < |s.slots| && s.slots[i] == Owned && s.seen <= v <= Cursor(s)
    && t == if |s.closes| * s.frame - v + s.frame > s.pipe
            then s.(seen := v, drops := s.drops + 1)
            else s.(seen := v, closes := s.closes + [i], slots := s.slots[i := Closing])
  }

  ghost predicate ConsumeHeader(s: Edge, t: Edge) {
    s.consumed < |s.closes| && !s.half && t == s.(half := true)
  }

  ghost predicate ConsumeBody(s: Edge, t: Edge) {
    && s.consumed < |s.closes| && s.half && s.closes[s.consumed] < |s.slots|
    && t == s.(half := false, consumed := s.consumed + 1,
               slots := s.slots[s.closes[s.consumed] := Free])
  }

  ghost predicate Next(s: Edge, t: Edge) {
    || (exists i :: Allocate(s, t, i))
    || (exists i :: ClosedElsewhere(s, t, i))
    || (exists i :: Adopt(s, t, i))
    || (exists i, v :: PostClose(s, t, i, v))
    || ConsumeHeader(s, t)
    || ConsumeBody(s, t)
  }

  /** Close number j is not yet known to the worker to be wholly consumed. */
  ghost predicate Unknown(s: Edge, j: nat) {
    j < |s.closes| && (j + 1) * s.frame > s.seen
  }

  ghost predicate Inv(s: Edge) {
    && Sized(s) && s.consumed <= |s.closes| && (s.half ==> s.consumed < |s.closes|)
    && s.seen <= Cursor(s) && s.drops == 0
    && (forall j :: 0 <= j < |s.closes| ==> s.closes[j] < |s.slots|)
    && (forall j :: s.consumed <= j < |s.closes| ==> s.slots[s.closes[j]] == Closing)
    && (forall i: nat, j: nat :: i < j && Unknown(s, i) && Unknown(s, j) ==> s.closes[i] != s.closes[j])
    && (forall j: nat :: Unknown(s, j) ==> Stale(s, j))
    && (forall i :: 0 <= i < |s.slots| && s.slots[i].Adopting? ==> s.slots[i].consumed <= Cursor(s))
  }

  /** The slot of an unknown close is not in the worker's hands, and the adopt
      that would give it back carries the news of that close's consumption. */
  ghost predicate Stale(s: Edge, j: nat)
    requires j < |s.closes|
  {
    && s.closes[j] < |s.slots|
    && var c := s.slots[s.closes[j]];
    c != Owned && (c.Adopting? ==> (j + 1) * s.frame <= c.consumed)
  }

  /** Whatever stale cursor the worker decides on, its close fits. */
  lemma CloseFits(s: Edge, i: nat, v: nat)
    requires Inv(s) && i < |s.slots| && s.slots[i] == Owned && s.seen <= v <= Cursor(s)
    ensures |s.closes| * s.frame - v + s.frame <= s.pipe
  {
    var p := |s.closes|;
    var k := KnownCount(v, s.frame);
    if k < p {
      UnknownFrom(s, k, v);
      var unknown := s.closes[k..];
      forall a | 0 <= a < |unknown|
        ensures unknown[a] < |s.slots| && unknown[a] != i
      {
        assert Unknown(s, k + a) && Stale(s, k + a);
      }
      forall a, b | 0 <= a < b < |unknown|
        ensures unknown[a] != unknown[b]
      {
        assert Unknown(s, k + a) && Unknown(s, k + b);
      }
      Pigeonhole(unknown + [i], |s.slots|);
    }
    FitArithmetic(p, k, s.frame, |s.slots|, v);
  }

  /** How many whole frames a cursor value covers. */
  lemma KnownCount(v: nat, f: nat) returns (k: nat)
    requires f > 0
    ensures k * f <= v < (k + 1) * f
  {
    k := v / f;
    assert v == k * f + v % f;
    assert (k + 1) * f == k * f + f;
  }

  lemma UnknownFrom(s: Edge, k: nat, v: nat)
    requires s.seen <= v < (k + 1) * s.frame
    ensures forall j: nat :: k <= j < |s.closes| ==> Unknown(s, j)
  {
  }

  lemma FitArithmetic(p: nat, k: nat, f: nat, c: nat, v: nat)
    requires c > 0 && k * f <= v && (k < p ==> p - k + 1 <= c)
    ensures p * f - v + f <= c * f
  {
    if k < p {
      MulMonotone(p - k + 1, c, f);
      assert (p - k + 1) * f == p * f - k * f + f;
    } else {
      MulMonotone(p, k, f);
      MulMonotone(1, c, f);
    }
  }

  lemma MulMonotone(a: nat, b: nat, f: nat)
    requires a <= b
    ensures a * f <= b * f
  {
  }

  lemma AllocateKeepsInv(s: Edge, t: Edge, i: nat)
    requires Inv(s) && Allocate(s, t, i)
    ensures Inv(t)
  {
    forall j: nat | Unknown(t, j)
      ensures Stale(t, j)
    {
      assert Unknown(s, j) && Stale(s, j);
      if s.closes[j] == i {
        assert j < s.consumed;
        MulMonotone(j + 1, s.consumed, s.frame);
      }
    }
    assert forall j: nat :: Unknown(t, j) ==> Unknown(s, j);
  }

  lemma AdoptKeepsInv(s: Edge, t: Edge, i: nat)
    requires Inv(s) && Adopt(s, t, i)
    ensures Inv(t)
  {
    forall j: nat | Unknown(t, j)
      ensures Unknown(s, j) && Stale(t, j)
    {
      assert Unknown(s, j) && Stale(s, j);
    }
  }

  lemma PostKeepsInv(s: Edge, t: Edge, i: nat, v: nat)
    requires Inv(s) && PostClose(s, t, i, v)
    ensures Inv(t)
  {
    CloseFits(s, i, v);
    assert t.closes == s.closes + [i];
    forall j: nat | Unknown(t, j) && j < |s.closes|
      ensures Unknown(s, j) && s.closes[j] != i && Stale(t, j)
    {
      assert Unknown(s, j) && Stale(s, j);
    }
    assert Stale(t, |s.closes|);
    forall a: nat, b: nat | a < b && Unknown(t, a) && Unknown(t, b)
      ensures t.closes[a] != t.closes[b]
    {
      assert Unknown(s, a);
    }
  }

  lemma HeaderKeepsInv(s: Edge, t: Edge)
    requires Inv(s) && ConsumeHeader(s, t)
    ensures Inv(t)
  {
    forall j: nat | Unknown(t, j)
      ensures Unknown(s, j) && Stale(t, j)
    {
      assert Unknown(s, j) && Stale(s, j);
    }
  }

  lemma ElsewhereKeepsInv(s: Edge, t: Edge, i: nat)
    requires Inv(s) && ClosedElsewhere(s, t, i)
    ensures Inv(t)
  {
    forall j: nat | Unknown(t, j)
      ensures Unknown(s, j) && Stale(t, j)
    {
      assert Unknown(s, j) && Stale(s, j);
    }
  }

  lemma BodyKeepsInv(s: Edge, t: Edge)
    requires Inv(s) && ConsumeBody(s, t)
    ensures Inv(t)
  {
    CursorGrows(s, t);
    forall j: nat | Unknown(t, j)
      ensures Unknown(s, j) && Stale(t, j)
    {
      assert Unknown(s, j) && Stale(s, j);
    }
    forall j | t.consumed <= j < |t.closes|
      ensures t.slots[t.closes[j]] == Closing
    {
      UnconsumedDistinct(s, s.consumed, j);
    }
  }

  lemma CursorGrows(s: Edge, t: Edge)
    requires Sized(s) && ConsumeBody(s, t)
    ensures Cursor(s) <= Cursor(t)
  {
  }

  /** Closes still in the pipe belong to different slots. */
  lemma UnconsumedDistinct(s: Edge, q: nat, j: nat)
    requires Inv(s) && s.consumed <= q < j < |s.closes|
    ensures s.closes[q] != s.closes[j]
  {
    MulMonotone(s.consumed + 1, q + 1, s.frame);
    MulMonotone(s.consumed + 1, j + 1, s.frame);
    assert (s.consumed + 1) * s.frame == s.consumed * s.frame + s.frame;
    assert Unknown(s, q) && Unknown(s, j);
  }

  ghost predicate StepAt(run: seq<Edge>, i: nat)
    requires i + 1 < |run|
  {
    Next(run[i], run[i + 1])
  }

  ghost predicate Run(run: seq<Edge>) {
    && |run| > 0 && Init(run[0])
    && forall i: nat :: i + 1 < |run| ==> StepAt(run, i)
  }

  lemma StepKeepsInv(s: Edge, t: Edge)
    requires Inv(s) && Next(s, t)
    ensures Inv(t)
  {
    if i :| Allocate(s, t, i) {
      AllocateKeepsInv(s, t, i);
    } else if i :| Adopt(s, t, i) {
      AdoptKeepsInv(s, t, i);
    } else if i, v :| PostClose(s, t, i, v) {
      PostKeepsInv(s, t, i, v);
    } else if i :| ClosedElsewhere(s, t, i) {
      ElsewhereKeepsInv(s, t, i);
    } else if ConsumeHeader(s, t) {
      HeaderKeepsInv(s, t);
    } else {
      BodyKeepsInv(s, t);
    }
  }

  lemma {:induction false} RunInv(run: seq<Edge>, k: nat)
    requires Run(run) && k < |run|
    ensures Inv(run[k])
  {
    if k > 0 {
      RunInv(run, k - 1);
      assert StepAt(run, k - 1);
      StepKeepsInv(run[k - 1], run[k]);
    }
  }

  lemma InFlightFew(s: Edge)
    requires Inv(s)
    ensures |s.closes| - s.consumed <= |s.slots|
  {
    var pending := s.closes[s.consumed..];
    forall i, j | 0 <= i < j < |pending|
      ensures pending[i] != pending[j]
    {
      UnconsumedDistinct(s, s.consumed + i, s.consumed + j);
    }
    Pigeonhole(pending, |s.slots|);
  }

  lemma ProductGap(a: nat, b: nat, c: nat, f: nat)
    requires a - b <= c
    ensures a * f - b * f <= c * f
  {
  }

  /** No run of the protocol ever drops a close notification, and the bytes in
      flight never exceed one frame per session slot. */
  lemma CloseNeverDrops(run: seq<Edge>, k: nat)
    requires Run(run) && k < |run|
    ensures run[k].drops == 0
    ensures |run[k].closes| * run[k].frame - Cursor(run[k]) <= |run[k].slots| * run[k].frame
    ensures |run[k].slots| * run[k].frame <= run[k].pipe
  {
    RunInv(run, k);
    InFlightFew(run[k]);
    ProductGap(|run[k].closes|, run[k].consumed, |run[k].slots|, run[k].frame);
  }

  /** The shipped sizes meet the rule. */
  lemma ShippedSizesFit(s: Edge)
    requires |s.slots| == SESSION_CAPACITY && s.frame == CLOSE_FRAME && s.pipe == NOTIFY_PIPE
    ensures Sized(s)
  {
  }

  // ---- nothing gets stuck

  /** Close `j` is still to be consumed and is for slot `i`. */
  ghost predicate Pending(s: Edge, i: nat, j: nat) {
    s.consumed <= j < |s.closes| && s.closes[j] == i
  }

  /** Every closing slot has a close on its way. */
  ghost predicate Owed(s: Edge) {
    forall i: nat :: i < |s.slots| && s.slots[i] == Closing ==> exists j: nat :: Pending(s, i, j)
  }

  lemma PendingKept(s: Edge, t: Edge, i: nat)
    requires s.consumed == t.consumed && s.closes <= t.closes && exists j: nat :: Pending(s, i, j)
    ensures exists j: nat :: Pending(t, i, j)
  {
    var j: nat :| Pending(s, i, j);
    assert Pending(t, i, j);
  }

  lemma OwedAfterBody(s: Edge, t: Edge)
    requires Owed(s) && ConsumeBody(s, t)
    ensures Owed(t)
  {
    forall i: nat | i < |t.slots| && t.slots[i] == Closing
      ensures exists j: nat :: Pending(t, i, j)
    {
      var j: nat :| Pending(s, i, j);
      assert Pending(t, i, j);
    }
  }

  lemma OwedStep(s: Edge, t: Edge)
    requires s.consumed <= |s.closes| && Owed(s) && Next(s, t)
    ensures Owed(t)
  {
    if ConsumeBody(s, t) {
      OwedAfterBody(s, t);
    } else {
      forall i: nat | i < |t.slots| && t.slots[i] == Closing
        ensures exists j: nat :: Pending(t, i, j)
      {
        if s.slots[i] == Closing {
          PendingKept(s, t, i);
        } else {
          assert Pending(t, i, |s.closes|);
        }
      }
    }
  }

  /** No close is forgotten: over every run a slot that waits for the consumption of its
      close has one that is posted and not consumed. */
  lemma {:induction false} ClosesAreOwed(run: seq<Edge>, k: nat)
    requires Run(run) && k < |run|
    ensures Owed(run[k])
  {
    if k > 0 {
      ClosesAreOwed(run, k - 1);
      RunInv(run, k - 1);
      assert StepAt(run, k - 1);
      OwedStep(run[k - 1], run[k]);
    }
  }

  /** Every slot can move on: a free one is allocated to this edge, one in adoption is
      adopted with the cursor it carries, an owned one is closed whatever cursor is
      observed, one elsewhere comes back. */
  lemma SlotsMove(s: Edge, i: nat, v: nat) returns (t: Edge)
    requires Inv(s) && i < |s.slots| && s.slots[i] != Closing && s.seen <= v <= Cursor(s)
    ensures Next(s, t) && |t.slots| == |s.slots|
    ensures s.slots[i] == Free ==> t.slots[i] == Adopting(Cursor(s))
    ensures s.slots[i].Adopting? ==> t.slots[i] == Owned && t.seen >= s.slots[i].consumed
    ensures s.slots[i] == Owned ==> t.slots[i] == Closing && t.closes == s.closes + [i]
    ensures s.slots[i] == Elsewhere ==> t.slots[i] == Free
  {
    match s.slots[i] {
      case Free =>
        t := s.(slots := s.slots[i := Adopting(Cursor(s))]);
        assert Allocate(s, t, i);
      case Elsewhere =>
        t := s.(slots := s.slots[i := Free]);
        assert ClosedElsewhere(s, t, i);
      case Adopting(c) =>
        t := s.(slots := s.slots[i := Owned], seen := if s.seen < c then c else s.seen);
        assert Adopt(s, t, i);
      case Owned =>
        CloseFits(s, i, v);
        t := s.(seen := v, closes := s.closes + [i], slots := s.slots[i := Closing]);
        assert PostClose(s, t, i, v);
    }
  }

  /** And a closing one is freed in its turn: two steps of the acceptor consume the oldest
      close and free its slot. */
  lemma OldestIsFreed(s: Edge) returns (t: Edge, u: Edge)
    requires Inv(s) && !s.half && s.consumed < |s.closes|
    ensures Next(s, t) && Next(t, u) && u.consumed == s.consumed + 1 && u.closes == s.closes && !u.half
    ensures u.slots == s.slots[s.closes[s.consumed] := Free]
  {
    t := s.(half := true);
    u := t.(half := false, consumed := s.consumed + 1, slots := s.slots[s.closes[s.consumed] := Free]);
    assert ConsumeHeader(s, t) && ConsumeBody(t, u);
  }
}
