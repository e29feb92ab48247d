/** The tick of the budget experiment: deadlines on a monotone clock, time
    accounting, and the bitmap of live sessions walked lowest bit first. */
module TickScheduler {
  import opened Words

  // ---- 64-bit words as numbers

  /** Index of the lowest set bit (ctz). */
  function LowestBit(w: nat): nat
    requires w > 0
  {
    if w % 2 == 1 then 0 else 1 + LowestBit(w / 2)
  }

  function SetBit(w: nat, k: nat): nat {
    if k == 0 then (if w % 2 == 1 then w else w + 1) else 2 * SetBit(w / 2, k - 1) + w % 2
  }

  function ClearBit(w: nat, k: nat): nat {
    if k == 0 then (if w % 2 == 1 then w - 1 else w) else 2 * ClearBit(w / 2, k - 1) + w % 2
  }

  /** The set bits of a word in ascending order, numbered from `base`. */
  function Bits(w: nat, base: nat): seq<nat> {
    if w == 0 then [] else (if w % 2 == 1 then [base] else []) + Bits(w / 2, base + 1)
  }

  lemma {:induction false} AndSelf(w: nat)
    ensures And(w, w) == w
  {
    if w > 0 {
      AndSelf(w / 2);
    }
  }

  /** Clearing with `w & (w - 1)` removes exactly the lowest set bit. */
  lemma {:induction false} ClearLowest(w: nat, base: nat)
    requires w > 0
    ensures Bits(w, base) == [base + LowestBit(w)] + Bits(And(w, w - 1), base)
    ensures And(w, w - 1) < w
    decreases w
  {
    if w % 2 == 1 {
      AndSelf(w / 2);
      assert (w - 1) / 2 == w / 2 && (w - 1) % 2 == 0;
      assert w == 1 || And(w, w - 1) == 2 * (w / 2);
      var v := 2 * (w / 2);
      assert v / 2 == w / 2;
    } else {
      ClearLowest(w / 2, base + 1);
      var h := w / 2;
      assert (w - 1) / 2 == h - 1 && (w - 1) % 2 == 1;
      assert w - 1 > 0;
      var v := And(h, h - 1);
      assert And(w, w - 1) == 2 * v;
      assert (2 * v) / 2 == v;
    }
  }

  lemma {:induction false} BitsAre(w: nat, base: nat, i: nat)
    ensures i in Bits(w, base) <==> i >= base && TestBit(w, i - base)
    decreases w
  {
    if w > 0 {
      BitsAre(w / 2, base + 1, i);
    } else if i >= base {
      NoBits(i - base);
    }
  }

  ghost predicate Ascending(s: seq<nat>) {
    forall i, j :: 0 <= i < j < |s| ==> s[i] < s[j]
  }

  lemma {:induction false} BitsAscend(w: nat, base: nat)
    ensures Ascending(Bits(w, base)) && forall i :: i in Bits(w, base) ==> i >= base
    decreases w
  {
    if w > 0 {
      BitsAscend(w / 2, base + 1);
      var rest := Bits(w / 2, base + 1);
      assert forall j :: 0 <= j < |rest| ==> rest[j] in rest;
    }
  }

  lemma {:induction false} SetBitCounts(w: nat, k: nat, base: nat)
    requires !TestBit(w, k)
    ensures |Bits(SetBit(w, k), base)| == |Bits(w, base)| + 1
    decreases k
  {
    if k == 0 {
      assert (w + 1) / 2 == w / 2;
    } else {
      SetBitCounts(w / 2, k - 1, base + 1);
      var v := SetBit(w / 2, k - 1);
      assert (2 * v + w % 2) / 2 == v && (2 * v + w % 2) % 2 == w % 2;
    }
  }

  lemma {:induction false} ClearBitCounts(w: nat, k: nat, base: nat)
    requires TestBit(w, k)
    ensures |Bits(ClearBit(w, k), base)| == |Bits(w, base)| - 1
    decreases k
  {
    if k == 0 {
      assert (w - 1) / 2 == w / 2;
    } else {
      ClearBitCounts(w / 2, k - 1, base + 1);
      var v := ClearBit(w / 2, k - 1);
      assert (2 * v + w % 2) / 2 == v && (2 * v + w % 2) % 2 == w % 2;
    }
  }

  lemma {:induction false} SetBitSets(w: nat, k: nat, i: nat)
    ensures TestBit(SetBit(w, k), i) == (TestBit(w, i) || i == k)
    ensures TestBit(ClearBit(w, k), i) == (TestBit(w, i) && i != k)
    decreases k
  {
    if k > 0 && i > 0 {
      SetBitSets(w / 2, k - 1, i - 1);
      var v, u := SetBit(w / 2, k - 1), ClearBit(w / 2, k - 1);
      assert (2 * v + w % 2) / 2 == v && (2 * u + w % 2) / 2 == u;
    } else if k == 0 && i > 0 {
      assert w % 2 == 0 ==> (w + 1) / 2 == w / 2;
      assert w % 2 == 1 ==> (w - 1) / 2 == w / 2;
    }
  }

  // ---- the bitmap

  /** Word-wise bits of the whole bitmap, in slot order. */
  function AllBits(words: seq<nat>): seq<nat> {
    if words == [] then [] else AllBits(words[..|words| - 1]) + Bits(words[|words| - 1], 64 * (|words| - 1))
  }

  predicate IsLive(words: seq<nat>, s: nat) {
    s / 64 < |words| && TestBit(words[s / 64], s % 64)
  }

  /** Every word holds 64 bits. */
  ghost predicate Narrow(words: seq<nat>) {
    forall wi, i: nat :: 0 <= wi < |words| && TestBit(words[wi], i) ==> i < 64
  }

  lemma {:induction false} AllBitsAre(words: seq<nat>, s: nat)
    requires Narrow(words)
    ensures s in AllBits(words) <==> IsLive(words, s)
  {
    if words != [] {
      var n := |words| - 1;
      AllBitsAre(words[..n], s);
      BitsAre(words[n], 64 * n, s);
      assert s / 64 < n ==> words[..n][s / 64] == words[s / 64];
      if s >= 64 * n && TestBit(words[n], s - 64 * n) {
        assert s - 64 * n < 64;
        assert s / 64 == n && s % 64 == s - 64 * n;
      }
    }
  }

  lemma {:induction false} AllBitsAscend(words: seq<nat>)
    requires Narrow(words)
    ensures Ascending(AllBits(words)) && forall s :: s in AllBits(words) ==> s < 64 * |words|
  {
    if words != [] {
      var n := |words| - 1;
      AllBitsAscend(words[..n]);
      BitsAscend(words[n], 64 * n);
      var front, back := AllBits(words[..n]), Bits(words[n], 64 * n);
      forall s | s in back
        ensures 64 * n <= s < 64 * (n + 1)
      {
        BitsAre(words[n], 64 * n, s);
      }
      forall i, j | 0 <= i < j < |front + back|
        ensures (front + back)[i] < (front + back)[j]
      {
        if i < |front| <= j {
          assert front[i] in front && back[j - |front|] in back;
        }
      }
    }
  }

  lemma {:induction false} AllBitsChange(words: seq<nat>, wi: nat, w: nat)
    requires wi < |words|
    ensures |AllBits(words[wi := w])| == |AllBits(words)| - |Bits(words[wi], 64 * wi)| + |Bits(w, 64 * wi)|
  {
    var n := |words| - 1;
    if wi == n {
      assert words[wi := w][..n] == words[..n];
    } else {
      AllBitsChange(words[..n], wi, w);
      assert words[wi := w][..n] == words[..n][wi := w];
    }
  }

  lemma NarrowSet(words: seq<nat>, wi: nat, k: nat)
    requires Narrow(words) && wi < |words| && k < 64
    ensures Narrow(words[wi := SetBit(words[wi], k)]) && Narrow(words[wi := ClearBit(words[wi], k)])
  {
    var a, b := words[wi := SetBit(words[wi], k)], words[wi := ClearBit(words[wi], k)];
    forall x, i: nat | 0 <= x < |words| && (TestBit(a[x], i) || TestBit(b[x], i))
      ensures i < 64
    {
      SetBitSets(words[wi], k, i);
      assert x != wi ==> TestBit(words[x], i);
    }
  }

  lemma LiveAfter(words: seq<nat>, fd: nat, s: nat)
    requires fd / 64 < |words|
    ensures IsLive(words[fd / 64 := SetBit(words[fd / 64], fd % 64)], s) <==> IsLive(words, s) || s == fd
    ensures IsLive(words[fd / 64 := ClearBit(words[fd / 64], fd % 64)], s) <==> IsLive(words, s) && s != fd
  {
    SetBitSets(words[fd / 64], fd % 64, s % 64);
    assert s == fd <==> s / 64 == fd / 64 && s % 64 == fd % 64;
  }

  function Added(words: seq<nat>, fd: nat): seq<nat>
    requires fd / 64 < |words|
  {
    words[fd / 64 := SetBit(words[fd / 64], fd % 64)]
  }

  function Removed(words: seq<nat>, fd: nat): seq<nat>
    requires fd / 64 < |words|
  {
    words[fd / 64 := ClearBit(words[fd / 64], fd % 64)]
  }

  lemma AddedIs(words: seq<nat>, fd: nat)
    requires Narrow(words) && fd / 64 < |words| && !IsLive(words, fd)
    ensures Narrow(Added(words, fd)) && |AllBits(Added(words, fd))| == |AllBits(words)| + 1
    ensures forall s: nat :: IsLive(Added(words, fd), s) <==> IsLive(words, s) || s == fd
  {
    var wi, k := fd / 64, fd % 64;
    forall s: nat
      ensures IsLive(Added(words, fd), s) <==> IsLive(words, s) || s == fd
    {
      LiveAfter(words, fd, s);
    }
    NarrowSet(words, wi, k);
    AllBitsChange(words, wi, SetBit(words[wi], k));
    SetBitCounts(words[wi], k, 64 * wi);
  }

  lemma RemovedIs(words: seq<nat>, fd: nat)
    requires Narrow(words) && IsLive(words, fd)
    ensures Narrow(Removed(words, fd)) && |AllBits(Removed(words, fd))| == |AllBits(words)| - 1
    ensures forall s: nat :: IsLive(Removed(words, fd), s) <==> IsLive(words, s) && s != fd
  {
    var wi, k := fd / 64, fd % 64;
    forall s: nat
      ensures IsLive(Removed(words, fd), s) <==> IsLive(words, s) && s != fd
    {
      LiveAfter(words, fd, s);
    }
    NarrowSet(words, wi, k);
    AllBitsChange(words, wi, ClearBit(words[wi], k));
    ClearBitCounts(words[wi], k, 64 * wi);
  }

  class Sessions {
    const slots: nat
    var words: seq<nat>
    var liveN: nat

    ghost predicate Valid()
      reads this
    {
      Narrow(words) && |words| == (slots + 63) / 64 && liveN == |AllBits(words)|
    }

    constructor (slots: nat)
      ensures Valid() && this.slots == slots && liveN == 0
    {
      this.slots := slots;
      words, liveN := seq((slots + 63) / 64, _ => 0), 0;
      new;
      forall wi, i: nat | 0 <= wi < |words|
        ensures !TestBit(words[wi], i)
      {
        NoBits(i);
      }
      ZeroBits(|words|);
    }

    method Add(fd: int)
      requires Valid()
      modifies `words, `liveN
      ensures Valid() && forall s: nat :: IsLive(words, s) <==> IsLive(old(words), s) || (s == fd && s < slots)
    {
      if fd < 0 || fd >= slots || TestBit(words[fd / 64], fd % 64) {
        return;
      }
      AddedIs(words, fd);
      words, liveN := words[fd / 64 := SetBit(words[fd / 64], fd % 64)], liveN + 1;
    }

    method Remove(fd: int)
      requires Valid()
      modifies `words, `liveN
      ensures Valid() && forall s: nat :: IsLive(words, s) <==> IsLive(old(words), s) && !(s == fd && s < slots)
    {
      if fd < 0 || fd >= slots || !TestBit(words[fd / 64], fd % 64) {
        return;
      }
      RemovedIs(words, fd);
      words, liveN := words[fd / 64 := ClearBit(words[fd / 64], fd % 64)], liveN - 1;
    }

    /** run_tick's walk: every live slot once, in slot order. */
    method RunTick() returns (touched: seq<nat>)
      requires Valid()
      ensures |touched| == liveN && Ascending(touched) && forall s: nat :: s in touched <==> IsLive(words, s)
    {
      touched := [];
      for wi := 0 to |words|
        invariant touched == AllBits(words[..wi])
      {
        touched := WalkWord(words[wi], wi, touched);
        assert words[..wi + 1][..wi] == words[..wi];
      }
      assert words[..|words|] == words;
      AllBitsAscend(words);
      forall s: nat
        ensures s in touched <==> IsLive(words, s)
      {
        AllBitsAre(words, s);
      }
    }
  }

  /** The inner loop: count trailing zeros, touch, clear the lowest bit. */
  method WalkWord(w: nat, wi: nat, before: seq<nat>) returns (touched: seq<nat>)
    ensures touched == before + Bits(w, 64 * wi)
  {
    var bits := w;
    touched := before;
    while bits != 0
      invariant before + Bits(w, 64 * wi) == touched + Bits(bits, 64 * wi)
      decreases bits
    {
      ClearLowest(bits, 64 * wi);
      var b := LowestBit(bits);
      bits := And(bits, bits - 1);
      touched := touched + [wi * 64 + b];
    }
  }

  lemma {:induction false} ZeroBits(n: nat)
    ensures AllBits(seq(n, _ => 0)) == []
  {
    if n > 0 {
      ZeroBits(n - 1);
      assert seq(n, _ => 0)[..n - 1] == seq(n - 1, _ => 0);
    }
  }

  // ---- deadlines and accounting

  /** The clock readings of one pass of the loop. */
  datatype Reading = Reading(drain0: int, drain1: int, tick0: int, tick1: int, flush0: int, flush1: int)

  predicate Monotone(now: int, r: Reading) {
    now <= r.drain0 <= r.drain1 <= r.tick0 <= r.tick1 <= r.flush0 <= r.flush1
  }

  datatype Schedule = Schedule(ticks: nat, deadline: int, overruns: nat)

  /** What one pass does to the schedule. */
  function Ticked(period: int, s: Schedule, r: Reading): Schedule {
    if r.tick0 < s.deadline then s
    else if r.tick1 > s.deadline + period then Schedule(s.ticks + 1, r.tick1 + period, s.overruns + 1)
    else Schedule(s.ticks + 1, s.deadline + period, s.overruns)
  }

  function TickedAll(period: int, s: Schedule, readings: seq<Reading>): Schedule {
    if readings == [] then s
    else Ticked(period, TickedAll(period, s, readings[..|readings| - 1]), readings[|readings| - 1])
  }

  class Ticker {
    const enabled: bool
    const period: int
    var deadline: int
    var drainAcc: int
    var flushAcc: int
    var wakes: nat
    var ticks: nat
    var overruns: nat
    var drainSum: int      // what the drain histogram recorded, summed
    var flushSum: int
    var tickSum: int
    ghost const started: int
    ghost var now: int
    ghost var drained: int // time spent between drain_begin and drain_end
    ghost var flushed: int

    /** Deadlines advance at least one period per tick, and no time is lost. */
    ghost predicate Valid()
      reads this
    {
      && period >= 0 && started <= now
      && deadline >= started + (ticks + 1) * period && deadline <= now + period
      && ticks * period <= now - started
      && drainSum + drainAcc == drained && flushSum + flushAcc == flushed
      && overruns <= ticks
    }

    constructor (enabled: bool, period: int, now: int)
      requires period >= 0
      ensures Valid() && ticks == 0 && this.now == now && this.period == period && deadline == now + period
      ensures this.enabled == enabled
    {
      this.enabled, this.period, this.started := enabled, period, now;
      this.now := now;
      deadline := now + period;
      drainAcc, flushAcc, wakes, ticks, overruns := 0, 0, 0, 0, 0;
      drainSum, flushSum, tickSum, drained, flushed := 0, 0, 0, 0, 0;
    }

    /** timeout_ns(): how long the wait may last; -1 is for ever. */
    function Timeout(t: int): (ns: int)
      reads this
      ensures ns == -1 <==> !enabled
      ensures enabled ==> ns >= 0 && (ns > 0 ==> t + ns == deadline) && (ns == 0 ==> t >= deadline)
    {
      if !enabled then -1 else if deadline - t > 0 then deadline - t else 0
    }

    method Drain(t0: int, t1: int)
      requires Valid() && now <= t0 <= t1
      modifies `wakes, `drainAcc, `drained, `now
      ensures Valid() && now == t1 && drained == old(drained) + (if enabled then t1 - t0 else 0)
      ensures wakes == old(wakes) + (if enabled then 1 else 0)
    {
      if !enabled {
        now := t1;
        return;
      }
      wakes, drainAcc := wakes + 1, drainAcc + (t1 - t0);
      drained, now := drained + (t1 - t0), t1;
    }

    method Flush(t0: int, t1: int)
      requires Valid() && now <= t0 <= t1
      modifies `flushAcc, `flushed, `now
      ensures Valid() && now == t1 && flushed == old(flushed) + (if enabled then t1 - t0 else 0)
    {
      if !enabled {
        now := t1;
        return;
      }
      flushAcc := flushAcc + (t1 - t0);
      flushed, now := flushed + (t1 - t0), t1;
    }

    /** maybe_tick(): after a tick the deadline is within a period of its end, never
        in the past, and an overrun resets it instead of catching up. */
    method MaybeTick(t0: int, t1: int) returns (ticked: bool)
      requires Valid() && now <= t0 <= t1
      modifies `deadline, `drainAcc, `flushAcc, `wakes, `ticks, `overruns, `drainSum, `flushSum, `tickSum, `now
      ensures Valid() && ticked == (enabled && t0 >= old(deadline)) && now <= t1
      ensures !ticked ==>
                && deadline == old(deadline) && ticks == old(ticks) && overruns == old(overruns)
                && drainAcc == old(drainAcc) && flushAcc == old(flushAcc) && wakes == old(wakes)
                && drainSum == old(drainSum) && flushSum == old(flushSum) && tickSum == old(tickSum)
      ensures ticked ==>
                && ticks == old(ticks) + 1 && t1 <= deadline <= t1 + period
                && deadline == (if t1 > old(deadline) + period then t1 + period else old(deadline) + period)
                && overruns == old(overruns) + (if t1 > old(deadline) + period then 1 else 0)
                && drainAcc == flushAcc == 0 && wakes == 0 && now == t1
                && drainSum == old(drainSum + drainAcc) && flushSum == old(flushSum + flushAcc)
                && tickSum == old(tickSum) + (t1 - t0)
    {
      ticked := enabled && t0 >= deadline;
      if !ticked {
        now := t0;
        return;
      }
      ticks := ticks + 1;
      drainSum, flushSum, tickSum := drainSum + drainAcc, flushSum + flushAcc, tickSum + (t1 - t0);
      drainAcc, flushAcc, wakes := 0, 0, 0;
      assert (ticks + 1) * period == ticks * period + period;
      if t1 > deadline + period {
        overruns, deadline := overruns + 1, t1 + period;
      } else {
        deadline := deadline + period;
      }
      now := t1;
    }

    method Pass(r: Reading)
      requires Valid() && Monotone(now, r)
      modifies this
      ensures Valid() && now == r.flush1
      ensures drained == old(drained) + (if enabled then r.drain1 - r.drain0 else 0)
      ensures flushed == old(flushed) + (if enabled then r.flush1 - r.flush0 else 0)
      ensures !enabled ==> ticks == old(ticks)
      ensures enabled ==>
                Schedule(ticks, deadline, overruns) == Ticked(period, old(Schedule(ticks, deadline, overruns)), r)
      ensures tickSum == old(tickSum) + if enabled && r.tick0 >= old(deadline) then r.tick1 - r.tick0 else 0
    {
      Drain(r.drain0, r.drain1);
      var ticked := MaybeTick(r.tick0, r.tick1);
      Flush(r.flush0, r.flush1);
    }

    /** Any run on a monotone clock: at most one tick per elapsed period, one at every
        pass that finds the deadline reached, and every nanosecond of drain and flush is
        either recorded or still accumulating. */
    method Run(readings: seq<Reading>)
      requires Valid() && MonotoneRun(now, readings)
      modifies this
      ensures Valid() && ticks * period <= now - started
      ensures drained == old(drained) + (if enabled then DrainTime(readings) else 0) && drainSum + drainAcc == drained
      ensures flushed == old(flushed) + (if enabled then FlushTime(readings) else 0) && flushSum + flushAcc == flushed
      ensures !enabled ==> ticks == old(ticks)
      ensures enabled ==>
                && Schedule(ticks, deadline, overruns)
                     == TickedAll(period, old(Schedule(ticks, deadline, overruns)), readings)
                && (readings != [] ==> deadline >= readings[|readings| - 1].tick0)
    {
      for i := 0 to |readings|
        invariant Valid() && MonotoneRun(now, readings[i..])
        invariant drained == old(drained) + (if enabled then DrainTime(readings[..i]) else 0)
        invariant flushed == old(flushed) + (if enabled then FlushTime(readings[..i]) else 0)
        invariant !enabled ==> ticks == old(ticks)
        invariant enabled ==>
                    && Schedule(ticks, deadline, overruns)
                         == TickedAll(period, old(Schedule(ticks, deadline, overruns)), readings[..i])
                    && (i > 0 ==> deadline >= readings[i - 1].tick0)
      {
        assert readings[i..][1..] == readings[i + 1..] && readings[..i + 1][..i] == readings[..i];
        Pass(readings[i]);
      }
      assert readings[..|readings|] == readings;
    }
  }

  predicate MonotoneRun(now: int, readings: seq<Reading>)
    decreases |readings|
  {
    readings == [] || (Monotone(now, readings[0]) && MonotoneRun(readings[0].flush1, readings[1..]))
  }

  function DrainTime(readings: seq<Reading>): int {
    if readings == [] then 0
    else
      var r := readings[|readings| - 1];
      DrainTime(readings[..|readings| - 1]) + (r.drain1 - r.drain0)
  }

  function FlushTime(readings: seq<Reading>): int {
    if readings == [] then 0
    else
      var r := readings[|readings| - 1];
      FlushTime(readings[..|readings| - 1]) + (r.flush1 - r.flush0)
  }
}
