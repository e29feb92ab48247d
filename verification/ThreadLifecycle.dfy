/** The four-state lifecycle of a server thread: any number of request_stop calls,
    the worker's trampoline and loop, joins and tid readers, interleaved at the
    granularity of one atomic access. */
module ThreadLifecycle {

  datatype State = Starting | Running | Draining | Stopped

  function Rank(s: State): nat {
    match s
    case Starting => 0
    case Running => 1
    case Draining => 2
    case Stopped => 3
  }

  /** The worker thread. `Trapped` is a failed lifecycle check. */
  datatype Worker = Unstarted | Preamble | Promote | Looping | Publishing | Exited | Trapped

  /** One call of request_stop: before its load, before a compare-exchange
      expecting `observed`, or returned. `tries` counts the exchanges made. */
  datatype Call = Entered | Exchanging(observed: State, tries: nat) | Returned(swapped: bool, tries: nat)

  /** One call of kernel_tid(): before the state load, after seeing running, done. */
  datatype TidRead = TidEntered | TidSawRunning | TidReturned(tid: nat)

  datatype Thread = Thread(
    state: State,
    tid: nat,                     // 0 until the worker publishes it
    realTid: nat,
    heartbeat: nat,
    worker: Worker,
    calls: map<nat, Call>,
    tidReads: map<nat, TidRead>,
    joinTrapped: bool,
    stops: nat                    // history: how often `stopped` was stored
  )

  ghost predicate Init(s: Thread) {
    && s.state == Starting && s.tid == 0 && s.realTid > 0 && s.worker == Unstarted
    && s.calls == map[] && s.tidReads == map[] && !s.joinTrapped && s.stops == 0 && s.heartbeat == 0
  }

  // ---- request_stop

  ghost predicate CallBegin(s: Thread, t: Thread, id: nat) {
    id !in s.calls && t == s.(calls := s.calls[id := Entered])
  }

  predicate BeforeStop(s: State) {
    s == Starting || s == Running
  }

  /** The loop test of request_stop after observing a value. */
  function Retry(observed: State, tries: nat): Call {
    if BeforeStop(observed) then Exchanging(observed, tries) else Returned(false, tries)
  }

  ghost predicate CallLoad(s: Thread, t: Thread, id: nat) {
    id in s.calls && s.calls[id] == Entered && t == s.(calls := s.calls[id := Retry(s.state, 0)])
  }

  ghost predicate CallExchange(s: Thread, t: Thread, id: nat) {
    && id in s.calls && s.calls[id].Exchanging?
    && var c := s.calls[id];
    t == if s.state == c.observed
         then s.(state := Draining, calls := s.calls[id := Returned(true, c.tries + 1)])
         else s.(calls := s.calls[id := Retry(s.state, c.tries + 1)])
  }

  // ---- the worker: trampoline, then run_loop

  ghost predicate Start(s: Thread, t: Thread) {
    s.worker == Unstarted && t == s.(worker := Preamble)
  }

  ghost predicate PublishTid(s: Thread, t: Thread) {
    s.worker == Preamble && t == s.(tid := s.realTid, worker := Promote)
  }

  ghost predicate PromoteState(s: Thread, t: Thread) {
    && s.worker == Promote
    && t == match s.state
            case Starting => s.(state := Running, worker := Looping)
            case Draining => s.(worker := Publishing)
            case _ => s.(worker := Trapped)
  }

  ghost predicate LoopTest(s: Thread, t: Thread) {
    && s.worker == Looping
    && t == if s.state == Running then s.(heartbeat := s.heartbeat + 1) else s.(worker := Publishing)
  }

  ghost predicate PublishStopped(s: Thread, t: Thread) {
    s.worker == Publishing && t == s.(state := Stopped, worker := Exited, stops := s.stops + 1)
  }

  ghost predicate WorkerStep(s: Thread, t: Thread) {
    PublishTid(s, t) || PromoteState(s, t) || LoopTest(s, t) || PublishStopped(s, t)
  }

  // ---- join and kernel_tid

  /** join() waits for a started thread to exit, then checks that it is stopped. */
  ghost predicate Join(s: Thread, t: Thread) {
    (s.worker == Unstarted || s.worker == Exited) && t == s.(joinTrapped := s.joinTrapped || s.state != Stopped)
  }

  ghost predicate TidBegin(s: Thread, t: Thread, id: nat) {
    id !in s.tidReads && t == s.(tidReads := s.tidReads[id := TidEntered])
  }

  ghost predicate TidStep(s: Thread, t: Thread, id: nat) {
    && id in s.tidReads
    && match s.tidReads[id]
       case TidEntered =>
         t == s.(tidReads := s.tidReads[id := if s.state == Running then TidSawRunning else TidReturned(0)])
       case TidSawRunning => t == s.(tidReads := s.tidReads[id := TidReturned(s.tid)])
       case TidReturned(_) => false
  }

  ghost predicate Next(s: Thread, t: Thread) {
    || Start(s, t) || WorkerStep(s, t) || Join(s, t)
    || (exists id :: CallStep(s, t, id)) || (exists id :: TidBegin(s, t, id) || TidStep(s, t, id))
  }

  ghost predicate CallStep(s: Thread, t: Thread, id: nat) {
    CallBegin(s, t, id) || CallLoad(s, t, id) || CallExchange(s, t, id)
  }

  // ---- the invariant

  /** What each program counter of the worker knows about the shared state. */
  ghost predicate WorkerKept(s: Thread) {
    && s.realTid > 0
    && (s.stops == if s.state == Stopped then 1 else 0)
    && match s.worker
       case Unstarted => s.tid == 0 && (s.state == Starting || s.state == Draining)
       case Preamble => s.tid == 0 && (s.state == Starting || s.state == Draining)
       case Promote => s.tid == s.realTid && (s.state == Starting || s.state == Draining)
       case Looping => s.tid == s.realTid && (s.state == Running || s.state == Draining)
       case Publishing => s.tid == s.realTid && s.state == Draining
       case Exited => s.tid == s.realTid && s.state == Stopped
       case Trapped => false
  }

  /** A pending exchange lags behind the state; at most one retry can still happen
      per rank the state has left; a returned call has left its mark. */
  ghost predicate CallKept(s: Thread, c: Call) {
    match c
    case Entered => true
    case Exchanging(observed, tries) =>
      BeforeStop(observed) && Rank(observed) <= Rank(s.state) && tries <= Rank(observed)
    case Returned(_, tries) => tries <= 2 && !BeforeStop(s.state)
  }

  ghost predicate TidKept(s: Thread, r: TidRead) {
    match r
    case TidEntered => true
    case TidSawRunning => s.tid == s.realTid
    case TidReturned(tid) => tid == 0 || tid == s.realTid
  }

  ghost predicate Inv(s: Thread) {
    && WorkerKept(s)
    && (forall id :: id in s.calls ==> CallKept(s, s.calls[id]))
    && (forall id :: id in s.tidReads ==> TidKept(s, s.tidReads[id]))
  }

  // ---- what each kind of step does

  ghost predicate WorkerMoves(s: Thread, t: Thread) {
    Start(s, t) || WorkerStep(s, t)
  }

  lemma WorkerEffect(s: Thread, t: Thread)
    requires WorkerKept(s) && WorkerMoves(s, t)
    ensures WorkerKept(t) && Rank(s.state) <= Rank(t.state)
    ensures t.calls == s.calls && t.tidReads == s.tidReads && t.joinTrapped == s.joinTrapped
    ensures t.realTid == s.realTid && (s.tid == s.realTid ==> t.tid == t.realTid)
    ensures t.state != s.state && t.state == Stopped ==> PublishStopped(s, t)
    ensures t.stops == s.stops + (if PublishStopped(s, t) then 1 else 0)
  {
  }

  /** A pending exchange that succeeds moves the state to draining, never back. */
  lemma CallEffect(s: Thread, t: Thread, id: nat)
    requires CallStep(s, t, id) && (id in s.calls ==> CallKept(s, s.calls[id]))
    ensures t.state == s.state || (BeforeStop(s.state) && t.state == Draining)
    ensures t == s.(state := t.state, calls := t.calls)
    ensures id in t.calls && CallKept(t, t.calls[id])
    ensures forall x :: x in t.calls && x != id ==> x in s.calls && t.calls[x] == s.calls[x]
  {
  }

  lemma TidEffect(s: Thread, t: Thread, id: nat)
    requires WorkerKept(s) && (id in s.tidReads ==> TidKept(s, s.tidReads[id]))
    requires TidBegin(s, t, id) || TidStep(s, t, id)
    ensures t == s.(tidReads := t.tidReads) && id in t.tidReads && TidKept(t, t.tidReads[id])
    ensures forall x :: x in t.tidReads && x != id ==> x in s.tidReads && t.tidReads[x] == s.tidReads[x]
  {
  }

  lemma CallKeptForward(s: Thread, t: Thread, c: Call)
    requires CallKept(s, c) && Rank(s.state) <= Rank(t.state)
    ensures CallKept(t, c)
  {
  }

  /** The state never moves back, and only the worker's last store reaches stopped. */
  lemma StepIsForward(s: Thread, t: Thread)
    requires Inv(s) && Next(s, t)
    ensures Rank(s.state) <= Rank(t.state)
    ensures t.state != s.state && t.state == Stopped ==> PublishStopped(s, t)
    ensures t.stops == s.stops + (if PublishStopped(s, t) then 1 else 0)
    ensures s.joinTrapped != t.joinTrapped ==> s.worker == Unstarted
  {
    if WorkerMoves(s, t) {
      WorkerEffect(s, t);
    } else if id :| CallStep(s, t, id) {
      CallEffect(s, t, id);
    } else if id :| TidBegin(s, t, id) || TidStep(s, t, id) {
      TidEffect(s, t, id);
    }
  }

  /** Other calls see the state move forward; a call's own step follows its loop. */
  lemma CallsKept(s: Thread, t: Thread)
    requires Inv(s) && Next(s, t)
    ensures forall id :: id in t.calls ==> CallKept(t, t.calls[id])
  {
    StepIsForward(s, t);
    forall id | id in t.calls
      ensures CallKept(t, t.calls[id])
    {
      if id in s.calls && t.calls[id] == s.calls[id] {
        CallKeptForward(s, t, s.calls[id]);
      } else {
        var x :| CallStep(s, t, x);
        CallEffect(s, t, x);
      }
    }
  }

  lemma TidsKept(s: Thread, t: Thread)
    requires Inv(s) && Next(s, t)
    ensures forall id :: id in t.tidReads ==> TidKept(t, t.tidReads[id])
  {
    if WorkerMoves(s, t) {
      WorkerEffect(s, t);
    } else if id :| CallStep(s, t, id) {
      CallEffect(s, t, id);
    } else if id :| TidBegin(s, t, id) || TidStep(s, t, id) {
      TidEffect(s, t, id);
    }
  }

  lemma WorkerStaysKept(s: Thread, t: Thread)
    requires Inv(s) && Next(s, t)
    ensures WorkerKept(t)
  {
    if WorkerMoves(s, t) {
      WorkerEffect(s, t);
    } else if id :| CallStep(s, t, id) {
      CallEffect(s, t, id);
    } else if id :| TidBegin(s, t, id) || TidStep(s, t, id) {
      TidEffect(s, t, id);
    }
  }

  lemma StepKeepsInv(s: Thread, t: Thread)
    requires Inv(s) && Next(s, t)
    ensures Inv(t)
  {
    WorkerStaysKept(s, t);
    CallsKept(s, t);
    TidsKept(s, t);
  }

  // ---- every run

  ghost predicate StepAt(run: seq<Thread>, i: nat)
    requires i + 1 < |run|
  {
    Next(run[i], run[i + 1])
  }

  ghost predicate Run(run: seq<Thread>) {
    && |run| > 0 && Init(run[0])
    && forall i: nat :: i + 1 < |run| ==> StepAt(run, i)
  }

  lemma {:induction false} RunInv(run: seq<Thread>, k: nat)
    requires Run(run) && k < |run|
    ensures Inv(run[k])
  {
    if k > 0 {
      RunInv(run, k - 1);
      assert StepAt(run, k - 1);
      StepKeepsInv(run[k - 1], run[k]);
    }
  }

  lemma {:induction false} RunIsForward(run: seq<Thread>, j: nat, k: nat)
    requires Run(run) && j <= k < |run|
    ensures Rank(run[j].state) <= Rank(run[k].state) && run[j].stops <= run[k].stops
  {
    if j < k {
      RunIsForward(run, j, k - 1);
      RunInv(run, k - 1);
      assert StepAt(run, k - 1);
      StepIsForward(run[k - 1], run[k]);
    }
  }

  /** A stop request, once returned, is never lost: from then on the state is
      draining or stopped in every later state. It made at most two exchanges. */
  lemma StopIsNeverLost(run: seq<Thread>, j: nat, k: nat, id: nat)
    requires Run(run) && j <= k < |run| && id in run[j].calls && run[j].calls[id].Returned?
    ensures run[k].state == Draining || run[k].state == Stopped
    ensures run[j].calls[id].tries <= 2
  {
    RunInv(run, j);
    RunIsForward(run, j, k);
    assert CallKept(run[j], run[j].calls[id]);
  }

  /** The worker never traps, stopped is stored at most once and exactly when the
      worker is about to exit, and a tid that is returned is the worker's or 0. */
  lemma LifecycleHolds(run: seq<Thread>, k: nat)
    requires Run(run) && k < |run|
    ensures run[k].worker != Trapped && run[k].stops <= 1
    ensures run[k].stops == 1 <==> run[k].worker == Exited
    ensures run[k].state == Stopped <==> run[k].worker == Exited
    ensures forall id :: id in run[k].tidReads && run[k].tidReads[id].TidReturned? ==>
              run[k].tidReads[id].tid == 0 || run[k].tidReads[id].tid == run[k].realTid
  {
    RunInv(run, k);
    forall id | id in run[k].tidReads && run[k].tidReads[id].TidReturned?
      ensures run[k].tidReads[id].tid == 0 || run[k].tidReads[id].tid == run[k].realTid
    {
      assert TidKept(run[k], run[k].tidReads[id]);
    }
  }

  /** The check in join() traps exactly when it is called on a thread that was
      never started. */
  lemma JoinTrapsIffUnstarted(run: seq<Thread>, k: nat)
    requires Run(run) && k + 1 < |run| && Join(run[k], run[k + 1]) && !run[k].joinTrapped
    ensures run[k + 1].joinTrapped <==> run[k].worker == Unstarted
  {
    RunInv(run, k);
  }

  /** The run that traps: joined before it was started. */
  lemma JoinUnstartedTraps(s: Thread)
    requires Init(s)
    ensures var t := s.(joinTrapped := true); Run([s, t]) && Join(s, t)
  {
    var t := s.(joinTrapped := true);
    assert StepAt([s, t], 0);
  }

  /** How many of its own steps the worker is from its exit once asked to drain. */
  function ToExit(w: Worker): nat {
    match w
    case Unstarted => 5
    case Preamble => 4
    case Promote => 2
    case Looping => 2
    case Publishing => 1
    case Exited => 0
    case Trapped => 0
  }

  /** While draining, every step of the worker brings it closer to its exit, and no
      step of anyone else moves it away. */
  lemma DrainingMakesProgress(s: Thread, t: Thread)
    requires Inv(s) && Next(s, t) && s.state == Draining
    ensures WorkerStep(s, t) ==> ToExit(t.worker) < ToExit(s.worker)
    ensures ToExit(t.worker) <= ToExit(s.worker)
    ensures t.state == Draining || t.worker == Exited
  {
    if id :| CallStep(s, t, id) {
      CallEffect(s, t, id);
    } else if id :| TidBegin(s, t, id) || TidStep(s, t, id) {
      TidEffect(s, t, id);
    }
  }

  // ---- who stopped the thread, and what everybody is told

  /** The requests that made the transition themselves. */
  ghost function Swappers(s: Thread): set<nat> {
    set id | id in s.calls && s.calls[id].Returned? && s.calls[id].swapped
  }

  lemma SwapperStep(s: Thread, t: Thread)
    requires Inv(s) && Next(s, t)
    ensures |Swappers(t)| == |Swappers(s)| + if BeforeStop(s.state) && !BeforeStop(t.state) then 1 else 0
  {
    if WorkerMoves(s, t) {
      WorkerEffect(s, t);
      assert Swappers(t) == Swappers(s);
    } else if id :| CallStep(s, t, id) {
      CallEffect(s, t, id);
      CallSwaps(s, t, id);
    } else {
      assert t.calls == s.calls;
      assert Swappers(t) == Swappers(s);
    }
  }

  lemma CallSwaps(s: Thread, t: Thread, id: nat)
    requires CallStep(s, t, id) && (id in s.calls ==> CallKept(s, s.calls[id]))
    requires forall x :: x in t.calls && x != id ==> x in s.calls && t.calls[x] == s.calls[x]
    ensures |Swappers(t)| == |Swappers(s)| + if BeforeStop(s.state) && !BeforeStop(t.state) then 1 else 0
  {
    if BeforeStop(s.state) && !BeforeStop(t.state) {
      assert Swappers(t) == Swappers(s) + {id};
    } else {
      assert Swappers(t) == Swappers(s);
    }
  }

  /** A thread is stopped by request only, and by one of them: in every state of every
      run, exactly one request has made the transition if the state is past running,
      and none otherwise. */
  lemma {:induction false} OneRequestStops(run: seq<Thread>, k: nat)
    requires Run(run) && k < |run|
    ensures |Swappers(run[k])| == if BeforeStop(run[k].state) then 0 else 1
  {
    if k == 0 {
      assert Swappers(run[0]) == {};
    } else {
      OneRequestStops(run, k - 1);
      RunInv(run, k - 1);
      assert StepAt(run, k - 1);
      SwapperStep(run[k - 1], run[k]);
      StepIsForward(run[k - 1], run[k]);
    }
  }

  /** A reader of the tid that saw the thread running is told the worker's own; one that
      did not is told 0. */
  lemma TidIsTold(run: seq<Thread>, k: nat, id: nat)
    requires Run(run) && k + 1 < |run| && TidStep(run[k], run[k + 1], id)
    ensures run[k].tidReads[id] == TidSawRunning ==> run[k + 1].tidReads[id] == TidReturned(run[k].realTid)
    ensures run[k].tidReads[id] == TidEntered && run[k].state != Running ==>
              run[k + 1].tidReads[id] == TidReturned(0)
    ensures run[k].tidReads[id] == TidEntered && run[k].state == Running ==> run[k + 1].tidReads[id] == TidSawRunning
  {
    RunInv(run, k);
    assert TidKept(run[k], run[k].tidReads[id]);
  }

  /** The heartbeat counts the turns of the loop that find the thread running. */
  lemma HeartBeats(s: Thread, t: Thread)
    requires Inv(s) && Next(s, t)
    ensures t.heartbeat == s.heartbeat + if LoopTest(s, t) && s.state == Running then 1 else 0
  {
    if id :| CallStep(s, t, id) {
      CallEffect(s, t, id);
    } else if id :| TidBegin(s, t, id) || TidStep(s, t, id) {
      TidEffect(s, t, id);
    }
  }

  /** A started worker that has not exited can always take its next step. */
  lemma WorkerEnabled(s: Thread) returns (t: Thread)
    requires Inv(s) && s.worker != Unstarted && s.worker != Exited
    ensures WorkerStep(s, t)
  {
    match s.worker {
      case Preamble => t := s.(tid := s.realTid, worker := Promote);
      case Promote =>
        t := if s.state == Starting then s.(state := Running, worker := Looping) else s.(worker := Publishing);
      case Looping =>
        t := if s.state == Running then s.(heartbeat := s.heartbeat + 1) else s.(worker := Publishing);
      case Publishing => t := s.(state := Stopped, worker := Exited, stops := s.stops + 1);
    }
  }

  /** How many of its own steps a request is from its return. */
  function ToReturn(c: Call): nat {
    match c
    case Entered => 4
    case Exchanging(observed, _) => 3 - Min(Rank(observed), 2)
    case Returned(_, _) => 0
  }

  function Min(a: nat, b: nat): nat {
    if a < b then a else b
  }

  /** Every step of a request brings it closer to its return, whatever the others do to
      the state meanwhile, and it is never stuck. */
  lemma RequestsReturn(s: Thread, id: nat) returns (t: Thread)
    requires Inv(s) && id in s.calls && !s.calls[id].Returned?
    ensures CallStep(s, t, id)
    ensures forall u :: CallStep(s, u, id) ==> ToReturn(u.calls[id]) < ToReturn(s.calls[id])
  {
    var c := s.calls[id];
    assert CallKept(s, c);
    if c == Entered {
      t := s.(calls := s.calls[id := Retry(s.state, 0)]);
    } else if s.state == c.observed {
      t := s.(state := Draining, calls := s.calls[id := Returned(true, c.tries + 1)]);
    } else {
      t := s.(calls := s.calls[id := Retry(s.state, c.tries + 1)]);
    }
  }

  /** Nobody else's step touches it. */
  lemma RequestsAreTheirOwn(s: Thread, t: Thread, id: nat)
    requires Inv(s) && Next(s, t) && id in s.calls && !CallStep(s, t, id)
    ensures id in t.calls && t.calls[id] == s.calls[id]
  {
    if WorkerMoves(s, t) {
      WorkerEffect(s, t);
    } else if x :| CallStep(s, t, x) {
      OtherCall(s, t, x, id);
    } else {
      assert t.calls == s.calls;
    }
  }

  lemma OtherCall(s: Thread, t: Thread, x: nat, id: nat)
    requires CallStep(s, t, x) && x != id && id in s.calls
    ensures id in t.calls && t.calls[id] == s.calls[id]
  {
  }
}
