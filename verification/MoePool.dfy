/**
 * The worker pool of the CPU MoE expert (src/backends/cuda/moe_cpu_expert.c) as interleaved
 * steps: a lock-holding caller, threads 1 to n - 1, a generation counter, a done counter, one
 * activation buffer (g_ax, g_ain and g_ah taken together), and rows shared out by thread number.
 * Memory is sequentially consistent.
 */
module MoePool {
  import opened Common

  /** A job: `id` stands for its codes, scales and activation, `rows` is the number of output rows. */
  datatype Job = Job(id: nat, rows: nat)

  /** g_job: between the caller's first and last store no reader may look at it. */
  datatype Slot = Torn | Whole(job: Job)

  /** Where the caller holding the lock is. */
  datatype Caller =
    | Idle                       // lock free
    | Locked                     // lock held, nothing stored yet
    | Filling(next: Job)         // some of the activation buffer written
    | Filled(next: Job)          // activation complete
    | Storing(next: Job)         // some fields of g_job stored
    | Stored                     // g_job complete
    | Zeroed                     // g_done = 0
    | Bumped                     // g_gen incremented, sleepers not yet woken
    | Woken                      // about to run share 0
    | Rows(job: Job, at: nat, stop: nat)   // running share 0
    | Waiting                    // while (g_done < g_n - 1)
    | Served                     // wait over, lock still held

  /** Where worker `t` is. */
  datatype Step =
    | Spin                       // testing g_gen == seen
    | Parked                     // asleep in WaitOnAddress
    | Leaving                    // saw g_gen != seen, has not yet read it again
    | Reading                    // seen = g_gen done, about to read g_job
    | Running(job: Job, at: nat, stop: nat)
    | Reporting                  // share done, g_done not yet incremented
    | Broken                     // read a torn job

  datatype Worker = Worker(step: Step, seen: nat)

  /**
   * A row written by a thread from the codes of the job it read and from the activation it found:
   * that of job `ax`, or a half-written one.
   */
  datatype Write = Write(thread: nat, job: Job, ax: Option<nat>)

  /** `ax` tells whose activation the buffer holds; `y[r]` lists the writes of row `r` for the current job, in order. */
  datatype State = State(
    lock: Option<nat>, caller: Caller, gen: nat, done: nat, slot: Slot, ax: Option<nat>,
    workers: seq<Worker>, y: seq<seq<Write>>)

  const LONG: nat := 0x1_0000_0000

  /** InterlockedIncrement on a 32-bit counter. */
  function Inc(x: nat): nat { (x + 1) % LONG }

  /** The first row of thread t's share of `rows` among `n` threads. */
  function Start(rows: nat, t: nat, n: nat): nat
    requires n > 0
  {
    rows * t / n
  }

  datatype Action =
    | Acquire(c: nat)
    | BeginFill(job: Job)
    | EndFill
    | BeginStore
    | EndStore
    | Zero
    | Bump
    | Wake
    | CallerRead
    | CallerRow
    | CallerEnd
    | WaitOver
    | Release
    | Leave(t: nat)              // g_gen != seen observed
    | Park(t: nat)               // WaitOnAddress: atomically compares, then sleeps
    | Rouse(t: nat)              // spurious wake-up
    | Load(t: nat)               // seen = g_gen
    | ReadJob(t: nat)
    | Row(t: nat)
    | EndRows(t: nat)
    | Report(t: nat)             // InterlockedIncrement(&g_done)

  function SetStep(s: State, t: nat, step: Step): State
    requires t < |s.workers|
  {
    s.(workers := s.workers[t := s.workers[t].(step := step)])
  }

  function WriteRow(s: State, r: nat, t: nat, job: Job): State {
    if r < |s.y| then s.(y := s.y[r := s.y[r] + [Write(t, job, s.ax)]]) else s
  }

  function WakeAll(ws: seq<Worker>): (r: seq<Worker>)
    ensures |r| == |ws|
    ensures forall t | 0 <= t < |ws| :: r[t] == if ws[t].step == Parked then ws[t].(step := Spin) else ws[t]
  {
    seq(|ws|, t requires 0 <= t < |ws| => if ws[t].step == Parked then ws[t].(step := Spin) else ws[t])
  }

  /** The effect of an action; None when it is not enabled. Thread 0 is the caller. */
  function Next(s: State, a: Action): Option<State> {
    var n := |s.workers|;
    match a
    case Acquire(c) => if s.lock.None? then Some(s.(lock := Some(c), caller := Locked)) else None
    case BeginFill(job) =>
      if s.caller == Locked || s.caller == Served then Some(s.(ax := None, caller := Filling(job))) else None
    case EndFill =>
      if s.caller.Filling? then Some(s.(ax := Some(s.caller.next.id), caller := Filled(s.caller.next))) else None
    case BeginStore =>
      if s.caller.Filled? then Some(s.(slot := Torn, caller := Storing(s.caller.next))) else None
    case EndStore =>
      if s.caller.Storing? then
        Some(s.(slot := Whole(s.caller.next), caller := Stored, y := seq(s.caller.next.rows, _ => [])))
      else None
    case Zero => if s.caller == Stored then Some(s.(done := 0, caller := Zeroed)) else None
    case Bump => if s.caller == Zeroed then Some(s.(gen := Inc(s.gen), caller := Bumped)) else None
    case Wake => if s.caller == Bumped then Some(s.(workers := WakeAll(s.workers), caller := Woken)) else None
    case CallerRead =>
      if s.caller == Woken && s.slot.Whole? && n > 0 then
        Some(s.(caller := Rows(s.slot.job, Start(s.slot.job.rows, 0, n), Start(s.slot.job.rows, 1, n))))
      else None
    case CallerRow =>
      if s.caller.Rows? && s.caller.at < s.caller.stop then
        Some(WriteRow(s, s.caller.at, 0, s.caller.job).(caller := s.caller.(at := s.caller.at + 1)))
      else None
    case CallerEnd => if s.caller.Rows? && s.caller.at >= s.caller.stop then Some(s.(caller := Waiting)) else None
    case WaitOver => if s.caller == Waiting && s.done >= n - 1 then Some(s.(caller := Served)) else None
    case Release => if s.caller == Served then Some(s.(lock := None, caller := Idle)) else None
    case Leave(t) =>
      if 0 < t < n && s.workers[t].step == Spin && s.workers[t].seen != s.gen
      then Some(SetStep(s, t, Leaving)) else None
    case Park(t) =>
      if 0 < t < n && s.workers[t].step == Spin && s.workers[t].seen == s.gen then Some(SetStep(s, t, Parked)) else None
    case Rouse(t) => if 0 < t < n && s.workers[t].step == Parked then Some(SetStep(s, t, Spin)) else None
    case Load(t) =>
      if 0 < t < n && s.workers[t].step == Leaving
      then Some(s.(workers := s.workers[t := Worker(Reading, s.gen)])) else None
    case ReadJob(t) =>
      if 0 < t < n && s.workers[t].step == Reading then
        Some(SetStep(s, t, if s.slot.Torn? then Broken
                           else Running(s.slot.job, Start(s.slot.job.rows, t, n), Start(s.slot.job.rows, t + 1, n))))
      else None
    case Row(t) =>
      if 0 < t < n && s.workers[t].step.Running? && s.workers[t].step.at < s.workers[t].step.stop then
        var step := s.workers[t].step;
        Some(SetStep(WriteRow(s, step.at, t, step.job), t, step.(at := step.at + 1)))
      else None
    case EndRows(t) =>
      if 0 < t < n && s.workers[t].step.Running? && s.workers[t].step.at >= s.workers[t].step.stop
      then Some(SetStep(s, t, Reporting)) else None
    case Report(t) =>
      if 0 < t < n && s.workers[t].step == Reporting then Some(SetStep(s, t, Spin).(done := Inc(s.done))) else None
  }

  /** The pool as started: `n` threads, at most 16, every worker with seen = 0. */
  function Init(n: nat): State {
    State(None, Idle, 0, 0, Whole(Job(0, 0)), Some(0), seq(n, _ => Worker(Spin, 0)), [])
  }

  /** The state after a run of enabled actions; None if one of them was not enabled. */
  function Run(s: State, acts: seq<Action>): Option<State>
    decreases |acts|
  {
    if acts == [] then Some(s) else
    match Run(s, acts[..|acts| - 1])
    case None => None
    case Some(m) => Next(m, acts[|acts| - 1])
  }

  // ---- shares ----

  lemma MulMono(a: nat, t: nat, t': nat)
    requires t <= t'
    ensures a * t <= a * t'
  {}

  lemma DivMono(a: nat, b: nat, n: nat)
    requires a <= b && n > 0
    ensures a / n <= b / n
  {
    var p, q := a / n, b / n;
    assert p * n <= a && b < q * n + n;
    assert (p - q) * n < n;
    MulAtLeast(p - q, n);
  }

  lemma DivExact(q: nat, n: nat)
    requires n > 0
    ensures q * n / n == q
  {
    var p := q * n / n;
    assert p * n <= q * n < p * n + n;
    assert (q - p) * n == q * n - p * n;
    MulAtLeast(q - p, n);
  }

  lemma StartMono(rows: nat, t: nat, t': nat, n: nat)
    requires n > 0 && t <= t'
    ensures Start(rows, t, n) <= Start(rows, t', n)
  {
    MulMono(rows, t, t');
    DivMono(rows * t, rows * t', n);
  }

  lemma StartEnds(rows: nat, n: nat)
    requires n > 0
    ensures Start(rows, 0, n) == 0 && Start(rows, n, n) == rows
  {
    DivExact(rows, n);
    DivExact(0, n);
  }

  predicate Owns(rows: nat, n: nat, t: nat, r: nat)
    requires n > 0
  {
    t < n && Start(rows, t, n) <= r < Start(rows, t + 1, n)
  }

  /** Shares do not overlap. */
  lemma SharesDisjoint(rows: nat, n: nat, t: nat, t': nat, r: nat)
    requires n > 0 && Owns(rows, n, t, r) && Owns(rows, n, t', r)
    ensures t == t'
  {
    if t < t' {
      StartMono(rows, t + 1, t', n);
    } else if t' < t {
      StartMono(rows, t' + 1, t, n);
    }
  }

  /** Every row is in some share, and shares stay inside the rows. */
  lemma ShareOf(rows: nat, n: nat, r: nat) returns (t: nat)
    requires n > 0 && r < rows
    ensures Owns(rows, n, t, r)
  {
    StartEnds(rows, n);
    t := 0;
    while Start(rows, t + 1, n) <= r
      invariant t < n && Start(rows, t, n) <= r
      decreases n - t
    {
      t := t + 1;
    }
  }

  lemma ShareInside(rows: nat, n: nat, t: nat)
    requires n > 0 && t < n
    ensures Start(rows, t, n) <= Start(rows, t + 1, n) <= rows
  {
    StartMono(rows, t, t + 1, n);
    StartMono(rows, t + 1, n, n);
    StartEnds(rows, n);
  }

  // ---- the invariant ----

  /** The caller has published a job and not yet seen it done. */
  predicate Active(c: Caller) { c.Bumped? || c.Woken? || c.Rows? || c.Waiting? }

  /** Worker has not noticed the current generation yet. */
  predicate Late(s: State, w: Worker) {
    Inc(w.seen) == s.gen && w.seen < LONG && (w.step.Spin? || w.step.Leaving? || (w.step.Parked? && s.caller.Bumped?))
  }

  predicate Finished(s: State, w: Worker) { w.seen == s.gen && (w.step.Spin? || w.step.Parked?) }

  /** Worker `t` of an active job is late, at work on its own share, or finished. */
  predicate WorkerOk(s: State, t: nat)
    requires 0 < t < |s.workers| && s.slot.Whole?
  {
    var w, n, rows := s.workers[t], |s.workers|, s.slot.job.rows;
    || Late(s, w)
    || Finished(s, w)
    || (w.seen == s.gen
        && match w.step
           case Reading => true
           case Running(job, at, stop) => job == s.slot.job && Start(rows, t, n) <= at <= stop == Start(rows, t + 1, n)
           case Reporting => true
           case _ => false)
  }

  /** The first row of its share that thread `t` has not written yet. */
  function Front(s: State, t: nat): nat
    requires t < |s.workers| && s.slot.Whole?
  {
    var n, rows := |s.workers|, s.slot.job.rows;
    if t == 0 then
      match s.caller
      case Rows(_, at, _) => at
      case Waiting => Start(rows, 1, n)
      case Served => Start(rows, 1, n)
      case _ => Start(rows, 0, n)
    else
      var w := s.workers[t];
      if w.step.Running? then w.step.at
      else if w.step.Reporting? || Finished(s, w) then Start(rows, t + 1, n)
      else Start(rows, t, n)
  }

  /** The write that row `r` of the current job should see. */
  function OwnWrite(s: State, t: nat): Write
    requires s.slot.Whole?
  {
    Write(t, s.slot.job, Some(s.slot.job.id))
  }

  /** Each row has been written by its owner alone, once if its owner has passed it, else not at all. */
  ghost predicate RowsOk(s: State)
    requires s.slot.Whole?
  {
    && |s.y| == s.slot.job.rows
    && forall t: nat, r: nat | t < |s.workers| && Owns(s.slot.job.rows, |s.workers|, t, r) ::
         r < |s.y| && s.y[r] == if r < Front(s, t) then [OwnWrite(s, t)] else []
  }

  /** How many of the workers 1 to k - 1 have finished the current job. */
  function FinishedCount(s: State, k: nat): (c: nat)
    requires k <= |s.workers|
    ensures c <= Max(0, k - 1)
  {
    if k <= 1 then 0 else FinishedCount(s, k - 1) + (if Finished(s, s.workers[k - 1]) then 1 else 0)
  }

  ghost predicate AllFinished(s: State) {
    forall t | 0 < t < |s.workers| :: Finished(s, s.workers[t])
  }

  /** The activation buffer is half written while the caller fills it, and holds the published job's data otherwise. */
  predicate AxOk(s: State)
    requires s.slot.Torn? <==> s.caller.Storing?
  {
    match s.caller
    case Filling(_) => s.ax == None
    case Filled(next) => s.ax == Some(next.id)
    case Storing(next) => s.ax == Some(next.id)
    case _ => s.ax == Some(s.slot.job.id)
  }

  ghost predicate Inv(s: State) {
    && 0 < |s.workers| <= 16 && s.gen < LONG
    && (s.lock.None? <==> s.caller == Idle)
    && (s.slot.Torn? <==> s.caller.Storing?)
    && AxOk(s)
    && (!Active(s.caller) ==> AllFinished(s))
    && (Active(s.caller) ==>
         && (forall t: nat | 0 < t < |s.workers| :: WorkerOk(s, t))
         && s.done == FinishedCount(s, |s.workers|)
         && RowsOk(s))
    && (s.caller.Rows? ==>
         s.caller.job == s.slot.job &&
         Start(s.slot.job.rows, 0, |s.workers|) <= s.caller.at <= s.caller.stop
         == Start(s.slot.job.rows, 1, |s.workers|))
    && (s.caller.Stored? || s.caller.Zeroed? ==> s.y == seq(s.slot.job.rows, _ => []))
    && (s.caller.Zeroed? ==> s.done == 0)
    && (s.caller.Served? ==> RowsOk(s))
  }

  lemma InitInv(n: nat)
    requires 0 < n <= 16
    ensures Inv(Init(n))
  {}

  lemma {:induction false} CountSame(s: State, s': State, k: nat)
    requires k <= |s.workers| == |s'.workers|
    requires forall t | 0 < t < k :: Finished(s, s.workers[t]) <==> Finished(s', s'.workers[t])
    ensures FinishedCount(s, k) == FinishedCount(s', k)
  {
    if k > 1 { CountSame(s, s', k - 1); }
  }

  lemma {:induction false} CountOneMore(s: State, s': State, k: nat, t: nat)
    requires 0 < t < k <= |s.workers| == |s'.workers|
    requires forall x | 0 < x < k && x != t :: Finished(s, s.workers[x]) <==> Finished(s', s'.workers[x])
    requires !Finished(s, s.workers[t]) && Finished(s', s'.workers[t])
    ensures FinishedCount(s', k) == FinishedCount(s, k) + 1
  {
    if t == k - 1 {
      CountSame(s, s', k - 1);
    } else {
      CountOneMore(s, s', k - 1, t);
    }
  }

  lemma {:induction false} CountNone(s: State, k: nat)
    requires k <= |s.workers| && forall t | 0 < t < k :: !Finished(s, s.workers[t])
    ensures FinishedCount(s, k) == 0
  {
    if k > 1 { CountNone(s, k - 1); }
  }

  lemma {:induction false} CountAll(s: State, k: nat)
    requires 0 < k <= |s.workers|
    ensures FinishedCount(s, k) == k - 1 <==> forall t | 0 < t < k :: Finished(s, s.workers[t])
  {
    if k > 1 { CountAll(s, k - 1); }
  }

  // ---- the caller's steps ----

  lemma CallerQuietSteps(s: State, a: Action)
    requires Inv(s) && Next(s, a).Some?
    requires a.Acquire? || a.BeginFill? || a.EndFill? || a.BeginStore? || a.EndStore? || a.Zero? || a.Release?
    ensures Inv(Next(s, a).value)
  {}

  lemma BumpInv(s: State)
    requires Inv(s) && Next(s, Bump).Some?
    ensures Inv(Next(s, Bump).value)
  {
    var s' := Next(s, Bump).value;
    forall t: nat | 0 < t < |s.workers| ensures Late(s', s'.workers[t]) && !Finished(s', s'.workers[t]) {
      assert Finished(s, s.workers[t]);
    }
    CountNone(s', |s'.workers|);
    forall t: nat, r: nat | t < |s.workers| && Owns(s.slot.job.rows, |s.workers|, t, r)
      ensures r < |s'.y| && s'.y[r] == if r < Front(s', t) then [OwnWrite(s', t)] else []
    {
      ShareInside(s.slot.job.rows, |s.workers|, t);
    }
  }

  lemma WakeInv(s: State)
    requires Inv(s) && Next(s, Wake).Some?
    ensures Inv(Next(s, Wake).value)
  {
    var s' := Next(s, Wake).value;
    CountSame(s, s', |s.workers|);
    forall t: nat | 0 < t < |s.workers| ensures WorkerOk(s', t) && Front(s', t) == Front(s, t) {
      assert WorkerOk(s, t);
    }
  }

  lemma CallerReadInv(s: State)
    requires Inv(s) && Next(s, CallerRead).Some?
    ensures Inv(Next(s, CallerRead).value)
  {
    var s' := Next(s, CallerRead).value;
    CountSame(s, s', |s.workers|);
    ShareInside(s.slot.job.rows, |s.workers|, 0);
    forall t: nat | 0 < t < |s.workers| ensures WorkerOk(s', t) && Front(s', t) == Front(s, t) {
      assert WorkerOk(s, t);
    }
  }

  lemma CallerEndInv(s: State)
    requires Inv(s) && Next(s, CallerEnd).Some?
    ensures Inv(Next(s, CallerEnd).value)
  {
    var s' := Next(s, CallerEnd).value;
    CountSame(s, s', |s.workers|);
    forall t: nat | 0 < t < |s.workers| ensures WorkerOk(s', t) && Front(s', t) == Front(s, t) {
      assert WorkerOk(s, t);
    }
  }

  lemma WaitOverInv(s: State)
    requires Inv(s) && Next(s, WaitOver).Some?
    ensures Inv(Next(s, WaitOver).value)
    ensures AllFinished(s)
  {
    var s' := Next(s, WaitOver).value;
    CountAll(s, |s.workers|);
    forall t: nat | 0 < t < |s.workers| ensures Front(s', t) == Front(s, t) && Finished(s', s'.workers[t]) {
      assert Finished(s, s.workers[t]);
    }
  }

  /** Writing the row at the front of one's own share keeps RowsOk. */
  lemma RowWritten(s: State, s': State, t: nat)
    requires |s.workers| == |s'.workers| > 0 && t < |s.workers| && s.slot.Whole? && s'.slot == s.slot
    requires RowsOk(s) && Owns(s.slot.job.rows, |s.workers|, t, Front(s, t))
    requires s'.ax == s.ax == Some(s.slot.job.id) && s'.y == WriteRow(s, Front(s, t), t, s.slot.job).y
    requires Front(s', t) == Front(s, t) + 1
    requires forall x: nat | x < |s.workers| && x != t :: Front(s', x) == Front(s, x)
    ensures RowsOk(s')
  {
    var rows, n, f := s.slot.job.rows, |s.workers|, Front(s, t);
    forall x: nat, r: nat | x < n && Owns(rows, n, x, r)
      ensures r < |s'.y| && s'.y[r] == if r < Front(s', x) then [OwnWrite(s', x)] else []
    {
      if r == f {
        SharesDisjoint(rows, n, x, t, r);
      }
    }
  }

  lemma CallerRowInv(s: State)
    requires Inv(s) && Next(s, CallerRow).Some?
    ensures Inv(Next(s, CallerRow).value)
  {
    var s' := Next(s, CallerRow).value;
    CountSame(s, s', |s.workers|);
    forall t: nat | 0 < t < |s.workers| ensures WorkerOk(s', t) && Front(s', t) == Front(s, t) {
      assert WorkerOk(s, t);
    }
    RowWritten(s, s', 0);
  }

  // ---- the workers' steps ----

  /** A step of worker `t` that neither writes a row nor finishes its job. */
  lemma QuietWorker(s: State, s': State, t: nat, w: Worker)
    requires Inv(s) && 0 < t < |s.workers| && s' == s.(workers := s.workers[t := w])
    requires Finished(s, s.workers[t]) <==> Finished(s', w)
    requires Active(s.caller) ==> WorkerOk(s', t)
    requires Active(s.caller) || s.caller.Served? ==> Front(s', t) == Front(s, t)
    ensures Inv(s')
  {
    CountSame(s, s', |s.workers|);
    if !s.caller.Storing? {
      forall x: nat | x < |s.workers| && x != t ensures Front(s', x) == Front(s, x) {}
    }
    if Active(s.caller) {
      forall x: nat | 0 < x < |s.workers| ensures WorkerOk(s', x) {
        assert WorkerOk(s, x);
      }
    }
  }

  lemma LeaveInv(s: State, t: nat)
    requires Inv(s) && Next(s, Leave(t)).Some?
    ensures Inv(Next(s, Leave(t)).value)
  {
    assert Active(s.caller) ==> WorkerOk(s, t);
    QuietWorker(s, Next(s, Leave(t)).value, t, s.workers[t].(step := Leaving));
  }

  lemma ParkInv(s: State, t: nat)
    requires Inv(s) && Next(s, Park(t)).Some?
    ensures Inv(Next(s, Park(t)).value)
  {
    assert Active(s.caller) ==> WorkerOk(s, t);
    QuietWorker(s, Next(s, Park(t)).value, t, s.workers[t].(step := Parked));
  }

  lemma RouseInv(s: State, t: nat)
    requires Inv(s) && Next(s, Rouse(t)).Some?
    ensures Inv(Next(s, Rouse(t)).value)
  {
    assert Active(s.caller) ==> WorkerOk(s, t);
    QuietWorker(s, Next(s, Rouse(t)).value, t, s.workers[t].(step := Spin));
  }

  lemma LoadInv(s: State, t: nat)
    requires Inv(s) && Next(s, Load(t)).Some?
    ensures Inv(Next(s, Load(t)).value)
  {
    assert Active(s.caller) ==> WorkerOk(s, t);
    QuietWorker(s, Next(s, Load(t)).value, t, Worker(Reading, s.gen));
  }

  /** A worker about to read the job finds it whole. */
  lemma ReadJobInv(s: State, t: nat)
    requires Inv(s) && Next(s, ReadJob(t)).Some?
    ensures Inv(Next(s, ReadJob(t)).value) && s.slot.Whole?
  {
    assert Active(s.caller) ==> WorkerOk(s, t);
    ShareInside(s.slot.job.rows, |s.workers|, t);
    var s' := Next(s, ReadJob(t)).value;
    QuietWorker(s, s', t, s'.workers[t]);
  }

  lemma EndRowsInv(s: State, t: nat)
    requires Inv(s) && Next(s, EndRows(t)).Some?
    ensures Inv(Next(s, EndRows(t)).value)
  {
    assert Active(s.caller) ==> WorkerOk(s, t);
    QuietWorker(s, Next(s, EndRows(t)).value, t, s.workers[t].(step := Reporting));
  }

  lemma RowInv(s: State, t: nat)
    requires Inv(s) && Next(s, Row(t)).Some?
    ensures Inv(Next(s, Row(t)).value)
  {
    assert Active(s.caller) ==> WorkerOk(s, t);
    var s' := Next(s, Row(t)).value;
    CountSame(s, s', |s.workers|);
    forall x: nat | 0 < x < |s.workers| ensures WorkerOk(s', x) {
      assert WorkerOk(s, x);
    }
    forall x: nat | x < |s.workers| && x != t ensures Front(s', x) == Front(s, x) {}
    RowWritten(s, s', t);
  }

  lemma ReportInv(s: State, t: nat)
    requires Inv(s) && Next(s, Report(t)).Some?
    ensures Inv(Next(s, Report(t)).value)
  {
    assert Active(s.caller) ==> WorkerOk(s, t);
    var s' := Next(s, Report(t)).value;
    CountOneMore(s, s', |s.workers|, t);
    forall x: nat | 0 < x < |s.workers| ensures WorkerOk(s', x) && Front(s', x) == Front(s, x) {
      assert WorkerOk(s, x);
    }
  }

  // ---- whole runs ----

  lemma StepInv(s: State, a: Action)
    requires Inv(s) && Next(s, a).Some?
    ensures Inv(Next(s, a).value)
  {
    match a
    case Bump => BumpInv(s);
    case Wake => WakeInv(s);
    case CallerRead => CallerReadInv(s);
    case CallerRow => CallerRowInv(s);
    case CallerEnd => CallerEndInv(s);
    case WaitOver => WaitOverInv(s);
    case Leave(t) => LeaveInv(s, t);
    case Park(t) => ParkInv(s, t);
    case Rouse(t) => RouseInv(s, t);
    case Load(t) => LoadInv(s, t);
    case ReadJob(t) => ReadJobInv(s, t);
    case Row(t) => RowInv(s, t);
    case EndRows(t) => EndRowsInv(s, t);
    case Report(t) => ReportInv(s, t);
    case _ => CallerQuietSteps(s, a);
  }

  lemma StepKeepsThreads(s: State, a: Action)
    requires Next(s, a).Some?
    ensures |Next(s, a).value.workers| == |s.workers|
  {}

  lemma RunSnoc(s: State, acts: seq<Action>)
    requires acts != [] && Run(s, acts).Some?
    ensures Run(s, acts[..|acts| - 1]).Some?
    ensures Next(Run(s, acts[..|acts| - 1]).value, acts[|acts| - 1]) == Run(s, acts)
  {}

  lemma {:induction false} RunInv(n: nat, acts: seq<Action>)
    requires 0 < n <= 16 && Run(Init(n), acts).Some?
    ensures Inv(Run(Init(n), acts).value) && |Run(Init(n), acts).value.workers| == n
    decreases |acts|
  {
    InitInv(n);
    RunFrom(Init(n), acts);
  }

  lemma {:induction false} RunFrom(s: State, acts: seq<Action>)
    requires Inv(s) && Run(s, acts).Some?
    ensures Inv(Run(s, acts).value) && |Run(s, acts).value.workers| == |s.workers|
    decreases |acts|
  {
    if acts != [] {
      RunSnoc(s, acts);
      RunFrom(s, acts[..|acts| - 1]);
      var m := Run(s, acts[..|acts| - 1]).value;
      StepKeepsThreads(m, acts[|acts| - 1]);
      StepInv(m, acts[|acts| - 1]);
    }
  }

  /** At every point of every run a worker's `seen` is the current generation or the one before. */
  lemma SeenIsRecent(n: nat, acts: seq<Action>, t: nat)
    requires 0 < n <= 16 && 0 < t < n && Run(Init(n), acts).Some?
    ensures var s := Run(Init(n), acts).value;
            |s.workers| == n && (s.workers[t].seen == s.gen || Inc(s.workers[t].seen) == s.gen)
  {
    RunInv(n, acts);
    var s := Run(Init(n), acts).value;
    assert Active(s.caller) ==> WorkerOk(s, t);
  }

  /**
   * While the caller refills the activation or stores the job no worker reads or runs, and no worker
   * ever read the job half stored.
   */
  lemma NoTornRead(n: nat, acts: seq<Action>, t: nat)
    requires 0 < n <= 16 && 0 < t < n && Run(Init(n), acts).Some?
    ensures var s := Run(Init(n), acts).value;
            && |s.workers| == n
            && !s.workers[t].step.Broken?
            && (s.slot.Torn? || s.ax.None? ==> s.workers[t].step.Spin? || s.workers[t].step.Parked?)
  {
    RunInv(n, acts);
    var s := Run(Init(n), acts).value;
    assert Active(s.caller) ==> WorkerOk(s, t);
  }

  /**
   * When the wait loop exits, every row was written exactly once: by the thread that owns it, from
   * the codes of the current job and the activation of the current job.
   */
  lemma EveryRowOnce(n: nat, acts: seq<Action>, r: nat) returns (t: nat)
    requires 0 < n <= 16 && Run(Init(n), acts).Some?
    requires var s := Run(Init(n), acts).value; s.caller == Served && s.slot.Whole? && r < s.slot.job.rows
    ensures var s := Run(Init(n), acts).value;
            && |s.y| == s.slot.job.rows && s.y[r] == [Write(t, s.slot.job, Some(s.slot.job.id))]
            && Owns(s.slot.job.rows, n, t, r)
            && forall x: nat | Owns(s.slot.job.rows, n, x, r) :: x == t
  {
    RunInv(n, acts);
    t := ServedRow(Run(Init(n), acts).value, r);
  }

  lemma ServedRow(s: State, r: nat) returns (t: nat)
    requires Inv(s) && s.caller == Served && r < s.slot.job.rows
    ensures |s.y| == s.slot.job.rows && s.y[r] == [OwnWrite(s, t)] && Owns(s.slot.job.rows, |s.workers|, t, r)
    ensures forall x: nat | Owns(s.slot.job.rows, |s.workers|, x, r) :: x == t
  {
    t := ShareOf(s.slot.job.rows, |s.workers|, r);
    forall x: nat | Owns(s.slot.job.rows, |s.workers|, x, r) ensures x == t {
      SharesDisjoint(s.slot.job.rows, |s.workers|, x, t, r);
    }
    FrontServed(s, t);
  }

  /** Every thread of a served job has passed its share. */
  lemma FrontServed(s: State, t: nat)
    requires Inv(s) && s.caller == Served && t < |s.workers|
    ensures Front(s, t) == Start(s.slot.job.rows, t + 1, |s.workers|)
  {
    assert t > 0 ==> Finished(s, s.workers[t]);
  }

  /** The wait loop exits exactly when every worker has reported the current job. */
  lemma WaitIsExact(n: nat, acts: seq<Action>)
    requires 0 < n <= 16 && Run(Init(n), acts).Some? && Run(Init(n), acts).value.caller == Waiting
    ensures var s := Run(Init(n), acts).value; Next(s, WaitOver).Some? <==> AllFinished(s)
  {
    RunInv(n, acts);
    var s := Run(Init(n), acts).value;
    CountAll(s, n);
  }

  // ---- progress ----

  /** Steps worker `w` still has to take before it has finished job generation `gen`. */
  function WorkLeft(s: State, t: nat): nat
    requires t < |s.workers| && s.slot.Whole? && |s.workers| > 0
  {
    var w, n := s.workers[t], |s.workers|;
    var share := Max(0, Start(s.slot.job.rows, t + 1, n) - Start(s.slot.job.rows, t, n));
    if Finished(s, w) then 0 else
    match w.step
    case Parked => share + 7
    case Spin => share + 6
    case Leaving => share + 5
    case Reading => share + 4
    case Running(_, at, stop) => Max(0, stop - at) + 3
    case Reporting => 1
    case Broken => 0
  }

  function WorkBelow(s: State, k: nat): nat
    requires k <= |s.workers| && s.slot.Whole?
  {
    if k <= 1 then 0 else WorkBelow(s, k - 1) + WorkLeft(s, k - 1)
  }

  predicate WorkerAction(a: Action) {
    a.Leave? || a.Park? || a.Rouse? || a.Load? || a.ReadJob? || a.Row? || a.EndRows? || a.Report?
  }

  lemma {:induction false} WorkLess(s: State, s': State, k: nat, t: nat)
    requires k <= |s.workers| == |s'.workers| && s.slot.Whole? && s'.slot == s.slot && 0 < t < |s.workers|
    requires forall x: nat | 0 < x < |s.workers| && x != t :: WorkLeft(s', x) == WorkLeft(s, x)
    ensures WorkBelow(s', k) == WorkBelow(s, k) + (if t < k then WorkLeft(s', t) - WorkLeft(s, t) else 0)
  {
    if k > 1 { WorkLess(s, s', k - 1, t); }
  }

  lemma {:induction false} SomeoneLeft(s: State, k: nat) returns (t: nat)
    requires 0 < k <= |s.workers| && FinishedCount(s, k) < k - 1
    ensures 0 < t < k && !Finished(s, s.workers[t])
  {
    if Finished(s, s.workers[k - 1]) { t := SomeoneLeft(s, k - 1); } else { t := k - 1; }
  }

  /** The next thing an unfinished worker does; the caller is past its wake-up call. */
  function NextOf(w: Worker, t: nat): Action {
    match w.step
    case Spin => Leave(t)
    case Leaving => Load(t)
    case Reading => ReadJob(t)
    case Running(_, at, stop) => if at < stop then Row(t) else EndRows(t)
    case Reporting => Report(t)
    case _ => Rouse(t)
  }

  /**
   * A waiting caller is never stuck: either its wait is over, or some worker has an enabled step,
   * and no worker step ever raises the work left while that step lowers it.
   */
  lemma NeverStuck(n: nat, acts: seq<Action>) returns (a: Action)
    requires 0 < n <= 16 && Run(Init(n), acts).Some? && Run(Init(n), acts).value.caller == Waiting
    ensures var s := Run(Init(n), acts).value;
            && Next(s, a).Some?
            && (a == WaitOver || (!a.Rouse? && WorkerAction(a) && Next(s, a).value.slot == s.slot && s.slot.Whole?
                && |Next(s, a).value.workers| == n && |s.workers| == n
                && WorkBelow(Next(s, a).value, n) < WorkBelow(s, n)))
  {
    RunInv(n, acts);
    var s := Run(Init(n), acts).value;
    if s.done >= n - 1 {
      a := WaitOver;
    } else {
      var t := SomeoneLeft(s, n);
      a := NextOf(s.workers[t], t);
      LateWorks(s, t);
      WorkLess(s, Next(s, a).value, n, t);
    }
  }

  lemma LateWorks(s: State, t: nat)
    requires Inv(s) && s.caller == Waiting && 0 < t < |s.workers| && !Finished(s, s.workers[t])
    ensures var a := NextOf(s.workers[t], t);
            && Next(s, a).Some? && !a.Rouse? && WorkerAction(a)
            && |Next(s, a).value.workers| == |s.workers| && Next(s, a).value.slot == s.slot
            && WorkLeft(Next(s, a).value, t) < WorkLeft(s, t)
            && forall x: nat | 0 < x < |s.workers| && x != t :: WorkLeft(Next(s, a).value, x) == WorkLeft(s, x)
  {
    LateSteps(s, t);
    LateLess(s, t);
  }

  /** The next step of an unfinished worker is enabled and concerns that worker alone. */
  lemma LateSteps(s: State, t: nat)
    requires Inv(s) && s.caller == Waiting && 0 < t < |s.workers| && !Finished(s, s.workers[t])
    ensures var a := NextOf(s.workers[t], t);
            && Next(s, a).Some? && !a.Rouse? && WorkerAction(a)
            && |Next(s, a).value.workers| == |s.workers| && Next(s, a).value.slot == s.slot
            && forall x: nat | 0 < x < |s.workers| && x != t :: WorkLeft(Next(s, a).value, x) == WorkLeft(s, x)
  {
    assert WorkerOk(s, t);
  }

  lemma LateLess(s: State, t: nat)
    requires Inv(s) && s.caller == Waiting && 0 < t < |s.workers| && !Finished(s, s.workers[t])
    requires var a := NextOf(s.workers[t], t);
             Next(s, a).Some? && |Next(s, a).value.workers| == |s.workers| && Next(s, a).value.slot == s.slot
    ensures WorkLeft(Next(s, NextOf(s.workers[t], t)).value, t) < WorkLeft(s, t)
  {
    assert WorkerOk(s, t);
    ShareInside(s.slot.job.rows, |s.workers|, t);
  }

  /** A step of a worker that has not finished the job. */
  predicate WorkStep(s: State, a: Action) { WorkerAction(a) && 0 < a.t < |s.workers| && !Finished(s, s.workers[a.t]) }

  /** A worker that has finished has no step that makes work. */
  lemma FinishedIdles(s: State, a: Action)
    requires Inv(s) && s.caller == Waiting && WorkerAction(a) && Next(s, a).Some? && Finished(s, s.workers[a.t])
    ensures var s' := Next(s, a).value;
            |s'.workers| == |s.workers| && s'.slot == s.slot && WorkLeft(s', a.t) == 0 == WorkLeft(s, a.t)
            && forall x: nat | 0 < x < |s.workers| && x != a.t :: WorkLeft(s', x) == WorkLeft(s, x)
  {}

  /** Any other worker has one enabled step. */
  lemma OnlyStep(s: State, a: Action)
    requires Inv(s) && s.caller == Waiting && WorkerAction(a) && Next(s, a).Some? && !Finished(s, s.workers[a.t])
    requires WorkerOk(s, a.t)
    ensures a == NextOf(s.workers[a.t], a.t)
  {}

  lemma WorkOf(s: State, s': State, t: nat, d: nat)
    requires 0 < t < |s.workers| == |s'.workers| && s.slot.Whole? && s'.slot == s.slot
    requires forall x: nat | 0 < x < |s.workers| && x != t :: WorkLeft(s', x) == WorkLeft(s, x)
    requires WorkLeft(s', t) + d <= WorkLeft(s, t)
    ensures WorkBelow(s', |s.workers|) + d <= WorkBelow(s, |s.workers|)
  {
    WorkLess(s, s', |s.workers|, t);
  }

  lemma UnfinishedWorks(s: State, a: Action)
    requires Inv(s) && s.caller == Waiting && WorkerAction(a) && Next(s, a).Some? && !Finished(s, s.workers[a.t])
    requires WorkerOk(s, a.t)
    ensures var s' := Next(s, a).value;
            && |s'.workers| == |s.workers| && s'.slot == s.slot
            && WorkBelow(s', |s.workers|) + 1 <= WorkBelow(s, |s.workers|)
  {
    OnlyStep(s, a);
    LateWorks(s, a.t);
    WorkOf(s, Next(s, a).value, a.t, 1);
  }

  lemma FinishedWorks(s: State, a: Action)
    requires Inv(s) && s.caller == Waiting && WorkerAction(a) && Next(s, a).Some? && Finished(s, s.workers[a.t])
    ensures var s' := Next(s, a).value;
            && |s'.workers| == |s.workers| && s'.slot == s.slot
            && WorkBelow(s', |s.workers|) <= WorkBelow(s, |s.workers|)
  {
    FinishedIdles(s, a);
    WorkOf(s, Next(s, a).value, a.t, 0);
  }

  lemma WaitingStays(s: State, a: Action)
    requires s.caller == Waiting && WorkerAction(a) && Next(s, a).Some?
    ensures 0 < a.t < |s.workers| && Next(s, a).value.caller == Waiting
  {}

  /** No worker step of a waiting caller's job raises the work left, and a step of an unfinished worker lowers it. */
  lemma WorkNeverGrows(s: State, a: Action)
    requires Inv(s) && s.caller == Waiting && WorkerAction(a) && Next(s, a).Some?
    ensures var s' := Next(s, a).value;
            && |s'.workers| == |s.workers| && s'.slot == s.slot && s'.caller == Waiting
            && WorkBelow(s', |s.workers|) + (if WorkStep(s, a) then 1 else 0) <= WorkBelow(s, |s.workers|)
  {
    WaitingStays(s, a);
    assert WorkerOk(s, a.t);
    if Finished(s, s.workers[a.t]) { FinishedWorks(s, a); } else { UnfinishedWorks(s, a); }
  }

  /** How many of the steps of a run are such steps. */
  function WorkSteps(s: State, acts: seq<Action>): nat
    requires Run(s, acts).Some?
    decreases |acts|
  {
    if acts == [] then 0 else
      RunSnoc(s, acts);
      var most := acts[..|acts| - 1];
      WorkSteps(s, most) + (if WorkStep(Run(s, most).value, acts[|acts| - 1]) then 1 else 0)
  }

  /** The work left bounds how many such steps a run of the workers can still take. */
  lemma {:induction false} WorkIsBounded(s: State, acts: seq<Action>)
    requires Inv(s) && s.caller == Waiting && Run(s, acts).Some? && forall a | a in acts :: WorkerAction(a)
    ensures var f := Run(s, acts).value;
            && Inv(f) && f.caller == Waiting && f.slot == s.slot && s.slot.Whole? && |f.workers| == |s.workers|
            && WorkBelow(f, |s.workers|) + WorkSteps(s, acts) <= WorkBelow(s, |s.workers|)
    decreases |acts|
  {
    if acts != [] {
      RunSnoc(s, acts);
      var most, a := acts[..|acts| - 1], acts[|acts| - 1];
      WorkIsBounded(s, most);
      WorkNeverGrows(Run(s, most).value, a);
      StepInv(Run(s, most).value, a);
    }
  }

  /** No work is left exactly when every worker has finished. */
  lemma {:induction false} NoWorkLeft(s: State, k: nat)
    requires Inv(s) && s.caller == Waiting && k <= |s.workers|
    ensures WorkBelow(s, k) == 0 <==> forall t | 0 < t < k :: Finished(s, s.workers[t])
  {
    if k > 1 {
      NoWorkLeft(s, k - 1);
      assert WorkerOk(s, k - 1);
    }
  }

  /**
   * From any state of a run in which the caller waits: however the workers are scheduled, those that have
   * not finished take at most as many steps as there is work left, and once they took that many the wait
   * is over.
   */
  lemma WaitEnds(n: nat, before: seq<Action>, acts: seq<Action>)
    requires 0 < n <= 16 && Run(Init(n), before).Some? && Run(Init(n), before).value.caller == Waiting
    requires Run(Run(Init(n), before).value, acts).Some? && forall a | a in acts :: WorkerAction(a)
    ensures var s := Run(Init(n), before).value;
            && s.slot.Whole? && |s.workers| == n && WorkSteps(s, acts) <= WorkBelow(s, n)
            && (WorkSteps(s, acts) == WorkBelow(s, n) ==> Next(Run(s, acts).value, WaitOver).Some?)
  {
    RunInv(n, before);
    var s := Run(Init(n), before).value;
    WorkIsBounded(s, acts);
    var f := Run(s, acts).value;
    NoWorkLeft(f, n);
    CountAll(f, n);
  }
}
