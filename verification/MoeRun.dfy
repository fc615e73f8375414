/**
 * The pool at work (src/backends/cuda/moe_cpu_expert.c): any interleaving of its steps, with the
 * activation buffer and the output rows as real memory that the steps write.
 */
module MoeRun {
  import opened Common
  import opened MoeLanes
  import opened MoeGemv
  import opened MoeValue
  import opened MoePool

  /** What the id of a job stands for: codes and scales of the weights, and the quantised activation. */
  datatype Data = Data(codes: seq<bv8>, bsc: seq<nat>, qx: seq<int8>, sx: seq<Float>)

  /** A call that sp_moe_cpu_gemv does not refuse: the data cover the rows. */
  ghost predicate Covers(d: Data, rows: nat) { Sized(d.codes, d.bsc, d.qx, d.sx, rows) }

  /** The scalar reference of one row. */
  ghost function RowValue(d: Data, r: nat): Float
    requires Covers(d, r + 1)
  {
    Reference(RowOf(d.codes, d.bsc, d.qx, d.sx, r))
  }

  /** g_job is published and its rows are on their way or done. */
  predicate Published(c: Caller) { c.Stored? || c.Zeroed? || Active(c) || c.Served? }

  /** The job whose activation the buffer must hold, if any. */
  function Wanted(s: State): Option<Job> {
    match s.caller
    case Filled(next) => Some(next)
    case Storing(next) => Some(next)
    case _ => if Published(s.caller) && s.slot.Whole? then Some(s.slot.job) else None
  }

  /** The job being filled, stored or served covers its rows. */
  ghost predicate JobsCovered(s: State, table: nat -> Data) {
    && (s.caller.Filling? ==> Covers(table(s.caller.next.id), s.caller.next.rows))
    && (Wanted(s).Some? ==> Covers(table(Wanted(s).value.id), Wanted(s).value.rows))
  }

  ghost predicate ActivationHeld(s: State, table: nat -> Data, A: ActX) {
    Wanted(s).Some? ==> Prepared(A, table(Wanted(s).value.id).qx, table(Wanted(s).value.id).sx)
  }

  /** Row r of the output is the reference for the published job. */
  ghost predicate RowDone(s: State, table: nat -> Data, y: seq<Float>, r: nat)
    requires s.slot.Whole? && r < |y|
  {
    Covers(table(s.slot.job.id), r + 1) && y[r] == RowValue(table(s.slot.job.id), r)
  }

  ghost predicate RowHeld(s: State, table: nat -> Data, y: seq<Float>, r: nat)
    requires s.slot.Whole? && r < |y| == |s.y|
  {
    s.y[r] == [] || RowDone(s, table, y, r)
  }

  /** Every row written so far holds the reference of the current job. */
  ghost predicate RowsHeld(s: State, table: nat -> Data, y: seq<Float>) {
    Published(s.caller) ==> s.slot.Whole? && |y| == |s.y| == s.slot.job.rows
                            && forall r: nat | r < |y| :: RowHeld(s, table, y, r)
  }

  ghost predicate Held(s: State, table: nat -> Data, A: ActX, y: seq<Float>) {
    JobsCovered(s, table) && ActivationHeld(s, table, A) && RowsHeld(s, table, y)
  }

  // ---- row steps ----

  predicate WritesRow(s: State, a: Action) {
    Next(s, a).Some? && (a == CallerRow || a.Row?)
  }

  /** The row that a step writes, and the job its thread read. */
  function RowAt(s: State, a: Action): (nat, Job)
    requires WritesRow(s, a)
  {
    if a == CallerRow then (s.caller.at, s.caller.job) else (s.workers[a.t].step.at, s.workers[a.t].step.job)
  }

  /** A row is written for the published job, inside its rows, while the buffer holds its activation. */
  lemma RowIsCurrent(s: State, a: Action)
    requires Inv(s) && WritesRow(s, a)
    ensures Active(s.caller) && s.slot.Whole? && RowAt(s, a).1 == s.slot.job && RowAt(s, a).0 < s.slot.job.rows == |s.y|
  {
    var n, rows := |s.workers|, if s.slot.Whole? then s.slot.job.rows else 0;
    if a == CallerRow {
      ShareInside(rows, n, 0);
    } else {
      assert Active(s.caller) ==> WorkerOk(s, a.t);
      ShareInside(rows, n, a.t);
    }
  }

  /** What a row step does to the control state: one write is recorded. */
  lemma RowStepEffect(s: State, a: Action)
    requires Inv(s) && WritesRow(s, a)
    ensures var s', r := Next(s, a).value, RowAt(s, a).0;
            && Active(s'.caller) && s'.slot == s.slot && s.slot.Whole? && r < |s.y| == |s'.y| == s.slot.job.rows
            && Wanted(s') == Wanted(s) == Some(s.slot.job)
            && forall x: nat | x < |s.y| && x != r :: s'.y[x] == s.y[x]
  {
    RowIsCurrent(s, a);
  }

  /** Writing the reference of a row keeps the memory in order, whatever becomes of that row's record. */
  lemma RecordHolds(s: State, s': State, r: nat, table: nat -> Data, A: ActX, y: seq<Float>, y': seq<Float>)
    requires Held(s, table, A, y) && Active(s.caller) && Active(s'.caller) && Wanted(s') == Wanted(s)
    requires s.slot.Whole? && s'.slot == s.slot && r < |y| == |s.y| == |s'.y|
    requires forall x: nat | x < |s.y| && x != r :: s'.y[x] == s.y[x]
    requires Covers(table(s.slot.job.id), r + 1) && y' == y[r := RowValue(table(s.slot.job.id), r)]
    ensures Held(s', table, A, y')
  {
    forall x: nat | x < |y'| ensures RowHeld(s', table, y', x) {
      assert RowHeld(s, table, y, x);
      if x != r { OtherRow(s, s', table, y, y', x); }
    }
  }

  lemma OtherRow(s: State, s': State, table: nat -> Data, y: seq<Float>, y': seq<Float>, x: nat)
    requires s.slot.Whole? && s'.slot == s.slot && x < |y| == |s.y| == |y'| == |s'.y|
    requires y'[x] == y[x] && s'.y[x] == s.y[x] && RowHeld(s, table, y, x)
    ensures RowHeld(s', table, y', x)
  {}

  lemma RowStepHolds(s: State, a: Action, table: nat -> Data, A: ActX, y: seq<Float>, y': seq<Float>)
    requires Inv(s) && WritesRow(s, a) && Held(s, table, A, y) && s.slot.Whole? && RowAt(s, a).0 < |y|
    requires Covers(table(s.slot.job.id), RowAt(s, a).0 + 1)
    requires y' == y[RowAt(s, a).0 := RowValue(table(s.slot.job.id), RowAt(s, a).0)]
    ensures Held(Next(s, a).value, table, A, y')
  {
    RowStepEffect(s, a);
    RowIsCurrent(s, a);
    RecordHolds(s, Next(s, a).value, RowAt(s, a).0, table, A, y, y');
  }

  /** A step that keeps the job, the record of writes, and what the buffer must hold keeps the memory in order. */
  lemma SameHolds(s: State, s': State, table: nat -> Data, A: ActX, y: seq<Float>)
    requires Held(s, table, A, y) && s'.y == s.y && s'.slot == s.slot
    requires s'.caller.Filling? ==> s'.caller == s.caller
    requires Wanted(s') == Wanted(s) || Wanted(s').None?
    requires Published(s'.caller) ==> Published(s.caller)
    ensures Held(s', table, A, y)
  {
    if Published(s'.caller) {
      forall x: nat | x < |y| ensures RowHeld(s', table, y, x) { assert RowHeld(s, table, y, x); }
    }
  }

  lemma StoringHolds(s: State, table: nat -> Data, A: ActX, y: seq<Float>)
    requires Inv(s) && Next(s, BeginStore).Some? && Held(s, table, A, y)
    ensures Held(Next(s, BeginStore).value, table, A, y)
  {}

  /** All other steps leave the output alone, and between filling and release they leave the buffer alone. */
  lemma QuietStepHolds(s: State, a: Action, table: nat -> Data, A: ActX, y: seq<Float>)
    requires Inv(s) && Next(s, a).Some? && !WritesRow(s, a) && Held(s, table, A, y)
    requires !a.BeginFill? && !a.EndFill? && !a.EndStore?
    ensures Held(Next(s, a).value, table, A, y)
  {
    if a == BeginStore { StoringHolds(s, table, A, y); } else { SameHolds(s, Next(s, a).value, table, A, y); }
  }

  lemma FillingHolds(s: State, job: Job, table: nat -> Data, A: ActX, y: seq<Float>)
    requires Next(s, BeginFill(job)).Some? && Covers(table(job.id), job.rows)
    ensures Held(Next(s, BeginFill(job)).value, table, A, y)
  {}

  lemma FilledHolds(s: State, table: nat -> Data, A: ActX, y: seq<Float>)
    requires s.caller.Filling? && JobsCovered(s, table)
    requires Prepared(A, table(s.caller.next.id).qx, table(s.caller.next.id).sx)
    ensures Held(Next(s, EndFill).value, table, A, y)
  {}

  lemma StoredHolds(s: State, table: nat -> Data, A: ActX, y: seq<Float>, y': seq<Float>)
    requires s.caller.Storing? && Held(s, table, A, y) && |y'| == s.caller.next.rows
    ensures Held(Next(s, EndStore).value, table, A, y')
  {}

  /** The row of the current job by the vector code, whichever thread computes it. */
  method WriteOne(s: State, a: Action, table: nat -> Data, A: ActX, y: array<Float>)
    requires Inv(s) && WritesRow(s, a) && Held(s, table, A, y[..])
    modifies y
    ensures Held(Next(s, a).value, table, A, y[..])
  {
    RowIsCurrent(s, a);
    var (r, job) := RowAt(s, a);
    var d := table(job.id);
    var a0, a1 := new int[128], new int[128];
    var v := RowExact(A, a0, a1, RowOf(d.codes, d.bsc, d.qx, d.sx, r));
    ghost var was := y[..];
    y[r] := v;
    RowStepHolds(s, a, table, A, was, y[..]);
  }

  /** The caller starts to overwrite the buffer, or has it complete: actx_from_q over the job's activation. */
  method Refill(s: State, a: Action, table: nat -> Data, A: ActX, ghost y: seq<Float>) returns (A': ActX)
    requires (a.BeginFill? || a == EndFill) && Next(s, a).Some? && Held(s, table, A, y)
    requires a.BeginFill? ==> Covers(table(a.job.id), a.job.rows)
    ensures Held(Next(s, a).value, table, A', y)
  {
    if a.BeginFill? {
      A' := *;
      FillingHolds(s, a.job, table, A', y);
    } else {
      A' := ActxFromQ(table(s.caller.next.id).qx, table(s.caller.next.id).sx);
      FilledHolds(s, table, A', y);
    }
  }

  /** The output of the job just stored: the caller's array, nothing of it written. */
  method NewOutput(s: State, table: nat -> Data, A: ActX, ghost y: seq<Float>) returns (y': array<Float>)
    requires Next(s, EndStore).Some? && Held(s, table, A, y)
    ensures Held(Next(s, EndStore).value, table, A, y'[..]) && fresh(y')
  {
    y' := new Float[s.caller.next.rows];
    StoredHolds(s, table, A, y, y'[..]);
  }

  /** One step: the control state follows the model, and the step's memory writes are carried out. */
  method Perform(s: State, a: Action, table: nat -> Data, A: ActX, y: array<Float>)
    returns (A': ActX, y': array<Float>)
    requires Inv(s) && Next(s, a).Some? && Held(s, table, A, y[..])
    requires a.BeginFill? ==> Covers(table(a.job.id), a.job.rows)
    modifies y
    ensures Held(Next(s, a).value, table, A', y'[..]) && (y' == y || fresh(y'))
  {
    A', y' := A, y;
    if WritesRow(s, a) {
      WriteOne(s, a, table, A, y);
    } else if a.BeginFill? || a == EndFill {
      A' := Refill(s, a, table, A, y[..]);
    } else if a == EndStore {
      y' := NewOutput(s, table, A, y[..]);
    } else {
      QuietStepHolds(s, a, table, A, y[..]);
    }
  }

  // ---- whole runs ----

  lemma RunMore(s: State, acts: seq<Action>, k: nat)
    requires k < |acts| && Run(s, acts).Some?
    ensures Run(s, acts[..k]).Some? && Next(Run(s, acts[..k]).value, acts[k]) == Run(s, acts[..k + 1])
    ensures Run(s, acts[..k + 1]).Some?
    decreases |acts|
  {
    RunSnoc(s, acts);
    var most := acts[..|acts| - 1];
    if k + 1 == |acts| {
      assert acts[..k + 1] == acts;
    } else {
      RunMore(s, most, k);
      assert most[..k] == acts[..k] && most[..k + 1] == acts[..k + 1];
    }
  }

  lemma StartHolds(n: nat, table: nat -> Data, A: ActX, y: seq<Float>)
    requires 0 < n <= 16
    ensures Inv(Init(n)) && Held(Init(n), table, A, y)
  {
    InitInv(n);
  }

  /** The output is the product of the published job. */
  ghost predicate IsProduct(s: State, table: nat -> Data, y: seq<Float>) {
    s.slot.Whole? && |y| == s.slot.job.rows && forall r: nat | r < |y| :: RowDone(s, table, y, r)
  }

  /** Whatever inputs and scales stand for, every row is the sum of its products. */
  ghost predicate IsSum(s: State, table: nat -> Data, y: seq<Float>) {
    && s.slot.Whole? && Covers(table(s.slot.job.id), |y|)
    && var d := table(s.slot.job.id);
       forall v: Valuation, r: nat | r < |y| ::
         Value(v, y[r]) == Total(RowProducts(v, d.codes, d.bsc, d.qx, d.sx, r), |d.qx|)
  }

  lemma ProductIsSum(s: State, table: nat -> Data, y: seq<Float>)
    requires IsProduct(s, table, y) && Covers(table(s.slot.job.id), |y|)
    ensures IsSum(s, table, y)
  {
    var d := table(s.slot.job.id);
    forall v: Valuation, r: nat | r < |y|
      ensures Value(v, y[r]) == Total(RowProducts(v, d.codes, d.bsc, d.qx, d.sx, r), |d.qx|)
    {
      assert RowDone(s, table, y, r);
      RowIsSum(v, d.codes, d.bsc, d.qx, d.sx, r);
    }
  }

  /** At the end of a wait every row of the output is the reference of the served job. */
  lemma ServedHolds(s: State, table: nat -> Data, A: ActX, y: seq<Float>)
    requires Inv(s) && s.caller == Served && Held(s, table, A, y)
    ensures IsProduct(s, table, y)
  {
    forall r: nat | r < |y| ensures RowDone(s, table, y, r) {
      var t := ServedRow(s, r);
      assert RowHeld(s, table, y, r);
    }
  }

  /** The state after the first k steps of a run, with memory in order. */
  ghost predicate At(n: nat, acts: seq<Action>, k: nat, s: State, table: nat -> Data, A: ActX, y: seq<Float>) {
    k <= |acts| && Run(Init(n), acts[..k]) == Some(s) && Inv(s) && Held(s, table, A, y)
  }

  lemma AtNext(n: nat, acts: seq<Action>, k: nat, s: State, table: nat -> Data, A: ActX, y: seq<Float>)
    requires Run(Init(n), acts).Some? && At(n, acts, k, s, table, A, y) && k < |acts|
    ensures Next(s, acts[k]).Some? && Inv(Next(s, acts[k]).value)
    ensures Run(Init(n), acts[..k + 1]) == Next(s, acts[k])
  {
    RunMore(Init(n), acts, k);
    StepInv(s, acts[k]);
  }

  lemma AtEnd(n: nat, acts: seq<Action>, s: State, table: nat -> Data, A: ActX, y: seq<Float>)
    requires At(n, acts, |acts|, s, table, A, y)
    ensures Run(Init(n), acts) == Some(s)
    ensures s.caller == Served ==> IsProduct(s, table, y) && IsSum(s, table, y)
  {
    assert acts[..|acts|] == acts;
    if s.caller == Served {
      ServedHolds(s, table, A, y);
      ProductIsSum(s, table, y);
    }
  }

  /**
   * Any interleaving of caller and workers, run on real memory: whenever it ends with the wait of a call
   * over, the output is the scalar reference of that call, row by row.
   */
  method Replay(n: nat, acts: seq<Action>, table: nat -> Data) returns (s: State, y: array<Float>)
    requires 0 < n <= 16 && Run(Init(n), acts).Some?
    requires forall i | 0 <= i < |acts| && acts[i].BeginFill? :: Covers(table(acts[i].job.id), acts[i].job.rows)
    ensures Run(Init(n), acts) == Some(s)
    ensures s.caller == Served ==> IsProduct(s, table, y[..]) && IsSum(s, table, y[..])
  {
    s := Init(n);
    var A: ActX := *;
    y := new Float[0];
    StartHolds(n, table, A, y[..]);
    for k := 0 to |acts|
      invariant fresh(y) && At(n, acts, k, s, table, A, y[..])
    {
      AtNext(n, acts, k, s, table, A, y[..]);
      A, y := Perform(s, acts[k], table, A, y);
      s := Next(s, acts[k]).value;
    }
    AtEnd(n, acts, s, table, A, y[..]);
  }
}
