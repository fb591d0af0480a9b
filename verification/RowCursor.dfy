/**
 What a caller sees of a statement through the bridge: steps visit the rows of one execution in
 order, rebinding starts over, refused calls change nothing, and no call touches another statement.
 */
module RowCursor {
  import opened Machine
  import opened Wrappers
  import opened RowCache

  /** A step: with the row in the cache or without. */
  function StepOp(s: Handle, run: Execution, viewed: bool): Op {
    if viewed then StepRowView(s, run) else StepOnly(s, run)
  }

  /** The state after `n` steps of statement `s`, the first of which runs it if need be. */
  function AfterSteps(st: State, s: Handle, run: Execution, viewed: bool, n: nat): (r: State)
    requires s in st.engine && s != 0
    ensures s in r.engine
  {
    if n == 0 then st else Apply(AfterSteps(st, s, run, viewed, n - 1), StepOp(s, run, viewed))
  }

  /** The n-th step of a statement that has no result yet: row n, or the end. */
  ghost predicate AtRow(stmt: Stmt, result: Result, n: nat) {
    && stmt.result == Some(result)
    && stmt.next == (if n <= |result.rows| then n else |result.rows|)
    && stmt.current == (if 1 <= n <= |result.rows| then Some(n - 1) else None)
  }

  lemma {:induction false} StepsAtRow(st: State, s: Handle, result: Result, viewed: bool, n: nat)
    requires s in st.engine && s != 0 && st.engine[s].result == None && n >= 1
    ensures AtRow(AfterSteps(st, s, Some(result), viewed, n).engine[s], result, n)
  {
    if n == 1 {
      assert AfterSteps(st, s, Some(result), viewed, 0) == st;
    } else {
      StepsAtRow(st, s, result, viewed, n - 1);
    }
  }

  /** Step by step a statement shows the rows of its execution, each once and in order, and then none. */
  lemma StepsVisitRows(st: State, s: Handle, result: Result, viewed: bool, n: nat)
    requires s in st.engine && s != 0 && st.engine[s].result == None && n >= 1
    ensures
      var after := AfterSteps(st, s, Some(result), viewed, n);
      Uncached(after, s) == if n <= |result.rows| then Some(result.rows[n - 1]) else None
    ensures
      var before := AfterSteps(st, s, Some(result), viewed, n - 1);
      var (ok, stmt) := Step(before.engine[s], Some(result));
      ok && StepCode(ok, stmt) == if n <= |result.rows| then 1 else 0
  {
    hide AfterSteps;
    StepsAtRow(st, s, result, viewed, n);
    if n > 1 {
      StepsAtRow(st, s, result, viewed, n - 1);
    } else {
      NoSteps(st, s, Some(result), viewed);
    }
  }

  lemma NoSteps(st: State, s: Handle, run: Execution, viewed: bool)
    requires s in st.engine && s != 0
    ensures AfterSteps(st, s, run, viewed, 0) == st
  {
  }

  /** An execution that fails leaves the statement as it was, and the step reports it. */
  lemma FailedStep(st: State, s: Handle, viewed: bool)
    requires s in st.engine && s != 0 && st.engine[s].result == None
    ensures Apply(st, StepOp(s, None, viewed)).engine[s] == st.engine[s]
    ensures StepCode(Step(st.engine[s], None).0, st.engine[s]) == -1
  {
  }

  /** Calls after which a statement has no result and will run again. */
  predicate StartsOver(op: Op, s: Handle) {
    match op
    case Prepare(_, handle) => handle == Some(s)
    case Invalidate(t) => s == t
    case Bind(t, slot, valid) => s == t && slot >= 1 && valid
    case BindFloat64(t, slot) => s == t && slot >= 1
    case ExecuteBatch(t, batch) => s == t && batch.BatchRuns?
    case _ => false
  }

  /** After preparing, resetting, binding or a batch the steps show a new execution from its first row. */
  lemma StartedOver(st: State, op: Op, s: Handle, result: Result, viewed: bool, n: nat)
    requires s != 0 && Legal(st, op) && StartsOver(op, s) && n >= 1
    ensures s in Apply(st, op).engine
    ensures Uncached(AfterSteps(Apply(st, op), s, Some(result), viewed, n), s)
            == if n <= |result.rows| then Some(result.rows[n - 1]) else None
  {
    StepsVisitRows(Apply(st, op), s, result, viewed, n);
  }

  /** After a rebind the steps show its execution, whatever a further one would yield. */
  lemma {:induction false} ReboundSteps(st: State, s: Handle, result: Result, run: Execution, viewed: bool, n: nat)
    requires s in st.engine && s != 0
    ensures
      var after := Apply(st, RebindExecute(s, Rebound(Some(result))));
      && s in after.engine
      && AtRow(AfterSteps(after, s, run, viewed, n).engine[s], result, n)
  {
    if n == 0 {
    } else {
      ReboundSteps(st, s, result, run, viewed, n - 1);
    }
  }

  /** Combined bind and step: the first row of the new execution, or the end, in one call. */
  lemma BoundStep(st: State, s: Handle, slot: nat, result: Result)
    requires s in st.engine && s != 0 && slot >= 1
    ensures
      var after := Apply(st, BindStepRowView(s, slot, Some(result)));
      AtRow(after.engine[s], result, 1)
  {
  }

  /** Reading rows or columns of a statement that has its result moves nothing. */
  lemma ReadsStay(st: State, s: Handle, run: Execution)
    requires s in st.engine && s != 0 && st.engine[s].result.Some?
    ensures Apply(st, Inspect(s, run)) == st
    ensures Apply(st, Get(s, run)).engine == st.engine
  {
    assert st.engine[s := st.engine[s]] == st.engine;
  }

  /** Calls that are refused: a zero handle, a parameter number of zero, or arguments that are missing or invalid. */
  predicate Refused(op: Op) {
    match op
    case OpenOrClose(refused) => refused
    case Prepare(refused, _) => refused
    case Bind(s, slot, valid) => s == 0 || slot == 0 || !valid
    case BindFloat64(s, slot) => s == 0 || slot == 0
    case BindStepRowView(s, slot, _) => s == 0 || slot == 0
    case ExecuteBatch(s, batch) => s == 0 || !batch.BatchRuns?
    case RebindExecute(s, rebind) => s == 0 || !rebind.Rebound?
    case StepOnly(s, _) => s == 0
    case StepRowView(s, _) => s == 0
    case Invalidate(s) => s == 0
    case Inspect(s, _) => s == 0
    case Finalize(s) => s == 0
    case Get(s, _) => s == 0
  }

  lemma RefusedKeeps(st: State, op: Op)
    requires Legal(st, op) && Refused(op)
    ensures Apply(st, op).engine == st.engine
  {
    if !op.OpenOrClose? && !op.Prepare? && op.s != 0 {
      assert st.engine[op.s := st.engine[op.s]] == st.engine;
    }
  }

  /** A call touches one statement at most. */
  lemma OthersKept(st: State, op: Op, t: Handle)
    requires Legal(st, op) && (op.OpenOrClose? || (op.Prepare? && op.handle != Some(t)) || (!op.Prepare? && op.s != t))
    ensures t in Apply(st, op).engine <==> t in st.engine
    ensures t in st.engine ==> Apply(st, op).engine[t] == st.engine[t]
  {
  }

  /** Statements come with `stmtPrepare` and go with `stmtFinalize`. */
  lemma Lifetimes(st: State, op: Op)
    requires Legal(st, op)
    ensures Apply(st, op).engine.Keys ==
              if op.Prepare? && op.handle.Some? then st.engine.Keys + {op.handle.value}
              else if op.Finalize? && op.s != 0 then st.engine.Keys - {op.s}
              else st.engine.Keys
  {
  }

  // The cache

  /** A step that reports the row it reached leaves that row in the cache, unless it has no columns. */
  lemma StepCaches(st: State, op: Op, row: Row)
    requires Legal(st, op) && (op.StepRowView? || op.BindStepRowView?) && op.s != 0
    requires op.BindStepRowView? ==> op.slot >= 1
    requires Uncached(Apply(st, op), op.s) == Some(row)
    requires op.run.None? ==> st.engine[op.s].result.Some? && op.StepRowView?
    ensures Apply(st, op).cache == if row == [] then Cache(op.s, None) else Cache(op.s, Some(row))
  {
  }

  /** A step that reaches no row, or is refused its parameter, leaves no row of the statement in the cache. */
  lemma MissClears(st: State, op: Op)
    requires Legal(st, op) && (op.StepRowView? || op.BindStepRowView?) && op.s != 0
    requires Uncached(Apply(st, op), op.s) == None || (op.BindStepRowView? && op.slot == 0)
    ensures Apply(st, op).cache == if st.cache.handle == op.s then Cache(0, None) else st.cache
  {
  }

  /** A getter caches the row it had to fetch, and leaves the cache alone when it finds the row or there is none. */
  lemma GetCaches(st: State, s: Handle, run: Execution)
    requires s in st.engine && s != 0
    ensures
      var after := Apply(st, Get(s, run));
      var row := Uncached(st, s);
      if row.None? || (st.cache.handle == s && st.cache.values.Some?) then after.cache == st.cache
      else after.cache == Cache(s, if row.value == [] then None else row)
  {
  }

  /** Asking for rows or columns of a statement without a result runs it and stays before the first row. */
  lemma AskingRuns(st: State, s: Handle, result: Result)
    requires s in st.engine && s != 0 && st.engine[s].result == None
    ensures AtRow(Apply(st, Inspect(s, Some(result))).engine[s], result, 0)
    ensures st.cache.handle != s || st.cache.values == None ==>
              AtRow(Apply(st, Get(s, Some(result))).engine[s], result, 0)
    ensures Apply(st, Inspect(s, None)).engine == st.engine
  {
    assert st.engine[s := st.engine[s]] == st.engine;
  }

  /** Calls that must not leave a row of the statement behind. */
  predicate Clears(op: Op) {
    match op
    case StepOnly(s, _) => s != 0
    case Invalidate(s) => s != 0
    case Bind(_, _, _) => true
    case ExecuteBatch(s, batch) => s != 0 && (batch.BatchFails? || batch.BatchRuns?)
    case RebindExecute(s, rebind) => s != 0 && !rebind.NoText?
    case Finalize(s) => s != 0
    case _ => false
  }

  lemma ClearsItsRow(st: State, op: Op)
    requires Legal(st, op)
    ensures Clears(op) ==> Apply(st, op).cache == if st.cache.handle == op.s then Cache(0, None) else st.cache
    ensures op == OpenOrClose(false) || (op.Prepare? && !op.refused) ==> Apply(st, op).cache == Cache(0, None)
    ensures op.BindFloat64? || op.Inspect? ==> Apply(st, op).cache == st.cache
  {
  }

  /** The number of affected rows reaches the caller unchanged below 2^63, if there is room for it. */
  lemma ReportedCount(affected: u64, room: bool)
    ensures Reported(affected, room).0 == 0 <==> room
    ensures !room ==> Reported(affected, room) == (-1, None)
    ensures room && affected < 0x8000_0000_0000_0000 ==> Reported(affected, room) == (0, Some(affected))
  {
  }
}
