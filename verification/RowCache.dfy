/**
 The row-view cache of the JNI bridge over the statements of the C interface. The
 cache remembers the row of one statement; every entry point that moves a
 statement is meant to drop or replace it.
 */
module RowCache {
  import opened Machine
  import opened Wrappers

  type Handle = nat
  type Cell = int
  type Row = seq<Cell>

  datatype Result = Result(columns: seq<string>, rows: seq<Row>, affected: u64)

  /** A statement of the C interface: its materialised result, the current row and the next one. */
  datatype Stmt = Stmt(result: Option<Result>, current: Option<nat>, next: nat)

  const FRESH := Stmt(None, None, 0)

  /** What a call to the engine may do when it has to run the statement: yield a result, or fail. */
  type Execution = Option<Result>

  /** `execute_stmt_if_needed`: whether it succeeded, and the statement afterwards. */
  function Execute(stmt: Stmt, run: Execution): (bool, Stmt) {
    if stmt.result.Some? then (true, stmt)
    else if run.Some? then (true, Stmt(run, None, 0))
    else (false, stmt)
  }

  /** `ddb_stmt_step` and `ddb_stmt_step_row_view`: on to the next row, if there is one. */
  function Step(stmt: Stmt, run: Execution): (bool, Stmt) {
    var (ok, s) := Execute(stmt, run);
    if !ok then (false, s)
    else if s.next >= |s.result.value.rows| then (true, s.(current := None))
    else (true, s.(current := Some(s.next), next := s.next + 1))
  }

  /** The row a statement stands on: what `ddb_stmt_row_view` reports, or an error. */
  function View(stmt: Stmt): Option<Row> {
    if stmt.result.Some? && stmt.current.Some? && stmt.current.value < |stmt.result.value.rows|
    then Some(stmt.result.value.rows[stmt.current.value]) else None
  }

  /** `g_row_cache`: a row without columns is cached as a null pointer. */
  datatype Cache = Cache(handle: Handle, values: Option<Row>)

  const EMPTY := Cache(0, None)

  datatype State = State(engine: map<Handle, Stmt>, cache: Cache)

  function Cached(s: Handle, row: Row): Cache {
    Cache(s, if row == [] then None else Some(row))
  }

  function ClearFor(cache: Cache, s: Handle): Cache {
    if cache.handle == s then EMPTY else cache
  }

  /**
   What a batch call finds: arguments it refuses, an empty batch, or rows the engine fails on
   or runs. Only the last leaves the statement without its result.
   */
  datatype Batch = BadArguments | NoRows | BatchFails | BatchRuns(affected: u64)

  /** What a rebind call finds: no text, text that is not UTF-8, or values to run the statement with. */
  datatype Rebind = NoText | BadText | Rebound(run: Execution)

  /**
   The entry points. A zero statement handle is refused, other handles come from
   `Prepare`; `refused` marks the missing arguments that end a call at once.
   */
  datatype Op =
    | OpenOrClose(refused: bool)
    | Prepare(refused: bool, handle: Option<Handle>)
    | StepOnly(s: Handle, run: Execution)
    | StepRowView(s: Handle, run: Execution)
    | BindStepRowView(s: Handle, slot: nat, run: Execution)
    | Invalidate(s: Handle)
    | Bind(s: Handle, slot: nat, valid: bool)
    | BindFloat64(s: Handle, slot: nat)
    | ExecuteBatch(s: Handle, batch: Batch)
    | RebindExecute(s: Handle, rebind: Rebind)
    | Inspect(s: Handle, run: Execution)
    | Finalize(s: Handle)
    | Get(s: Handle, run: Execution)

  /** The caller's side of the contract: statement handles are live, and a new one is not. */
  predicate Legal(st: State, op: Op) {
    match op
    case OpenOrClose(_) => true
    case Prepare(refused, handle) => handle.Some? ==> !refused && handle.value != 0 && handle.value !in st.engine
    case StepOnly(s, _) => s == 0 || s in st.engine
    case StepRowView(s, _) => s == 0 || s in st.engine
    case BindStepRowView(s, _, _) => s == 0 || s in st.engine
    case Invalidate(s) => s == 0 || s in st.engine
    case Bind(s, _, _) => s == 0 || s in st.engine
    case BindFloat64(s, _) => s == 0 || s in st.engine
    case ExecuteBatch(s, _) => s == 0 || s in st.engine
    case RebindExecute(s, _) => s == 0 || s in st.engine
    case Inspect(s, _) => s == 0 || s in st.engine
    case Finalize(s) => s == 0 || s in st.engine
    case Get(s, _) => s == 0 || s in st.engine
  }

  /** Parameters are numbered from one; binding one drops the result. */
  function Bound(stmt: Stmt, slot: nat): Stmt {
    if slot == 0 then stmt else FRESH
  }

  /** The statement and the cache after a batch. */
  function AfterBatch(stmt: Stmt, cache: Cache, s: Handle, batch: Batch): (Stmt, Cache) {
    match batch
    case BadArguments => (stmt, cache)
    case NoRows => (stmt, cache)
    case BatchFails => (stmt, ClearFor(cache, s))
    case BatchRuns(_) => (FRESH, ClearFor(cache, s))
  }

  /** The statement and the cache after a rebind. */
  function AfterRebind(stmt: Stmt, cache: Cache, s: Handle, rebind: Rebind): (Stmt, Cache) {
    match rebind
    case NoText => (stmt, cache)
    case BadText => (stmt, ClearFor(cache, s))
    case Rebound(run) => (Execute(FRESH, run).1, ClearFor(cache, s))
  }

  /** The cache after a step that reports the row it reached. */
  function AfterRowView(cache: Cache, s: Handle, ok: bool, stmt: Stmt): Cache {
    if ok && View(stmt).Some? then Cached(s, View(stmt).value) else ClearFor(cache, s)
  }

  /** What a step returns: 1 on a row, 0 at the end, -1 on failure. */
  function StepCode(ok: bool, stmt: Stmt): int {
    if !ok then -1 else if View(stmt).Some? then 1 else 0
  }

  /** What a call that counted affected rows returns: its code and the count it stored. */
  function Reported(affected: u64, room: bool): (int, Option<i64>) {
    if room then (0, Some(AsI64(affected))) else (-1, None)
  }

  /** The state after an entry point returns. */
  function Apply(st: State, op: Op): State
    requires Legal(st, op)
  {
    match op
    case OpenOrClose(refused) => if refused then st else st.(cache := EMPTY)
    case Prepare(refused, handle) =>
      if refused then st else State(if handle.Some? then st.engine[handle.value := FRESH] else st.engine, EMPTY)
    case StepOnly(s, run) =>
      if s == 0 then st else State(st.engine[s := Step(st.engine[s], run).1], ClearFor(st.cache, s))
    case StepRowView(s, run) =>
      if s == 0 then st else
        var (ok, stmt) := Step(st.engine[s], run);
        State(st.engine[s := stmt], AfterRowView(st.cache, s, ok, stmt))
    case BindStepRowView(s, slot, run) =>
      if s == 0 then st
      else if slot == 0 then st.(cache := ClearFor(st.cache, s))
      else
        var (ok, stmt) := Step(FRESH, run);
        State(st.engine[s := stmt], AfterRowView(st.cache, s, ok, stmt))
    case Invalidate(s) =>
      if s == 0 then st else State(st.engine[s := FRESH], ClearFor(st.cache, s))
    case Bind(s, slot, valid) =>
      if s == 0 then st.(cache := ClearFor(st.cache, s))
      else State(st.engine[s := if valid then Bound(st.engine[s], slot) else st.engine[s]], ClearFor(st.cache, s))
    case BindFloat64(s, slot) =>
      if s == 0 then st else st.(engine := st.engine[s := Bound(st.engine[s], slot)])
    case ExecuteBatch(s, batch) =>
      if s == 0 then st else
        var (stmt, cache) := AfterBatch(st.engine[s], st.cache, s, batch);
        State(st.engine[s := stmt], cache)
    case RebindExecute(s, rebind) =>
      if s == 0 then st else
        var (stmt, cache) := AfterRebind(st.engine[s], st.cache, s, rebind);
        State(st.engine[s := stmt], cache)
    case Inspect(s, run) =>
      if s == 0 then st else st.(engine := st.engine[s := Execute(st.engine[s], run).1])
    case Finalize(s) =>
      if s == 0 then st else State(st.engine - {s}, ClearFor(st.cache, s))
    case Get(s, run) => Read(st, s, run).1
  }

  /** `row_view_at` up to the index check: the row it reads from, and the state afterwards. */
  function Read(st: State, s: Handle, run: Execution): (Option<Row>, State)
    requires s == 0 || s in st.engine
  {
    if st.cache.handle == s && st.cache.values.Some? then (st.cache.values, st)
    else if s == 0 then (None, st)
    else
      var (ok, stmt) := Execute(st.engine[s], run);
      var engine := st.engine[s := stmt];
      if ok && View(stmt).Some? then (View(stmt), State(engine, Cached(s, View(stmt).value)))
      else (None, st.(engine := engine))
  }

  /** What a getter without a cache would read. */
  function Uncached(st: State, s: Handle): Option<Row>
    requires s == 0 || s in st.engine
  {
    if s == 0 then None else View(st.engine[s])
  }

  // Coherence

  /** A cached row is the row its statement stands on. */
  predicate Coherent(st: State) {
    st.cache.values.Some? ==>
      && st.cache.handle != 0 && st.cache.handle in st.engine
      && View(st.engine[st.cache.handle]) == st.cache.values
  }

  predicate WellCached(st: State) {
    && (st.cache.values.Some? ==> st.cache.handle != 0 && st.cache.handle in st.engine && st.cache.values.value != [])
    && 0 !in st.engine
  }

  /** The statement whose row the cache holds loses its rows without the cache hearing of it. */
  predicate DropsUnseen(st: State, op: Op) {
    op.BindFloat64? && op.slot != 0 && op.s != 0 && st.cache.handle == op.s && st.cache.values.Some?
  }

  /** Every entry point keeps the cache coherent, except a `bindFloat64` to the cached statement. */
  lemma StepCoherent(st: State, op: Op)
    requires WellCached(st) && Legal(st, op) && Coherent(st)
    ensures WellCached(Apply(st, op))
    ensures Coherent(Apply(st, op)) <==> !DropsUnseen(st, op)
  {
  }

  /** Getters agree with uncached reads of every live statement exactly when the cache is coherent. */
  lemma ReadsAgree(st: State)
    requires WellCached(st)
    ensures Coherent(st) <==> forall s, run | s == 0 || s in st.engine :: Read(st, s, run).0 == Uncached(st, s)
  {
    if Coherent(st) {
      forall s, run | s == 0 || s in st.engine
        ensures Read(st, s, run).0 == Uncached(st, s)
      {
        CoherentRead(st, s, run);
      }
    } else {
      assert Read(st, st.cache.handle, None).0 != Uncached(st, st.cache.handle);
    }
  }

  lemma CoherentRead(st: State, s: Handle, run: Execution)
    requires WellCached(st) && Coherent(st) && (s == 0 || s in st.engine)
    ensures Read(st, s, run).0 == Uncached(st, s)
  {
  }

  // Whole runs

  ghost predicate LegalRun(st: State, ops: seq<Op>)
    decreases ops
  {
    ops == [] || (Legal(st, ops[0]) && LegalRun(Apply(st, ops[0]), ops[1..]))
  }

  /** The cache is coherent before, between and after the operations. */
  ghost predicate AlwaysCoherent(st: State, ops: seq<Op>)
    requires LegalRun(st, ops)
    decreases ops
  {
    Coherent(st) && (ops != [] ==> AlwaysCoherent(Apply(st, ops[0]), ops[1..]))
  }

  ghost predicate NeverDropsUnseen(st: State, ops: seq<Op>)
    requires LegalRun(st, ops)
    decreases ops
  {
    ops == [] || (!DropsUnseen(st, ops[0]) && NeverDropsUnseen(Apply(st, ops[0]), ops[1..]))
  }

  /** Every getter of the run reads the row an uncached call would report at that moment. */
  ghost predicate ReadsRight(st: State, ops: seq<Op>)
    requires LegalRun(st, ops)
    decreases ops
  {
    ops != [] ==>
      && (ops[0].Get? ==> Read(st, ops[0].s, ops[0].run).0 == Uncached(st, ops[0].s))
      && ReadsRight(Apply(st, ops[0]), ops[1..])
  }

  const INITIAL := State(map[], EMPTY)

  lemma {:induction false} RunCoherent(st: State, ops: seq<Op>)
    requires WellCached(st) && Coherent(st) && LegalRun(st, ops)
    ensures AlwaysCoherent(st, ops) <==> NeverDropsUnseen(st, ops)
    decreases ops
  {
    hide Apply, Coherent, WellCached, DropsUnseen;
    if ops == [] {
    } else {
      StepCoherent(st, ops[0]);
      if !DropsUnseen(st, ops[0]) {
        RunCoherent(Apply(st, ops[0]), ops[1..]);
      } else {
        AlwaysIsNow(Apply(st, ops[0]), ops[1..]);
      }
    }
  }

  lemma AlwaysIsNow(st: State, ops: seq<Op>)
    requires LegalRun(st, ops)
    ensures AlwaysCoherent(st, ops) ==> Coherent(st)
  {
  }

  lemma {:induction false} RunReads(st: State, ops: seq<Op>)
    requires WellCached(st) && LegalRun(st, ops) && AlwaysCoherent(st, ops)
    ensures ReadsRight(st, ops)
    decreases ops
  {
    hide Apply, Coherent, WellCached, Read, Uncached;
    if ops == [] {
    } else {
      StepCoherent(st, ops[0]);
      if ops[0].Get? {
        CoherentRead(st, ops[0].s, ops[0].run);
      }
      RunReads(Apply(st, ops[0]), ops[1..]);
    }
  }

  /**
   From the start, with handles reused freely after finalize, the cache stays coherent exactly
   when no `bindFloat64` hits the statement whose row is cached, and then every getter is right.
   */
  lemma CacheTransparent(ops: seq<Op>)
    requires LegalRun(INITIAL, ops)
    ensures AlwaysCoherent(INITIAL, ops) <==> NeverDropsUnseen(INITIAL, ops)
    ensures NeverDropsUnseen(INITIAL, ops) ==> ReadsRight(INITIAL, ops)
  {
    RunCoherent(INITIAL, ops);
    if AlwaysCoherent(INITIAL, ops) {
      RunReads(INITIAL, ops);
    }
  }

  const SEVEN := Result(["n"], [[7]], 0)

  /** A getter, a `bindFloat64` and a getter: the second getter still reads the dropped row. */
  lemma StaleAfterFloat()
    ensures
      var ops := [Prepare(false, Some(1)), StepRowView(1, Some(SEVEN)), BindFloat64(1, 1), Get(1, None)];
      LegalRun(INITIAL, ops) && !ReadsRight(INITIAL, ops)
  {
    var ops := [Prepare(false, Some(1)), StepRowView(1, Some(SEVEN)), BindFloat64(1, 1), Get(1, None)];
    var s1 := Apply(INITIAL, ops[0]);
    var s2 := Apply(s1, ops[1]);
    var s3 := Apply(s2, ops[2]);
    assert s2.cache == Cache(1, Some([7])) && s3.cache == s2.cache && View(s3.engine[1]) == None;
    StaleRun(s3, ops[3..]);
    assert ops[2..][1..] == ops[3..] && ops[1..][1..] == ops[2..];
    assert LegalRun(s2, ops[2..]) && !ReadsRight(s2, ops[2..]);
    assert LegalRun(s1, ops[1..]) && !ReadsRight(s1, ops[1..]);
  }

  lemma StaleRun(st: State, ops: seq<Op>)
    requires ops == [Get(1, None)] && 1 in st.engine && View(st.engine[1]) == None
    requires st.cache.handle == 1 && st.cache.values.Some?
    ensures LegalRun(st, ops) && !ReadsRight(st, ops)
  {
  }

  // The entry points

  /** The thread's cache and the statements behind it, updated in place. */
  class Bridge {
    var engine: map<Handle, Stmt>
    var handle: Handle
    var values: Option<Row>

    function Now(): State
      reads this
    {
      State(engine, Cache(handle, values))
    }

    constructor ()
      ensures Now() == INITIAL
    {
      engine, handle, values := map[], 0, None;
    }

    method ClearRowCache()
      modifies this`handle, this`values
      ensures Now() == old(Now()).(cache := EMPTY)
    {
      handle, values := 0, None;
    }

    method ClearRowCacheForStmt(s: Handle)
      modifies this`handle, this`values
      ensures Now() == old(Now()).(cache := ClearFor(old(Now()).cache, s))
    {
      if handle == s {
        ClearRowCache();
      }
    }

    method CacheRowView(s: Handle, row: Row)
      modifies this`handle, this`values
      ensures Now() == old(Now()).(cache := Cached(s, row))
    {
      handle, values := s, if row == [] then None else Some(row);
    }

    /** `dbOpen`, refused without a path, and `dbClose`, refused on a zero handle. */
    method DbOpenOrClose(refused: bool)
      modifies this
      ensures Now() == Apply(old(Now()), OpenOrClose(refused))
    {
      if !refused {
        ClearRowCache();
      }
    }

    method StmtPrepare(refused: bool, prepared: Option<Handle>) returns (rc: int)
      requires Legal(Now(), Prepare(refused, prepared))
      modifies this
      ensures Now() == Apply(old(Now()), Prepare(refused, prepared))
      ensures rc == if prepared.Some? then 0 else -1
    {
      if refused {
        return -1;
      }
      if prepared.Some? {
        engine := engine[prepared.value := FRESH];
      }
      ClearRowCache();
      rc := if prepared.Some? then 0 else -1;
    }

    method StmtStep(s: Handle, run: Execution) returns (rc: int)
      requires Legal(Now(), StepOnly(s, run))
      modifies this
      ensures Now() == Apply(old(Now()), StepOnly(s, run))
      ensures rc == if s == 0 then -1 else StepCode(Step(old(engine)[s], run).0, engine[s])
    {
      if s == 0 {
        return -1;
      }
      ClearRowCacheForStmt(s);
      var (ok, stmt) := Step(engine[s], run);
      engine := engine[s := stmt];
      rc := StepCode(ok, stmt);
    }

    method StmtStepRowView(s: Handle, run: Execution) returns (rc: int)
      requires Legal(Now(), Op.StepRowView(s, run))
      modifies this
      ensures Now() == Apply(old(Now()), Op.StepRowView(s, run))
      ensures rc == if s == 0 then -1 else StepCode(Step(old(engine)[s], run).0, engine[s])
    {
      if s == 0 {
        return -1;
      }
      var (ok, stmt) := Step(engine[s], run);
      engine := engine[s := stmt];
      if !ok {
        ClearRowCacheForStmt(s);
        return -1;
      }
      if View(stmt).Some? {
        CacheRowView(s, View(stmt).value);
        return 1;
      }
      ClearRowCacheForStmt(s);
      rc := 0;
    }

    method StmtBindStepRowView(s: Handle, slot: nat, run: Execution) returns (rc: int)
      requires Legal(Now(), Op.BindStepRowView(s, slot, run))
      modifies this
      ensures Now() == Apply(old(Now()), Op.BindStepRowView(s, slot, run))
      ensures rc == if s == 0 then -1 else StepCode(slot != 0 && Step(FRESH, run).0, engine[s])
    {
      if s == 0 {
        return -1;
      }
      var ok, stmt := false, engine[s];
      if slot != 0 {
        var step := Step(FRESH, run);
        ok, stmt := step.0, step.1;
        engine := engine[s := stmt];
      }
      if !ok {
        ClearRowCacheForStmt(s);
        return -1;
      }
      if View(stmt).Some? {
        CacheRowView(s, View(stmt).value);
        return 1;
      }
      ClearRowCacheForStmt(s);
      rc := 0;
    }

    /** `stmtReset` and `stmtClearBindings`. */
    method StmtInvalidate(s: Handle) returns (rc: int)
      requires Legal(Now(), Invalidate(s))
      modifies this
      ensures Now() == Apply(old(Now()), Invalidate(s))
      ensures rc == if s == 0 then -1 else 0
    {
      if s == 0 {
        return -1;
      }
      ClearRowCacheForStmt(s);
      engine := engine[s := FRESH];
      rc := 0;
    }

    /**
     `bindNull`, `bindInt64`, `bindBool`, `bindText`, `bindBlob`, `bindDecimal` and
     `bindDatetime`; text that is not UTF-8 is not `valid`.
     */
    method BindValue(s: Handle, slot: nat, valid: bool) returns (rc: int)
      requires Legal(Now(), Bind(s, slot, valid))
      modifies this
      ensures Now() == Apply(old(Now()), Bind(s, slot, valid))
      ensures rc == if s == 0 || slot == 0 || !valid then -1 else 0
    {
      ClearRowCacheForStmt(s);
      if s == 0 || slot == 0 || !valid {
        assert s != 0 ==> engine[s := engine[s]] == engine;
        return -1;
      }
      engine := engine[s := FRESH];
      rc := 0;
    }

    method BindFloat(s: Handle, slot: nat) returns (rc: int)
      requires Legal(Now(), BindFloat64(s, slot))
      modifies this
      ensures Now() == Apply(old(Now()), BindFloat64(s, slot))
      ensures rc == if s == 0 || slot == 0 then -1 else 0
    {
      if s == 0 || slot == 0 {
        assert s != 0 ==> engine[s := engine[s]] == engine;
        return -1;
      }
      engine := engine[s := FRESH];
      rc := 0;
    }

    /** `set_out_affected`: the count is reported if the caller left room for it. */
    method SetOutAffected(affected: u64, room: bool) returns (rc: int, out: Option<i64>)
      ensures (rc, out) == Reported(affected, room)
    {
      if !room {
        return -1, None;
      }
      rc, out := 0, Some(AsI64(affected));
    }

    /** The three batch executions, with `room` for the number of affected rows or without. */
    method StmtExecuteBatch(s: Handle, batch: Batch, room: bool) returns (rc: int, out: Option<i64>)
      requires Legal(Now(), ExecuteBatch(s, batch))
      modifies this
      ensures Now() == Apply(old(Now()), ExecuteBatch(s, batch))
      ensures
        (rc, out) == if s == 0 || batch.BadArguments? || batch.BatchFails? then (-1, None)
                     else Reported(if batch.NoRows? then 0 else batch.affected, room)
    {
      if s == 0 || batch.BadArguments? {
        assert s != 0 ==> engine[s := engine[s]] == engine;
        return -1, None;
      }
      if batch.NoRows? {
        assert engine[s := engine[s]] == engine;
        rc, out := SetOutAffected(0, room);
        return;
      }
      ClearRowCacheForStmt(s);
      if batch.BatchFails? {
        assert engine[s := engine[s]] == engine;
        return -1, None;
      }
      engine := engine[s := FRESH];
      rc, out := SetOutAffected(batch.affected, room);
    }

    /** The three rebind executions: the values are bound and the statement runs at once. */
    method StmtRebindExecute(s: Handle, rebind: Rebind, room: bool) returns (rc: int, out: Option<i64>)
      requires Legal(Now(), RebindExecute(s, rebind))
      modifies this
      ensures Now() == Apply(old(Now()), RebindExecute(s, rebind))
      ensures
        (rc, out) == if s == 0 || !rebind.Rebound? || rebind.run == None then (-1, None)
                     else Reported(rebind.run.value.affected, room)
    {
      if s == 0 || rebind.NoText? {
        assert s != 0 ==> engine[s := engine[s]] == engine;
        return -1, None;
      }
      ClearRowCacheForStmt(s);
      if rebind.BadText? {
        assert engine[s := engine[s]] == engine;
        return -1, None;
      }
      var (ok, stmt) := Execute(FRESH, rebind.run);
      engine := engine[s := stmt];
      if !ok {
        return -1, None;
      }
      rc, out := SetOutAffected(stmt.result.value.affected, room);
    }

    /** The result of the statement, which may have to run for it and stays before its first row. */
    method Materialize(s: Handle, run: Execution) returns (result: Option<Result>)
      requires Legal(Now(), Inspect(s, run))
      modifies this
      ensures Now() == Apply(old(Now()), Inspect(s, run))
      ensures result == if s == 0 then None else engine[s].result
    {
      if s == 0 {
        return None;
      }
      var (ok, stmt) := Execute(engine[s], run);
      engine := engine[s := stmt];
      result := if ok then stmt.result else None;
    }

    method ColCount(s: Handle, run: Execution) returns (n: nat)
      requires Legal(Now(), Inspect(s, run))
      modifies this
      ensures Now() == Apply(old(Now()), Inspect(s, run))
      ensures n == if s == 0 || engine[s].result == None then 0 else |engine[s].result.value.columns|
    {
      var result := Materialize(s, run);
      n := if result == None then 0 else |result.value.columns|;
    }

    /** A name with a zero byte inside has no C string. */
    method ColName(s: Handle, index: int, run: Execution) returns (name: Option<string>)
      requires Legal(Now(), Inspect(s, run))
      modifies this
      ensures Now() == Apply(old(Now()), Inspect(s, run))
      ensures name.Some? <==>
        && s != 0 && engine[s].result.Some? && 0 <= index < |engine[s].result.value.columns|
        && '\0' !in engine[s].result.value.columns[index]
      ensures name.Some? ==> name.value == engine[s].result.value.columns[index]
    {
      var result := Materialize(s, run);
      if result == None || index < 0 || index >= |result.value.columns| || '\0' in result.value.columns[index] {
        return None;
      }
      name := Some(result.value.columns[index]);
    }

    method StmtRowsAffected(s: Handle, run: Execution) returns (rows: i64)
      requires Legal(Now(), Inspect(s, run))
      modifies this
      ensures Now() == Apply(old(Now()), Inspect(s, run))
      ensures rows == if s == 0 || engine[s].result == None then 0 else AsI64(engine[s].result.value.affected)
    {
      var result := Materialize(s, run);
      rows := if result == None then 0 else AsI64(result.value.affected);
    }

    method StmtFinalize(s: Handle)
      requires Legal(Now(), Finalize(s))
      modifies this
      ensures Now() == Apply(old(Now()), Finalize(s))
    {
      if s == 0 {
        return;
      }
      ClearRowCacheForStmt(s);
      engine := engine - {s};
    }

    /** `row_view_at`: the cell at `index` of the statement's row, through the cache. */
    method RowViewAt(s: Handle, index: int, run: Execution) returns (r: Option<Cell>)
      requires Legal(Now(), Get(s, run))
      modifies this
      ensures Now() == Apply(old(Now()), Get(s, run))
      ensures
        var row := Read(old(Now()), s, run).0;
        r == if row.Some? && 0 <= index < |row.value| then Some(row.value[index]) else None
    {
      var row := values;
      if handle != s || values == None {
        if s == 0 {
          return None;
        }
        var (ok, stmt) := Execute(engine[s], run);
        engine := engine[s := stmt];
        if !ok || View(stmt) == None {
          return None;
        }
        row := View(stmt);
        CacheRowView(s, row.value);
      }
      r := if 0 <= index < |row.value| then Some(row.value[index]) else None;
    }
  }
}
