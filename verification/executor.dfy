/**
 Running one statement inside a transaction: session settings, cost ceiling, the
 statement, the affected-row cap, commit or rollback.
 */
module Executor {
  import opened Names
  import opened Options

  datatype Command =
    | Begin(readOnly: bool)
    | SetConfig(name: string, value: string)
    | Explain
    | Statement
    | Commit
    | Rollback

  /** Timeouts are in nanoseconds; a bound of zero or less is off. */
  datatype QueryOptions = QueryOptions(
    readOnly: bool,
    statementTimeout: int,
    idleInTxTimeout: int,
    workMemKB: int,
    maxCost: real,
    maxRows: int,
    maxAffected: int)

  datatype Estimate = Estimate(cost: real, rows: int)

  /** `rows` is the length of a flat array, and None for a result reshaped by hints. */
  datatype Reply = Json(rows: Option<nat>) | AffectedRows(count: int)

  datatype ExecError = DriverError | TooExpensive | TooManyRows

  /** What the database does with the commands of one transaction: whether the k-th
      one succeeds, whether the named parameters bind, what EXPLAIN answers (None
      when it cannot be parsed), and what the statement does and answers. */
  datatype Behaviour<!D> = Behaviour(
    answers: nat -> bool,
    binds: bool,
    plan: Option<Estimate>,
    effect: D -> D,
    returned: D -> Option<nat>,
    affected: D -> int)

  /** A connection and the database behind it. `work` is what the open transaction
      sees; `log` holds the commands since it began. */
  class Connection<D> {
    var data: D
    var work: D
    var readOnly: bool
    var open: bool
    var log: seq<Command>

    constructor (initial: D)
      ensures data == initial && !open
    {
      data, work, readOnly, open, log := initial, initial, true, false, [];
    }

    method BeginTx(ro: bool, env: Behaviour<D>) returns (ok: bool)
      requires !open
      modifies this
      ensures data == old(data) && log == [Begin(ro)] && ok == open == env.answers(0)
      ensures ok ==> work == data && readOnly == ro
    {
      log := [Begin(ro)];
      ok := env.answers(0);
      open, work, readOnly := ok, data, ro;
    }

    method Send(cmd: Command, env: Behaviour<D>) returns (ok: bool)
      requires open
      modifies this`log
      ensures log == old(log) + [cmd] && ok == env.answers(|old(log)|)
    {
      ok := env.answers(|log|);
      log := log + [cmd];
    }

    /** The database lets a read-only transaction change nothing. */
    method Run(env: Behaviour<D>) returns (ok: bool)
      requires open
      modifies this`log, this`work
      ensures log == old(log) + [Statement] && ok == env.answers(|old(log)|)
      ensures work == if ok && !readOnly then env.effect(old(work)) else old(work)
    {
      ok := Send(Statement, env);
      if ok && !readOnly {
        work := env.effect(work);
      }
    }

    /** A failed commit changes nothing. */
    method CommitTx(env: Behaviour<D>) returns (ok: bool)
      requires open
      modifies this`log, this`data, this`open
      ensures log == old(log) + [Commit] && ok == env.answers(|old(log)|)
      ensures data == (if ok then work else old(data)) && open == !ok
    {
      ok := Send(Commit, env);
      if ok {
        data, open := work, false;
      }
    }

    method RollbackTx()
      requires open
      modifies this`log, this`open
      ensures log == old(log) + [Rollback] && !open
    {
      log, open := log + [Rollback], false;
    }
  }

  // ----- what a transaction sends, and when it commits -----

  function Milliseconds(nanos: int): int
    requires nanos > 0
  {
    nanos / 1_000_000
  }

  function Timeouts(o: QueryOptions): seq<Command> {
    (if o.statementTimeout > 0
     then [SetConfig("statement_timeout", FormatInt(Milliseconds(o.statementTimeout)))] else [])
    + (if o.idleInTxTimeout > 0
       then [SetConfig("idle_in_transaction_session_timeout", FormatInt(Milliseconds(o.idleInTxTimeout)))] else [])
  }

  function Settings(o: QueryOptions): seq<Command> {
    Timeouts(o) + (if o.workMemKB > 0 then [SetConfig("work_mem", FormatInt(o.workMemKB))] else [])
  }

  predicate HasCeiling(o: QueryOptions) {
    o.maxCost > 0.0 || o.maxRows > 0
  }

  function Planning(o: QueryOptions): seq<Command> {
    if HasCeiling(o) then [Explain] else []
  }

  /** Everything between begin and commit. */
  function Script(o: QueryOptions): seq<Command> {
    Settings(o) + Planning(o) + [Statement]
  }

  predicate Within(est: Estimate, o: QueryOptions) {
    (o.maxCost > 0.0 ==> est.cost <= o.maxCost) && (o.maxRows > 0 ==> est.rows <= o.maxRows)
  }

  ghost predicate Answers<D>(env: Behaviour<D>, n: nat) {
    forall k | 0 <= k < n :: env.answers(k)
  }

  ghost predicate PlanAccepted<D>(o: QueryOptions, env: Behaviour<D>) {
    HasCeiling(o) ==> env.binds && env.plan.Some? && Within(env.plan.value, o)
  }

  /** EXPLAIN was reached and answered with an estimate over a bound. */
  ghost predicate Priced<D>(o: QueryOptions, env: Behaviour<D>) {
    && HasCeiling(o) && Answers(env, |Settings(o)| + 2)
    && env.binds && env.plan.Some? && !Within(env.plan.value, o)
  }

  /** The number of rows a write touched, where it can be told. */
  function KnownCount<D>(returning: bool, env: Behaviour<D>, d: D): Option<int> {
    if !returning then Some(env.affected(d))
    else match env.returned(d)
      case Some(n) => Some(n)
      case None => None
  }

  ghost predicate OverCap<D>(o: QueryOptions, returning: bool, env: Behaviour<D>, d: D) {
    var count := KnownCount(returning, env, d);
    o.maxAffected > 0 && count.Some? && count.value > o.maxAffected
  }

  /** The write ran: nothing failed before the cap is looked at. */
  ghost predicate Ran<D>(o: QueryOptions, returning: bool, env: Behaviour<D>) {
    Answers(env, |Script(o)| + 1) && PlanAccepted(o, env) && (returning || env.binds)
  }

  ghost predicate WriteCommits<D>(o: QueryOptions, returning: bool, env: Behaviour<D>, d: D) {
    Ran(o, returning, env) && !OverCap(o, returning, env, d) && env.answers(|Script(o)| + 1)
  }

  ghost predicate QueryCommits<D>(o: QueryOptions, env: Behaviour<D>) {
    Answers(env, |Script(o)| + 2) && PlanAccepted(o, env)
  }

  function WriteReply<D>(returning: bool, env: Behaviour<D>, d: D): Reply {
    if returning then Json(env.returned(d)) else AffectedRows(env.affected(d))
  }

  ghost function WriteError<D>(o: QueryOptions, returning: bool, env: Behaviour<D>, d: D): ExecError {
    if Priced(o, env) then TooExpensive
    else if Ran(o, returning, env) && OverCap(o, returning, env, d) then TooManyRows
    else DriverError
  }

  ghost function QueryError<D>(o: QueryOptions, env: Behaviour<D>): ExecError {
    if Priced(o, env) then TooExpensive else DriverError
  }

  /** Every transaction that begins is either committed after its whole script, or
      rolled back after some part of it. */
  ghost predicate Ended(log: seq<Command>, ro: bool, script: seq<Command>, committed: bool) {
    if committed then log == [Begin(ro)] + script + [Commit]
    else
      || log == [Begin(ro)]
      || log == [Begin(ro)] + script + [Commit] + [Rollback]
      || exists k | 0 <= k <= |script| :: log == [Begin(ro)] + script[..k] + [Rollback]
  }

  // ----- the same from the options and the behaviour alone -----

  /** The session settings: one for each positive option, timeouts in milliseconds. */
  lemma SettingsExactly(o: QueryOptions)
    ensures var timeout, idle, memory := o.statementTimeout > 0, o.idleInTxTimeout > 0, o.workMemKB > 0;
      var all := Settings(o);
      && |all| == (if timeout then 1 else 0) + (if idle then 1 else 0) + (if memory then 1 else 0)
      && (timeout ==> all[0] == SetConfig("statement_timeout", FormatInt(o.statementTimeout / 1_000_000)))
      && (idle ==> all[if timeout then 1 else 0]
                   == SetConfig("idle_in_transaction_session_timeout", FormatInt(o.idleInTxTimeout / 1_000_000)))
      && (memory ==> all[|all| - 1] == SetConfig("work_mem", FormatInt(o.workMemKB)))
  {
    hide FormatInt;
  }

  /** Then EXPLAIN, if a bound is positive, and the statement. */
  lemma ScriptExactly(o: QueryOptions)
    ensures Script(o) == Settings(o) + if o.maxCost > 0.0 || o.maxRows > 0 then [Explain, Statement] else [Statement]
  {
    hide Settings;
    assert [Explain] + [Statement] == [Explain, Statement] && [] + [Statement] == [Statement];
  }

  /** How many commands a transaction sends between begin and commit. */
  function Steps(o: QueryOptions): nat {
    (if o.statementTimeout > 0 then 1 else 0) + (if o.idleInTxTimeout > 0 then 1 else 0)
    + (if o.workMemKB > 0 then 1 else 0) + (if o.maxCost > 0.0 || o.maxRows > 0 then 2 else 1)
  }

  /** A query commits if and only if begin, every command and commit succeed, and with
      a positive bound the parameters bind and the estimate is within both. */
  lemma QueryCommitsExactly<D>(o: QueryOptions, env: Behaviour<D>)
    ensures QueryCommits(o, env) <==>
      && (forall k | 0 <= k < Steps(o) + 2 :: env.answers(k))
      && (o.maxCost > 0.0 || o.maxRows > 0 ==> env.binds && env.plan.Some?)
      && (o.maxCost > 0.0 ==> env.plan.Some? && env.plan.value.cost <= o.maxCost)
      && (o.maxRows > 0 ==> env.plan.Some? && env.plan.value.rows <= o.maxRows)
  {
    StepsCounted(o);
    hide Script, Steps;
  }

  lemma StepsCounted(o: QueryOptions)
    ensures |Script(o)| == Steps(o)
  {
    SettingsExactly(o);
    ScriptExactly(o);
    hide Script, Settings;
  }

  /** A write commits if and only if besides that its parameters bind when it is
      executed directly, and the rows it touched, where the answer tells how many, are
      within a positive cap. */
  lemma WriteCommitsExactly<D>(o: QueryOptions, returning: bool, env: Behaviour<D>, d: D)
    ensures WriteCommits(o, returning, env, d) <==>
      && QueryCommits(o, env) && (returning || env.binds)
      && (o.maxAffected > 0 ==>
            if !returning then env.affected(d) <= o.maxAffected
            else env.returned(d).Some? ==> env.returned(d).value <= o.maxAffected)
  {
    hide Script;
    assert Answers(env, |Script(o)| + 2) <==> Answers(env, |Script(o)| + 1) && env.answers(|Script(o)| + 1);
  }

  /** What is reported instead: too expensive if EXPLAIN was reached and its estimate is
      over a positive bound; too many rows if the statement ran and the count is over a
      positive cap; and a driver error in all the other cases. */
  lemma WriteErrorExactly<D>(o: QueryOptions, returning: bool, env: Behaviour<D>, d: D)
    ensures WriteError(o, returning, env, d) == TooExpensive <==> OverBudget(o, env)
    ensures WriteError(o, returning, env, d) == TooManyRows <==>
      && (forall k | 0 <= k < Steps(o) + 1 :: env.answers(k)) && (returning || env.binds)
      && (o.maxCost > 0.0 || o.maxRows > 0 ==> env.binds && env.plan.Some?)
      && (o.maxCost > 0.0 ==> env.plan.Some? && env.plan.value.cost <= o.maxCost)
      && (o.maxRows > 0 ==> env.plan.Some? && env.plan.value.rows <= o.maxRows)
      && o.maxAffected > 0
      && if returning then env.returned(d).Some? && env.returned(d).value > o.maxAffected
         else env.affected(d) > o.maxAffected
    ensures QueryError(o, env) == (if OverBudget(o, env) then TooExpensive else DriverError)
  {
    StepsCounted(o);
    PricedExactly(o, env);
    hide Script, Settings, Steps, OverBudget, Priced;
    assert PlanAccepted(o, env) ==> !Priced(o, env) by { PlanOrPrice(o, env); }
  }

  /** The settings and EXPLAIN succeeded, and the estimate is over a positive bound. */
  ghost predicate OverBudget<D>(o: QueryOptions, env: Behaviour<D>) {
    && (o.maxCost > 0.0 || o.maxRows > 0) && (forall k | 0 <= k < Steps(o) :: env.answers(k))
    && env.binds && env.plan.Some?
    && ((o.maxCost > 0.0 && env.plan.value.cost > o.maxCost) || (o.maxRows > 0 && env.plan.value.rows > o.maxRows))
  }

  lemma PricedExactly<D>(o: QueryOptions, env: Behaviour<D>)
    ensures Priced(o, env) <==> OverBudget(o, env)
  {
    SettingsExactly(o);
    hide Settings;
  }

  lemma PlanOrPrice<D>(o: QueryOptions, env: Behaviour<D>)
    ensures !(PlanAccepted(o, env) && Priced(o, env))
  {
  }

  // ----- the program -----

  /** Only a part of the script has been sent. */
  ghost predicate Stopped(log: seq<Command>, ro: bool, script: seq<Command>) {
    exists k | 0 <= k <= |script| :: log == [Begin(ro)] + script[..k]
  }

  method ApplySettings<D>(conn: Connection<D>, o: QueryOptions, env: Behaviour<D>) returns (ok: bool)
    requires conn.open && |conn.log| == 1 && env.answers(0)
    modifies conn`log
    ensures ok <==> Answers(env, |Settings(o)| + 1)
    ensures ok ==> conn.log == old(conn.log) + Settings(o)
    ensures !ok ==> exists k | 0 <= k <= |Settings(o)| :: conn.log == old(conn.log) + Settings(o)[..k]
  {
    ghost var all := Settings(o);
    var n := 0;
    ok := true;
    if o.statementTimeout > 0 {
      ok := conn.Send(SetConfig("statement_timeout", FormatInt(Milliseconds(o.statementTimeout))), env);
      n := 1;
      assert conn.log == old(conn.log) + all[..n];
      if !ok { return; }
    }
    if o.idleInTxTimeout > 0 {
      ok := conn.Send(SetConfig("idle_in_transaction_session_timeout", FormatInt(Milliseconds(o.idleInTxTimeout))), env);
      n := n + 1;
      assert conn.log == old(conn.log) + all[..n];
      if !ok { return; }
    }
    if o.workMemKB > 0 {
      ok := conn.Send(SetConfig("work_mem", FormatInt(o.workMemKB)), env);
      n := n + 1;
      assert conn.log == old(conn.log) + all[..n];
      if !ok { return; }
    }
    assert n == |all| && all[..n] == all;
  }

  method CostCeilingError(est: Estimate, maxCost: real, maxRows: int) returns (err: Option<ExecError>)
    ensures err == if (maxCost > 0.0 && est.cost > maxCost) || (maxRows > 0 && est.rows > maxRows)
                   then Some(TooExpensive) else None
  {
    if maxCost > 0.0 && est.cost > maxCost {
      return Some(TooExpensive);
    }
    if maxRows > 0 && est.rows > maxRows {
      return Some(TooExpensive);
    }
    return None;
  }

  method EnforceCostCeiling<D>(conn: Connection<D>, o: QueryOptions, env: Behaviour<D>)
    returns (err: Option<ExecError>)
    requires conn.open && conn.log != []
    modifies conn`log
    ensures err == None <==> PlanAccepted(o, env) && (HasCeiling(o) ==> env.answers(|old(conn.log)|))
    ensures err == Some(TooExpensive) <==>
      HasCeiling(o) && env.binds && env.answers(|old(conn.log)|) && env.plan.Some? && !Within(env.plan.value, o)
    ensures err != Some(TooManyRows)
    ensures err == None ==> conn.log == old(conn.log) + Planning(o)
    ensures conn.log == old(conn.log) || (HasCeiling(o) && conn.log == old(conn.log) + [Explain])
  {
    if o.maxCost <= 0.0 && o.maxRows <= 0 {
      return None;
    }
    if !env.binds {
      return Some(DriverError);
    }
    var ok := conn.Send(Explain, env);
    if !ok || env.plan.None? {
      return Some(DriverError);
    }
    err := CostCeilingError(env.plan.value, o.maxCost, o.maxRows);
  }

  /** What both kinds of transaction do before the statement. */
  method Prepare<D>(conn: Connection<D>, o: QueryOptions, env: Behaviour<D>, ghost ro: bool)
    returns (err: Option<ExecError>)
    requires conn.open && conn.log == [Begin(ro)] && env.answers(0)
    modifies conn`log
    ensures err == None <==> PlanAccepted(o, env) && Answers(env, |Script(o)|)
    ensures err == Some(TooExpensive) <==> Priced(o, env)
    ensures err != Some(TooManyRows)
    ensures err == None ==> conn.log == [Begin(ro)] + Settings(o) + Planning(o)
    ensures err != None ==> Stopped(conn.log, ro, Script(o))
  {
    ghost var script := Script(o);
    ghost var n := |Settings(o)|;
    assert script[..n] == Settings(o);
    var ok := ApplySettings(conn, o, env);
    if !ok {
      ghost var k :| 0 <= k <= n && conn.log == [Begin(ro)] + Settings(o)[..k];
      assert script[..k] == Settings(o)[..k];
      return Some(DriverError);
    }
    err := EnforceCostCeiling(conn, o, env);
    assert HasCeiling(o) ==> script[..n + 1] == Settings(o) + [Explain];
    assert Stopped(conn.log, ro, script) by {
      if conn.log == [Begin(ro)] + Settings(o) {
        assert conn.log == [Begin(ro)] + script[..n];
      } else {
        assert conn.log == [Begin(ro)] + script[..n + 1];
      }
    }
  }

  method QueryInTx<D>(conn: Connection<D>, o: QueryOptions, env: Behaviour<D>)
    returns (r: Result<Reply, ExecError>)
    requires conn.open && conn.log == [Begin(o.readOnly)] && env.answers(0)
    requires conn.work == conn.data && conn.readOnly == o.readOnly
    modifies conn
    ensures r == if QueryCommits(o, env) then Ok(Json(env.returned(old(conn.data)))) else Err(QueryError(o, env))
    ensures conn.open == r.Err?
    ensures conn.data == if r.Ok? && !o.readOnly then env.effect(old(conn.data)) else old(conn.data)
    ensures r.Ok? ==> Ended(conn.log, o.readOnly, Script(o), true)
    ensures r.Err? ==> Ended(conn.log + [Rollback], o.readOnly, Script(o), false)
  {
    hide Settings, Planning, HasCeiling, PlanAccepted;
    ghost var script := Script(o);
    var err := Prepare(conn, o, env, o.readOnly);
    if err.Some? {
      assert !QueryCommits(o, env);
      assert err.value == TooExpensive || err.value == DriverError;
      return Err(err.value);
    }
    var result := env.returned(conn.work);
    var ok := conn.Run(env);
    assert conn.log == [Begin(o.readOnly)] + script;
    if !ok {
      assert script[..|script|] == script;
      return Err(DriverError);
    }
    ok := conn.CommitTx(env);
    if !ok {
      return Err(DriverError);
    }
    return Ok(Json(result));
  }

  /** Commits and returns the result, or rolls back. */
  method RunQuery<D>(conn: Connection<D>, o: QueryOptions, env: Behaviour<D>)
    returns (r: Result<Reply, ExecError>)
    requires !conn.open
    modifies conn
    ensures r == if QueryCommits(o, env) then Ok(Json(env.returned(old(conn.data)))) else Err(QueryError(o, env))
    ensures conn.data == if r.Ok? && !o.readOnly then env.effect(old(conn.data)) else old(conn.data)
    ensures !conn.open && Ended(conn.log, o.readOnly, Script(o), r.Ok?)
  {
    var ok := conn.BeginTx(o.readOnly, env);
    if !ok {
      return Err(DriverError);
    }
    r := QueryInTx(conn, o, env);
    if r.Err? {
      conn.RollbackTx();
    }
  }

  method WriteInTx<D>(conn: Connection<D>, o: QueryOptions, returning: bool, env: Behaviour<D>)
    returns (r: Result<Reply, ExecError>)
    requires conn.open && conn.log == [Begin(false)] && env.answers(0)
    requires conn.work == conn.data && !conn.readOnly
    modifies conn
    ensures r == if WriteCommits(o, returning, env, old(conn.data)) then Ok(WriteReply(returning, env, old(conn.data)))
                 else Err(WriteError(o, returning, env, old(conn.data)))
    ensures conn.open == r.Err?
    ensures conn.data == if r.Ok? then env.effect(old(conn.data)) else old(conn.data)
    ensures r.Ok? ==> Ended(conn.log, false, Script(o), true)
    ensures r.Err? ==> Ended(conn.log + [Rollback], false, Script(o), false)
  {
    hide Settings, Planning, HasCeiling, PlanAccepted;
    ghost var script := Script(o);
    ghost var n := |Settings(o) + Planning(o)|;
    assert script[..n] == Settings(o) + Planning(o) && script[..|script|] == script;
    var err := Prepare(conn, o, env, false);
    if err.Some? {
      assert !Ran(o, returning, env);
      assert err.value == TooExpensive || err.value == DriverError;
      return Err(err.value);
    }
    assert conn.log == [Begin(false)] + script[..n];
    var before := conn.work;
    var affected: int := 0;
    var known := false;
    var ok: bool;
    if returning {
      ok := conn.Run(env);
      assert conn.log == [Begin(false)] + script;
      if !ok {
        return Err(DriverError);
      }
      r := Ok(Json(env.returned(before)));
      if env.returned(before).Some? {
        affected, known := env.returned(before).value, true;
      }
    } else {
      if !env.binds {
        return Err(DriverError);
      }
      ok := conn.Run(env);
      assert conn.log == [Begin(false)] + script;
      if !ok {
        return Err(DriverError);
      }
      affected, known := env.affected(before), true;
      r := Ok(AffectedRows(affected));
    }
    if o.maxAffected > 0 && known && affected > o.maxAffected {
      return Err(TooManyRows);
    }
    ok := conn.CommitTx(env);
    if !ok {
      return Err(DriverError);
    }
  }

  method RunWrite<D>(conn: Connection<D>, o: QueryOptions, returning: bool, env: Behaviour<D>)
    returns (r: Result<Reply, ExecError>)
    requires !conn.open
    modifies conn
    ensures r == if WriteCommits(o, returning, env, old(conn.data)) then Ok(WriteReply(returning, env, old(conn.data)))
                 else Err(WriteError(o, returning, env, old(conn.data)))
    ensures conn.data == if r.Ok? then env.effect(old(conn.data)) else old(conn.data)
    ensures r.Ok? ==> r.value == if returning then Json(env.returned(old(conn.data))) else AffectedRows(env.affected(old(conn.data)))
    // the cap: a known count over it fails the write, and nothing else is refused for it
    ensures o.maxAffected > 0 && returning ==>
      (env.returned(old(conn.data)).Some? && env.returned(old(conn.data)).value > o.maxAffected ==>
        r.Err? && conn.data == old(conn.data))
    ensures o.maxAffected > 0 && !returning ==>
      (env.affected(old(conn.data)) > o.maxAffected ==> r.Err? && conn.data == old(conn.data))
    ensures r == Err(TooManyRows) ==> o.maxAffected > 0
    ensures r == Err(TooManyRows) && returning ==>
      env.returned(old(conn.data)).Some? && env.returned(old(conn.data)).value > o.maxAffected
    ensures r == Err(TooManyRows) && !returning ==> env.affected(old(conn.data)) > o.maxAffected
    ensures !conn.open && Ended(conn.log, false, Script(o), r.Ok?)
  {
    WriteCommitsExactly(o, returning, env, conn.data);
    WriteErrorExactly(o, returning, env, conn.data);
    hide WriteCommits, WriteError, QueryCommits, OverBudget, Ended;
    var ok := conn.BeginTx(false, env);
    if !ok {
      return Err(DriverError);
    }
    r := WriteInTx(conn, o, returning, env);
    if r.Err? {
      conn.RollbackTx();
    }
  }

  // ----- what that means for a transaction -----

  /** The log up to and including the first `k` commands. */
  lemma EndedIsScript(log: seq<Command>, ro: bool, script: seq<Command>, committed: bool, i: nat)
    requires Ended(log, ro, script, committed) && i < |log|
    requires log[i] != Commit && log[i] != Rollback && !log[i].Begin?
    ensures 1 <= i <= |script| && forall j | 1 <= j <= i :: log[j] == script[j - 1]
  {
  }

  /** A timeout of zero switches a limit off, and a timeout below one millisecond is
      sent as zero: a positive timeout is in force if and only if it is at least one
      millisecond. */
  lemma OffWhenBelowMillisecond(o: QueryOptions)
    ensures SetConfig("statement_timeout", "0") in Settings(o) <==> 0 < o.statementTimeout < 1_000_000
    ensures SetConfig("idle_in_transaction_session_timeout", "0") in Settings(o) <==> 0 < o.idleInTxTimeout < 1_000_000
  {
    assert FormatInt(0) == "0";
    if o.statementTimeout > 0 {
      ZeroNumeral(Milliseconds(o.statementTimeout));
      assert Settings(o)[0].name == "statement_timeout";
    }
    if o.idleInTxTimeout > 0 {
      ZeroNumeral(Milliseconds(o.idleInTxTimeout));
      assert Settings(o)[if o.statementTimeout > 0 then 1 else 0].name == "idle_in_transaction_session_timeout";
    }
  }

  lemma ZeroNumeral(i: int)
    ensures FormatInt(i) == "0" <==> i == 0
  {
    assert FormatInt(0) == "0";
    if FormatInt(i) == "0" { FormatIntInjective(i, 0); }
  }

  /** The statement, and EXPLAIN before it, are only ever sent after every session
      limit that the options enable, and the statement only after EXPLAIN when a
      ceiling is set. By `OffWhenBelowMillisecond` such a limit is in force unless it
      is a timeout below one millisecond. */
  lemma LimitsComeFirst(log: seq<Command>, ro: bool, o: QueryOptions, committed: bool, i: nat)
    requires Ended(log, ro, Script(o), committed) && i < |log| && (log[i] == Statement || log[i] == Explain)
    ensures forall c | c in Settings(o) :: c in log[..i]
    ensures log[i] == Statement && HasCeiling(o) ==> Explain in log[..i]
  {
    hide Settings, HasCeiling, Ended;
    var script, n := Script(o), |Settings(o)|;
    EndedIsScript(log, ro, script, committed, i);
    SettingsAreSet(o);
    forall k | 0 <= k < n
      ensures script[k] == Settings(o)[k] && script[k].SetConfig?
    {
      assert Settings(o)[k] in Settings(o);
    }
    assert log[i] == script[i - 1];
    assert i - 1 >= n;
    forall c | c in Settings(o)
      ensures c in log[..i]
    {
      var k :| 0 <= k < n && Settings(o)[k] == c;
      assert log[..i][k + 1] == c;
    }
    if log[i] == Statement && HasCeiling(o) {
      assert script[n] == Explain;
      assert log[..i][n + 1] == Explain;
    }
  }

  lemma SettingsAreSet(o: QueryOptions)
    ensures forall c | c in Settings(o) :: c.SetConfig?
  {
  }

  /** A transaction ends once, and a commit is final only as its last command. */
  lemma EndsOnce(log: seq<Command>, ro: bool, o: QueryOptions, committed: bool)
    requires Ended(log, ro, Script(o), committed)
    ensures committed <==> log[|log| - 1] == Commit
    ensures |log| > 1 && !committed ==> log[|log| - 1] == Rollback && Rollback !in log[..|log| - 1]
    ensures forall i | 0 <= i < |log| && log[i] == Commit :: Statement in log[..i]
  {
    var script := Script(o);
    assert Rollback !in script && Commit !in script && script[|script| - 1] == Statement;
    forall i | 0 <= i < |log| && log[i] == Commit
      ensures Statement in log[..i]
    {
      assert i == |script| + 1;
      assert log[..i][|script|] == Statement;
    }
  }
}
