/**
 The query endpoint: validation, routing by statement class, and what a sequence of
 requests does to the database.
 */
module Endpoint {
  import opened Executor
  import opened Names
  import opened Options
  import SqlGate
  import SqlLexer

  datatype Config = Config(
    writes: string,
    sqlGate: string,
    readOnly: bool,
    identityKind: string,
    rolePrefix: string,
    driver: string,
    maxQueryMs: int,
    workMemKB: int,
    maxCost: real,
    maxRows: int,
    maxAffected: int,
    maxResponseBytes: int)

  datatype Acquired = Leased | DeadlinePassed | Failed

  /** One request, and what the outside does while it is served. `principal` is the
      authenticated user id, `late` whether the deadline has passed when an error is
      reported, `encoded` the size of the JSON response (None when it cannot be
      encoded). */
  datatype Call<!D> = Call(
    decodes: bool,
    arrayParams: bool,
    query: string,
    principal: Option<int>,
    acquired: Acquired,
    tx: Behaviour<D>,
    late: bool,
    encoded: Option<nat>)

  datatype Status = Success | BadRequest | Unauthorized | TooLarge | InternalError | Unavailable

  // ----- configuration -----

  predicate WritesEnabled(cfg: Config) {
    cfg.writes == "on"
  }

  const MILLISECOND := 1_000_000

  function OptionsFor(cfg: Config): QueryOptions {
    var timeout := cfg.maxQueryMs * MILLISECOND;
    var priced := cfg.driver == "postgres";
    QueryOptions(cfg.readOnly, timeout, timeout, cfg.workMemKB,
                 if priced then cfg.maxCost else 0.0, if priced then cfg.maxRows else 0, cfg.maxAffected)
  }

  /** A read is always READ ONLY when writes are on. */
  function ReadOptions(cfg: Config): QueryOptions {
    OptionsFor(cfg).(readOnly := WritesEnabled(cfg) || cfg.readOnly)
  }

  /** Whether the request's transaction is READ ONLY. */
  predicate RunsReadOnly(cfg: Config, query: string) {
    !IsWrite(cfg, query) && ReadOptions(cfg).readOnly
  }

  // ----- which requests change the database -----

  /** The request passes the statement validator in force. */
  predicate Admitted(cfg: Config, query: string) {
    if WritesEnabled(cfg) then SqlGate.ClassVerdict(query).Ok?
    else SqlGate.CheckVerdict(query, cfg.sqlGate) == None
  }

  predicate IsWrite(cfg: Config, query: string) {
    WritesEnabled(cfg) && SqlGate.ClassVerdict(query) == Ok(SqlGate.Write)
  }

  predicate Valid<D>(cfg: Config, c: Call<D>) {
    c.decodes && !c.arrayParams && Admitted(cfg, c.query)
  }

  predicate Connects<D>(cfg: Config, c: Call<D>) {
    cfg.identityKind != "login_role"
    || (c.principal.Some? && RoleName(cfg.rolePrefix, c.principal.value).Ok? && c.acquired == Leased)
  }

  /** The request's transaction commits. */
  ghost predicate Commits<D>(cfg: Config, c: Call<D>, d: D) {
    && Valid(cfg, c) && Connects(cfg, c)
    && if IsWrite(cfg, c.query)
       then WriteCommits(OptionsFor(cfg), SqlGate.Returns(c.query), c.tx, d)
       else QueryCommits(ReadOptions(cfg), c.tx)
  }

  /** The request's transaction commits and may have changed something. */
  ghost predicate Lands<D>(cfg: Config, c: Call<D>, d: D) {
    Commits(cfg, c, d) && !RunsReadOnly(cfg, c.query)
  }

  ghost function After<D>(cfg: Config, c: Call<D>, d: D): D {
    if Lands(cfg, c, d) then c.tx.effect(d) else d
  }

  predicate Encodes<D>(cfg: Config, c: Call<D>) {
    c.encoded.Some? && (cfg.maxResponseBytes > 0 ==> c.encoded.value <= cfg.maxResponseBytes)
  }

  // ----- what the client is told -----

  ghost function ErrorOf<D>(cfg: Config, c: Call<D>, d: D): ExecError {
    if IsWrite(cfg, c.query) then WriteError(OptionsFor(cfg), SqlGate.Returns(c.query), c.tx, d)
    else QueryError(ReadOptions(cfg), c.tx)
  }

  function ConnectStatus<D>(cfg: Config, c: Call<D>): Status {
    if c.principal.None? then Unauthorized
    else if RoleName(cfg.rolePrefix, c.principal.value).Ok? && (c.acquired == DeadlinePassed || c.late) then Unavailable
    else InternalError
  }

  ghost function StatusOf<D>(cfg: Config, c: Call<D>, d: D): Status {
    if !Valid(cfg, c) then BadRequest
    else if !Connects(cfg, c) then ConnectStatus(cfg, c)
    else if !Commits(cfg, c, d) then
      if c.late then Unavailable else if ErrorOf(cfg, c, d) != DriverError then BadRequest else InternalError
    else if Encodes(cfg, c) then Success
    else if c.encoded.Some? then TooLarge else InternalError
  }

  // ----- the same from the configuration and the request alone -----

  /** Which transaction the log of a request must show: its mode, the limits of the
      configuration before the statement, and EXPLAIN exactly where there is a ceiling. */
  ghost predicate LogFollows(cfg: Config, query: string, log: seq<Command>) {
    && log != []
    && log[0] == Begin(if cfg.writes == "on" then SqlGate.ClassVerdict(query) != Ok(SqlGate.Write) else cfg.readOnly)
    && (cfg.driver == "postgres" && (cfg.maxCost > 0.0 || cfg.maxRows > 0) ==>
          forall i | 0 <= i < |log| && log[i] == Statement :: Explain in log[..i])
    && (cfg.driver != "postgres" || (cfg.maxCost <= 0.0 && cfg.maxRows <= 0) ==> Explain !in log)
    && (forall i | 0 <= i < |log| && (log[i] == Statement || log[i] == Explain) ::
          && (cfg.maxQueryMs > 0 ==>
                && SetConfig("statement_timeout", FormatInt(cfg.maxQueryMs)) in log[..i]
                && SetConfig("idle_in_transaction_session_timeout", FormatInt(cfg.maxQueryMs)) in log[..i])
          && (cfg.workMemKB > 0 ==> SetConfig("work_mem", FormatInt(cfg.workMemKB)) in log[..i]))
  }

  lemma EndedFollows(cfg: Config, query: string, log: seq<Command>, committed: bool)
    requires WritesEnabled(cfg) ==> SqlGate.ClassVerdict(query).Ok?
    requires Ended(log, RunsReadOnly(cfg, query), Script(OptionsFor(cfg)), committed)
    ensures LogFollows(cfg, query, log)
  {
    hide SqlGate.ClassVerdict, FormatInt;
    var ro, o := RunsReadOnly(cfg, query), OptionsFor(cfg);
    assert log[0] == Begin(ro);
    forall i | 0 <= i < |log| && (log[i] == Statement || log[i] == Explain)
      ensures cfg.maxQueryMs > 0 ==>
        && SetConfig("statement_timeout", FormatInt(cfg.maxQueryMs)) in log[..i]
        && SetConfig("idle_in_transaction_session_timeout", FormatInt(cfg.maxQueryMs)) in log[..i]
      ensures cfg.workMemKB > 0 ==> SetConfig("work_mem", FormatInt(cfg.workMemKB)) in log[..i]
      ensures log[i] == Statement && HasCeiling(o) ==> Explain in log[..i]
    {
      LimitsComeFirst(log, ro, o, committed, i);
      LimitsFromConfig(cfg);
    }
    CeilingFromConfig(cfg);
    if !HasCeiling(o) { NoExplain(log, ro, o, committed); }
  }

  lemma LimitsFromConfig(cfg: Config)
    ensures var all := Settings(OptionsFor(cfg));
      && (cfg.maxQueryMs > 0 ==>
            && SetConfig("statement_timeout", FormatInt(cfg.maxQueryMs)) in all
            && SetConfig("idle_in_transaction_session_timeout", FormatInt(cfg.maxQueryMs)) in all)
      && (cfg.workMemKB > 0 ==> SetConfig("work_mem", FormatInt(cfg.workMemKB)) in all)
  {
    var o := OptionsFor(cfg);
    SettingsExactly(o);
    hide Settings, FormatInt;
    assert o.statementTimeout == o.idleInTxTimeout == cfg.maxQueryMs * 1_000_000;
    assert cfg.maxQueryMs > 0 ==> o.statementTimeout / 1_000_000 == cfg.maxQueryMs;
  }

  lemma CeilingFromConfig(cfg: Config)
    ensures HasCeiling(OptionsFor(cfg)) <==> cfg.driver == "postgres" && (cfg.maxCost > 0.0 || cfg.maxRows > 0)
  {
  }

  lemma NoExplain(log: seq<Command>, ro: bool, o: QueryOptions, committed: bool)
    requires Ended(log, ro, Script(o), committed) && !HasCeiling(o)
    ensures Explain !in log
  {
    SettingsAreSet(o);
    hide Settings, HasCeiling;
    assert Explain !in Script(o);
  }

  /** When a request's transaction commits: it is valid and gets a connection, every
      command succeeds, the plan is inside the configured bounds where PostgreSQL is
      the driver, and a write binds and stays inside the configured cap. */
  lemma CommitsExactly<D>(cfg: Config, c: Call<D>, d: D)
    ensures var writesOn, ceiling := cfg.writes == "on", cfg.driver == "postgres" && (cfg.maxCost > 0.0 || cfg.maxRows > 0);
      var admitted := if writesOn then SqlGate.ClassVerdict(c.query).Ok?
        else SqlGate.CheckVerdict(c.query, cfg.sqlGate) == None;
      var write := writesOn && SqlGate.ClassVerdict(c.query) == Ok(SqlGate.Write);
      var connects := cfg.identityKind == "login_role" ==>
        c.principal.Some? && RoleName(cfg.rolePrefix, c.principal.value).Ok? && c.acquired == Leased;
      var commands := (if cfg.maxQueryMs > 0 then 2 else 0) + (if cfg.workMemKB > 0 then 1 else 0)
        + (if ceiling then 2 else 1);
      Commits(cfg, c, d) <==>
        && c.decodes && !c.arrayParams && admitted && connects
        && (forall k | 0 <= k < commands + 2 :: c.tx.answers(k))
        && (ceiling ==> c.tx.binds && c.tx.plan.Some?)
        && (ceiling && cfg.maxCost > 0.0 ==> c.tx.plan.Some? && c.tx.plan.value.cost <= cfg.maxCost)
        && (ceiling && cfg.maxRows > 0 ==> c.tx.plan.Some? && c.tx.plan.value.rows <= cfg.maxRows)
        && (write && !SqlGate.Returns(c.query) ==> c.tx.binds)
        && (write && cfg.maxAffected > 0 ==>
              if !SqlGate.Returns(c.query) then c.tx.affected(d) <= cfg.maxAffected
              else c.tx.returned(d).Some? ==> c.tx.returned(d).value <= cfg.maxAffected)
  {
    QueryCommitsExactly(ReadOptions(cfg), c.tx);
    QueryCommitsExactly(OptionsFor(cfg), c.tx);
    WriteCommitsExactly(OptionsFor(cfg), SqlGate.Returns(c.query), c.tx, d);
    hide SqlGate.ClassVerdict, SqlGate.CheckVerdict, SqlGate.Returns, RoleName, WriteCommits, QueryCommits;
  }

  /** A request commits only with a plan inside the configured bounds, when the driver
      is PostgreSQL, and a write only with a known count inside the configured cap. */
  lemma CommittedWithinBounds<D>(cfg: Config, c: Call<D>, d: D)
    requires Commits(cfg, c, d)
    ensures cfg.driver == "postgres" && cfg.maxCost > 0.0 ==> c.tx.plan.Some? && c.tx.plan.value.cost <= cfg.maxCost
    ensures cfg.driver == "postgres" && cfg.maxRows > 0 ==> c.tx.plan.Some? && c.tx.plan.value.rows <= cfg.maxRows
    ensures cfg.writes == "on" && SqlGate.ClassVerdict(c.query) == Ok(SqlGate.Write) && cfg.maxAffected > 0 ==>
      if SqlLexer.Token(SqlLexer.Word, "returning") in SqlLexer.Lex(c.query)
      then c.tx.returned(d).Some? ==> c.tx.returned(d).value <= cfg.maxAffected
      else c.tx.affected(d) <= cfg.maxAffected
  {
    hide SqlGate.ClassVerdict, SqlGate.CheckVerdict, SqlLexer.Lex, Commits;
    CommitsExactly(cfg, c, d);
  }

  /** So a write over the cap leaves the database as it is. */
  lemma OverTheCapUnchanged<D>(cfg: Config, c: Call<D>, d: D)
    requires cfg.writes == "on" && cfg.maxAffected > 0
    requires if SqlLexer.Token(SqlLexer.Word, "returning") in SqlLexer.Lex(c.query)
             then c.tx.returned(d).Some? && c.tx.returned(d).value > cfg.maxAffected
             else c.tx.affected(d) > cfg.maxAffected
    ensures After(cfg, c, d) == d
  {
    hide SqlGate.ClassVerdict, SqlLexer.Lex, Commits;
    if Lands(cfg, c, d) {
      OnlyWritesLand(cfg, c, d);
      CommittedWithinBounds(cfg, c, d);
      assert false;
    }
  }

  /** Every status by its cause. */
  lemma StatusByCause<D>(cfg: Config, c: Call<D>, d: D)
    ensures var status := StatusOf(cfg, c, d);
      var bad := !c.decodes || c.arrayParams
        || if cfg.writes == "on" then SqlGate.ClassVerdict(c.query).Err?
           else SqlGate.CheckVerdict(c.query, cfg.sqlGate) != None;
      var asRole := cfg.identityKind == "login_role";
      var named := c.principal.Some? && RoleName(cfg.rolePrefix, c.principal.value).Ok?;
      var connected := !bad && (!asRole || (named && c.acquired == Leased));
      var committed := Commits(cfg, c, d);
      var error := ErrorOf(cfg, c, d);
      var tooLarge := c.encoded.Some? && cfg.maxResponseBytes > 0 && c.encoded.value > cfg.maxResponseBytes;
      && (committed ==> connected)
      && (status == Success <==> committed && c.encoded.Some? && !tooLarge)
      && (status == TooLarge <==> committed && tooLarge)
      && (status == Unauthorized <==> !bad && asRole && c.principal == None)
      && (status == BadRequest <==> bad || (connected && !committed && !c.late && error != DriverError))
      && (status == Unavailable <==>
            || (!bad && asRole && named && c.acquired != Leased && (c.acquired == DeadlinePassed || c.late))
            || (connected && !committed && c.late))
      && (status == InternalError <==>
            || (!bad && asRole && c.principal.Some? && !named)
            || (!bad && asRole && named && c.acquired == Failed && !c.late)
            || (connected && !committed && !c.late && error == DriverError)
            || (committed && c.encoded == None))
  {
    hide SqlGate.ClassVerdict, SqlGate.CheckVerdict, RoleName, ErrorOf, WriteCommits, QueryCommits;
  }

  class Server<D> {
    const cfg: Config
    const conn: Connection<D>
    /** Leases of per-role pools that have not been released. */
    var leases: int

    constructor (cfg: Config, initial: D)
      ensures this.cfg == cfg && fresh(conn) && conn.data == initial && !conn.open && leases == 0
    {
      this.cfg := cfg;
      conn := new Connection(initial);
      leases := 0;
    }

    /** The pool the caller's statement runs on, or the error status. */
    method SelectQueryPool(c: Call<D>) returns (ok: bool, status: Status)
      modifies this`leases
      ensures ok <==> Connects(cfg, c)
      ensures !ok ==> status == ConnectStatus(cfg, c)
      ensures leases == old(leases) + if ok && cfg.identityKind == "login_role" then 1 else 0
    {
      if cfg.identityKind != "login_role" {
        return true, Success;
      }
      if c.principal.None? {
        return false, Unauthorized;
      }
      if RoleName(cfg.rolePrefix, c.principal.value).Err? {
        return false, InternalError;
      }
      if c.acquired != Leased {
        if c.acquired == DeadlinePassed || c.late {
          return false, Unavailable;
        }
        return false, InternalError;
      }
      leases := leases + 1;
      return true, Success;
    }

    method Release()
      modifies this`leases
      ensures leases == old(leases) - if cfg.identityKind == "login_role" then 1 else 0
    {
      if cfg.identityKind == "login_role" {
        leases := leases - 1;
      }
    }

    method Handle(c: Call<D>) returns (status: Status)
      requires !conn.open
      modifies this, conn
      ensures conn.data == After(cfg, c, old(conn.data))
      ensures if Valid(cfg, c) && Connects(cfg, c)
              then Ended(conn.log, RunsReadOnly(cfg, c.query), Script(OptionsFor(cfg)), Commits(cfg, c, old(conn.data)))
                   && LogFollows(cfg, c.query, conn.log)
              else conn.log == old(conn.log)
      ensures status == StatusOf(cfg, c, old(conn.data))
      ensures !conn.open && leases == old(leases)
    {
      if !c.decodes || c.arrayParams {
        return BadRequest;
      }
      var writesEnabled := WritesEnabled(cfg);
      var kind := SqlGate.Read;
      var hasReturning := false;
      if writesEnabled {
        var verdict := SqlGate.Classify(c.query);
        if verdict.Err? {
          return BadRequest;
        }
        kind := verdict.value;
        if kind == SqlGate.Write {
          hasReturning := SqlGate.HasReturning(c.query);
        }
      } else {
        var err := SqlGate.Check(c.query, cfg.sqlGate);
        if err.Some? {
          return BadRequest;
        }
      }
      var ok, failure := SelectQueryPool(c);
      if !ok {
        return failure;
      }
      status := Route(c, kind, hasReturning);
      EndedFollows(cfg, c.query, conn.log, Commits(cfg, c, old(conn.data)));
      Release();
    }

    method Route(c: Call<D>, kind: SqlGate.Class, hasReturning: bool) returns (status: Status)
      requires !conn.open && Valid(cfg, c) && Connects(cfg, c)
      requires WritesEnabled(cfg) ==> SqlGate.ClassVerdict(c.query) == Ok(kind)
      requires IsWrite(cfg, c.query) ==> hasReturning == SqlGate.Returns(c.query)
      modifies conn
      ensures conn.data == After(cfg, c, old(conn.data))
      ensures Ended(conn.log, RunsReadOnly(cfg, c.query), Script(OptionsFor(cfg)), Commits(cfg, c, old(conn.data)))
      ensures status == StatusOf(cfg, c, old(conn.data))
      ensures !conn.open
    {
      var opts := OptionsFor(cfg);
      var r: Result<Reply, ExecError>;
      if WritesEnabled(cfg) && kind == SqlGate.Write {
        r := RunWrite(conn, opts, hasReturning, c.tx);
      } else {
        var readOpts := opts;
        if WritesEnabled(cfg) {
          readOpts := readOpts.(readOnly := true);
        }
        r := RunQuery(conn, readOpts, c.tx);
      }
      if r.Err? {
        if c.late {
          return Unavailable;
        }
        if r.error == TooExpensive || r.error == TooManyRows {
          return BadRequest;
        }
        return InternalError;
      }
      if c.encoded.None? {
        return InternalError;
      }
      if cfg.maxResponseBytes > 0 && c.encoded.value > cfg.maxResponseBytes {
        return TooLarge;
      }
      return Success;
    }

    /** Any sequence of requests, one after the other. */
    method Serve(calls: seq<Call<D>>) returns (statuses: seq<Status>)
      requires !conn.open
      modifies this, conn
      ensures conn.data == StateAfter(cfg, calls, old(conn.data))
      ensures |statuses| == |calls|
      ensures forall i | 0 <= i < |calls| ::
        statuses[i] == StatusOf(cfg, calls[i], StateAfter(cfg, calls[..i], old(conn.data)))
      ensures !conn.open && leases == old(leases)
    {
      hide StatusOf, After, StateAfter;
      statuses := [];
      ghost var initial := conn.data;
      StateBefore(cfg, calls, initial);
      for n := 0 to |calls|
        invariant !conn.open && leases == old(leases) && |statuses| == n
        invariant conn.data == StateAfter(cfg, calls[..n], initial)
        invariant forall i | 0 <= i < n ::
          statuses[i] == StatusOf(cfg, calls[i], StateAfter(cfg, calls[..i], initial))
      {
        StateStep(cfg, calls, n, initial);
        var status := Handle(calls[n]);
        statuses := statuses + [status];
      }
      assert calls[..|calls|] == calls;
    }
  }

  // ----- runs -----

  ghost function StateAfter<D>(cfg: Config, calls: seq<Call<D>>, d: D): D {
    if calls == [] then d else
      var last := |calls| - 1;
      After(cfg, calls[last], StateAfter(cfg, calls[..last], d))
  }

  lemma StateBefore<D>(cfg: Config, calls: seq<Call<D>>, d: D)
    ensures StateAfter(cfg, calls[..0], d) == d
  {
  }

  lemma StateStep<D>(cfg: Config, calls: seq<Call<D>>, n: nat, d: D)
    requires n < |calls|
    ensures StateAfter(cfg, calls[..n + 1], d) == After(cfg, calls[n], StateAfter(cfg, calls[..n], d))
  {
    assert calls[..n + 1][..n] == calls[..n];
  }

  /** A request whose transaction changed the database, and the state it met. */
  datatype Landing<!D> = Landing(call: Call<D>, met: D)

  ghost function Landed<D>(cfg: Config, calls: seq<Call<D>>, d: D): seq<Landing<D>> {
    if calls == [] then [] else
      var last := |calls| - 1;
      var met := StateAfter(cfg, calls[..last], d);
      Landed(cfg, calls[..last], d) + if Lands(cfg, calls[last], met) then [Landing(calls[last], met)] else []
  }

  /** The effects alone, one after the other. */
  ghost function Replay<D>(ls: seq<Landing<D>>, d: D): D {
    if ls == [] then d else
      var last := |ls| - 1;
      ls[last].call.tx.effect(Replay(ls[..last], d))
  }

  /** What may change the database: with writes on only a statement classified as a
      write, and never one with a known count over the cap. */
  lemma OnlyWritesLand<D>(cfg: Config, c: Call<D>, d: D)
    requires Lands(cfg, c, d)
    ensures cfg.writes == "on" ==>
      && SqlGate.ClassVerdict(c.query) == Ok(SqlGate.Write)
      && (cfg.maxAffected > 0 ==>
            if !SqlGate.Returns(c.query) then c.tx.affected(d) <= cfg.maxAffected
            else c.tx.returned(d).Some? ==> c.tx.returned(d).value <= cfg.maxAffected)
    ensures cfg.writes != "on" ==> !cfg.readOnly && SqlGate.CheckVerdict(c.query, cfg.sqlGate) == None
  {
  }

  /** A statement classified as a write, whose transaction committed within the cap. */
  ghost predicate CommittedWrite<D>(cfg: Config, l: Landing<D>) {
    && SqlGate.ClassVerdict(l.call.query) == Ok(SqlGate.Write)
    && WriteCommits(OptionsFor(cfg), SqlGate.Returns(l.call.query), l.call.tx, l.met)
    && (cfg.maxAffected > 0 ==>
          if !SqlGate.Returns(l.call.query) then l.call.tx.affected(l.met) <= cfg.maxAffected
          else l.call.tx.returned(l.met).Some? ==> l.call.tx.returned(l.met).value <= cfg.maxAffected)
  }

  lemma {:induction false} FoldIsReplay<D>(cfg: Config, calls: seq<Call<D>>, d: D)
    ensures StateAfter(cfg, calls, d) == Replay(Landed(cfg, calls, d), d)
  {
    hide Lands;
    if calls != [] {
      var last := |calls| - 1;
      FoldIsReplay(cfg, calls[..last], d);
      var met, before := StateAfter(cfg, calls[..last], d), Landed(cfg, calls[..last], d);
      if Lands(cfg, calls[last], met) {
        assert (before + [Landing(calls[last], met)])[..|before|] == before;
      } else {
        assert before + [] == before;
      }
    }
  }

  /** `l` is the request at index `i`, with the state it met, and it landed. */
  ghost predicate LandsAt<D>(cfg: Config, calls: seq<Call<D>>, d: D, i: nat, l: Landing<D>) {
    i < |calls| && l == Landing(calls[i], StateAfter(cfg, calls[..i], d)) && Lands(cfg, l.call, l.met)
  }

  lemma {:induction false} LandedExactly<D>(cfg: Config, calls: seq<Call<D>>, d: D, l: Landing<D>)
    ensures l in Landed(cfg, calls, d) <==> exists i :: LandsAt(cfg, calls, d, i, l)
  {
    hide Lands;
    if calls != [] {
      var last := |calls| - 1;
      LandedExactly(cfg, calls[..last], d, l);
      forall i: nat
        ensures LandsAt(cfg, calls, d, i, l) <==>
          LandsAt(cfg, calls[..last], d, i, l) || (i == last && LandsAt(cfg, calls, d, last, l))
      {
        if i < last { assert calls[..last][..i] == calls[..i]; }
      }
      assert l in Landed(cfg, calls, d) <==> l in Landed(cfg, calls[..last], d) || LandsAt(cfg, calls, d, last, l);
    }
  }

  /** A request changes the database if and only if it commits and, with writes on, is
      classified as a write, or, with writes off, read_only is off. */
  lemma LandsExactly<D>(cfg: Config, c: Call<D>, d: D)
    ensures Lands(cfg, c, d) <==>
      Commits(cfg, c, d) && if cfg.writes == "on" then SqlGate.ClassVerdict(c.query) == Ok(SqlGate.Write) else !cfg.readOnly
    ensures After(cfg, c, d) == if Lands(cfg, c, d) then c.tx.effect(d) else d
  {
    hide QueryCommits, WriteCommits;
  }

  lemma LandingIsWrite<D>(cfg: Config, c: Call<D>, d: D)
    requires WritesEnabled(cfg) && Lands(cfg, c, d)
    ensures CommittedWrite(cfg, Landing(c, d))
  {
    OnlyWritesLand(cfg, c, d);
  }

  /** With writes on, whatever the requests, the database is the fold of exactly the
      statements classified as writes whose transactions committed, each within the
      cap and each on the state it met. */
  lemma StateIsFoldOfWrites<D>(cfg: Config, calls: seq<Call<D>>, d: D)
    requires WritesEnabled(cfg)
    ensures StateAfter(cfg, calls, d) == Replay(Landed(cfg, calls, d), d)
    ensures forall i | 0 <= i < |calls| ::
      var l := Landing(calls[i], StateAfter(cfg, calls[..i], d));
      SqlGate.ClassVerdict(l.call.query) == Ok(SqlGate.Write) && Commits(cfg, l.call, l.met) ==>
        l in Landed(cfg, calls, d)
    ensures forall l | l in Landed(cfg, calls, d) ::
      (exists i :: LandsAt(cfg, calls, d, i, l)) && CommittedWrite(cfg, l)
  {
    hide CommittedWrite, Lands, Commits, Landed, StateAfter, Replay, SqlGate.ClassVerdict;
    FoldIsReplay(cfg, calls, d);
    forall i | 0 <= i < |calls|
      ensures var l := Landing(calls[i], StateAfter(cfg, calls[..i], d));
        SqlGate.ClassVerdict(l.call.query) == Ok(SqlGate.Write) && Commits(cfg, l.call, l.met) ==>
          l in Landed(cfg, calls, d)
    {
      var l := Landing(calls[i], StateAfter(cfg, calls[..i], d));
      LandsExactly(cfg, l.call, l.met);
      LandedExactly(cfg, calls, d, l);
      assert Lands(cfg, l.call, l.met) ==> LandsAt(cfg, calls, d, i, l);
    }
    forall l | l in Landed(cfg, calls, d)
      ensures (exists i :: LandsAt(cfg, calls, d, i, l)) && CommittedWrite(cfg, l)
    {
      LandedExactly(cfg, calls, d, l);
      LandingIsWrite(cfg, l.call, l.met);
    }
  }

  /** With writes off and read_only on, no sequence of requests changes anything. */
  lemma {:induction false} ReadOnlyNeverChanges<D>(cfg: Config, calls: seq<Call<D>>, d: D)
    requires !WritesEnabled(cfg) && cfg.readOnly
    ensures StateAfter(cfg, calls, d) == d
  {
    if calls != [] {
      ReadOnlyNeverChanges(cfg, calls[..|calls| - 1], d);
    }
  }

  // ----- error answers -----

  /** A client that gets an error can conclude that its statement changed nothing if
      and only if the response of a committed one can be delivered: encoding comes
      after the commit, and its failure is reported as an error. */
  lemma ErrorMeansUnchanged<D>(cfg: Config, c: Call<D>, d: D)
    ensures StatusOf(cfg, c, d) == Success <==> Commits(cfg, c, d) && Encodes(cfg, c)
    ensures StatusOf(cfg, c, d) != Success && Lands(cfg, c, d) <==> Lands(cfg, c, d) && !Encodes(cfg, c)
    ensures StatusOf(cfg, c, d) == TooLarge ==> Commits(cfg, c, d)
    ensures StatusOf(cfg, c, d) in {BadRequest, Unauthorized, Unavailable} ==> After(cfg, c, d) == d
  {
    hide WriteCommits, QueryCommits, ErrorOf, Valid, Connects, Encodes;
    if Valid(cfg, c) && !Connects(cfg, c) {
      assert StatusOf(cfg, c, d) == ConnectStatus(cfg, c);
    }
  }

  const TINY_RESPONSES := Config("on", "on", false, "none", "u_", "postgres", 1000, 0, 0.0, 0, 0, 10)

  /** A request with which nothing goes wrong, and a response of 15 bytes. */
  ghost function SmoothCall<D>(query: string, change: D -> D): Call<D> {
    Call(true, false, query, None, Leased,
         Behaviour(k => true, true, None, change, (x: D) => None, (x: D) => 1), false, Some(15))
  }

  lemma SmoothCallCommits<D>(query: string, change: D -> D, d: D)
    ensures WriteCommits(OptionsFor(TINY_RESPONSES), SqlGate.Returns(query), SmoothCall(query, change).tx, d)
  {
    hide SqlGate.Returns, Settings;
  }

  /** It does happen, to every statement classified as a write: it commits, and its
      client is told that the response is too large. */
  lemma RefusedAfterCommit<D>(query: string, change: D -> D, d: D)
    requires SqlGate.ClassVerdict(query) == Ok(SqlGate.Write)
    ensures exists cfg: Config, c: Call<D> ::
      && c.query == query && WritesEnabled(cfg)
      && StatusOf(cfg, c, d) == TooLarge && After(cfg, c, d) == change(d)
  {
    var cfg, c := TINY_RESPONSES, SmoothCall(query, change);
    SmoothCallCommits(query, change, d);
    hide SqlGate.ClassVerdict, SqlGate.Returns, WriteCommits, OptionsFor;
    assert StatusOf(cfg, c, d) == TooLarge && After(cfg, c, d) == change(d);
  }

  /** Every statement the endpoint sends runs under the configured timeout. */
  lemma TimeoutInForce(cfg: Config, log: seq<Command>, ro: bool, committed: bool, i: nat)
    requires Ended(log, ro, Script(OptionsFor(cfg)), committed) && i < |log| && log[i] == Statement
    requires cfg.maxQueryMs > 0
    ensures SetConfig("statement_timeout", FormatInt(cfg.maxQueryMs)) in log[..i]
    ensures SetConfig("idle_in_transaction_session_timeout", FormatInt(cfg.maxQueryMs)) in log[..i]
    ensures FormatInt(cfg.maxQueryMs) != "0"
  {
    var o := OptionsFor(cfg);
    LimitsComeFirst(log, ro, o, committed, i);
    ZeroNumeral(cfg.maxQueryMs);
    assert Milliseconds(o.statementTimeout) == cfg.maxQueryMs;
    var all := Settings(o);
    assert all[0] == SetConfig("statement_timeout", FormatInt(cfg.maxQueryMs));
    assert all[1] == SetConfig("idle_in_transaction_session_timeout", FormatInt(cfg.maxQueryMs));
  }
}
