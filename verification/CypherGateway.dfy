/**
 The query gateway: one connection carries either one query or one transaction over a unit of work. What a
 connection writes is a list of changes; other connections' changes may come in between its requests.
 */
module CypherGateway {
  import opened Prelude
  import opened UnitOfWork

  /** What a query did to the graph, and the record that says it ran. */
  datatype Change = Effect(query: string) | Audit(query: string)

  datatype Mode = ReadMode | WriteMode | OtherMode(name: string)

  /** What the store answers is part of the request: the statement, the audit or the commit may fail. */
  datatype Op =
    | Begin
    | Commit(conflict: bool)
    | AbortTx
    | Query(mode: Mode, text: string, hasWriteClause: bool, statementFails: bool, auditFails: bool, commitFails: bool)
    | OtherOp(name: string)

  datatype Request = Request(token: string, op: Op)

  datatype Arrival = Arrival(now: int, request: Request)

  datatype GatewayError =
    | BadToken | TimedOut | AlreadyOpen | NotOpen | UnsupportedOp | UnsupportedMode | EmptyQuery | WriteInReadMode
    | StatementFailed | AuditFailed | UnitOfWorkFailed(failure: Failure)

  datatype ConnTx = ConnTx(tx: Option<Tx<Change>>, startedAt: int)

  datatype Config = Config(token: string, timeout: int)

  datatype Handled = Handled(
    response: Result<(), GatewayError>,
    committed: seq<Change>,
    conn: Option<ConnTx>,
    done: bool)

  // ---------------------------------------------------------------------------
  // One request

  predicate Blank(text: string) {
    forall k :: 0 <= k < |text| ==> text[k] in {' ', '\t', '\n', '\r'}
  }

  function QueryRefused(q: Op): Option<GatewayError>
    requires q.Query?
  {
    if q.mode.OtherMode? then Some(UnsupportedMode)
    else if Blank(q.text) then Some(EmptyQuery)
    else if q.mode.ReadMode? && q.hasWriteClause then Some(WriteInReadMode)
    else None
  }

  /** Run a statement on the store: in the open transaction, else it commits by itself. */
  function RunStatement(u: Uow<Change>, c: Change): Uow<Change> {
    if u.open.Some? then Written(u, c).0 else u.(durable := u.durable + [c])
  }

  /** Save a record: in the open transaction, else in one of its own. */
  function SaveRecord(u: Uow<Change>, c: Change): Uow<Change> {
    if u.open.Some? then Written(u, c).0 else Exited(Written(Entered(u), c).0, false, false).0
  }

  function RunAndAudit(u: Uow<Change>, q: Op): (Uow<Change>, Option<GatewayError>)
    requires q.Query?
  {
    if q.statementFails then (u, Some(StatementFailed))
    else
      var ran := RunStatement(u, Effect(q.text));
      if q.auditFails then (ran, Some(AuditFailed)) else (SaveRecord(ran, Audit(q.text)), None)
  }

  function Answer(error: Option<GatewayError>): Result<(), GatewayError> {
    if error.Some? then Err(error.value) else Ok(())
  }

  function Refuse(conn: Option<ConnTx>, error: GatewayError): Handled {
    Handled(Err(error), [], conn, conn.None?)
  }

  function HandleQuery(conn: Option<ConnTx>, q: Op): Handled
    requires q.Query?
  {
    if QueryRefused(q).Some? then Refuse(conn, QueryRefused(q).value)
    else if conn.Some? then
      var (u, error) := RunAndAudit(Uow(conn.value.tx, []), q);
      Handled(Answer(error), u.durable, Some(conn.value.(tx := u.open)), false)
    else
      var (u, error) := RunAndAudit(Entered(Uow(None, [])), q);
      var (v, failure) := Exited(u, error.Some?, q.commitFails);
      Handled(
        if failure.Some? then Err(UnitOfWorkFailed(failure.value)) else Answer(error), v.durable, None, true)
  }

  predicate Overdue(cfg: Config, conn: ConnTx, now: int) {
    now - conn.startedAt > cfg.timeout
  }

  function Aborted(conn: ConnTx): ConnTx {
    conn.(tx := RolledBack(Uow(conn.tx, [])).0.open)
  }

  function HandleRequest(cfg: Config, conn: Option<ConnTx>, a: Arrival): Handled {
    var op := a.request.op;
    if a.request.token != cfg.token || cfg.token == "" then Refuse(conn, BadToken)
    else if conn.Some? && Overdue(cfg, conn.value, a.now) then Refuse(Some(Aborted(conn.value)), TimedOut)
    else
      match op
      case Begin =>
        if conn.Some? then Refuse(conn, AlreadyOpen)
        else Handled(Ok(()), [], Some(ConnTx(Entered(Uow(None, [])).open, a.now)), false)
      case Commit(conflict) =>
        if conn.None? then Refuse(conn, NotOpen)
        else
          var (u, failure) := Exited(Uow(conn.value.tx, []), false, conflict);
          if failure.Some? then Refuse(Some(conn.value.(tx := u.open)), UnitOfWorkFailed(failure.value))
          else Handled(Ok(()), u.durable, None, true)
      case AbortTx =>
        if conn.None? then Refuse(conn, NotOpen) else Handled(Ok(()), [], None, true)
      case Query(_, _, _, _, _, _) => HandleQuery(conn, op)
      case OtherOp(_) => Refuse(conn, UnsupportedOp)
  }

  // ---------------------------------------------------------------------------
  // One connection

  /** What the requests of a connection give, up to the one that ends it. */
  function Served(cfg: Config, conn: Option<ConnTx>, arrivals: seq<Arrival>): seq<Handled>
    decreases |arrivals|
  {
    if arrivals == [] then []
    else
      var h := HandleRequest(cfg, conn, arrivals[0]);
      [h] + if h.done then [] else Served(cfg, h.conn, arrivals[1..])
  }

  function Committed(hs: seq<Handled>): seq<Change> {
    if hs == [] then [] else hs[0].committed + Committed(hs[1..])
  }

  /** What a query did, as far as its answer tells: an effect without its record when the record failed. */
  function RanBy(a: Arrival, h: Handled): seq<Change> {
    if !a.request.op.Query? then []
    else if h.response.Ok? then [Effect(a.request.op.text), Audit(a.request.op.text)]
    else if h.response.error == AuditFailed then [Effect(a.request.op.text)]
    else []
  }

  function Ran(arrivals: seq<Arrival>, hs: seq<Handled>): seq<Change>
    requires |hs| <= |arrivals|
  {
    if hs == [] then [] else RanBy(arrivals[0], hs[0]) + Ran(arrivals[1..], hs[1..])
  }

  lemma {:induction false} ServedLength(cfg: Config, conn: Option<ConnTx>, arrivals: seq<Arrival>)
    ensures |Served(cfg, conn, arrivals)| <= |arrivals|
    ensures arrivals != [] ==> Served(cfg, conn, arrivals) != []
    decreases |arrivals|
  {
    hide HandleRequest;
    if arrivals != [] {
      ServedLength(cfg, HandleRequest(cfg, conn, arrivals[0]).conn, arrivals[1..]);
    }
  }

  /** The connection ended with an accepted commit, or with its one query. */
  predicate EndsCommitted(arrivals: seq<Arrival>, hs: seq<Handled>)
    requires |hs| <= |arrivals|
  {
    && hs != [] && hs[|hs| - 1].response.Ok? && hs[|hs| - 1].done
    && !arrivals[|hs| - 1].request.op.AbortTx?
  }

  predicate CommitFailed(a: Arrival, h: Handled) {
    a.request.op.Commit? && h.response.Err? && h.response.error.UnitOfWorkFailed?
  }

  predicate ClockAdvances(arrivals: seq<Arrival>) {
    forall i, j :: 0 <= i < j < |arrivals| ==> arrivals[i].now <= arrivals[j].now
  }

  predicate Healthy(conn: ConnTx) {
    conn.tx.Some? && conn.tx.value.depth == 1 && !conn.tx.value.rollbackOnly
  }

  /** A connection whose transaction is over, while it still has the handle of it. */
  predicate Dead(conn: Option<ConnTx>) {
    conn.Some? && conn.value.tx.None?
  }

  /** What the queries did that ran on the handle of a transaction that was over. */
  function LateRan(conn: Option<ConnTx>, arrivals: seq<Arrival>, hs: seq<Handled>): seq<Change>
    requires |hs| <= |arrivals|
    decreases |hs|
  {
    if hs == [] then []
    else (if Dead(conn) then RanBy(arrivals[0], hs[0]) else []) + LateRan(hs[0].conn, arrivals[1..], hs[1..])
  }

  // One request, by the state it finds.

  lemma FirstRequest(cfg: Config, a: Arrival)
    ensures
      var h := HandleRequest(cfg, None, a);
      && (h.done ==> h.conn.None? && h.committed == if h.response.Ok? then RanBy(a, h) else [])
      && (h.done && h.response.Ok? ==> !a.request.op.AbortTx?)
      && (!h.done ==> h.response.Ok? && h.committed == [] && RanBy(a, h) == []
                      && h.conn == Some(ConnTx(Some(Tx(1, false, [])), a.now)))
  {
  }

  lemma HealthyRequest(cfg: Config, conn: ConnTx, a: Arrival)
    requires Healthy(conn)
    ensures
      var h := HandleRequest(cfg, Some(conn), a);
      var pending := conn.tx.value.pending;
      && (h.done ==> h.response.Ok? && RanBy(a, h) == []
                     && (a.request.op.AbortTx? ==> h.committed == [])
                     && (!a.request.op.AbortTx? ==> h.committed == pending))
      && (!h.done ==> h.committed == [] && h.conn.Some? && h.conn.value.startedAt == conn.startedAt
                      && (Healthy(h.conn.value) || (Dead(h.conn) && RanBy(a, h) == []))
                      && (Healthy(h.conn.value) ==> h.conn.value.tx.value.pending == pending + RanBy(a, h))
                      && (Dead(h.conn) ==> CommitFailed(a, h) || Overdue(cfg, h.conn.value, a.now)))
  {
  }

  /** On the handle of a transaction that is over, what a query does is durable at once. */
  lemma DeadRequest(cfg: Config, conn: Option<ConnTx>, a: Arrival)
    requires Dead(conn)
    ensures
      var h := HandleRequest(cfg, conn, a);
      && h.committed == RanBy(a, h)
      && (h.done ==> a.request.op.AbortTx?)
      && (!h.done ==> h.conn == conn)
      && (Overdue(cfg, conn.value, a.now) ==> h.response.Err? && !h.done && h.committed == [])
  {
    if a.request.op.Query? {
      LateQuery(a.request.op);
    }
  }

  lemma LateQuery(q: Op)
    requires q.Query?
    ensures
      var (u, error) := RunAndAudit(Uow(None, []), q);
      && u.open.None?
      && u.durable == if error.None? then [Effect(q.text), Audit(q.text)]
                      else if error.value == AuditFailed then [Effect(q.text)] else []
  {
    var none: seq<Change> := [];
    assert none + [Effect(q.text)] == [Effect(q.text)];
  }

  // Runs, by the state they start in.

  lemma {:induction false} DeadRun(cfg: Config, conn: Option<ConnTx>, arrivals: seq<Arrival>)
    requires Dead(conn)
    ensures |Served(cfg, conn, arrivals)| <= |arrivals|
    ensures
      var hs := Served(cfg, conn, arrivals);
      Committed(hs) == Ran(arrivals, hs) == LateRan(conn, arrivals, hs) && !EndsCommitted(arrivals, hs)
    decreases |arrivals|
  {
    hide HandleRequest, RanBy, Overdue;
    ServedLength(cfg, conn, arrivals);
    if arrivals != [] {
      var h := HandleRequest(cfg, conn, arrivals[0]);
      var hs, rest := Served(cfg, conn, arrivals), Served(cfg, h.conn, arrivals[1..]);
      DeadRequest(cfg, conn, arrivals[0]);
      if h.done {
        assert hs == [h] && hs[1..] == [];
      } else {
        assert hs == [h] + rest && hs[1..] == rest;
        DeadRun(cfg, h.conn, arrivals[1..]);
      }
    }
  }

  lemma {:induction false} DeadAndOverdue(cfg: Config, conn: Option<ConnTx>, arrivals: seq<Arrival>)
    requires Dead(conn) && forall k :: 0 <= k < |arrivals| ==> Overdue(cfg, conn.value, arrivals[k].now)
    ensures Committed(Served(cfg, conn, arrivals)) == []
    decreases |arrivals|
  {
    hide HandleRequest, Overdue;
    if arrivals != [] {
      var h := HandleRequest(cfg, conn, arrivals[0]);
      var hs, rest := Served(cfg, conn, arrivals), Served(cfg, h.conn, arrivals[1..]);
      DeadRequest(cfg, conn, arrivals[0]);
      assert hs == [h] + rest && hs[1..] == rest;
      forall k | 0 <= k < |arrivals[1..]|
        ensures Overdue(cfg, conn.value, arrivals[1..][k].now)
      {
        assert arrivals[1..][k] == arrivals[k + 1];
      }
      DeadAndOverdue(cfg, h.conn, arrivals[1..]);
    }
  }

  lemma StillOverdue(cfg: Config, conn: ConnTx, arrivals: seq<Arrival>)
    requires arrivals != [] && ClockAdvances(arrivals) && Overdue(cfg, conn, arrivals[0].now)
    ensures forall k :: 0 <= k < |arrivals| ==> Overdue(cfg, conn, arrivals[k].now)
  {
    forall k | 0 <= k < |arrivals|
      ensures arrivals[0].now <= arrivals[k].now
    {
    }
  }

  lemma EndsLater(arrivals: seq<Arrival>, h: Handled, rest: seq<Handled>)
    requires |rest| < |arrivals| && rest != []
    ensures EndsCommitted(arrivals, [h] + rest) <==> EndsCommitted(arrivals[1..], rest)
  {
  }

  lemma {:induction false} HealthyRun(cfg: Config, conn: ConnTx, arrivals: seq<Arrival>)
    requires Healthy(conn)
    ensures |Served(cfg, Some(conn), arrivals)| <= |arrivals|
    ensures
      var hs := Served(cfg, Some(conn), arrivals);
      Committed(hs) == if EndsCommitted(arrivals, hs) then conn.tx.value.pending + Ran(arrivals, hs)
                       else LateRan(Some(conn), arrivals, hs)
    decreases |arrivals|
  {
    hide HandleRequest, RanBy, Overdue, CommitFailed;
    ServedLength(cfg, Some(conn), arrivals);
    if arrivals != [] {
      var h := HandleRequest(cfg, Some(conn), arrivals[0]);
      var hs, rest := Served(cfg, Some(conn), arrivals), Served(cfg, h.conn, arrivals[1..]);
      HealthyRequest(cfg, conn, arrivals[0]);
      if h.done {
        assert hs == [h] && hs[1..] == [];
      } else {
        assert hs == [h] + rest && hs[1..] == rest;
        ServedLength(cfg, h.conn, arrivals[1..]);
        if rest != [] {
          EndsLater(arrivals, h, rest);
        }
        if Healthy(h.conn.value) {
          HealthyRun(cfg, h.conn.value, arrivals[1..]);
        } else {
          DeadRun(cfg, h.conn, arrivals[1..]);
        }
      }
    }
  }

  /**
   What any connection makes durable. If it ends with an accepted commit, or with its one query: everything its queries
   wrote. Otherwise (an error, a rollback, a timeout, a disconnect): what ran after its transaction was over, no more.
   */
  lemma DurableExactly(cfg: Config, arrivals: seq<Arrival>)
    ensures |Served(cfg, None, arrivals)| <= |arrivals|
    ensures
      var hs := Served(cfg, None, arrivals);
      Committed(hs) == if EndsCommitted(arrivals, hs) then Ran(arrivals, hs) else LateRan(None, arrivals, hs)
  {
    hide HandleRequest, RanBy;
    ServedLength(cfg, None, arrivals);
    if arrivals != [] {
      var h := HandleRequest(cfg, None, arrivals[0]);
      var hs, rest := Served(cfg, None, arrivals), Served(cfg, h.conn, arrivals[1..]);
      FirstRequest(cfg, arrivals[0]);
      if h.done {
        assert hs == [h] && hs[1..] == [];
        assert Ran(arrivals, hs) == RanBy(arrivals[0], h) + Ran(arrivals[1..], []);
      } else {
        assert hs == [h] + rest && hs[1..] == rest;
        ServedLength(cfg, h.conn, arrivals[1..]);
        if rest != [] {
          EndsLater(arrivals, h, rest);
        }
        HealthyRun(cfg, h.conn.value, arrivals[1..]);
        assert Ran(arrivals, hs) == Ran(arrivals[1..], rest);
      }
    }
  }

  /** No query ran after a commit that failed. */
  predicate NothingRanLate(arrivals: seq<Arrival>, hs: seq<Handled>)
    requires |hs| <= |arrivals|
  {
    forall i, j :: 0 <= i < j < |hs| && CommitFailed(arrivals[i], hs[i]) ==> RanBy(arrivals[j], hs[j]) == []
  }

  lemma {:induction false} RanNothingIff(arrivals: seq<Arrival>, hs: seq<Handled>)
    requires |hs| <= |arrivals|
    ensures Ran(arrivals, hs) == [] <==> forall k :: 0 <= k < |hs| ==> RanBy(arrivals[k], hs[k]) == []
    decreases |hs|
  {
    hide RanBy;
    if hs != [] {
      RanNothingIff(arrivals[1..], hs[1..]);
      assert forall k :: 0 <= k < |hs| - 1 ==> arrivals[1..][k] == arrivals[k + 1] && hs[1..][k] == hs[k + 1];
      assert forall k :: 0 < k < |hs| ==> arrivals[k] == arrivals[1..][k - 1] && hs[k] == hs[1..][k - 1];
    }
  }

  lemma LateFirst(arrivals: seq<Arrival>, h: Handled, rest: seq<Handled>)
    requires |rest| < |arrivals|
    ensures NothingRanLate(arrivals, [h] + rest) <==>
      && NothingRanLate(arrivals[1..], rest)
      && (CommitFailed(arrivals[0], h) ==> forall k :: 0 <= k < |rest| ==> RanBy(arrivals[1..][k], rest[k]) == [])
  {
    hide RanBy, CommitFailed;
    var hs := [h] + rest;
    assert forall k :: 0 <= k < |rest| ==> arrivals[1..][k] == arrivals[k + 1] && rest[k] == hs[k + 1];
    assert forall k :: 0 < k < |hs| ==> arrivals[k] == arrivals[1..][k - 1] && hs[k] == rest[k - 1];
  }

  lemma {:induction false} LateIff(cfg: Config, conn: ConnTx, arrivals: seq<Arrival>)
    requires Healthy(conn) && ClockAdvances(arrivals)
    ensures |Served(cfg, Some(conn), arrivals)| <= |arrivals|
    ensures
      var hs := Served(cfg, Some(conn), arrivals);
      LateRan(Some(conn), arrivals, hs) == [] <==> NothingRanLate(arrivals, hs)
    decreases |arrivals|
  {
    hide HandleRequest, RanBy, Overdue, CommitFailed, NothingRanLate;
    ServedLength(cfg, Some(conn), arrivals);
    if arrivals == [] {
      NoneLate(arrivals, []);
    } else {
      var h := HandleRequest(cfg, Some(conn), arrivals[0]);
      var hs, rest := Served(cfg, Some(conn), arrivals), Served(cfg, h.conn, arrivals[1..]);
      HealthyRequest(cfg, conn, arrivals[0]);
      if h.done {
        assert hs == [h] && hs[1..] == [];
        NoneLate(arrivals, hs);
      } else {
        assert hs == [h] + rest && hs[1..] == rest;
        ServedLength(cfg, h.conn, arrivals[1..]);
        LateFirst(arrivals, h, rest);
        if Healthy(h.conn.value) {
          CommitKills(cfg, conn, arrivals[0]);
          LateIff(cfg, h.conn.value, arrivals[1..]);
        } else {
          DeadLateIff(cfg, h, arrivals);
        }
      }
    }
  }

  lemma NoneLate(arrivals: seq<Arrival>, hs: seq<Handled>)
    requires |hs| <= |arrivals| && |hs| <= 1
    ensures NothingRanLate(arrivals, hs)
  {
  }

  lemma CommitKills(cfg: Config, conn: ConnTx, a: Arrival)
    requires Healthy(conn)
    ensures CommitFailed(a, HandleRequest(cfg, Some(conn), a)) ==> Dead(HandleRequest(cfg, Some(conn), a).conn)
  {
  }

  lemma DeadLateIff(cfg: Config, h: Handled, arrivals: seq<Arrival>)
    requires Dead(h.conn) && arrivals != [] && ClockAdvances(arrivals)
    requires CommitFailed(arrivals[0], h) || Overdue(cfg, h.conn.value, arrivals[0].now)
    ensures |Served(cfg, h.conn, arrivals[1..])| <= |arrivals[1..]|
    ensures
      var rest := Served(cfg, h.conn, arrivals[1..]);
      LateRan(h.conn, arrivals[1..], rest) == [] <==>
        && NothingRanLate(arrivals[1..], rest)
        && (CommitFailed(arrivals[0], h) ==> forall k :: 0 <= k < |rest| ==> RanBy(arrivals[1..][k], rest[k]) == [])
  {
    hide HandleRequest, RanBy, Overdue, CommitFailed, Served;
    DeadRun(cfg, h.conn, arrivals[1..]);
    RanNothingIff(arrivals[1..], Served(cfg, h.conn, arrivals[1..]));
    if !CommitFailed(arrivals[0], h) {
      StillOverdue(cfg, h.conn.value, arrivals);
      forall k | 0 <= k < |arrivals[1..]|
        ensures Overdue(cfg, h.conn.value, arrivals[1..][k].now)
      {
        assert arrivals[1..][k] == arrivals[k + 1];
      }
      DeadAndOverdue(cfg, h.conn, arrivals[1..]);
    }
  }

  /**
   A connection is all or nothing - durable is what its queries wrote when it ends with an accepted commit or with its
   one query, and nothing otherwise - exactly when no query of it ran after a commit that failed.
   */
  lemma AllOrNothingIff(cfg: Config, arrivals: seq<Arrival>)
    requires ClockAdvances(arrivals)
    ensures |Served(cfg, None, arrivals)| <= |arrivals|
    ensures
      var hs := Served(cfg, None, arrivals);
      (Committed(hs) == if EndsCommitted(arrivals, hs) then Ran(arrivals, hs) else [])
        <==> NothingRanLate(arrivals, hs)
  {
    hide HandleRequest, RanBy, CommitFailed, NothingRanLate, ClockAdvances;
    DurableExactly(cfg, arrivals);
    if arrivals == [] {
      NoneLate(arrivals, []);
    } else {
      var h := HandleRequest(cfg, None, arrivals[0]);
      var hs, rest := Served(cfg, None, arrivals), Served(cfg, h.conn, arrivals[1..]);
      FirstRequest(cfg, arrivals[0]);
      if h.done {
        assert hs == [h] && hs[1..] == [];
        NoneLate(arrivals, hs);
      } else {
        assert hs == [h] + rest && hs[1..] == rest;
        LaterClock(arrivals);
        LateIff(cfg, h.conn.value, arrivals[1..]);
        LateFirst(arrivals, h, rest);
        NothingFailedYet(cfg, arrivals[0]);
        if EndsCommitted(arrivals, hs) {
          EndsLater(arrivals, h, rest);
          CommittedIsNotLate(cfg, h.conn.value, arrivals[1..]);
        }
      }
    }
  }

  lemma LaterClock(arrivals: seq<Arrival>)
    requires ClockAdvances(arrivals) && arrivals != []
    ensures ClockAdvances(arrivals[1..])
  {
  }

  lemma NothingFailedYet(cfg: Config, a: Arrival)
    ensures !CommitFailed(a, HandleRequest(cfg, None, a))
  {
  }

  lemma {:induction false} CommittedIsNotLate(cfg: Config, conn: ConnTx, arrivals: seq<Arrival>)
    requires Healthy(conn)
    requires |Served(cfg, Some(conn), arrivals)| <= |arrivals|
    requires EndsCommitted(arrivals, Served(cfg, Some(conn), arrivals))
    ensures LateRan(Some(conn), arrivals, Served(cfg, Some(conn), arrivals)) == []
    decreases |arrivals|
  {
    hide HandleRequest, RanBy, Overdue, CommitFailed;
    var h := HandleRequest(cfg, Some(conn), arrivals[0]);
    var hs, rest := Served(cfg, Some(conn), arrivals), Served(cfg, h.conn, arrivals[1..]);
    HealthyRequest(cfg, conn, arrivals[0]);
    if h.done {
      assert hs == [h] && hs[1..] == [];
    } else {
      assert hs == [h] + rest && hs[1..] == rest;
      ServedLength(cfg, h.conn, arrivals[1..]);
      if rest != [] {
        EndsLater(arrivals, h, rest);
        if Healthy(h.conn.value) {
          CommittedIsNotLate(cfg, h.conn.value, arrivals[1..]);
        } else {
          DeadRun(cfg, h.conn, arrivals[1..]);
        }
      }
    }
  }

  /** A query on a kept handle is durable at once exactly when its transaction is over: a commit has failed before. */
  lemma CommitsAtOnceIff(cfg: Config, conn: ConnTx, a: Arrival)
    requires Healthy(conn) || conn.tx.None?
    requires a.request.token == cfg.token != "" && !Overdue(cfg, conn, a.now)
    requires a.request.op.Query? && QueryRefused(a.request.op).None? && !a.request.op.statementFails
    ensures HandleRequest(cfg, Some(conn), a).committed != [] <==> conn.tx.None?
    ensures conn.tx.None? ==>
      HandleRequest(cfg, Some(conn), a).committed == RanBy(a, HandleRequest(cfg, Some(conn), a)) != []
  {
  }

  /** Begin, a query, a commit that meets a conflict, a query: the last one is durable, the first one is not. */
  lemma FailedCommitThenQuery(cfg: Config, now: int)
    requires cfg.token != "" && cfg.timeout >= 0
    ensures
      var query := (text: string) => Arrival(now, Request(cfg.token, Query(WriteMode, text, true, false, false, false)));
      var arrivals := [
        Arrival(now, Request(cfg.token, Begin)), query("a"),
        Arrival(now, Request(cfg.token, Commit(true))), query("b")];
      var hs := Served(cfg, None, arrivals);
      && |hs| == 4 && Committed(hs) == [Effect("b"), Audit("b")]
      && hs[1].response.Ok? && hs[2].response == Err(UnitOfWorkFailed(Transient)) && hs[3].response.Ok?
  {
    var query := (text: string) => Arrival(now, Request(cfg.token, Query(WriteMode, text, true, false, false, false)));
    var arrivals := [
      Arrival(now, Request(cfg.token, Begin)), query("a"),
      Arrival(now, Request(cfg.token, Commit(true))), query("b")];
    var begun := ConnTx(Some(Tx(1, false, [])), now);
    var written := ConnTx(Some(Tx(1, false, [Effect("a"), Audit("a")])), now);
    var failed := ConnTx(None, now);
    assert !Blank("a") && !Blank("b") by {
      assert "a"[0] == 'a' && "b"[0] == 'b';
    }
    var h0 := HandleRequest(cfg, None, arrivals[0]);
    var h1 := HandleRequest(cfg, Some(begun), arrivals[1]);
    var h2 := HandleRequest(cfg, Some(written), arrivals[2]);
    var h3 := HandleRequest(cfg, Some(failed), arrivals[3]);
    assert h0 == Handled(Ok(()), [], Some(begun), false);
    var none: seq<Change> := [];
    assert none + [Effect("a")] + [Audit("a")] == [Effect("a"), Audit("a")];
    assert h1 == Handled(Ok(()), [], Some(written), false);
    assert h2 == Handled(Err(UnitOfWorkFailed(Transient)), [], Some(failed), false);
    assert h3 == Handled(Ok(()), [Effect("b"), Audit("b")], Some(failed), false);
    FourServed(cfg, arrivals, h0, h1, h2, h3);
  }

  lemma FourServed(cfg: Config, arrivals: seq<Arrival>, h0: Handled, h1: Handled, h2: Handled, h3: Handled)
    requires |arrivals| == 4 && !h0.done && !h1.done && !h2.done && !h3.done
    requires h0 == HandleRequest(cfg, None, arrivals[0]) && h1 == HandleRequest(cfg, h0.conn, arrivals[1])
    requires h2 == HandleRequest(cfg, h1.conn, arrivals[2]) && h3 == HandleRequest(cfg, h2.conn, arrivals[3])
    ensures Served(cfg, None, arrivals) == [h0, h1, h2, h3]
    ensures Committed([h0, h1, h2, h3]) ==
      h0.committed + (h1.committed + (h2.committed + h3.committed))
  {
    hide HandleRequest;
    var rest := arrivals[1..];
    assert rest[0] == arrivals[1] && rest[1..][0] == arrivals[2] && rest[1..][1..][0] == arrivals[3];
    assert rest[1..][1..][1..] == [];
    assert Served(cfg, h2.conn, rest[1..][1..]) == [h3];
    assert Served(cfg, h1.conn, rest[1..]) == [h2, h3];
    assert Served(cfg, h0.conn, rest) == [h1, h2, h3];
    assert [h0, h1, h2, h3][1..] == [h1, h2, h3] && [h1, h2, h3][1..] == [h2, h3];
    assert [h2, h3][1..] == [h3] && [h3][1..] == [];
    assert Committed([h3]) == h3.committed && Committed([h2, h3]) == h2.committed + h3.committed;
    assert Committed([h1, h2, h3]) == h1.committed + (h2.committed + h3.committed);
  }

  /** After a timeout no later request on the connection succeeds, and nothing becomes durable. */
  lemma {:induction false} NothingAfterTimeout(cfg: Config, conn: ConnTx, arrivals: seq<Arrival>)
    requires arrivals != [] && ClockAdvances(arrivals) && (Healthy(conn) || conn.tx.None?)
    requires HandleRequest(cfg, Some(conn), arrivals[0]).response == Err(TimedOut)
    ensures
      var hs := Served(cfg, Some(conn), arrivals);
      Committed(hs) == [] && |hs| == |arrivals| && forall k :: 0 <= k < |hs| ==> hs[k].response.Err?
    decreases |arrivals|
  {
    hide ClockAdvances;
    StillOverdue(cfg, conn, arrivals);
    OverdueRun(cfg, conn, arrivals);
  }

  lemma {:induction false} OverdueRun(cfg: Config, conn: ConnTx, arrivals: seq<Arrival>)
    requires Healthy(conn) || conn.tx.None?
    requires forall k :: 0 <= k < |arrivals| ==> Overdue(cfg, conn, arrivals[k].now)
    ensures
      var hs := Served(cfg, Some(conn), arrivals);
      Committed(hs) == [] && |hs| == |arrivals| && forall k :: 0 <= k < |hs| ==> hs[k].response.Err?
    decreases |arrivals|
  {
    hide HandleRequest, Overdue;
    if arrivals != [] {
      OverdueRequest(cfg, conn, arrivals[0]);
      var h := HandleRequest(cfg, Some(conn), arrivals[0]);
      var hs, rest := Served(cfg, Some(conn), arrivals), Served(cfg, h.conn, arrivals[1..]);
      assert hs == [h] + rest && hs[1..] == rest;
      forall k | 0 <= k < |arrivals[1..]|
        ensures Overdue(cfg, h.conn.value, arrivals[1..][k].now)
      {
        assert arrivals[1..][k] == arrivals[k + 1];
        SameStart(cfg, conn, h.conn.value, arrivals[k + 1].now);
      }
      OverdueRun(cfg, h.conn.value, arrivals[1..]);
    }
  }

  lemma SameStart(cfg: Config, a: ConnTx, b: ConnTx, now: int)
    requires a.startedAt == b.startedAt
    ensures Overdue(cfg, a, now) == Overdue(cfg, b, now)
  {
  }

  lemma OverdueRequest(cfg: Config, conn: ConnTx, a: Arrival)
    requires (Healthy(conn) || conn.tx.None?) && Overdue(cfg, conn, a.now)
    ensures
      var h := HandleRequest(cfg, Some(conn), a);
      && h.response.Err? && h.committed == [] && !h.done && h.conn.Some? && h.conn.value.startedAt == conn.startedAt
      && (Healthy(h.conn.value) || h.conn.value.tx.None?)
  {
  }

  // ---------------------------------------------------------------------------
  // Effects and their records

  /** Each effect is followed by its record, and each record follows its effect. */
  predicate Paired(changes: seq<Change>) {
    changes == [] || (|changes| >= 2 && changes[0].Effect? && changes[1] == Audit(changes[0].query) && Paired(changes[2..]))
  }

  lemma {:induction false} PairedAppend(a: seq<Change>, b: seq<Change>)
    requires Paired(a)
    ensures Paired(a + b) <==> Paired(b)
    decreases |a|
  {
    if a == [] {
      assert a + b == b;
    } else {
      PairedAppend(a[2..], b);
      assert (a + b)[2..] == a[2..] + b && (a + b)[0] == a[0] && (a + b)[1] == a[1];
    }
  }

  predicate RecordFailed(a: Arrival, h: Handled) {
    a.request.op.Query? && h.response == Err(AuditFailed)
  }

  lemma {:induction false} RanStarts(arrivals: seq<Arrival>, hs: seq<Handled>)
    requires |hs| <= |arrivals|
    ensures Ran(arrivals, hs) != [] ==> Ran(arrivals, hs)[0].Effect?
    decreases |hs|
  {
    if hs != [] {
      RanStarts(arrivals[1..], hs[1..]);
    }
  }

  /** Every query that ran has exactly one record, and every record its query, exactly when no record failed. */
  lemma {:induction false} PairedIffRecorded(arrivals: seq<Arrival>, hs: seq<Handled>)
    requires |hs| <= |arrivals|
    ensures Paired(Ran(arrivals, hs)) <==> forall k :: 0 <= k < |hs| ==> !RecordFailed(arrivals[k], hs[k])
    decreases |hs|
  {
    hide RecordFailed;
    if hs != [] {
      var first, rest := RanBy(arrivals[0], hs[0]), Ran(arrivals[1..], hs[1..]);
      PairedIffRecorded(arrivals[1..], hs[1..]);
      RanStarts(arrivals[1..], hs[1..]);
      FirstRecorded(arrivals[0], hs[0], rest);
      assert forall k :: 0 <= k < |hs| - 1 ==> arrivals[1..][k] == arrivals[k + 1] && hs[1..][k] == hs[k + 1];
      assert forall k :: 0 < k < |hs| ==> arrivals[k] == arrivals[1..][k - 1] && hs[k] == hs[1..][k - 1];
    }
  }

  lemma FirstRecorded(a: Arrival, h: Handled, rest: seq<Change>)
    requires rest != [] ==> rest[0].Effect?
    ensures Paired(RanBy(a, h) + rest) <==> !RecordFailed(a, h) && Paired(rest)
  {
    var first := RanBy(a, h);
    if RecordFailed(a, h) {
      assert first == [Effect(a.request.op.text)];
      assert rest != [] ==> (first + rest)[1] == rest[0];
    } else if first == [] {
      assert first + rest == rest;
    } else {
      assert first == [Effect(a.request.op.text), Audit(a.request.op.text)] && first[2..] == [];
      PairedAppend(first, rest);
    }
  }

  // ---------------------------------------------------------------------------
  // Connections side by side

  datatype System = System(durable: seq<Change>, conns: map<nat, Option<ConnTx>>)

  datatype Step = Connect(c: nat) | Receive(c: nat, a: Arrival) | Disconnect(c: nat)

  function Next(cfg: Config, s: System, step: Step): System {
    match step
    case Connect(c) => if c in s.conns then s else s.(conns := s.conns[c := None])
    case Disconnect(c) => s.(conns := s.conns - {c})
    case Receive(c, a) =>
      if c !in s.conns then s
      else
        var h := HandleRequest(cfg, s.conns[c], a);
        System(s.durable + h.committed, if h.done then s.conns - {c} else s.conns[c := h.conn])
  }

  /** No record of a query fails to be saved. */
  predicate Regular(s: System, step: Step) {
    step.Receive? && step.c in s.conns && step.a.request.op.Query? ==> !step.a.request.op.auditFails
  }

  predicate Regulars(cfg: Config, s: System, steps: seq<Step>)
    decreases |steps|
  {
    steps == [] || (Regular(s, steps[0]) && Regulars(cfg, Next(cfg, s, steps[0]), steps[1..]))
  }

  function RunAll(cfg: Config, s: System, steps: seq<Step>): System
    decreases |steps|
  {
    if steps == [] then s else RunAll(cfg, Next(cfg, s, steps[0]), steps[1..])
  }

  predicate Sound(s: System) {
    && Paired(s.durable)
    && forall c :: c in s.conns && s.conns[c].Some? ==>
         Dead(s.conns[c]) || (Healthy(s.conns[c].value) && Paired(s.conns[c].value.tx.value.pending))
  }

  lemma RegularRequest(cfg: Config, conn: Option<ConnTx>, a: Arrival)
    requires conn.Some? ==> Dead(conn) || (Healthy(conn.value) && Paired(conn.value.tx.value.pending))
    requires a.request.op.Query? ==> !a.request.op.auditFails
    ensures
      var h := HandleRequest(cfg, conn, a);
      && Paired(h.committed)
      && (!h.done && h.conn.Some? ==>
            Dead(h.conn) || (Healthy(h.conn.value) && Paired(h.conn.value.tx.value.pending)))
  {
    hide HandleRequest, Paired, Overdue;
    var h := HandleRequest(cfg, conn, a);
    NoRecordFails(cfg, conn, a);
    PairOrNone(a, h);
    if conn.None? {
      FirstRequest(cfg, a);
    } else if Dead(conn) {
      DeadRequest(cfg, conn, a);
    } else {
      HealthyRequest(cfg, conn.value, a);
      PairedAppend(conn.value.tx.value.pending, RanBy(a, h));
    }
  }

  lemma NoRecordFails(cfg: Config, conn: Option<ConnTx>, a: Arrival)
    requires a.request.op.Query? ==> !a.request.op.auditFails
    ensures !RecordFailed(a, HandleRequest(cfg, conn, a))
  {
  }

  lemma PairOrNone(a: Arrival, h: Handled)
    requires !RecordFailed(a, h)
    ensures Paired(RanBy(a, h)) && Paired([])
  {
    FirstRecorded(a, h, []);
    assert RanBy(a, h) + [] == RanBy(a, h);
  }

  /** However connections interleave, every durable query has its one record and every record its query. */
  lemma {:induction false} RunKeepsPairs(cfg: Config, s: System, steps: seq<Step>)
    requires Sound(s) && Regulars(cfg, s, steps)
    ensures Sound(RunAll(cfg, s, steps))
    decreases |steps|
  {
    hide HandleRequest, Paired, Dead, Healthy, Overdue;
    if steps != [] {
      var step := steps[0];
      if step.Receive? && step.c in s.conns {
        RegularRequest(cfg, s.conns[step.c], step.a);
        PairedAppend(s.durable, HandleRequest(cfg, s.conns[step.c], step.a).committed);
      }
      RunKeepsPairs(cfg, Next(cfg, s, step), steps[1..]);
    }
  }

  // Whatever fails

  /** Each record directly follows the effect of its query; an effect may have none. */
  predicate RecordsFollow(changes: seq<Change>) {
    forall k :: 0 <= k < |changes| && changes[k].Audit? ==> k > 0 && changes[k - 1] == Effect(changes[k].query)
  }

  lemma FollowAppend(a: seq<Change>, b: seq<Change>)
    requires RecordsFollow(a) && RecordsFollow(b)
    ensures RecordsFollow(a + b)
  {
    var all := a + b;
    forall k | 0 <= k < |all| && all[k].Audit?
      ensures k > 0 && all[k - 1] == Effect(all[k].query)
    {
      if k >= |a| {
        assert all[k] == b[k - |a|] && all[k - 1] == b[k - |a| - 1];
      }
    }
  }

  predicate AllFollow(s: System) {
    && RecordsFollow(s.durable)
    && forall c :: c in s.conns && s.conns[c].Some? ==>
         Dead(s.conns[c]) || (Healthy(s.conns[c].value) && RecordsFollow(s.conns[c].value.tx.value.pending))
  }

  lemma AnyRequest(cfg: Config, conn: Option<ConnTx>, a: Arrival)
    requires conn.Some? ==> Dead(conn) || (Healthy(conn.value) && RecordsFollow(conn.value.tx.value.pending))
    ensures
      var h := HandleRequest(cfg, conn, a);
      && RecordsFollow(h.committed)
      && (!h.done && h.conn.Some? ==>
            Dead(h.conn) || (Healthy(h.conn.value) && RecordsFollow(h.conn.value.tx.value.pending)))
  {
    hide HandleRequest, RecordsFollow, Overdue, RanBy;
    var h := HandleRequest(cfg, conn, a);
    RanByFollows(a, h);
    if conn.None? {
      FirstRequest(cfg, a);
    } else if Dead(conn) {
      DeadRequest(cfg, conn, a);
    } else {
      HealthyRequest(cfg, conn.value, a);
      FollowAppend(conn.value.tx.value.pending, RanBy(a, h));
    }
  }

  lemma RanByFollows(a: Arrival, h: Handled)
    ensures RecordsFollow(RanBy(a, h)) && RecordsFollow([])
  {
  }

  /** In every run, whatever fails and however connections interleave, each durable record follows its query's effect. */
  lemma {:induction false} RunKeepsRecords(cfg: Config, s: System, steps: seq<Step>)
    requires AllFollow(s)
    ensures AllFollow(RunAll(cfg, s, steps))
    decreases |steps|
  {
    hide HandleRequest, RecordsFollow, Dead, Healthy, Overdue;
    if steps != [] {
      var step := steps[0];
      if step.Receive? && step.c in s.conns {
        AnyRequest(cfg, s.conns[step.c], step.a);
        FollowAppend(s.durable, HandleRequest(cfg, s.conns[step.c], step.a).committed);
      }
      RunKeepsRecords(cfg, Next(cfg, s, step), steps[1..]);
    }
  }
}
