/** Who may use the gateway: nothing happens, and nothing becomes durable, but for requests that carry the token. */
module GatewayTokens {
  import opened Prelude
  import opened UnitOfWork
  import opened CypherGateway

  /** The request carries the token of the gateway; without a configured token no request does. */
  predicate Carries(cfg: Config, a: Arrival) {
    cfg.token != "" && a.request.token == cfg.token
  }

  lemma RefusedRequest(cfg: Config, conn: Option<ConnTx>, a: Arrival)
    requires !Carries(cfg, a)
    ensures HandleRequest(cfg, conn, a) == Handled(Err(BadToken), [], conn, conn.None?)
  {
  }

  lemma AcceptedRequest(cfg: Config, conn: Option<ConnTx>, a: Arrival)
    requires Carries(cfg, a)
    ensures HandleRequest(cfg, conn, a).response != Err(BadToken)
  {
  }

  /** What a connection has when its request `k` arrives. */
  function ConnBefore(conn: Option<ConnTx>, hs: seq<Handled>, k: nat): Option<ConnTx>
    requires k <= |hs|
  {
    if k == 0 then conn else hs[k - 1].conn
  }

  /**
   On every connection: a request is answered with an authentication error exactly when it does not carry the token. It
   then commits nothing, and leaves the connection's transaction as it was.
   */
  lemma {:induction false} AnsweredByToken(cfg: Config, conn: Option<ConnTx>, arrivals: seq<Arrival>, k: nat)
    requires k < |Served(cfg, conn, arrivals)|
    ensures |Served(cfg, conn, arrivals)| <= |arrivals|
    ensures
      var hs := Served(cfg, conn, arrivals);
      && (hs[k].response == Err(BadToken) <==> !Carries(cfg, arrivals[k]))
      && (!Carries(cfg, arrivals[k]) ==> hs[k].committed == [] && hs[k].conn == ConnBefore(conn, hs, k))
    decreases |arrivals|
  {
    hide HandleRequest, Carries;
    ServedLength(cfg, conn, arrivals);
    var h := HandleRequest(cfg, conn, arrivals[0]);
    var hs, rest := Served(cfg, conn, arrivals), Served(cfg, h.conn, arrivals[1..]);
    if k == 0 {
      if Carries(cfg, arrivals[0]) {
        AcceptedRequest(cfg, conn, arrivals[0]);
      } else {
        RefusedRequest(cfg, conn, arrivals[0]);
      }
    } else {
      assert hs == [h] + rest;
      AnsweredByToken(cfg, h.conn, arrivals[1..], k - 1);
      assert arrivals[1..][k - 1] == arrivals[k] && hs[k] == rest[k - 1];
      assert ConnBefore(conn, hs, k) == ConnBefore(h.conn, rest, k - 1);
    }
  }

  /** A connection none of whose requests carries the token makes nothing durable. */
  lemma {:induction false} NothingWithoutToken(cfg: Config, conn: Option<ConnTx>, arrivals: seq<Arrival>)
    requires forall k :: 0 <= k < |arrivals| ==> !Carries(cfg, arrivals[k])
    ensures Committed(Served(cfg, conn, arrivals)) == []
    ensures forall k :: 0 <= k < |Served(cfg, conn, arrivals)| ==> Served(cfg, conn, arrivals)[k].response == Err(BadToken)
    decreases |arrivals|
  {
    hide HandleRequest, Carries;
    if arrivals != [] {
      RefusedRequest(cfg, conn, arrivals[0]);
      var h := HandleRequest(cfg, conn, arrivals[0]);
      var hs, rest := Served(cfg, conn, arrivals), Served(cfg, h.conn, arrivals[1..]);
      forall k | 0 <= k < |arrivals[1..]|
        ensures !Carries(cfg, arrivals[1..][k])
      {
        assert arrivals[1..][k] == arrivals[k + 1];
      }
      NothingWithoutToken(cfg, h.conn, arrivals[1..]);
      if h.done {
        assert hs == [h] && hs[1..] == [];
      } else {
        assert hs == [h] + rest && hs[1..] == rest;
        assert forall k :: 0 < k < |hs| ==> hs[k] == rest[k - 1];
      }
    }
  }

  // ---------------------------------------------------------------------------
  // Where durable changes come from

  /** Every change is of a query in the set. */
  predicate Of(queries: set<string>, changes: seq<Change>) {
    forall c :: c in changes ==> c.query in queries
  }

  /** The query of a request that carries the token. */
  function TokenQuery(cfg: Config, a: Arrival): set<string> {
    if Carries(cfg, a) && a.request.op.Query? then {a.request.op.text} else {}
  }

  function TokenQueries(cfg: Config, steps: seq<Step>): set<string> {
    if steps == [] then {}
    else (if steps[0].Receive? then TokenQuery(cfg, steps[0].a) else {}) + TokenQueries(cfg, steps[1..])
  }

  /** All that is durable or pending is of queries in the set. */
  predicate AllOf(queries: set<string>, s: System) {
    && Of(queries, s.durable)
    && forall c :: c in s.conns && s.conns[c].Some? ==>
         Dead(s.conns[c]) || (Healthy(s.conns[c].value) && Of(queries, s.conns[c].value.tx.value.pending))
  }

  lemma RanByToken(cfg: Config, conn: Option<ConnTx>, a: Arrival)
    ensures Of(TokenQuery(cfg, a), RanBy(a, HandleRequest(cfg, conn, a)))
  {
    hide HandleRequest, Carries;
    if !Carries(cfg, a) {
      RefusedRequest(cfg, conn, a);
    }
  }

  lemma RequestOf(cfg: Config, conn: Option<ConnTx>, a: Arrival, queries: set<string>)
    requires conn.Some? ==> Dead(conn) || (Healthy(conn.value) && Of(queries, conn.value.tx.value.pending))
    ensures
      var h, more := HandleRequest(cfg, conn, a), queries + TokenQuery(cfg, a);
      && Of(more, h.committed)
      && (!h.done && h.conn.Some? ==>
            Dead(h.conn) || (Healthy(h.conn.value) && Of(more, h.conn.value.tx.value.pending)))
  {
    hide HandleRequest, RanBy, Overdue, TokenQuery;
    RanByToken(cfg, conn, a);
    if conn.None? {
      FirstRequest(cfg, a);
    } else if Dead(conn) {
      DeadRequest(cfg, conn, a);
    } else {
      HealthyRequest(cfg, conn.value, a);
    }
  }

  lemma MoreQueries(queries: set<string>, more: set<string>, s: System)
    requires AllOf(queries, s) && queries <= more
    ensures AllOf(more, s)
  {
    hide Healthy, Dead;
  }

  /**
   In every run of any connections, whatever fails: a change that is durable in the end was so before, or is of a query
   that carried the token.
   */
  lemma {:induction false} DurableByToken(cfg: Config, s: System, steps: seq<Step>, queries: set<string>)
    requires AllOf(queries, s)
    ensures AllOf(queries + TokenQueries(cfg, steps), RunAll(cfg, s, steps))
    decreases |steps|
  {
    hide HandleRequest, Dead, Healthy, TokenQuery;
    if steps == [] {
      assert queries + TokenQueries(cfg, steps) == queries;
    } else {
      var step := steps[0];
      var now := if step.Receive? then TokenQuery(cfg, step.a) else {};
      if step.Receive? && step.c in s.conns {
        RequestOf(cfg, s.conns[step.c], step.a, queries);
      }
      assert AllOf(queries + now, Next(cfg, s, step));
      DurableByToken(cfg, Next(cfg, s, step), steps[1..], queries + now);
      assert queries + now + TokenQueries(cfg, steps[1..]) == queries + TokenQueries(cfg, steps);
    }
  }

  // ---------------------------------------------------------------------------
  // Which queries are refused

  /** The text has a character that is no white space. */
  predicate SaysSomething(text: string) {
    exists k :: 0 <= k < |text| && text[k] !in {' ', '\t', '\n', '\r'}
  }

  predicate InTime(cfg: Config, conn: Option<ConnTx>, a: Arrival) {
    conn.Some? ==> a.now - conn.value.startedAt <= cfg.timeout
  }

  /** What is wrong with a query before it is run; the first of these is reported. */
  function Objection(q: Op): Option<GatewayError>
    requires q.Query?
  {
    if q.mode != ReadMode && q.mode != WriteMode then Some(UnsupportedMode)
    else if !SaysSomething(q.text) then Some(EmptyQuery)
    else if q.mode == ReadMode && q.hasWriteClause then Some(WriteInReadMode)
    else None
  }

  /** A query in its connection's transaction: what it says, and what the transaction has afterwards. */
  lemma QueryInTransaction(cfg: Config, conn: ConnTx, a: Arrival)
    requires Carries(cfg, a) && a.request.op.Query? && Healthy(conn) && InTime(cfg, Some(conn), a)
    ensures
      var h, q, pending := HandleRequest(cfg, Some(conn), a), a.request.op, conn.tx.value.pending;
      && h.committed == [] && !h.done
      && (if Objection(q).Some? then h.response == Err(Objection(q).value) && h.conn == Some(conn)
          else if q.statementFails then h.response == Err(StatementFailed) && h.conn == Some(conn)
          else if q.auditFails then
            && h.response == Err(AuditFailed)
            && h.conn == Some(conn.(tx := Some(conn.tx.value.(pending := pending + [Effect(q.text)]))))
          else
            && h.response == Ok(())
            && h.conn == Some(conn.(tx := Some(conn.tx.value.(pending := pending + [Effect(q.text), Audit(q.text)])))))
  {
    var q, pending := a.request.op, conn.tx.value.pending;
    assert Blank(q.text) <==> !SaysSomething(q.text);
    assert pending + [Effect(q.text)] + [Audit(q.text)] == pending + [Effect(q.text), Audit(q.text)];
  }

  /** A query on its own: it ends its connection, and is durable with its record or not at all. */
  lemma QueryOnItsOwn(cfg: Config, a: Arrival)
    requires Carries(cfg, a) && a.request.op.Query?
    ensures
      var h, q := HandleRequest(cfg, None, a), a.request.op;
      && h.done && h.conn.None?
      && h.response == (if Objection(q).Some? then Err(Objection(q).value)
                        else if q.statementFails then Err(StatementFailed)
                        else if q.auditFails then Err(AuditFailed)
                        else if q.commitFails then Err(UnitOfWorkFailed(Transient))
                        else Ok(()))
      && h.committed == if h.response.Ok? then [Effect(q.text), Audit(q.text)] else []
  {
    var q := a.request.op;
    assert Blank(q.text) <==> !SaysSomething(q.text);
    var none: seq<Change> := [];
    assert none + [Effect(q.text)] + [Audit(q.text)] == [Effect(q.text), Audit(q.text)];
  }

  /** A transaction that has run out of time is dropped by the next request, whatever it asks. */
  lemma TimeOutDrops(cfg: Config, conn: ConnTx, a: Arrival)
    requires Carries(cfg, a) && (Healthy(conn) || conn.tx.None?) && !InTime(cfg, Some(conn), a)
    ensures HandleRequest(cfg, Some(conn), a) == Handled(Err(TimedOut), [], Some(conn.(tx := None)), false)
  {
  }

  /** The other requests: at most one transaction is open on a connection, and only an open one can end. */
  lemma TransactionOps(cfg: Config, conn: Option<ConnTx>, a: Arrival)
    requires Carries(cfg, a) && InTime(cfg, conn, a) && (conn.Some? ==> Healthy(conn.value))
    ensures
      var h, op := HandleRequest(cfg, conn, a), a.request.op;
      && (op.Begin? && conn.None? ==> h == Handled(Ok(()), [], Some(ConnTx(Some(Tx(1, false, [])), a.now)), false))
      && (op.Begin? && conn.Some? ==> h == Handled(Err(AlreadyOpen), [], conn, false))
      && (op.Commit? && conn.Some? && !op.conflict ==> h == Handled(Ok(()), conn.value.tx.value.pending, None, true))
      && (op.Commit? && conn.Some? && op.conflict ==>
            h == Handled(Err(UnitOfWorkFailed(Transient)), [], Some(conn.value.(tx := None)), false))
      && (op.AbortTx? && conn.Some? ==> h == Handled(Ok(()), [], None, true))
      && ((op.Commit? || op.AbortTx?) && conn.None? ==> h == Handled(Err(NotOpen), [], None, true))
      && (op.OtherOp? ==> h == Handled(Err(UnsupportedOp), [], conn, conn.None?))
  {
  }

  // ---------------------------------------------------------------------------
  // Connections side by side

  /** A step is about one connection: the others stay, and only a request that arrives on an open one commits anything. */
  lemma OneConnection(cfg: Config, s: System, step: Step)
    ensures
      var next := Next(cfg, s, step);
      && (forall c :: c != step.c ==> (c in next.conns <==> c in s.conns))
      && (forall c :: c != step.c && c in s.conns ==> next.conns[c] == s.conns[c])
      && (step.Connect? ==> step.c in next.conns && next.conns[step.c] == if step.c in s.conns then s.conns[step.c] else None)
      && (step.Disconnect? ==> step.c !in next.conns)
      && (step.Receive? && step.c in s.conns ==>
            var h := HandleRequest(cfg, s.conns[step.c], step.a);
            && next.durable == s.durable + h.committed && (step.c in next.conns <==> !h.done)
            && (!h.done ==> next.conns[step.c] == h.conn))
      && (step.Receive? && step.c !in s.conns ==> next == s)
      && (!step.Receive? ==> next.durable == s.durable)
  {
    hide HandleRequest;
  }
}
