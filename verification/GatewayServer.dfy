/** The gateway's request handler over unit-of-work objects, and the client's transaction over the gateway. */
module GatewayServer {
  import opened Prelude
  import opened UnitOfWork
  import opened CypherGateway
  import opened GatewayTokens

  class ConnectionTransaction {
    const uow: GraphUnitOfWork<Change>
    const startedAt: int

    constructor (uow: GraphUnitOfWork<Change>, startedAt: int)
      ensures this.uow == uow && this.startedAt == startedAt
    {
      this.uow, this.startedAt := uow, startedAt;
    }
  }

  function View(conn: ConnectionTransaction?): Option<ConnTx>
    reads if conn == null then {} else {conn.uow}
  {
    if conn == null then None else Some(ConnTx(conn.uow.open, conn.startedAt))
  }

  /** The handles that a connection has to be tracked by. */
  function Handles(conn: ConnectionTransaction?): set<ConnectionTransaction> {
    if conn == null then {} else {conn}
  }

  class Server {
    const store: Store<Change>
    const cfg: Config
    var openTransactions: set<ConnectionTransaction>

    constructor (store: Store<Change>, cfg: Config)
      ensures this.store == store && this.cfg == cfg && openTransactions == {}
    {
      this.store, this.cfg, openTransactions := store, cfg, {};
    }

    method TrackTransaction(previous: ConnectionTransaction?, current: ConnectionTransaction?)
      modifies this`openTransactions
      ensures openTransactions ==
        if previous == null && current != null then old(openTransactions) + {current}
        else if previous != null && current == null then old(openTransactions) - {previous}
        else old(openTransactions)
    {
      if previous == null && current != null {
        openTransactions := openTransactions + {current};
      } else if previous != null && current == null {
        openTransactions := openTransactions - {previous};
      }
    }

    method AbortTransaction(conn: ConnectionTransaction)
      requires conn.uow.store == store
      modifies conn.uow
      modifies store
      ensures conn.uow.open == RolledBack(Uow(old(conn.uow.open), [])).0.open && store.durable == old(store.durable)
    {
      var raised := conn.uow.Rollback();
      if raised.Some? {
        raised := conn.uow.Exit(true, false);
      }
    }

    /** Run the statement, then save its record; both go to the open transaction if there is one. */
    method RunAndAudit(uow: GraphUnitOfWork<Change>, q: Op) returns (error: Option<GatewayError>)
      requires q.Query? && uow.store == store
      modifies uow, store
      ensures
        var (u, e) := CypherGateway.RunAndAudit(Uow(old(uow.open), []), q);
        uow.open == u.open && error == e && store.durable == old(store.durable) + u.durable
    {
      if q.statementFails {
        return Some(StatementFailed);
      }
      if uow.open.Some? {
        var _ := uow.Write(Effect(q.text));
      } else {
        store.durable := store.durable + [Effect(q.text)];
      }
      if q.auditFails {
        return Some(AuditFailed);
      }
      if uow.open.Some? {
        var _ := uow.Write(Audit(q.text));
      } else {
        uow.Enter();
        var _ := uow.Write(Audit(q.text));
        var _ := uow.Exit(false, false);
        assert store.durable == old(store.durable) + ([Effect(q.text)] + [Audit(q.text)]);
      }
      return None;
    }

    method HandleQuery(conn: ConnectionTransaction?, q: Op)
      returns (response: Result<(), GatewayError>, done: bool)
      requires q.Query? && (conn != null ==> conn.uow.store == store)
      modifies store, if conn == null then {} else {conn.uow}
      ensures
        var h := CypherGateway.HandleQuery(old(View(conn)), q);
        response == h.response && done == h.done && View(conn) == h.conn
        && store.durable == old(store.durable) + h.committed
    {
      var refused := QueryRefused(q);
      if refused.Some? {
        return Err(refused.value), conn == null;
      }
      if conn != null {
        var error := RunAndAudit(conn.uow, q);
        return Answer(error), false;
      }
      var uow := new GraphUnitOfWork<Change>(store);
      uow.Enter();
      var error := RunAndAudit(uow, q);
      var failure := uow.Exit(error.Some?, q.commitFails);
      return if failure.Some? then Err(UnitOfWorkFailed(failure.value)) else Answer(error), true;
    }

    method HandleRequest(conn: ConnectionTransaction?, a: Arrival)
      returns (response: Result<(), GatewayError>, next: ConnectionTransaction?, done: bool)
      requires conn != null ==> conn.uow.store == store
      modifies store, if conn == null then {} else {conn.uow}
      ensures next != null ==> next.uow.store == store && (next == conn || (conn == null && fresh(next) && fresh(next.uow)))
      ensures
        var h := CypherGateway.HandleRequest(cfg, old(View(conn)), a);
        response == h.response && done == h.done && View(next) == h.conn
        && store.durable == old(store.durable) + h.committed
    {
      var op := a.request.op;
      next := conn;
      if a.request.token != cfg.token || cfg.token == "" {
        return Err(BadToken), conn, conn == null;
      }
      if conn != null && a.now - conn.startedAt > cfg.timeout {
        AbortTransaction(conn);
        return Err(TimedOut), conn, false;
      }
      match op {
        case Begin =>
          if conn != null {
            return Err(AlreadyOpen), conn, false;
          }
          var uow := new GraphUnitOfWork<Change>(store);
          uow.Enter();
          next := new ConnectionTransaction(uow, a.now);
          return Ok(()), next, false;
        case Commit(conflict) =>
          if conn == null {
            return Err(NotOpen), null, true;
          }
          var failure := conn.uow.Exit(false, conflict);
          if failure.Some? {
            return Err(UnitOfWorkFailed(failure.value)), conn, false;
          }
          return Ok(()), null, true;
        case AbortTx =>
          if conn == null {
            return Err(NotOpen), null, true;
          }
          AbortTransaction(conn);
          return Ok(()), null, true;
        case Query(_, _, _, _, _, _) =>
          response, done := HandleQuery(conn, op);
        case OtherOp(_) =>
          return Err(UnsupportedOp), conn, conn == null;
      }
    }

    /**
     Answer one request of a connection. Its handle is tracked as long as it is the current one, and no longer; the
     handles of the other connections stay as they are.
     */
    method ServeOne(previous: ConnectionTransaction?, a: Arrival)
      returns (response: Result<(), GatewayError>, next: ConnectionTransaction?, done: bool)
      requires previous != null ==> previous.uow.store == store
      requires Handles(previous) <= openTransactions
      modifies store, this`openTransactions, if previous == null then {} else {previous.uow}
      ensures next != null ==>
        next.uow.store == store && (next == previous || (previous == null && fresh(next) && fresh(next.uow)))
      ensures Handles(next) <= openTransactions && (next != previous ==> Handles(previous) !! openTransactions)
      ensures openTransactions - Handles(next) == old(openTransactions) - Handles(previous)
      ensures
        var h := CypherGateway.HandleRequest(cfg, old(View(previous)), a);
        response == h.response && done == h.done && View(next) == h.conn
        && store.durable == old(store.durable) + h.committed
    {
      hide CypherGateway.HandleRequest;
      response, next, done := HandleRequest(previous, a);
      TrackTransaction(previous, next);
    }

    /** Serve a connection until it is done or its client goes away; its transaction does not outlive it. */
    method Handle(arrivals: seq<Arrival>)
      returns (responses: seq<Result<(), GatewayError>>, ghost handled: seq<Handled>)
      modifies store, this`openTransactions
      ensures openTransactions == old(openTransactions)
      ensures handled == Served(cfg, None, arrivals)
      ensures SameAnswers(responses, handled)
      ensures store.durable == old(store.durable) + Committed(handled)
      ensures |responses| <= |arrivals| && forall k :: 0 <= k < |responses| ==>
        (responses[k] == Err(BadToken) <==> !Carries(cfg, arrivals[k]))
      ensures (forall k :: 0 <= k < |arrivals| ==> !Carries(cfg, arrivals[k])) ==> store.durable == old(store.durable)
    {
      hide CypherGateway.HandleRequest, Served, Committed, SameAnswers, RolledBack;
      NoneServed();
      var connectionTx: ConnectionTransaction? := null;
      responses, handled := [], [];
      var i, done := 0, false;
      while i < |arrivals| && !done
        invariant 0 <= i <= |arrivals|
        invariant connectionTx != null ==>
          fresh(connectionTx) && fresh(connectionTx.uow) && connectionTx.uow.store == store
        invariant openTransactions == old(openTransactions) + Handles(connectionTx)
        invariant Served(cfg, None, arrivals)
          == handled + if done then [] else Served(cfg, View(connectionTx), arrivals[i..])
        invariant SameAnswers(responses, handled)
        invariant store.durable == old(store.durable) + Committed(handled)
      {
        ghost var h := CypherGateway.HandleRequest(cfg, View(connectionTx), arrivals[i]);
        ServedMore(cfg, handled, View(connectionTx), arrivals, i);
        CommittedMore(handled, h);
        AnswersMore(responses, handled, h);
        var response;
        response, connectionTx, done := ServeOne(connectionTx, arrivals[i]);
        responses, handled := responses + [response], handled + [h];
        i := i + 1;
      }
      assert !done ==> arrivals[i..] == [];
      if connectionTx != null {
        AbortTransaction(connectionTx);
        TrackTransaction(connectionTx, null);
      }
      AnsweredInTurn(cfg, arrivals, responses, handled);
    }
  }

  lemma AnsweredInTurn(cfg: Config, arrivals: seq<Arrival>, responses: seq<Result<(), GatewayError>>,
                       handled: seq<Handled>)
    requires handled == Served(cfg, None, arrivals) && SameAnswers(responses, handled)
    ensures |responses| <= |arrivals|
    ensures forall k :: 0 <= k < |responses| ==> (responses[k] == Err(BadToken) <==> !Carries(cfg, arrivals[k]))
    ensures (forall k :: 0 <= k < |arrivals| ==> !Carries(cfg, arrivals[k])) ==> Committed(handled) == []
  {
    hide Served, Committed, Carries;
    ServedLength(cfg, None, arrivals);
    forall k | 0 <= k < |responses|
      ensures responses[k] == Err(BadToken) <==> !Carries(cfg, arrivals[k])
    {
      AnsweredByToken(cfg, None, arrivals, k);
    }
    if forall k :: 0 <= k < |arrivals| ==> !Carries(cfg, arrivals[k]) {
      NothingWithoutToken(cfg, None, arrivals);
    }
  }

  predicate SameAnswers(responses: seq<Result<(), GatewayError>>, handled: seq<Handled>) {
    |responses| == |handled| && forall k :: 0 <= k < |handled| ==> responses[k] == handled[k].response
  }

  lemma AnswersMore(responses: seq<Result<(), GatewayError>>, handled: seq<Handled>, h: Handled)
    requires SameAnswers(responses, handled)
    ensures SameAnswers(responses + [h.response], handled + [h])
  {
  }

  lemma NoneServed()
    ensures SameAnswers([], []) && Committed([]) == []
    ensures forall cfg, conn :: Served(cfg, conn, []) == []
  {
  }

  lemma ServedMore(cfg: Config, handled: seq<Handled>, conn: Option<ConnTx>, arrivals: seq<Arrival>, i: nat)
    requires i < |arrivals|
    ensures
      var h := CypherGateway.HandleRequest(cfg, conn, arrivals[i]);
      handled + Served(cfg, conn, arrivals[i..])
        == (handled + [h]) + if h.done then [] else Served(cfg, h.conn, arrivals[i + 1..])
  {
    hide CypherGateway.HandleRequest;
    assert arrivals[i..][0] == arrivals[i] && arrivals[i..][1..] == arrivals[i + 1..];
  }

  lemma {:induction false} CommittedMore(hs: seq<Handled>, h: Handled)
    ensures Committed(hs + [h]) == Committed(hs) + h.committed
  {
    if hs == [] {
      assert [h][1..] == [];
    } else {
      CommittedMore(hs[1..], h);
      assert (hs + [h])[1..] == hs[1..] + [h];
    }
  }

  // ---------------------------------------------------------------------------
  // The client

  /** The code inside the client's transaction: a query, caught when it raises, or an exception of the code itself. */
  datatype Action = Sent(query: Op, caught: bool) | Raises

  /** What the connection does to a request and its reply. Nothing gets through after the first loss. */
  datatype Fate = Delivered | ReplyLost | RequestLost

  function ConnAfter(cfg: Config, conn: Option<ConnTx>, arrivals: seq<Arrival>): Option<ConnTx>
    decreases |arrivals|
  {
    if arrivals == [] then conn else ConnAfter(cfg, HandleRequest(cfg, conn, arrivals[0]).conn, arrivals[1..])
  }

  /** Each request was answered, and none of them ended the connection. */
  predicate StillOpen(cfg: Config, conn: Option<ConnTx>, arrivals: seq<Arrival>) {
    var hs := Served(cfg, conn, arrivals);
    |hs| == |arrivals| && forall k :: 0 <= k < |hs| ==> !hs[k].done
  }

  lemma {:induction false} ServedAppend(cfg: Config, conn: Option<ConnTx>, arrivals: seq<Arrival>, a: Arrival)
    requires StillOpen(cfg, conn, arrivals)
    ensures
      var h := HandleRequest(cfg, ConnAfter(cfg, conn, arrivals), a);
      && Served(cfg, conn, arrivals + [a]) == Served(cfg, conn, arrivals) + [h]
      && ConnAfter(cfg, conn, arrivals + [a]) == h.conn
      && (!h.done ==> StillOpen(cfg, conn, arrivals + [a]))
    decreases |arrivals|
  {
    hide HandleRequest;
    if arrivals == [] {
      assert [a][1..] == [];
    } else {
      var first := HandleRequest(cfg, conn, arrivals[0]);
      var hs, rest := Served(cfg, conn, arrivals), Served(cfg, first.conn, arrivals[1..]);
      assert !hs[0].done && hs == [first] + rest;
      assert forall k :: 0 <= k < |rest| ==> rest[k] == hs[k + 1];
      ServedAppend(cfg, first.conn, arrivals[1..], a);
      assert (arrivals + [a])[0] == arrivals[0] && (arrivals + [a])[1..] == arrivals[1..] + [a];
    }
  }

  lemma LastEnds(arrivals: seq<Arrival>, hs: seq<Handled>, a: Arrival, h: Handled)
    requires |hs| == |arrivals|
    ensures EndsCommitted(arrivals + [a], hs + [h]) <==> h.response.Ok? && h.done && !a.request.op.AbortTx?
  {
  }

  /** In time, and no query comes after a commit; there is a commit only if `committing`. */
  predicate InOrder(arrivals: seq<Arrival>, now: int, committing: bool) {
    && ClockAdvances(arrivals)
    && (forall k :: 0 <= k < |arrivals| ==> arrivals[k].now <= now && (arrivals[k].request.op.Commit? ==> committing))
    && (forall i, j :: 0 <= i < j < |arrivals| && arrivals[i].request.op.Commit? ==> !arrivals[j].request.op.Query?)
  }

  lemma InOrderMore(arrivals: seq<Arrival>, now: int, committing: bool, a: Arrival)
    requires InOrder(arrivals, now, committing) && now <= a.now && (a.request.op.Query? ==> !committing)
    ensures InOrder(arrivals + [a], a.now, committing || a.request.op.Commit?)
    ensures InOrder(arrivals, a.now, committing || a.request.op.Commit?)
  {
  }

  /** The requests of the first `n` actions have arrived after the one that begins. */
  predicate AllSent(arrivals: seq<Arrival>, token: string, script: seq<Action>, n: nat)
    requires n <= |script|
  {
    && |arrivals| == n + 1 && arrivals[0].request.op.Begin?
    && forall k :: 0 <= k < n ==> script[k].Sent? && arrivals[k + 1].request == Request(token, script[k].query)
  }

  /** What begins, queries and commits do to a connection that is up. */
  predicate AsExpected(op: Op, h: Handled) {
    match op
    case Begin => h.response.Ok? <==> !h.done
    case Query(_, _, _, _, _, _) => !h.done
    case Commit(_) => h.response.Ok? <==> h.done
    case _ => true
  }

  lemma AnswersAsExpected(cfg: Config, conn: Option<ConnTx>, a: Arrival)
    requires a.request.op.Begin? <==> conn.None?
    ensures AsExpected(a.request.op, HandleRequest(cfg, conn, a))
    ensures !HandleRequest(cfg, conn, a).done ==> HandleRequest(cfg, conn, a).conn.Some?
  {
  }

  /** The requests that arrived end with an accepted commit. */
  predicate Accepted(cfg: Config, arrivals: seq<Arrival>) {
    var hs := Served(cfg, None, arrivals);
    |hs| <= |arrivals| && EndsCommitted(arrivals, hs)
  }

  lemma ClientIsAllOrNothing(cfg: Config, arrivals: seq<Arrival>, now: int, committing: bool)
    requires InOrder(arrivals, now, committing)
    ensures |Served(cfg, None, arrivals)| <= |arrivals|
    ensures
      var hs := Served(cfg, None, arrivals);
      Committed(hs) == if Accepted(cfg, arrivals) then Ran(arrivals, hs) else []
  {
    hide HandleRequest, Served, Committed, Ran, EndsCommitted;
    AllOrNothingIff(cfg, arrivals);
  }

  class GraphContext {
    const cfg: Config
    const token: string
    var txConnection: bool
    ghost var arrivals: seq<Arrival>

    constructor (cfg: Config, token: string)
      ensures this.cfg == cfg && this.token == token && !txConnection
    {
      this.cfg, this.token, txConnection, arrivals := cfg, token, false, [];
    }

    /** What the gateway has for a connection that is up. */
    ghost predicate Up(conn: Option<ConnTx>)
      reads this
    {
      && StillOpen(cfg, None, arrivals) && conn == ConnAfter(cfg, None, arrivals)
      && (conn.None? <==> arrivals == [])
    }

    /**
     One request and its reply, on a connection that may be down. A loss takes it down, and so does an answer that ends
     it.
     */
    method Rpc(up: bool, conn: Option<ConnTx>, a: Arrival, fate: Fate) returns (ok: bool, stillUp: bool, next: Option<ConnTx>)
      requires up ==> Up(conn) && (a.request.op.Begin? <==> conn.None?)
      modifies this`arrivals
      ensures
        var h := HandleRequest(cfg, conn, a);
        && arrivals == (if up && !fate.RequestLost? then old(arrivals) + [a] else old(arrivals))
        && (ok <==> up && fate.Delivered? && h.response.Ok?)
        && (stillUp <==> up && fate.Delivered? && !h.done)
        && (stillUp ==> Up(next))
        && (up && !fate.RequestLost? ==>
              && AsExpected(a.request.op, h)
              && (Accepted(cfg, arrivals) <==> h.response.Ok? && h.done && !a.request.op.AbortTx?))
    {
      hide HandleRequest, ConnAfter, AsExpected, EndsCommitted;
      if !up || fate.RequestLost? {
        return false, false, conn;
      }
      var h := HandleRequest(cfg, conn, a);
      ServedAppend(cfg, None, arrivals, a);
      AnswersAsExpected(cfg, conn, a);
      LastEnds(arrivals, Served(cfg, None, arrivals), a, h);
      arrivals := arrivals + [a];
      return h.response.Ok? && fate.Delivered?, !h.done && fate.Delivered?, h.conn;
    }

    /** Run the code of a transaction that has begun: send its queries until an exception leaves it. */
    method RunCode(conn0: Option<ConnTx>, up0: bool, script: seq<Action>, clock: seq<int>, fates: seq<Fate>)
      returns (raised: bool, up: bool, conn: Option<ConnTx>, ghost now: int)
      requires |clock| == |fates| == |script| + 3
      requires forall i, j :: 0 <= i < j < |clock| ==> clock[i] <= clock[j]
      requires forall k :: 0 <= k < |script| && script[k].Sent? ==> script[k].query.Query?
      requires up0 ==> Up(conn0) && conn0.Some? && AllSent(arrivals, token, script, 0)
      requires InOrder(arrivals, clock[0], false) && !Accepted(cfg, arrivals)
      modifies this`arrivals
      ensures up ==> Up(conn) && conn.Some?
      ensures now <= clock[|script|] && InOrder(arrivals, now, false) && !Accepted(cfg, arrivals)
      ensures !raised && up ==> AllSent(arrivals, token, script, |script|)
    {
      hide HandleRequest, Served, StillOpen, ConnAfter, InOrder, Accepted;
      raised, up, conn := false, up0, conn0;
      var i := 0;
      while i < |script| && !raised
        invariant 0 <= i <= |script|
        invariant up ==> Up(conn) && conn.Some?
        invariant InOrder(arrivals, clock[i], false) && !Accepted(cfg, arrivals)
        invariant !raised && up ==> AllSent(arrivals, token, script, i)
      {
        if script[i].Raises? {
          InOrderLater(arrivals, clock[i], clock[i + 1]);
          raised := true;
        } else {
          var a := Arrival(clock[i + 1], Request(token, script[i].query));
          InOrderMore(arrivals, clock[i], false, a);
          var ok;
          ok, up, conn := Rpc(up, conn, a, fates[i + 1]);
          raised := !ok && !script[i].caught;
        }
        i := i + 1;
      }
      now := clock[i];
    }

    /**
     Begin, run the code, commit; on an exception send a rollback. `arrivals` is what reached the gateway: durable is
     everything its queries wrote if it ends with an accepted commit, and nothing otherwise. The transaction returns
     normally exactly when it ends so and the client is told; then all queries of the code arrived. Inside another
     transaction of the client it raises. `clock` and `fates` give time and fate of each request.
     */
    method Transaction(script: seq<Action>, clock: seq<int>, fates: seq<Fate>, conflict: bool) returns (raised: bool)
      requires |clock| == |fates| == |script| + 3
      requires forall i, j :: 0 <= i < j < |clock| ==> clock[i] <= clock[j]
      requires forall k :: 0 <= k < |script| && script[k].Sent? ==> script[k].query.Query?
      modifies this
      ensures txConnection == old(txConnection)
      ensures txConnection ==> raised && arrivals == []
      ensures
        var hs := Served(cfg, None, arrivals);
        && |hs| <= |arrivals|
        && Committed(hs) == if Accepted(cfg, arrivals) then Ran(arrivals, hs) else []
      ensures raised <==> !Accepted(cfg, arrivals) || fates[|script| + 1].ReplyLost?
      ensures !raised ==>
        && |arrivals| == |script| + 2 && AllSent(arrivals[..|script| + 1], token, script, |script|)
        && arrivals[|script| + 1].request == Request(token, Commit(conflict))
    {
      hide HandleRequest, Served, Committed, Ran, StillOpen, ConnAfter, InOrder, Accepted, ClockAdvances;
      arrivals, raised := [], txConnection;
      NothingArrived(cfg, clock[0]);
      if txConnection {
        return;
      }
      txConnection := true;
      var begin := Arrival(clock[0], Request(token, Begin));
      InOrderMore(arrivals, clock[0], false, begin);
      var ok, up, conn := Rpc(true, None, begin, fates[0]);
      raised := !ok;
      ghost var now, committing := clock[0], false;
      if !raised {
        raised, up, conn, now := RunCode(conn, up, script, clock, fates);
      }
      if !raised {
        var commit := Arrival(clock[|script| + 1], Request(token, Commit(conflict)));
        InOrderMore(arrivals, now, false, commit);
        assert (arrivals + [commit])[..|arrivals|] == arrivals;
        now, committing := commit.now, true;
        ok, up, conn := Rpc(up, conn, commit, fates[|script| + 1]);
        raised := !ok;
      }
      if raised {
        var abort := Arrival(clock[|script| + 2], Request(token, AbortTx));
        InOrderMore(arrivals, now, committing, abort);
        now := abort.now;
        ok, up, conn := Rpc(up, conn, abort, fates[|script| + 2]);
      }
      ClientIsAllOrNothing(cfg, arrivals, now, committing);
      txConnection := false;
    }
  }

  lemma InOrderLater(arrivals: seq<Arrival>, now: int, later: int)
    requires InOrder(arrivals, now, false) && now <= later
    ensures InOrder(arrivals, later, false)
  {
  }

  lemma NothingArrived(cfg: Config, now: int)
    ensures InOrder([], now, false)
    ensures Served(cfg, None, []) == [] && !Accepted(cfg, []) && Committed([]) == []
    ensures StillOpen(cfg, None, []) && ConnAfter(cfg, None, []) == None
  {
  }
}
