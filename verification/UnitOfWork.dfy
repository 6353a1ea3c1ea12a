/** Nested units of work over one store transaction, and the wrapper that retries a transaction on a conflict. */
module UnitOfWork {
  import opened Prelude

  datatype Failure = NotActive | MarkedForRollback | Transient | Other

  /** An open transaction: how deep it is nested, whether it can still commit, and what it has written. */
  datatype Tx<W> = Tx(depth: int, rollbackOnly: bool, pending: seq<W>)

  datatype Uow<W> = Uow(open: Option<Tx<W>>, durable: seq<W>)

  function Entered<W>(u: Uow<W>): Uow<W> {
    if u.open.Some? then u.(open := Some(u.open.value.(depth := u.open.value.depth + 1)))
    else u.(open := Some(Tx(1, false, [])))
  }

  /** Leave one level, with or without an exception; `conflict` says whether a commit by the store would fail. */
  function Exited<W>(u: Uow<W>, failed: bool, conflict: bool): (Uow<W>, Option<Failure>) {
    if u.open.None? then (u, Some(NotActive))
    else
      var tx := u.open.value;
      var left := tx.(rollbackOnly := tx.rollbackOnly || failed, depth := tx.depth - 1);
      if left.depth > 0 then (u.(open := Some(left)), None)
      else if failed then (u.(open := None), None)
      else if left.rollbackOnly then (u.(open := None), Some(MarkedForRollback))
      else if conflict then (u.(open := None), Some(Transient))
      else (Uow(None, u.durable + tx.pending), None)
  }

  function RolledBack<W>(u: Uow<W>): (Uow<W>, Option<Failure>) {
    if u.open.None? then (u, Some(NotActive))
    else
      var tx := u.open.value;
      if tx.depth > 1 then (u.(open := Some(tx.(rollbackOnly := true, depth := tx.depth - 1))), None)
      else (u.(open := None), None)
  }

  /** A repository operation. */
  function Written<W>(u: Uow<W>, w: W): (Uow<W>, Option<Failure>) {
    if u.open.None? then (u, Some(NotActive))
    else (u.(open := Some(u.open.value.(pending := u.open.value.pending + [w]))), None)
  }

  /** Without a transaction, leaving, rolling back and writing change nothing and say so; inside one, none of them does. */
  lemma RefusedIffNotActive<W>(u: Uow<W>, failed: bool, conflict: bool, w: W)
    ensures Exited(u, failed, conflict).1 == Some(NotActive) <==> u.open.None?
    ensures RolledBack(u).1 == Some(NotActive) <==> u.open.None?
    ensures Written(u, w).1 == Some(NotActive) <==> u.open.None?
    ensures u.open.None? ==> Exited(u, failed, conflict).0 == RolledBack(u).0 == Written(u, w).0 == u
    ensures u.open.Some? ==> RolledBack(u).1.None? && Written(u, w).1.None?
  {
  }

  // ---------------------------------------------------------------------------
  // Any trace of calls

  datatype Call<W> =
    | Entering
    | Writing(w: W)
    | Exiting(failed: bool, conflict: bool)
    | RollingBack

  function Apply<W>(u: Uow<W>, c: Call<W>): Uow<W> {
    match c
    case Entering => Entered(u)
    case Writing(w) => Written(u, w).0
    case Exiting(failed, conflict) => Exited(u, failed, conflict).0
    case RollingBack => RolledBack(u).0
  }

  function Run<W>(u: Uow<W>, calls: seq<Call<W>>): Uow<W> {
    if calls == [] then u else Apply(Run(u, calls[..|calls| - 1]), calls[|calls| - 1])
  }

  function Nesting<W>(calls: seq<Call<W>>): int {
    if calls == [] then 0
    else
      var before := Nesting(calls[..|calls| - 1]);
      match calls[|calls| - 1]
      case Entering => before + 1
      case Writing(_) => before
      case Exiting(_, _) => before - 1
      case RollingBack => before - 1
  }

  function Writes<W>(calls: seq<Call<W>>): seq<W> {
    if calls == [] then []
    else
      var before := Writes(calls[..|calls| - 1]);
      if calls[|calls| - 1].Writing? then before + [calls[|calls| - 1].w] else before
  }

  /** The calls after the outermost entry and before its exit. */
  predicate StaysOpen<W>(calls: seq<Call<W>>) {
    |calls| > 0 && calls[0].Entering? && forall n :: 0 < n <= |calls| ==> Nesting(calls[..n]) > 0
  }

  /** From the outermost entry to the call that closes it, nested in any way in between. */
  predicate WholeTransaction<W>(calls: seq<Call<W>>) {
    |calls| > 0 && StaysOpen(calls[..|calls| - 1]) && Nesting(calls) == 0
  }

  predicate Unfailing<W>(c: Call<W>) {
    !c.RollingBack? && !(c.Exiting? && c.failed)
  }

  predicate AllUnfailing<W>(calls: seq<Call<W>>) {
    forall k :: 0 <= k < |calls| ==> Unfailing(calls[k])
  }

  lemma AllUnfailingMore<W>(calls: seq<Call<W>>, c: Call<W>)
    ensures AllUnfailing(calls + [c]) <==> AllUnfailing(calls) && Unfailing(c)
  {
    forall k | 0 <= k < |calls|
      ensures (calls + [c])[k] == calls[k]
    {
    }
    assert (calls + [c])[|calls|] == c;
  }

  /** While the transaction is open nothing becomes durable, and a failure anywhere inside is remembered. */
  lemma {:induction false} OpenTransaction<W>(u: Uow<W>, calls: seq<Call<W>>)
    requires u.open.None? && StaysOpen(calls)
    ensures Run(u, calls) == Uow(Some(Tx(Nesting(calls), !AllUnfailing(calls), Writes(calls))), u.durable)
    decreases |calls|
  {
    var before, last := calls[..|calls| - 1], calls[|calls| - 1];
    assert calls == before + [last];
    AllUnfailingMore(before, last);
    assert calls[..|calls|] == calls;
    if before == [] {
      assert Run(u, before) == u;
    } else {
      forall n | 0 < n <= |before|
        ensures Nesting(before[..n]) > 0
      {
        assert before[..n] == calls[..n];
      }
      OpenTransaction(u, before);
    }
  }

  /**
   The outermost exit makes every write durable exactly when no exit inside failed, nothing was rolled back and the
   store accepts the commit; otherwise the durable state is as before.
   */
  lemma CommitsIff<W>(u: Uow<W>, calls: seq<Call<W>>)
    requires u.open.None? && WholeTransaction(calls)
    ensures
      var last := calls[|calls| - 1];
      Run(u, calls) ==
        if AllUnfailing(calls) && last.Exiting? && !last.conflict then Uow(None, u.durable + Writes(calls)) else u
  {
    hide Nesting;
    var before, last := calls[..|calls| - 1], calls[|calls| - 1];
    assert calls == before + [last];
    ClosedByExit(calls);
    OpenTransaction(u, before);
    AllUnfailingMore(before, last);
  }

  lemma ClosedByExit<W>(calls: seq<Call<W>>)
    requires WholeTransaction(calls)
    ensures var last := calls[|calls| - 1]; last.Exiting? || last.RollingBack?
    ensures Nesting(calls[..|calls| - 1]) == 1
  {
    var before := calls[..|calls| - 1];
    assert before[..|before|] == before;
  }

  // ---------------------------------------------------------------------------
  // Code written with `with` blocks

  /** `swallowed` says that the code around a block catches what the block raises. */
  datatype Code<W> =
    | Save(w: W)
    | Raise(failure: Failure)
    | With(body: seq<Code<W>>, swallowed: bool, conflict: bool)

  function Outcome<W>(u: Uow<W>, code: seq<Code<W>>): (Uow<W>, Option<Failure>)
    decreases code, 0
  {
    if code == [] then (u, None)
    else
      var first :=
        match code[0]
        case Save(w) => Written(u, w)
        case Raise(f) => (u, Some(f))
        case With(body, swallowed, conflict) => BlockOutcome(u, body, swallowed, conflict);
      if first.1.Some? then first else Outcome(first.0, code[1..])
  }

  function BlockOutcome<W>(u: Uow<W>, body: seq<Code<W>>, swallowed: bool, conflict: bool): (Uow<W>, Option<Failure>)
    decreases body, 1
  {
    var inside := Outcome(Entered(u), body);
    var out := Exited(inside.0, inside.1.Some?, conflict);
    var raised := if out.1.Some? then out.1 else inside.1;
    (out.0, if swallowed then None else raised)
  }

  predicate NeverRaises<W>(code: seq<Code<W>>) {
    code == [] || (!code[0].Raise? && (code[0].With? ==> NeverRaises(code[0].body)) && NeverRaises(code[1..]))
  }

  function Saves<W>(code: seq<Code<W>>): seq<W> {
    if code == [] then []
    else (match code[0]
          case Save(w) => [w]
          case Raise(_) => []
          case With(body, _, _) => Saves(body)) + Saves(code[1..])
  }

  /** Code inside an open transaction: a failure shows in what it raises or, swallowed, in the mark it leaves. */
  predicate FailureShows<W(==)>(u: Uow<W>, code: seq<Code<W>>)
    requires u.open.Some?
  {
    var (v, raised) := Outcome(u, code);
    && v.durable == u.durable && v.open.Some? && v.open.value.depth == u.open.value.depth
    && (NeverRaises(code) ==>
          raised.None? && v.open.value == u.open.value.(pending := u.open.value.pending + Saves(code)))
    && (!NeverRaises(code) ==> raised.Some? || v.open.value.rollbackOnly)
    && (u.open.value.rollbackOnly ==> v.open.value.rollbackOnly)
  }

  lemma SaveShows<W>(u: Uow<W>, w: W, rest: seq<Code<W>>)
    requires u.open.Some? && u.open.value.depth >= 1 && FailureShows(Written(u, w).0, rest)
    ensures FailureShows(u, [Save(w)] + rest)
  {
    var code := [Save(w)] + rest;
    assert code[1..] == rest;
    assert u.open.value.pending + [w] + Saves(rest) == u.open.value.pending + ([w] + Saves(rest));
  }

  lemma BlockInside<W>(u: Uow<W>, body: seq<Code<W>>, swallowed: bool, conflict: bool)
    requires u.open.Some? && u.open.value.depth >= 1 && FailureShows(Entered(u), body)
    ensures
      var (v, raised) := BlockOutcome(u, body, swallowed, conflict);
      && v.durable == u.durable && v.open.Some? && v.open.value.depth == u.open.value.depth
      && (NeverRaises(body) ==>
            raised.None? && v.open.value == u.open.value.(pending := u.open.value.pending + Saves(body)))
      && (!NeverRaises(body) ==> v.open.value.rollbackOnly)
      && (u.open.value.rollbackOnly ==> v.open.value.rollbackOnly)
  {
    hide Outcome, NeverRaises, Saves;
  }

  lemma WithShows<W>(u: Uow<W>, body: seq<Code<W>>, swallowed: bool, conflict: bool, rest: seq<Code<W>>)
    requires u.open.Some? && u.open.value.depth >= 1 && FailureShows(Entered(u), body)
    requires BlockOutcome(u, body, swallowed, conflict).0.open.Some?
    requires FailureShows(BlockOutcome(u, body, swallowed, conflict).0, rest)
    ensures FailureShows(u, [With(body, swallowed, conflict)] + rest)
  {
    hide BlockOutcome;
    var code := [With(body, swallowed, conflict)] + rest;
    assert code[1..] == rest;
    BlockInside(u, body, swallowed, conflict);
    assert u.open.value.pending + Saves(body) + Saves(rest) == u.open.value.pending + (Saves(body) + Saves(rest));
  }

  lemma {:induction false} ExecInside<W>(u: Uow<W>, code: seq<Code<W>>)
    requires u.open.Some? && u.open.value.depth >= 1
    ensures FailureShows(u, code)
    decreases code
  {
    hide BlockOutcome;
    if code != [] {
      var rest := code[1..];
      assert code == [code[0]] + rest;
      match code[0]
      case Save(w) =>
        ExecInside(Written(u, w).0, rest);
        SaveShows(u, w, rest);
      case Raise(_) =>
      case With(body, swallowed, conflict) =>
        ExecInside(Entered(u), body);
        BlockInside(u, body, swallowed, conflict);
        ExecInside(BlockOutcome(u, body, swallowed, conflict).0, rest);
        WithShows(u, body, swallowed, conflict, rest);
    }
  }

  /** A block entered outside any transaction makes all its writes durable or none, and says which. */
  lemma OutermostBlock<W>(u: Uow<W>, body: seq<Code<W>>, conflict: bool)
    requires u.open.None?
    ensures
      var (v, raised) := BlockOutcome(u, body, false, conflict);
      && (raised.None? <==> NeverRaises(body) && !conflict)
      && v == (if raised.None? then Uow(None, u.durable + Saves(body)) else u)
  {
    ExecInside(Entered(u), body);
  }

  // ---------------------------------------------------------------------------
  // The retry wrapper

  const DEADLOCK_ATTEMPTS := 8

  /** What one run of the wrapped method would do: the write lock or the commit may meet a conflict. */
  datatype Try<W> = Try(lockConflict: bool, body: seq<Code<W>>, commitConflict: bool)

  function LockedBody<W>(t: Try<W>): seq<Code<W>> {
    (if t.lockConflict then [Raise(Transient)] else []) + t.body
  }

  predicate TrySucceeds<W>(t: Try<W>) {
    !t.lockConflict && NeverRaises(t.body) && !t.commitConflict
  }

  /** What a run raises, whatever is in the store. */
  function TryRaises<W>(t: Try<W>): Option<Failure> {
    BlockOutcome(Uow(None, []), LockedBody(t), false, t.commitConflict).1
  }

  lemma {:induction false} RaisesAlike<W>(u: Uow<W>, v: Uow<W>, code: seq<Code<W>>)
    requires u.open == v.open && (u.open.Some? ==> u.open.value.depth >= 1)
    requires u.open.Some? || code == []
    ensures Outcome(u, code).1 == Outcome(v, code).1 && Outcome(u, code).0.open == Outcome(v, code).0.open
    decreases code
  {
    if code != [] {
      match code[0]
      case Save(w) => RaisesAlike(Written(u, w).0, Written(v, w).0, code[1..]);
      case Raise(_) =>
      case With(body, swallowed, conflict) =>
        RaisesAlike(Entered(u), Entered(v), body);
        ExecInside(Entered(u), body);
        ExecInside(Entered(v), body);
        RaisesAlike(BlockOutcome(u, body, swallowed, conflict).0, BlockOutcome(v, body, swallowed, conflict).0, code[1..]);
    }
  }

  lemma LockedNever<W>(t: Try<W>)
    ensures NeverRaises(LockedBody(t)) <==> !t.lockConflict && NeverRaises(t.body)
    ensures !t.lockConflict ==> LockedBody(t) == t.body
  {
    if t.lockConflict {
      assert LockedBody(t)[0] == Raise(Transient);
    } else {
      assert LockedBody(t) == t.body;
    }
  }

  lemma BlockRaisesAlike<W>(u: Uow<W>, v: Uow<W>, body: seq<Code<W>>, conflict: bool)
    requires u.open.None? && v.open.None?
    ensures BlockOutcome(u, body, false, conflict).1 == BlockOutcome(v, body, false, conflict).1
  {
    hide Outcome;
    RaisesAlike(Entered(u), Entered(v), body);
    ExecInside(Entered(u), body);
    ExecInside(Entered(v), body);
  }

  lemma TryOutcome<W>(u: Uow<W>, t: Try<W>)
    requires u.open.None?
    ensures
      var (v, raised) := BlockOutcome(u, LockedBody(t), false, t.commitConflict);
      && raised == TryRaises(t)
      && (raised.None? <==> TrySucceeds(t))
      && v == (if raised.None? then Uow(None, u.durable + Saves(t.body)) else u)
  {
    hide BlockOutcome, NeverRaises, Saves, LockedBody;
    OutermostBlock(u, LockedBody(t), t.commitConflict);
    BlockRaisesAlike(u, Uow(None, []), LockedBody(t), t.commitConflict);
    LockedNever(t);
  }

  /** A conflict that the method swallowed inside is not retried: the exit reports the mark, not the conflict. */
  lemma SwallowedConflictIsNotRetried<W>(w: W)
    ensures TryRaises(Try(false, [Save(w), With([Raise(Transient)], true, false)], false)) == Some(MarkedForRollback)
  {
    var u: Uow<W> := Entered(Uow(None, []));
    var inner: seq<Code<W>> := [Raise(Transient)];
    var body := [Save(w), With(inner, true, false)];
    assert LockedBody(Try(false, body, false)) == body;
    assert Outcome(Entered(Written(u, w).0), inner) == (Entered(Written(u, w).0), Some(Transient));
    assert body[1..] == [With(inner, true, false)];
    var v := BlockOutcome(Written(u, w).0, inner, true, false);
    assert v.1 == None && v.0.open.value.rollbackOnly;
    assert body[1..][1..] == [];
    assert Outcome(v.0, []) == (v.0, None);
    assert Outcome(Written(u, w).0, body[1..]) == v;
    assert Outcome(u, body) == v;
    assert BlockOutcome(Uow(None, []), body, false, false).1 == Some(MarkedForRollback);
  }

  // ---------------------------------------------------------------------------
  // The class

  class Store<W> {
    var durable: seq<W>

    constructor ()
      ensures durable == []
    {
      durable := [];
    }
  }

  class GraphUnitOfWork<W> {
    const store: Store<W>
    var open: Option<Tx<W>>

    constructor (store: Store<W>)
      ensures this.store == store && open.None?
    {
      this.store := store;
      open := None;
    }

    function Contents(): Uow<W>
      reads this, store
    {
      Uow(open, store.durable)
    }

    method Enter()
      modifies this`open
      ensures Contents() == Entered(old(Contents()))
    {
      if open.Some? {
        open := Some(open.value.(depth := open.value.depth + 1));
        return;
      }
      open := Some(Tx(1, false, []));
    }

    method Exit(failed: bool, conflict: bool) returns (raised: Option<Failure>)
      modifies this`open, store
      ensures (Contents(), raised) == Exited(old(Contents()), failed, conflict)
    {
      if open.None? {
        return Some(NotActive);
      }
      if failed {
        open := Some(open.value.(rollbackOnly := true));
      }
      open := Some(open.value.(depth := open.value.depth - 1));
      if open.value.depth > 0 {
        return None;
      }
      var tx := open.value;
      open := None;
      if failed {
        return None;
      }
      if tx.rollbackOnly {
        return Some(MarkedForRollback);
      }
      if conflict {
        return Some(Transient);
      }
      store.durable := store.durable + tx.pending;
      return None;
    }

    method Rollback() returns (raised: Option<Failure>)
      modifies this`open
      ensures (Contents(), raised) == RolledBack(old(Contents()))
    {
      if open.None? {
        return Some(NotActive);
      }
      open := Some(open.value.(rollbackOnly := true));
      if open.value.depth > 1 {
        open := Some(open.value.(depth := open.value.depth - 1));
        return None;
      }
      open := None;
      return None;
    }

    method Write(w: W) returns (raised: Option<Failure>)
      modifies this`open
      ensures (Contents(), raised) == Written(old(Contents()), w)
    {
      if open.None? {
        return Some(NotActive);
      }
      open := Some(open.value.(pending := open.value.pending + [w]));
      return None;
    }

    method Exec(code: seq<Code<W>>) returns (raised: Option<Failure>)
      modifies this`open, store
      ensures (Contents(), raised) == Outcome(old(Contents()), code)
      decreases code, 0
    {
      if code == [] {
        return None;
      }
      match code[0] {
        case Save(w) => raised := Write(w);
        case Raise(failure) => raised := Some(failure);
        case With(body, swallowed, conflict) => raised := ExecWith(body, swallowed, conflict);
      }
      if raised.None? {
        raised := Exec(code[1..]);
      }
    }

    method ExecWith(body: seq<Code<W>>, swallowed: bool, conflict: bool) returns (raised: Option<Failure>)
      modifies this`open, store
      ensures (Contents(), raised) == BlockOutcome(old(Contents()), body, swallowed, conflict)
      decreases body, 1
    {
      Enter();
      var inside := Exec(body);
      raised := Exit(inside.Some?, conflict);
      if raised.None? {
        raised := inside;
      }
      if swallowed {
        raised := None;
      }
    }

    /**
     Run a mutation. Inside a transaction it is one nested block. Outside, success means the effect of exactly one
     run and failure none, after at most eight runs; only a conflict starts another.
     */
    method Transactional(tries: seq<Try<W>>) returns (raised: Option<Failure>)
      requires |tries| == DEADLOCK_ATTEMPTS
      modifies this`open, store
      ensures old(open).Some? ==>
        (Contents(), raised) == BlockOutcome(old(Contents()), tries[0].body, false, false)
      ensures old(open).None? ==> open.None?
      ensures old(open).None? ==>
        exists k :: 0 <= k < DEADLOCK_ATTEMPTS
          && (forall j :: 0 <= j < k ==> TryRaises(tries[j]) == Some(Transient))
          && raised == TryRaises(tries[k])
          && (raised.None? <==> TrySucceeds(tries[k]))
          && (raised == Some(Transient) ==> k == DEADLOCK_ATTEMPTS - 1)
          && store.durable == if raised.None? then old(store.durable) + Saves(tries[k].body) else old(store.durable)
    {
      if open.Some? {
        raised := ExecWith(tries[0].body, false, false);
        return;
      }
      var attempt := 0;
      while true
        invariant 0 <= attempt < DEADLOCK_ATTEMPTS
        invariant Contents() == old(Contents())
        invariant forall j :: 0 <= j < attempt ==> TryRaises(tries[j]) == Some(Transient)
        decreases DEADLOCK_ATTEMPTS - attempt
      {
        var t := tries[attempt];
        TryOutcome(Contents(), t);
        raised := ExecWith(LockedBody(t), false, t.commitConflict);
        if raised != Some(Transient) || attempt == DEADLOCK_ATTEMPTS - 1 {
          return;
        }
        attempt := attempt + 1;
      }
    }
  }
}
