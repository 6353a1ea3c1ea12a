/** What the sections of the pool do to each child, whatever else is in the pool. */
module PoolLaws {
  import opened Prelude
  import opened ActionPool

  /** The children that are not in a set, in their order. */
  function Without(cs: seq<Child>, gone: set<Child>): seq<Child> {
    if cs == [] then []
    else (if cs[0] in gone then [] else [cs[0]]) + Without(cs[1..], gone)
  }

  lemma {:induction false} WithoutLast(cs: seq<Child>, last: Child, gone: set<Child>)
    ensures Without(cs + [last], gone) == Without(cs, gone) + if last in gone then [] else [last]
  {
    if cs == [] {
      assert cs + [last] == [last];
    } else {
      assert (cs + [last])[1..] == cs[1..] + [last];
      WithoutLast(cs[1..], last, gone);
    }
  }

  lemma {:induction false} SparedAreWithout(cfg: Config, d: Doom, cs: seq<Child>, gone: set<Child>)
    requires forall c :: c in cs ==> (c in gone <==> Doomed(cfg, d, c))
    ensures Spared(cfg, d, cs) == Without(cs, gone)
    decreases |cs|
  {
    hide Doomed;
    if cs != [] {
      var before, last := cs[..|cs| - 1], cs[|cs| - 1];
      assert cs == before + [last];
      SparedAreWithout(cfg, d, before, gone);
      WithoutLast(before, last, gone);
    }
  }

  /** Some children are killed, and nothing else happens. */
  predicate Kills(s: State, next: State, gone: set<Child>) {
    next == s.(pool := s.pool.(children := Without(s.pool.children, gone)))
  }

  /** An eviction by revision kills the children of that revision, busy or idle, and no others. */
  lemma EvictionByRevision(cfg: Config, s: State, revision: string)
    ensures Kills(s, Next(cfg, s, Evict(revision)), set c | c in s.pool.children && c.key.revision == revision)
  {
    SparedAreWithout(cfg, OfRevision(revision), s.pool.children,
                     set c | c in s.pool.children && c.key.revision == revision);
  }

  lemma EvictionByDataSpace(cfg: Config, s: State, dataSpace: string)
    ensures Kills(s, Next(cfg, s, EvictSpace(dataSpace)), set c | c in s.pool.children && c.key.dataSpace == dataSpace)
  {
    SparedAreWithout(cfg, OfDataSpace(dataSpace), s.pool.children,
                     set c | c in s.pool.children && c.key.dataSpace == dataSpace);
  }

  /** Idle for the configured time; with none configured, no child is. */
  predicate IdleTooLong(cfg: Config, now: int, c: Child) {
    cfg.idleSeconds >= 1 && !c.busy && c.releasedAt + cfg.idleSeconds <= now
  }

  /** The reaper kills the children that have been idle for too long, and no others. */
  lemma ReaperKills(cfg: Config, s: State, now: int)
    ensures Kills(s, Next(cfg, s, ReapStep(now)), set c | c in s.pool.children && IdleTooLong(cfg, now, c))
  {
    SparedAreWithout(cfg, Overdue(now), s.pool.children, set c | c in s.pool.children && IdleTooLong(cfg, now, c));
  }

  lemma ShutdownKillsAll(cfg: Config, s: State)
    ensures Next(cfg, s, ShutdownStep) == s.(pool := Pool([], s.pool.reserved, true))
  {
    SparedAre(cfg, All, s.pool.children);
    NoMembers(Spared(cfg, All, s.pool.children));
  }

  lemma NoMembers(cs: seq<Child>)
    ensures cs != [] ==> exists c :: c in cs
  {
    assert cs != [] ==> cs[0] in cs;
  }

  // ---------------------------------------------------------------------------
  // Checkout

  /** A child on the same revision and data space with another interpreter, and idle. */
  predicate StaleFor(key: Key, c: Child) {
    !c.busy && c.key.revision == key.revision && c.key.dataSpace == key.dataSpace && c.key.python != key.python
  }

  /** A checkout first kills the children idle for too long and the stale ones of its key, and no others. */
  lemma CheckoutClears(cfg: Config, cs: seq<Child>, key: Key, now: int)
    ensures forall c :: c in Cleared(cfg, cs, key, now) <==> c in cs && !IdleTooLong(cfg, now, c) && !StaleFor(key, c)
  {
    hide Spared;
    SparedAre(cfg, Overdue(now), cs);
    SparedAre(cfg, Stale(key), Spared(cfg, Overdue(now), cs));
  }

  predicate Usable(cfg: Config, key: Key, now: int, c: Child) {
    c.key == key && !c.busy && c.alive && !IdleTooLong(cfg, now, c)
  }

  lemma UsableIsThere(cfg: Config, cs: seq<Child>, key: Key, now: int)
    ensures
      var left := Cleared(cfg, cs, key, now);
      FirstIdle(left, key) < |left| <==> exists c :: c in cs && Usable(cfg, key, now, c)
  {
    hide Cleared;
    var left := Cleared(cfg, cs, key, now);
    CheckoutClears(cfg, cs, key, now);
    var i := FirstIdle(left, key);
    if i < |left| {
      assert left[i] in left;
    }
    if c :| c in cs && Usable(cfg, key, now, c) {
      var k :| 0 <= k < |left| && left[k] == c;
      assert i <= k;
    }
  }

  /**
   A checkout of an open pool gives a child that is there exactly when one of the key is idle, alive and not overdue;
   otherwise a child is spawned when there is room or an idle child to kill for it, and else the pool is full.
   */
  lemma CheckoutIs(cfg: Config, s: State, key: Key, now: int)
    requires Invariant(cfg, s)
    ensures
      var r := Reserve(cfg, s.pool, key, now).1;
      && (r.PoolClosed? <==> s.pool.closed)
      && (r.Reused? <==> !s.pool.closed && exists c :: c in s.pool.children && Usable(cfg, key, now, c))
      && (r.PoolFull? ==> forall c :: c in s.pool.children ==> c.busy)
  {
    hide Cleared, Unique;
    FullIff(cfg, s, key, now);
    UsableIsThere(cfg, s.pool.children, key, now);
  }

  /** What a checkout leaves in the pool when it gives a child that is there, or when there is room for another. */
  lemma CheckoutLeaves(cfg: Config, s: State, key: Key, now: int)
    requires Invariant(cfg, s)
    ensures
      var (next, r) := Reserve(cfg, s.pool, key, now);
      var cs := s.pool.children;
      && next.closed == s.pool.closed
      && next.reserved == s.pool.reserved + (if r.Spawning? then 1 else 0)
      && (r.Reused? ==>
            exists c :: c in cs && c.id == r.id && Usable(cfg, key, now, c)
              && forall d :: d in next.children <==>
                   d == c.(busy := true) || (d in cs && d.id != r.id && !IdleTooLong(cfg, now, d) && !StaleFor(key, d)))
      && (r.Spawning? && cfg.maxSize <= 0 ==>
            forall d :: d in next.children <==> d in cs && !IdleTooLong(cfg, now, d) && !StaleFor(key, d))
  {
    hide Cleared, Unique, FirstIdle, OldestIdle;
    if !s.pool.closed {
      var left := Cleared(cfg, s.pool.children, key, now);
      CheckoutClears(cfg, s.pool.children, key, now);
      ClearedAre(cfg, s.pool.children, key, now);
      var i := FirstIdle(left, key);
      if i < |left| {
        assert left[i] in left;
        UpdatedAre(left, i, left[i].(busy := true));
        assert Usable(cfg, key, now, left[i]);
      }
    }
  }

  /** A spawned child joins the pool as busy, for the one who asked for it; a failed spawn only gives its place back. */
  lemma SpawnsJoin(cfg: Config, s: State, token: nat, id: nat, at: int)
    requires token in s.spawning && id !in s.used
    ensures Enabled(s, SpawnDone(token, id, at)) && Enabled(s, SpawnFailed(token))
    ensures
      var done, failed := Next(cfg, s, SpawnDone(token, id, at)), Next(cfg, s, SpawnFailed(token));
      var child := Child(id, s.spawning[token], true, at, true);
      && done.pool == Pool(s.pool.children + [child], s.pool.reserved - 1, s.pool.closed)
      && done.held == s.held[id := s.spawning[token]] && token !in done.spawning
      && failed.pool == s.pool.(reserved := s.pool.reserved - 1) && failed.held == s.held
      && done.spawning == failed.spawning == s.spawning - {token}
  {
  }

  // ---------------------------------------------------------------------------
  // Release and death

  lemma OnlyOne(cs: seq<Child>, c: Child, id: nat)
    requires Unique(cs) && c in cs && c.id == id
    ensures IndexOf(cs, id) < |cs| && cs[IndexOf(cs, id)] == c
  {
    var k :| 0 <= k < |cs| && cs[k] == c;
    var i := IndexOf(cs, id);
    assert !(k < i) && !(i < k);
  }

  /** A released child is kept, idle from now on, exactly when that is asked for, possible and it is alive; else it goes. */
  lemma ReleaseKeepsIff(cfg: Config, s: State, c: Child, retain: bool, now: int)
    requires Invariant(cfg, s) && c in s.pool.children && c.id in s.held
    ensures Enabled(s, ReleaseStep(c.id, retain, now))
    ensures
      var next := Next(cfg, s, ReleaseStep(c.id, retain, now));
      var kept := retain && cfg.maxSize > 0 && !s.pool.closed && c.alive;
      && next.held == s.held - {c.id} && next.pool.reserved == s.pool.reserved && next.pool.closed == s.pool.closed
      && forall d :: d in next.pool.children <==>
           (kept && d == c.(busy := false, releasedAt := now)) || (d in s.pool.children && d.id != c.id)
  {
    hide Unique, IndexOf;
    var cs := s.pool.children;
    OnlyOne(cs, c, c.id);
    var i := IndexOf(cs, c.id);
    UpdatedAre(cs, i, c.(busy := false, releasedAt := now));
    RemovedAre(cs, i);
  }

  /** A child that dies stays in the pool, marked as dead, and no other child changes. */
  lemma DeathMarks(cfg: Config, s: State, c: Child)
    requires Unique(s.pool.children) && c in s.pool.children
    ensures
      var next := Next(cfg, s, DieStep(c.id));
      && next == s.(pool := s.pool.(children := next.pool.children))
      && forall d :: d in next.pool.children <==> d == c.(alive := false) || (d in s.pool.children && d.id != c.id)
  {
    hide Unique, IndexOf;
    OnlyOne(s.pool.children, c, c.id);
    UpdatedAre(s.pool.children, IndexOf(s.pool.children, c.id), c.(alive := false));
  }
}
