/**
 The pool of child interpreters. Each section that the source runs under its lock is one step; spawning a child, and
 a child's own death, happen between steps.
 */
module ActionPool {
  import opened Prelude

  datatype Key = Key(revision: string, dataSpace: string, python: string)

  datatype Child = Child(id: nat, key: Key, busy: bool, releasedAt: int, alive: bool)

  datatype Config = Config(maxSize: nat, idleSeconds: nat)

  datatype Pool = Pool(children: seq<Child>, reserved: int, closed: bool)

  // ---------------------------------------------------------------------------
  // Killing

  /** Why children are killed together. */
  datatype Doom = Overdue(now: int) | Stale(key: Key) | OfRevision(revision: string) | OfDataSpace(dataSpace: string) | All

  predicate Doomed(cfg: Config, d: Doom, c: Child) {
    match d
    case Overdue(now) => cfg.idleSeconds > 0 && !c.busy && now - c.releasedAt >= cfg.idleSeconds
    case Stale(key) =>
      c.key.revision == key.revision && c.key.dataSpace == key.dataSpace && c.key.python != key.python && !c.busy
    case OfRevision(revision) => c.key.revision == revision
    case OfDataSpace(dataSpace) => c.key.dataSpace == dataSpace
    case All => true
  }

  function Spared(cfg: Config, d: Doom, cs: seq<Child>): seq<Child> {
    if cs == [] then []
    else
      var last := cs[|cs| - 1];
      Spared(cfg, d, cs[..|cs| - 1]) + if Doomed(cfg, d, last) then [] else [last]
  }

  function IndexOf(cs: seq<Child>, id: nat): (i: nat)
    ensures i <= |cs|
    ensures i < |cs| ==> cs[i].id == id
    ensures i == |cs| ==> forall c :: c in cs ==> c.id != id
  {
    if cs == [] then 0 else if cs[0].id == id then 0 else IndexOf(cs[1..], id) + 1
  }

  function RemoveAt(cs: seq<Child>, i: nat): seq<Child>
    requires i < |cs|
  {
    cs[..i] + cs[i + 1..]
  }

  // ---------------------------------------------------------------------------
  // Sections

  /** The first idle living child of a key. */
  function FirstIdle(cs: seq<Child>, key: Key): (i: nat)
    ensures i <= |cs|
    ensures i < |cs| ==> cs[i].key == key && !cs[i].busy && cs[i].alive
    ensures forall k :: 0 <= k < i ==> !(cs[k].key == key && !cs[k].busy && cs[k].alive)
  {
    if cs == [] then 0
    else if cs[0].key == key && !cs[0].busy && cs[0].alive then 0
    else FirstIdle(cs[1..], key) + 1
  }

  /** The first of the idle children that were released longest ago. */
  function OldestIdle(cs: seq<Child>): (i: Option<nat>)
    ensures i.None? ==> forall k :: 0 <= k < |cs| ==> cs[k].busy
    ensures i.Some? ==>
      && i.value < |cs| && !cs[i.value].busy
      && (forall k :: 0 <= k < |cs| && !cs[k].busy ==> cs[i.value].releasedAt <= cs[k].releasedAt)
      && (forall k :: 0 <= k < i.value && !cs[k].busy ==> cs[i.value].releasedAt < cs[k].releasedAt)
  {
    if cs == [] then None
    else
      var n := |cs| - 1;
      var before := OldestIdle(cs[..n]);
      if cs[n].busy then before
      else if before.None? || cs[n].releasedAt < cs[before.value].releasedAt then Some(n)
      else before
  }

  datatype Checkout = PoolClosed | PoolFull | Reused(id: nat) | Spawning

  /** The children that are left when a checkout has reaped the overdue and evicted the stale ones. */
  function Cleared(cfg: Config, cs: seq<Child>, key: Key, now: int): seq<Child> {
    Spared(cfg, Stale(key), Spared(cfg, Overdue(now), cs))
  }

  function Reserve(cfg: Config, p: Pool, key: Key, now: int): (Pool, Checkout) {
    if p.closed then (p, PoolClosed)
    else
      var cs := Cleared(cfg, p.children, key, now);
      var i := FirstIdle(cs, key);
      if i < |cs| then (p.(children := cs[i := cs[i].(busy := true)]), Reused(cs[i].id))
      else if cfg.maxSize > 0 && |cs| + p.reserved >= cfg.maxSize then
        var victim := OldestIdle(cs);
        if victim.None? then (p.(children := cs), PoolFull)
        else (p.(children := RemoveAt(cs, victim.value), reserved := p.reserved + 1), Spawning)
      else (p.(children := cs, reserved := p.reserved + 1), Spawning)
  }

  function Add(p: Pool, c: Child): Pool {
    p.(reserved := p.reserved - 1, children := p.children + [c])
  }

  function Unreserve(p: Pool): Pool {
    p.(reserved := p.reserved - 1)
  }

  function Release(cfg: Config, p: Pool, id: nat, retain: bool, now: int): Pool {
    var i := IndexOf(p.children, id);
    if i == |p.children| then p
    else if retain && cfg.maxSize > 0 && !p.closed && p.children[i].alive then
      p.(children := p.children[i := p.children[i].(busy := false, releasedAt := now)])
    else p.(children := RemoveAt(p.children, i))
  }

  function KillAll(cfg: Config, p: Pool, d: Doom): Pool {
    p.(children := Spared(cfg, d, p.children))
  }

  function Shutdown(cfg: Config, p: Pool): Pool {
    KillAll(cfg, p, All).(closed := true)
  }

  function Die(p: Pool, id: nat): Pool {
    var i := IndexOf(p.children, id);
    if i == |p.children| then p else p.(children := p.children[i := p.children[i].(alive := false)])
  }

  // ---------------------------------------------------------------------------
  // The machine: who holds which child, and which spawns are under way

  datatype State = State(pool: Pool, held: map<nat, Key>, spawning: map<nat, Key>, used: set<nat>)

  datatype Step =
    | CheckoutStep(key: Key, token: nat, now: int)
    | SpawnDone(token: nat, id: nat, releasedAt: int)
    | SpawnFailed(token: nat)
    | ReleaseStep(id: nat, retain: bool, now: int)
    | Evict(revision: string)
    | EvictSpace(dataSpace: string)
    | ReapStep(now: int)
    | ShutdownStep
    | DieStep(id: nat)

  predicate Enabled(s: State, step: Step) {
    match step
    case CheckoutStep(_, token, _) => token !in s.spawning
    case SpawnDone(token, id, _) => token in s.spawning && id !in s.used
    case SpawnFailed(token) => token in s.spawning
    case ReleaseStep(id, _, _) => id in s.held
    case _ => true
  }

  function Next(cfg: Config, s: State, step: Step): State
    requires Enabled(s, step)
  {
    match step
    case CheckoutStep(key, token, now) =>
      var (p, r) := Reserve(cfg, s.pool, key, now);
      s.(pool := p,
         held := if r.Reused? then s.held[r.id := key] else s.held,
         spawning := if r.Spawning? then s.spawning[token := key] else s.spawning)
    case SpawnDone(token, id, at) =>
      State(Add(s.pool, Child(id, s.spawning[token], true, at, true)), s.held[id := s.spawning[token]],
            s.spawning - {token}, s.used + {id})
    case SpawnFailed(token) => s.(pool := Unreserve(s.pool), spawning := s.spawning - {token})
    case ReleaseStep(id, retain, now) => s.(pool := Release(cfg, s.pool, id, retain, now), held := s.held - {id})
    case Evict(revision) => s.(pool := KillAll(cfg, s.pool, OfRevision(revision)))
    case EvictSpace(dataSpace) => s.(pool := KillAll(cfg, s.pool, OfDataSpace(dataSpace)))
    case ReapStep(now) => s.(pool := KillAll(cfg, s.pool, Overdue(now)))
    case ShutdownStep => s.(pool := Shutdown(cfg, s.pool))
    case DieStep(id) => s.(pool := Die(s.pool, id))
  }

  predicate Unique(cs: seq<Child>) {
    forall i, j :: 0 <= i < j < |cs| ==> cs[i].id != cs[j].id
  }

  predicate Counted(cfg: Config, s: State) {
    && |s.spawning| == s.pool.reserved
    && (cfg.maxSize > 0 ==> |s.pool.children| + s.pool.reserved <= cfg.maxSize)
  }

  /** A child in the pool is busy exactly when it is held, by the one who asked for its key. */
  predicate ChildSound(held: map<nat, Key>, used: set<nat>, c: Child) {
    c.id in used && (c.busy <==> c.id in held) && (c.busy ==> held[c.id] == c.key)
  }

  predicate Holders(s: State) {
    && s.held.Keys <= s.used
    && forall c :: c in s.pool.children ==> ChildSound(s.held, s.used, c)
  }

  /** A pool that is shut down, or retains nothing, has no idle child. */
  predicate NothingIdle(cfg: Config, s: State) {
    s.pool.closed || cfg.maxSize == 0 ==> forall c :: c in s.pool.children ==> c.busy
  }

  predicate Invariant(cfg: Config, s: State) {
    Unique(s.pool.children) && Counted(cfg, s) && Holders(s) && NothingIdle(cfg, s)
  }

  // ---------------------------------------------------------------------------
  // Lists of children

  lemma {:induction false} SparedAre(cfg: Config, d: Doom, cs: seq<Child>)
    ensures |Spared(cfg, d, cs)| <= |cs|
    ensures forall c :: c in Spared(cfg, d, cs) <==> c in cs && !Doomed(cfg, d, c)
    ensures Unique(cs) ==> Unique(Spared(cfg, d, cs))
    ensures |Spared(cfg, d, cs)| == |cs| ==> Spared(cfg, d, cs) == cs
  {
    hide Doomed;
    if cs != [] {
      var before, last := cs[..|cs| - 1], cs[|cs| - 1];
      assert cs == before + [last];
      SparedAre(cfg, d, before);
      var spared := Spared(cfg, d, before);
      if Unique(cs) {
        forall k | 0 <= k < |spared|
          ensures spared[k].id != last.id
        {
          assert spared[k] in before;
        }
      }
    }
  }

  lemma RemovedAre(cs: seq<Child>, i: nat)
    requires i < |cs| && Unique(cs)
    ensures Unique(RemoveAt(cs, i))
    ensures forall c :: c in RemoveAt(cs, i) <==> c in cs && c.id != cs[i].id
  {
    var out := RemoveAt(cs, i);
    forall c | c in cs && c.id != cs[i].id
      ensures c in out
    {
      var k :| 0 <= k < |cs| && cs[k] == c;
      assert out[if k < i then k else k - 1] == c;
    }
  }

  lemma UpdatedAre(cs: seq<Child>, i: nat, c: Child)
    requires i < |cs| && Unique(cs) && c.id == cs[i].id
    ensures Unique(cs[i := c])
    ensures forall d :: d in cs[i := c] <==> d == c || (d in cs && d.id != c.id)
  {
    var out := cs[i := c];
    forall d | d in cs && d.id != c.id
      ensures d in out
    {
      var k :| 0 <= k < |cs| && cs[k] == d;
      assert out[k] == d;
    }
    assert out[i] == c;
  }

  lemma ClearedAre(cfg: Config, cs: seq<Child>, key: Key, now: int)
    ensures
      var left := Cleared(cfg, cs, key, now);
      && |left| <= |cs| && (|left| == |cs| ==> left == cs) && (Unique(cs) ==> Unique(left))
      && (forall c :: c in left ==> c in cs)
      && (forall c :: c in cs && c.busy ==> c in left)
  {
    hide Spared;
    SparedAre(cfg, Overdue(now), cs);
    SparedAre(cfg, Stale(key), Spared(cfg, Overdue(now), cs));
  }

  // ---------------------------------------------------------------------------
  // What every step keeps

  /** Some children are killed, and nothing else happens. */
  lemma KillKeeps(cfg: Config, s: State, d: Doom)
    requires Invariant(cfg, s)
    ensures Invariant(cfg, s.(pool := KillAll(cfg, s.pool, d)))
    ensures Invariant(cfg, s.(pool := Shutdown(cfg, s.pool)))
  {
    hide Spared, Unique, ChildSound;
    SparedAre(cfg, d, s.pool.children);
    SparedAre(cfg, All, s.pool.children);
  }

  lemma ReleaseKeeps(cfg: Config, s: State, id: nat, retain: bool, now: int)
    requires Invariant(cfg, s) && id in s.held
    ensures Invariant(cfg, s.(pool := Release(cfg, s.pool, id, retain, now), held := s.held - {id}))
  {
    hide Unique, IndexOf;
    var cs := s.pool.children;
    var i := IndexOf(cs, id);
    if i < |cs| {
      RemovedAre(cs, i);
      UpdatedAre(cs, i, cs[i].(busy := false, releasedAt := now));
    }
  }

  lemma DieKeeps(cfg: Config, s: State, id: nat)
    requires Invariant(cfg, s)
    ensures Invariant(cfg, s.(pool := Die(s.pool, id)))
  {
    hide Unique, IndexOf;
    var cs := s.pool.children;
    var i := IndexOf(cs, id);
    if i < |cs| {
      assert cs[i] in cs;
      UpdatedAre(cs, i, cs[i].(alive := false));
    }
  }

  lemma AddKeeps(cfg: Config, s: State, token: nat, id: nat, at: int)
    requires Invariant(cfg, s) && Enabled(s, SpawnDone(token, id, at))
    ensures Invariant(cfg, Next(cfg, s, SpawnDone(token, id, at)))
  {
    var next := Next(cfg, s, SpawnDone(token, id, at));
    assert forall k :: 0 <= k < |s.pool.children| ==> s.pool.children[k] in s.pool.children;
    Fewer(s.spawning, token);
  }

  lemma Fewer(m: map<nat, Key>, token: nat)
    requires token in m
    ensures |m - {token}| == |m| - 1
  {
    assert (m - {token}).Keys == m.Keys - {token};
  }

  lemma More(m: map<nat, Key>, token: nat, key: Key)
    requires token !in m
    ensures |m[token := key]| == |m| + 1
  {
    assert m[token := key].Keys == m.Keys + {token};
  }

  lemma CheckoutKeeps(cfg: Config, s: State, key: Key, token: nat, now: int)
    requires Invariant(cfg, s) && token !in s.spawning
    ensures Invariant(cfg, Next(cfg, s, CheckoutStep(key, token, now)))
  {
    hide Unique, Cleared, FirstIdle, OldestIdle, RemoveAt;
    More(s.spawning, token, key);
    if !s.pool.closed {
      var cs := Cleared(cfg, s.pool.children, key, now);
      ClearedAre(cfg, s.pool.children, key, now);
      var i, victim := FirstIdle(cs, key), OldestIdle(cs);
      if i < |cs| {
        assert cs[i] in s.pool.children;
        UpdatedAre(cs, i, cs[i].(busy := true));
      } else if victim.Some? {
        RemovedAre(cs, victim.value);
        OneLess(cs, victim.value);
      }
    }
  }

  lemma OneLess(cs: seq<Child>, i: nat)
    requires i < |cs|
    ensures |RemoveAt(cs, i)| == |cs| - 1
  {
  }

  lemma StepKeeps(cfg: Config, s: State, step: Step)
    requires Invariant(cfg, s) && Enabled(s, step)
    ensures Invariant(cfg, Next(cfg, s, step))
  {
    hide Invariant, KillAll, Shutdown, Release, Die, Reserve, Add;
    match step
    case CheckoutStep(key, token, now) => CheckoutKeeps(cfg, s, key, token, now);
    case SpawnDone(token, id, at) => AddKeeps(cfg, s, token, id, at);
    case SpawnFailed(token) => FailKeeps(cfg, s, token);
    case ReleaseStep(id, retain, now) => ReleaseKeeps(cfg, s, id, retain, now);
    case Evict(revision) => KillKeeps(cfg, s, OfRevision(revision));
    case EvictSpace(dataSpace) => KillKeeps(cfg, s, OfDataSpace(dataSpace));
    case ReapStep(now) => KillKeeps(cfg, s, Overdue(now));
    case ShutdownStep => KillKeeps(cfg, s, All);
    case DieStep(id) => DieKeeps(cfg, s, id);
  }

  lemma FailKeeps(cfg: Config, s: State, token: nat)
    requires Invariant(cfg, s) && token in s.spawning
    ensures Invariant(cfg, s.(pool := Unreserve(s.pool), spawning := s.spawning - {token}))
  {
    hide Unique, ChildSound;
    Fewer(s.spawning, token);
  }

  predicate AllEnabled(cfg: Config, s: State, steps: seq<Step>)
    decreases |steps|
  {
    steps == [] || (Enabled(s, steps[0]) && AllEnabled(cfg, Next(cfg, s, steps[0]), steps[1..]))
  }

  function Run(cfg: Config, s: State, steps: seq<Step>): State
    requires AllEnabled(cfg, s, steps)
    decreases |steps|
  {
    if steps == [] then s else Run(cfg, Next(cfg, s, steps[0]), steps[1..])
  }

  function Empty(): State {
    State(Pool([], 0, false), map[], map[], {})
  }

  /** In every interleaving the pool stays within its size and every busy child has its one holder. */
  lemma {:induction false} RunKeeps(cfg: Config, s: State, steps: seq<Step>)
    requires Invariant(cfg, s) && AllEnabled(cfg, s, steps)
    ensures Invariant(cfg, Run(cfg, s, steps))
    ensures s.pool.closed ==> Run(cfg, s, steps).pool.closed
    decreases |steps|
  {
    hide Invariant;
    if steps != [] {
      StepKeeps(cfg, s, steps[0]);
      StaysClosed(cfg, s, steps[0]);
      RunKeeps(cfg, Next(cfg, s, steps[0]), steps[1..]);
    }
  }

  lemma StaysClosed(cfg: Config, s: State, step: Step)
    requires Enabled(s, step)
    ensures s.pool.closed ==> Next(cfg, s, step).pool.closed
  {
    hide Spared, IndexOf;
  }

  lemma StartsSound(cfg: Config)
    ensures Invariant(cfg, Empty())
  {
  }

  lemma AnyChildIsHeld(cfg: Config, s: State)
    requires Invariant(cfg, s) && s.pool.closed
    ensures s.pool.children != [] ==> s.held != map[]
    ensures s.pool.reserved == |s.spawning|
  {
    if s.pool.children != [] {
      var c := s.pool.children[0];
      assert c in s.pool.children;
      assert c.id in s.held;
    }
  }

  /** Once the pool is shut down, it is empty as soon as no child is held and no spawn is under way. */
  lemma EmptyAfterShutdown(cfg: Config, s: State, before: seq<Step>, after: seq<Step>)
    requires Invariant(cfg, s) && AllEnabled(cfg, s, before)
    requires AllEnabled(cfg, Next(cfg, Run(cfg, s, before), ShutdownStep), after)
    ensures
      var last := Run(cfg, Next(cfg, Run(cfg, s, before), ShutdownStep), after);
      last.held == map[] && last.spawning == map[] ==> last.pool == Pool([], 0, true)
  {
    RunKeeps(cfg, s, before);
    var mid := Next(cfg, Run(cfg, s, before), ShutdownStep);
    StepKeeps(cfg, Run(cfg, s, before), ShutdownStep);
    RunKeeps(cfg, mid, after);
    var last := Run(cfg, mid, after);
    AnyChildIsHeld(cfg, last);
  }

  // ---------------------------------------------------------------------------
  // What a checkout does

  /** A checkout gives a child of the asked key that nobody holds; the pool marks it busy. */
  lemma CheckoutGivesFree(cfg: Config, s: State, key: Key, now: int)
    requires Invariant(cfg, s)
    ensures
      var (p, r) := Reserve(cfg, s.pool, key, now);
      r.Reused? ==>
        && r.id !in s.held
        && exists c :: c in s.pool.children && c.id == r.id && c.key == key && !c.busy && c.alive
                       && c.(busy := true) in p.children
  {
    hide Unique, Cleared;
    if !s.pool.closed {
      var cs := Cleared(cfg, s.pool.children, key, now);
      ClearedAre(cfg, s.pool.children, key, now);
      var i := FirstIdle(cs, key);
      if i < |cs| {
        assert cs[i] in s.pool.children;
        assert cs[i := cs[i].(busy := true)][i] == cs[i].(busy := true);
      }
    }
  }

  /** A checkout is refused as full exactly when every place is taken and no child is idle; it then changes nothing. */
  lemma FullIff(cfg: Config, s: State, key: Key, now: int)
    requires Invariant(cfg, s)
    ensures
      Reserve(cfg, s.pool, key, now).1.PoolFull? <==>
        && !s.pool.closed && cfg.maxSize > 0 && |s.pool.children| + s.pool.reserved == cfg.maxSize
        && forall c :: c in s.pool.children ==> c.busy
    ensures Reserve(cfg, s.pool, key, now).1.PoolFull? ==> Reserve(cfg, s.pool, key, now).0 == s.pool
  {
    hide Unique, Cleared;
    if !s.pool.closed {
      var cs := Cleared(cfg, s.pool.children, key, now);
      ClearedAre(cfg, s.pool.children, key, now);
      if forall c :: c in s.pool.children ==> c.busy {
        SameLength(s.pool.children, cs);
        assert forall k :: 0 <= k < |cs| ==> cs[k] in s.pool.children;
      } else if FirstIdle(cs, key) == |cs| && OldestIdle(cs).None? {
        assert forall c :: c in cs ==> c.busy;
        assert cs != s.pool.children;
      }
    }
  }

  lemma SameLength(cs: seq<Child>, left: seq<Child>)
    requires Unique(cs) && Unique(left) && |left| <= |cs|
    requires forall c :: c in cs <==> c in left
    ensures |left| == |cs|
  {
    IdsCount(cs);
    IdsCount(left);
    assert Ids(cs) == Ids(left);
  }

  function Ids(cs: seq<Child>): set<nat> {
    set c | c in cs :: c.id
  }

  lemma {:induction false} IdsCount(cs: seq<Child>)
    requires Unique(cs)
    ensures |Ids(cs)| == |cs|
  {
    if cs != [] {
      var before, last := cs[..|cs| - 1], cs[|cs| - 1];
      assert cs == before + [last];
      IdsCount(before);
      assert Ids(cs) == Ids(before) + {last.id};
      forall c | c in before
        ensures c.id != last.id
      {
      }
    }
  }

  /** Neither a checkout nor the reaper kills a busy child; only a release, an eviction or a shutdown does. */
  lemma BusySurvive(cfg: Config, s: State, key: Key, now: int, c: Child)
    requires Invariant(cfg, s) && c in s.pool.children && c.busy
    ensures c in Reserve(cfg, s.pool, key, now).0.children
    ensures c in KillAll(cfg, s.pool, Overdue(now)).children
  {
    hide Cleared, OldestIdle, FirstIdle, Spared;
    SparedAre(cfg, Overdue(now), s.pool.children);
    if !s.pool.closed {
      var cs := Cleared(cfg, s.pool.children, key, now);
      ClearedAre(cfg, s.pool.children, key, now);
      var i, victim := FirstIdle(cs, key), OldestIdle(cs);
      if i < |cs| {
        UpdatedAre(cs, i, cs[i].(busy := true));
        IdleIsOther(cs, i, c);
      } else if victim.Some? {
        RemovedAre(cs, victim.value);
        IdleIsOther(cs, victim.value, c);
      }
    }
  }

  lemma IdleIsOther(cs: seq<Child>, i: nat, c: Child)
    requires Unique(cs) && i < |cs| && !cs[i].busy && c in cs && c.busy
    ensures c.id != cs[i].id
  {
    var k :| 0 <= k < |cs| && cs[k] == c;
    assert k < i || i < k;
  }

  /** When every place is taken, a checkout makes room by killing one idle child: one released longest ago. */
  lemma MakesRoomByOldest(cfg: Config, p: Pool, key: Key, now: int)
    requires cfg.maxSize > 0 && Reserve(cfg, p, key, now).1.Spawning?
    ensures
      var cs := Cleared(cfg, p.children, key, now);
      var after := Reserve(cfg, p, key, now).0;
      if |cs| + p.reserved < cfg.maxSize then after.children == cs
      else exists i :: 0 <= i < |cs| && !cs[i].busy && after.children == RemoveAt(cs, i)
                       && forall k :: 0 <= k < |cs| && !cs[k].busy ==> cs[i].releasedAt <= cs[k].releasedAt
  {
    hide Cleared;
    var cs := Cleared(cfg, p.children, key, now);
    if |cs| + p.reserved >= cfg.maxSize {
      assert OldestIdle(cs).Some?;
    }
  }
}
