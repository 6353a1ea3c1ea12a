/** The pool over its child objects: each locked section is proved to be the section of `ActionPool`. */
module ActionPoolObjects {
  import opened Prelude
  import opened P = ActionPool

  class PooledChild {
    const id: nat
    var key: Key
    var busy: bool
    var releasedAt: int
    var alive: bool

    constructor (id: nat, key: Key)
      ensures View() == Child(id, key, true, 0, true)
    {
      this.id, this.key, busy, releasedAt, alive := id, key, true, 0, true;
    }

    function View(): Child
      reads this
    {
      Child(id, key, busy, releasedAt, alive)
    }
  }

  function Views(cs: seq<PooledChild>): (vs: seq<Child>)
    reads cs
    ensures |vs| == |cs|
  {
    if cs == [] then [] else Views(cs[..|cs| - 1]) + [cs[|cs| - 1].View()]
  }

  lemma {:induction false} ViewsAre(cs: seq<PooledChild>)
    ensures |Views(cs)| == |cs|
    ensures forall k :: 0 <= k < |cs| ==> Views(cs)[k] == cs[k].View()
  {
    if cs != [] {
      ViewsAre(cs[..|cs| - 1]);
    }
  }

  function Objects(cs: seq<PooledChild>): set<PooledChild> {
    set c | c in cs
  }

  predicate Distinct(cs: seq<PooledChild>) {
    forall i, j :: 0 <= i < j < |cs| ==> cs[i].id != cs[j].id
  }

  lemma DistinctMore(cs: seq<PooledChild>, c: PooledChild)
    requires Distinct(cs) && forall d :: d in cs ==> d.id != c.id
    ensures Distinct(cs + [c])
  {
  }

  lemma ObjectsMore(list: seq<PooledChild>, stay: seq<PooledChild>, i: nat)
    requires i < |list| && Objects(stay) <= Objects(list)
    ensures Objects(stay + [list[i]]) <= Objects(list) && list[i] in Objects(list)
  {
  }

  lemma Ends(list: seq<PooledChild>, views: seq<Child>, stay: seq<PooledChild>)
    ensures [] + list[0..] == list && views[0..] == views && views[..0] == []
    ensures stay + list[|list|..] == stay && views[..|views|] == views
  {
  }

  lemma NextOf(list: seq<PooledChild>, stay: seq<PooledChild>, i: nat)
    requires i < |list|
    ensures stay + list[i..] == stay + [list[i]] + list[i + 1..]
  {
  }

  lemma NoViews(cfg: Config, d: Doom)
    ensures Views([]) == [] == Spared(cfg, d, []) && Objects([]) == {}
  {
  }

  lemma ViewsMore(cs: seq<PooledChild>, c: PooledChild)
    ensures Views(cs + [c]) == Views(cs) + [c.View()]
  {
    assert (cs + [c])[..|cs|] == cs;
  }

  lemma {:induction false} ViewsConcat(left: seq<PooledChild>, right: seq<PooledChild>)
    ensures Views(left + right) == Views(left) + Views(right)
    decreases |right|
  {
    if right == [] {
      assert left + right == left;
    } else {
      var before := right[..|right| - 1];
      ViewsConcat(left, before);
      assert (left + right)[..|left + right| - 1] == left + before;
    }
  }

  lemma Joined(left: seq<Child>, c: Child, right: seq<Child>)
    ensures RemoveAt(left + [c] + right, |left|) == left + right
  {
  }

  lemma ViewsOfThree(left: seq<PooledChild>, c: PooledChild, right: seq<PooledChild>)
    ensures Views(left + [c] + right) == Views(left) + [c.View()] + Views(right)
  {
    hide Views;
    ViewsConcat(left + [c], right);
    ViewsMore(left, c);
  }

  lemma Parts(cs: seq<PooledChild>, i: nat)
    requires i < |cs|
    ensures cs == cs[..i] + [cs[i]] + cs[i + 1..]
  {
  }

  lemma ViewsSplit(cs: seq<PooledChild>, i: nat, left: seq<PooledChild>, right: seq<PooledChild>)
    requires i < |cs| && left == cs[..i] && right == cs[i + 1..]
    ensures RemoveAt(Views(cs), i) == Views(left) + Views(right)
  {
    hide Views, RemoveAt;
    var c := cs[i];
    var vl, vc, vr := Views(left), c.View(), Views(right);
    assert Views(cs) == vl + [vc] + vr by {
      Parts(cs, i);
      ViewsOfThree(left, c, right);
    }
    Joined(vl, vc, vr);
  }

  lemma SparedMore(cfg: Config, d: Doom, cs: seq<Child>, i: nat)
    requires i < |cs|
    ensures Spared(cfg, d, cs[..i + 1]) == Spared(cfg, d, cs[..i]) + if Doomed(cfg, d, cs[i]) then [] else [cs[i]]
  {
    assert cs[..i + 1][..i] == cs[..i];
  }

  lemma FirstView(cs: seq<PooledChild>, views: seq<Child>, i: nat)
    requires i < |cs| && |views| == |cs| && Views(cs[i..]) == views[i..]
    ensures cs[i..] == [cs[i]] + cs[i + 1..]
    ensures cs[i].View() == views[i] && Views(cs[i + 1..]) == views[i + 1..]
  {
    hide Views;
    var c, rest := cs[i], cs[i + 1..];
    assert cs[i..] == [c] + rest;
    ViewsConcat([c], rest);
    ViewsOne(c);
    assert views[i..] == [views[i]] + views[i + 1..];
    SameHead(c.View(), Views(rest), views[i], views[i + 1..]);
  }

  lemma ViewsOne(c: PooledChild)
    ensures Views([c]) == [c.View()]
  {
    assert [c][..0] == [];
  }

  lemma SameHead(c: Child, cs: seq<Child>, d: Child, ds: seq<Child>)
    requires [c] + cs == [d] + ds
    ensures c == d && cs == ds
  {
    assert ([c] + cs)[0] == c && ([d] + ds)[0] == d;
    assert ([c] + cs)[1..] == cs && ([d] + ds)[1..] == ds;
  }

  lemma Middle(stay: seq<PooledChild>, child: PooledChild, rest: seq<PooledChild>)
    requires Distinct(stay + [child] + rest)
    ensures
      var all := stay + [child] + rest;
      && all[|stay|] == child && all[..|stay|] == stay && all[|stay| + 1..] == rest
      && all[..|stay|] + all[|stay| + 1..] == stay + rest
    ensures child !in stay && child !in rest
  {
    var all := stay + [child] + rest;
    assert all[|stay|] == child && all[..|stay|] == stay && all[|stay| + 1..] == rest;
    NotBefore(all, |stay|);
  }

  lemma NotBefore(cs: seq<PooledChild>, i: nat)
    requires Distinct(cs) && i < |cs|
    ensures cs[i] !in cs[..i] && cs[i] !in cs[i + 1..]
  {
    assert forall k :: 0 <= k < i ==> cs[k].id != cs[i].id;
  }

  class ActionPool {
    const cfg: Config
    var children: seq<PooledChild>
    var reserved: int
    var closed: bool

    constructor (cfg: Config)
      ensures this.cfg == cfg && Valid() && Contents() == Pool([], 0, false)
    {
      this.cfg, children, reserved, closed := cfg, [], 0, false;
    }

    predicate Valid()
      reads this
    {
      Distinct(children)
    }

    function Contents(): Pool
      reads this, children
    {
      Pool(Views(children), reserved, closed)
    }

    method KillLocked(child: PooledChild)
      requires Valid()
      modifies this`children, child`alive
      ensures Valid() && !child.alive
      ensures child !in old(children) ==> children == old(children)
      ensures forall i :: 0 <= i < |old(children)| && old(children)[i] == child ==>
        children == old(children)[..i] + old(children)[i + 1..]
    {
      if child in children {
        var i :| 0 <= i < |children| && children[i] == child;
        children := children[..i] + children[i + 1..];
      }
      child.alive := false;
    }

    /** Kill the child between `stay` and `rest` if it is doomed. */
    method KillIfDoomed(d: Doom, child: PooledChild, ghost stay: seq<PooledChild>, ghost rest: seq<PooledChild>)
      returns (ghost after: seq<PooledChild>)
      requires Valid() && children == stay + [child] + rest
      modifies this`children, child`alive
      ensures Valid() && children == after + rest
      ensures (after == stay || after == stay + [child]) && Views(rest) == old(Views(rest))
      ensures Views(after) ==
        old(Views(stay)) + if Doomed(cfg, d, old(child.View())) then [] else [old(child.View())]
    {
      hide Doomed, Views, Distinct;
      Middle(stay, child, rest);
      if Doomed(cfg, d, child.View()) {
        KillLocked(child);
        after := stay;
      } else {
        ViewsMore(stay, child);
        after := stay + [child];
      }
    }

    /** Kill the children that are doomed, one after the other. */
    method KillMatching(d: Doom)
      requires Valid()
      modifies this`children, Objects(children)
      ensures Valid() && Contents() == KillAll(cfg, old(Contents()), d)
      ensures Objects(children) <= old(Objects(children))
    {
      hide Doomed, Spared, Distinct, Views, Objects;
      var list := children;
      ghost var views := Views(list);
      ghost var stay: seq<PooledChild> := [];
      var i := 0;
      NoViews(cfg, d);
      ViewsAre(list);
      Ends(list, views, []);
      assert list[0..] == list;
      while i < |list|
        invariant 0 <= i <= |list|
        invariant Valid() && children == stay + list[i..]
        invariant |views| == |list| && Views(list[i..]) == views[i..]
        invariant Objects(stay) <= Objects(list)
        invariant Views(stay) == Spared(cfg, d, views[..i])
      {
        SparedMore(cfg, d, views, i);
        FirstView(list, views, i);
        ObjectsMore(list, stay, i);
        NextOf(list, stay, i);
        stay := KillIfDoomed(d, list[i], stay, list[i + 1..]);
        i := i + 1;
      }
      Ends(list, views, stay);
    }

    method FindIdle(key: Key) returns (i: nat)
      ensures i == FirstIdle(Views(children), key)
    {
      hide Views;
      i := 0;
      ghost var views := Views(children);
      ViewsAre(children);
      assert views[0..] == views;
      while i < |children| && !(children[i].key == key && !children[i].busy && children[i].alive)
        invariant i <= |children| && FirstIdle(views, key) == i + FirstIdle(views[i..], key)
      {
        assert views[i..][1..] == views[i + 1..];
        i := i + 1;
      }
    }

    method LruIdleLocked() returns (oldest: Option<nat>)
      ensures oldest == OldestIdle(Views(children))
    {
      hide Views;
      oldest := None;
      ghost var views := Views(children);
      ViewsAre(children);
      var i := 0;
      while i < |children|
        invariant 0 <= i <= |children| && oldest == OldestIdle(views[..i])
      {
        assert views[..i + 1][..i] == views[..i] && views[..i + 1][i] == views[i];
        if !children[i].busy
           && (oldest.None? || children[i].releasedAt < children[oldest.value].releasedAt)
        {
          oldest := Some(i);
        }
        i := i + 1;
      }
      assert views[..i] == views;
    }

    method ClearLocked(key: Key, now: int)
      requires Valid()
      modifies this`children, Objects(children)
      ensures Valid() && Views(children) == Cleared(cfg, old(Views(children)), key, now)
      ensures Objects(children) <= old(Objects(children))
    {
      hide Spared, Distinct, Views;
      KillMatching(Overdue(now));
      KillMatching(Stale(key));
    }

    /** Mark the first idle child of a key as busy, if there is one. */
    method TakeIdle(key: Key) returns (child: PooledChild?)
      requires Valid()
      modifies Objects(children)
      ensures
        var cs := old(Views(children));
        var i := FirstIdle(cs, key);
        if i < |cs| then
          && Views(children) == cs[i := cs[i].(busy := true)]
          && child == children[i] && child.id == cs[i].id && child.key == key
        else child == null && Views(children) == cs
    {
      hide Views;
      ViewsAre(children);
      var i := FindIdle(key);
      if i == |children| {
        return null;
      }
      ghost var cs := Views(children);
      child := children[i];
      child.busy := true;
      ViewsAre(children);
      assert Views(children) == cs[i := cs[i].(busy := true)];
    }

    /** Kill a child that is in the pool. */
    method KillMember(child: PooledChild, ghost i: nat)
      requires Valid() && i < |children| && children[i] == child
      modifies this`children, child
      ensures Valid() && Views(children) == RemoveAt(old(Views(children)), i)
      ensures children == old(children[..i] + children[i + 1..])
    {
      hide Views, Distinct;
      ghost var left, right := children[..i], children[i + 1..];
      NotBefore(children, i);
      ViewsSplit(children, i, left, right);
      ViewsConcat(left, right);
      KillLocked(child);
      ViewsConcat(left, right);
    }

    /** Kill the idle child released longest ago, if there is one. */
    method MakeRoom() returns (made: bool)
      requires Valid()
      modifies this`children, Objects(children)
      ensures Valid()
      ensures
        var cs := old(Views(children));
        var victim := OldestIdle(cs);
        && made == victim.Some?
        && Views(children) == if victim.Some? then RemoveAt(cs, victim.value) else cs
    {
      hide Views, Distinct, RemoveAt;
      ViewsAre(children);
      var victim := LruIdleLocked();
      if victim.None? {
        return false;
      }
      KillMember(children[victim.value], victim.value);
      return true;
    }

    /** The first locked section of a checkout. */
    method ReserveLocked(key: Key, now: int) returns (r: Checkout, child: PooledChild?)
      requires Valid()
      modifies this, Objects(children)
      ensures Valid() && (Contents(), r) == Reserve(cfg, old(Contents()), key, now)
      ensures r.Reused? <==> child != null
      ensures r.Reused? ==> child in Objects(children) && child.id == r.id && child.key == key
    {
      hide Cleared, Views, Distinct, FirstIdle, OldestIdle, RemoveAt;
      if closed {
        return PoolClosed, null;
      }
      ClearLocked(key, now);
      ViewsAre(children);
      child := TakeIdle(key);
      if child != null {
        return Reused(child.id), child;
      }
      if cfg.maxSize > 0 && |children| + reserved >= cfg.maxSize {
        var made := MakeRoom();
        if !made {
          return PoolFull, null;
        }
      }
      reserved := reserved + 1;
      return Spawning, null;
    }

    /** The second locked section of a checkout, with the child that was spawned, or without one. */
    method FinishSpawn(child: PooledChild?, key: Key)
      requires Valid() && (child != null ==> forall c :: c in children ==> c.id != child.id)
      modifies this, child
      ensures Valid()
      ensures Contents() ==
        if child == null then Unreserve(old(Contents()))
        else Add(old(Contents()), Child(child.id, key, true, old(child.releasedAt), old(child.alive)))
    {
      hide Views, Distinct;
      if child != null {
        child.key, child.busy := key, true;
        ViewsMore(children, child);
        DistinctMore(children, child);
      }
      reserved := reserved - 1;
      if child != null {
        children := children + [child];
      }
    }

    /** A child that was evicted while it was held is dead and no longer in the pool. */
    method Release(child: PooledChild, retain: bool, now: int)
      requires Valid() && (child !in children ==> !child.alive && forall c :: c in children ==> c.id != child.id)
      modifies this`children, child
      ensures Valid() && Contents() == P.Release(cfg, old(Contents()), child.id, retain, now)
    {
      hide RemoveAt, IndexOf, Views;
      ViewsAre(children);
      ghost var cs := Views(children);
      ghost var i := IndexOf(cs, child.id);
      WhereIs(children, child);
      if retain && cfg.maxSize > 0 && !closed && child.alive {
        child.busy, child.releasedAt := false, now;
        ViewsAre(children);
        assert Views(children) == cs[i := cs[i].(busy := false, releasedAt := now)];
        return;
      }
      if child in children {
        KillMember(child, i);
      } else {
        KillLocked(child);
      }
    }

    method EvictRevision(revision: string)
      requires Valid()
      modifies this`children, Objects(children)
      ensures Valid() && Contents() == KillAll(cfg, old(Contents()), OfRevision(revision))
    {
      KillMatching(OfRevision(revision));
    }

    method EvictDataSpace(dataSpace: string)
      requires Valid()
      modifies this`children, Objects(children)
      ensures Valid() && Contents() == KillAll(cfg, old(Contents()), OfDataSpace(dataSpace))
    {
      KillMatching(OfDataSpace(dataSpace));
    }

    method ReapLocked(now: int)
      requires Valid()
      modifies this`children, Objects(children)
      ensures Valid() && Contents() == KillAll(cfg, old(Contents()), Overdue(now))
    {
      if cfg.idleSeconds <= 0 {
        ghost var cs := Views(children);
        SparedAre(cfg, Overdue(now), cs);
        NoneOverdue(cfg, now, cs);
        return;
      }
      KillMatching(Overdue(now));
    }

    method Shutdown()
      requires Valid()
      modifies this, Objects(children)
      ensures Valid() && Contents() == P.Shutdown(cfg, old(Contents()))
    {
      closed := true;
      KillMatching(All);
    }
  }

  lemma IndexIs(cs: seq<Child>, k: nat)
    requires Unique(cs) && k < |cs|
    ensures IndexOf(cs, cs[k].id) == k
  {
    hide IndexOf;
    assert cs[k] in cs;
    assert IndexOf(cs, cs[k].id) < |cs|;
  }

  lemma UniqueViews(cs: seq<PooledChild>)
    requires Distinct(cs)
    ensures Unique(Views(cs))
  {
    hide Views;
    ViewsAre(cs);
  }

  lemma WhereIs(cs: seq<PooledChild>, child: PooledChild)
    requires Distinct(cs) && (child in cs || forall c :: c in cs ==> c.id != child.id)
    ensures var i := IndexOf(Views(cs), child.id); if child in cs then i < |cs| && cs[i] == child else i == |cs|
  {
    hide IndexOf, Unique, Views;
    ViewsAre(cs);
    UniqueViews(cs);
    if child in cs {
      var k :| 0 <= k < |cs| && cs[k] == child;
      IndexIs(Views(cs), k);
    } else if cs != [] {
      var i := IndexOf(Views(cs), child.id);
      assert forall k :: 0 <= k < |cs| ==> cs[k].id != child.id;
    }
  }

  lemma {:induction false} NoneOverdue(cfg: Config, now: int, cs: seq<Child>)
    requires cfg.idleSeconds == 0
    ensures Spared(cfg, Overdue(now), cs) == cs
  {
    if cs != [] {
      NoneOverdue(cfg, now, cs[..|cs| - 1]);
    }
  }
}
