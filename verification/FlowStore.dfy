/**
 The pipeline seen from the store: which operations of `PcsStore` each node
 amounts to, over every run; and with that how long data is cached, what is
 evicted, and which interests and data packets go where.
 */
module FlowStore {
  import opened Types
  import opened Seqs
  import opened PcsModel
  import opened PcsStore
  import opened Pipeline
  import opened Flow
  import opened FlowIndices

  // ---- traces of store operations ----

  /** Operations `ops`, none of them an extra lock, lead from an empty PIT/CS to `m`. */
  ghost predicate Reached(m: Pcs, ops: seq<Op>, max: nat) {
    (exists ms :: PcsRun(ms, ops, max) && ms[|ops|] == m) && forall op :: op in ops ==> !op.LockOp?
  }

  lemma ReachedIs(m: Pcs, ops: seq<Op>, max: nat)
    requires Reached(m, ops, max)
    ensures Inv(m) && Abs(m) == Run(Store(map[], [], max), ops)
  {
    var ms :| PcsRun(ms, ops, max) && ms[|ops|] == m;
    RunRefines(ms, ops, max);
  }

  lemma RunNext(ms: seq<Pcs>, ops: seq<Op>, max: nat, op: Op, r: Pcs)
    requires PcsRun(ms, ops, max) && Inv(ms[|ops|]) && PcsStore.Next(ms[|ops|], op, r)
    ensures PcsRun(ms + [r], ops + [op], max)
  {
    var ps, qs := ms + [r], ops + [op];
    forall k | 0 <= k < |qs| && Inv(ps[k])
      ensures PcsStore.Next(ps[k], qs[k], ps[k + 1])
    {
      if k < |ops| { assert ps[k] == ms[k] && qs[k] == ops[k] && ps[k + 1] == ms[k + 1]; }
    }
  }

  /** One more operation. */
  lemma ReachedNext(m: Pcs, ops: seq<Op>, max: nat, op: Op, r: Pcs)
    requires Reached(m, ops, max) && Inv(m) && PcsStore.Next(m, op, r) && !op.LockOp?
    ensures Reached(r, ops + [op], max) && Inv(r)
  {
    StepRefines(m, op, r);
    ReachedMore(m, ops, max, op, r);
  }

  lemma ReachedMore(m: Pcs, ops: seq<Op>, max: nat, op: Op, r: Pcs)
    requires Reached(m, ops, max) && Inv(m) && PcsStore.Next(m, op, r) && !op.LockOp?
    ensures Reached(r, ops + [op], max)
  {
    var ms :| PcsRun(ms, ops, max) && ms[|ops|] == m;
    RunNext(ms, ops, max, op, r);
    assert (ms + [r])[|ops + [op]|] == r;
  }

  /** Two more operations. */
  lemma ReachedTwo(m: Pcs, ops: seq<Op>, max: nat, op: Op, m1: Pcs, op1: Op, r: Pcs)
    requires Reached(m, ops, max) && Inv(m) && PcsStore.Next(m, op, m1) && !op.LockOp?
    requires Inv(m1) && PcsStore.Next(m1, op1, r) && !op1.LockOp?
    ensures Reached(r, ops + [op, op1], max) && Inv(r)
  {
    ReachedNext(m, ops, max, op, m1);
    ReachedNext(m1, ops + [op], max, op1, r);
    assert ops + [op] + [op1] == ops + [op, op1];
  }

  // ---- what each node amounts to ----

  /** The names a step uses: cached names that are looked up, and names whose data is kept. */
  ghost function UseBy(s: Sys, a: Act): (uses: seq<Name>)
    requires Settled(s.m) && Enabled(s, a)
  {
    if (a.InterestAct? || a.DataAct?) && a.n in s.m.table && s.m.pool[s.m.table[a.n]].Cached? then [a.n]
    else if a.FwdAct? && Stores(s, a) then [s.m.pool[s.q[a.k].i].name]
    else []
  }

  /** The data packet finds a PIT entry and is kept. */
  predicate Stores(s: Sys, a: Act)
    requires a.FwdAct? && a.k < |s.q|
  {
    var i := s.q[a.k].i;
    i in s.m.pool && s.m.pool[i].Pending? && IsKept(s.m.pool[i], a.t, a.lifetime)
  }

  /** The operations a step amounts to, from the packet and the entry it meets. */
  ghost function OpsOf(s: Sys, a: Act): (ops: seq<Op>)
    requires Settled(s.m) && Enabled(s, a)
  {
    match a
    case InterestAct(n, f, t, lifetime, i, known) =>
      if n !in s.m.table then Asked(n, f, t, lifetime, known)
      else if t <= s.m.pool[s.m.table[n]].expire then [LookupOp(n)]
      else [LookupOp(n), UnlockOp(n)] + Asked(n, f, t, lifetime, known)
    case HitPitAct(k, force) =>
      var e := s.m.pool[s.q[k].i];
      if e.Pending? && s.q[k].f !in e.faces then [FaceOp(e.name, s.q[k].f)] else []
    case HitCsAct(k, t, ret) =>
      var e := s.m.pool[s.q[k].i];
      if t > e.expire then [UnlockOp(e.name)] else [BufferOp(e.name, ret)]
    case DataAct(n, buf, known, stale) => [LookupOp(n)]
    case FwdAct(k, t, lifetime) =>
      var i := s.q[k].i;
      if i !in s.m.pool || s.m.pool[i].Cached? then []
      else if IsKept(s.m.pool[i], t, lifetime) then
        [DataOp(s.m.pool[i].name, s.q[k].buf), ExpireOp(s.m.pool[i].name, Until(t, lifetime))]
      else [UnlockOp(s.m.pool[i].name)]
  }

  /** Until when data that arrives at `t` is cached: its lifetime in milliseconds, five minutes if it is more than a day. */
  function Until(t: real, lifetime: nat): (e: real) {
    t + (if lifetime > 86400000 then 300000 else lifetime) as real / 1000.0
  }

  /** A new entry; without a context it is taken back. */
  function Asked(n: Name, f: FaceId, t: real, lifetime: nat, known: bool): (ops: seq<Op>) {
    [InterestOp(n, t + lifetime as real / 1000.0), if known then FaceOp(n, f) else UnlockOp(n)]
  }

  /** Data for the entry is kept: somebody still waits for it, and it has a lifetime. */
  predicate IsKept(e: Item, t: real, lifetime: nat)
    requires e.Pending?
  {
    t <= e.expire && e.faces != [] && lifetime != 0
  }

  lemma LookupLeads(m: Pcs, ops: seq<Op>, max: nat, n: Name)
    requires Reached(m, ops, max) && Inv(m)
    ensures Reached(Lookup(m, n), ops + [LookupOp(n)], max)
  {
    ReachedNext(m, ops, max, LookupOp(n), Lookup(m, n));
  }

  lemma UnlockLeads(m: Pcs, ops: seq<Op>, max: nat, i: nat)
    requires Reached(m, ops, max) && Inv(m) && Inserted(m, i)
    ensures m.pool[i].locks > 0 && Reached(Unlock(m, i), ops + [UnlockOp(m.pool[i].name)], max)
  {
    ReachedNext(m, ops, max, UnlockOp(m.pool[i].name), Unlock(m, i));
  }

  lemma ExpungedLeads(m: Pcs, ops: seq<Op>, max: nat, n: Name)
    requires Reached(m, ops, max) && Settled(m) && n in m.table
    ensures Reached(Expunged(m, n), ops + [LookupOp(n), UnlockOp(n)], max)
  {
    SettledLookup(m, n);
    ReachedTwo(m, ops, max, LookupOp(n), Lookup(m, n), UnlockOp(n), Expunged(m, n));
  }

  lemma NewLeads(m: Pcs, ops: seq<Op>, max: nat, n: Name, f: FaceId, t: real, lifetime: nat, i: nat, known: bool)
    requires Reached(m, ops, max) && Settled(m) && i !in m.pool && n !in m.table
    ensures Reached(NewInterest(m, n, f, t, lifetime, i, known).0, ops + Asked(n, f, t, lifetime, known), max)
  {
    var e := t + lifetime as real / 1000.0;
    SettledNew(m, i, n, e);
    var m1 := NewEntry(m, i, n, e);
    assert m1.table[n] == i && m1.pool[i] == Pending(n, 1, e, []);
    ReachedTwo(m, ops, max, InterestOp(n, e), m1, if known then FaceOp(n, f) else UnlockOp(n), NewInterest(m, n, f, t, lifetime, i, known).0);
  }

  lemma FreshLeads(m: Pcs, ops: seq<Op>, max: nat, n: Name, f: FaceId, t: real, lifetime: nat, i: nat, known: bool)
    requires Reached(m, ops, max) && Settled(m) && Available(m, n, t, i) && Fresh(m, n, t)
    ensures Reached(
      InterestLookup(m, n, f, t, lifetime, i, known).0,
      ops + ((if n in m.table then [LookupOp(n), UnlockOp(n)] else []) + Asked(n, f, t, lifetime, known)), max)
  {
    FreshLookup(m, n, f, t, lifetime, i, known);
    ExpungedEffect(m, n);
    var gone := if n in m.table then [LookupOp(n), UnlockOp(n)] else [];
    assert ops + [] == ops;
    if n in m.table { ExpungedLeads(m, ops, max, n); }
    NewLeads(Expunged(m, n), ops + gone, max, n, f, t, lifetime, i, known);
    assert ops + gone + Asked(n, f, t, lifetime, known) == ops + (gone + Asked(n, f, t, lifetime, known));
  }

  lemma InterestLeads(s: Sys, a: Act, ops: seq<Op>, max: nat)
    requires Settled(s.m) && a.InterestAct? && Enabled(s, a) && Reached(s.m, ops, max)
    ensures Reached(Do(s, a).m, ops + OpsOf(s, a), max)
  {
    if Fresh(s.m, a.n, a.t) {
      FreshLeads(s.m, ops, max, a.n, a.f, a.t, a.lifetime, a.i, a.known);
      assert [] + Asked(a.n, a.f, a.t, a.lifetime, a.known) == Asked(a.n, a.f, a.t, a.lifetime, a.known);
    } else {
      LookupLeads(s.m, ops, max, a.n);
    }
  }

  lemma HitPitLeads(m: Pcs, ops: seq<Op>, max: nat, i: nat, f: FaceId, force: bool)
    requires Settled(m) && i in m.pool && Reached(m, ops, max)
    ensures
      var e := m.pool[i];
      Reached(HitPit(m, i, f, force).0, ops + (if e.Pending? && f !in e.faces then [FaceOp(e.name, f)] else []), max)
  {
    var e := m.pool[i];
    assert Inserted(m, i);
    assert ops + [] == ops;
    if e.Pending? {
      if f !in e.faces {
        ReachedNext(m, ops, max, FaceOp(e.name, f), HitPit(m, i, f, force).0);
      } else {
        assert m.pool[i := e] == m.pool;
      }
    }
  }

  lemma HitCsLeads(m: Pcs, ops: seq<Op>, max: nat, i: nat, t: real, ret: nat)
    requires Settled(m) && i in m.pool && Reached(m, ops, max)
    ensures
      var e := m.pool[i];
      Reached(HitCs(m, i, t, ret).0, ops + (if t > e.expire then [UnlockOp(e.name)] else [BufferOp(e.name, ret)]), max)
  {
    var e := m.pool[i];
    assert Inserted(m, i);
    if t > e.expire {
      UnlockLeads(m, ops, max, i);
    } else {
      ReachedNext(m, ops, max, BufferOp(e.name, ret), HitCs(m, i, t, ret).0);
    }
  }

  /** An index that is gone takes its name with it. */
  lemma GoneFrom(m: Pcs, m1: Pcs, i: nat)
    requires Settled(m) && Settled(m1) && Keeps(m, m1) && i in m.pool && i !in m1.pool
    ensures m.pool[i].name !in m1.table
  {
    forall n | n in m1.table
      ensures n != m.pool[i].name
    {
      assert m1.table[n] in m1.pool && Inserted(m, m1.table[n]) && Inserted(m, i);
    }
  }

  lemma StoreNext(m: Pcs, i: nat, buf: nat)
    requires Settled(m) && i in m.pool && m.pool[i].Pending?
    ensures Inserted(m, i) && Inserted(m, Victim(m, i))
    ensures var n, m1 := m.pool[i].name, ToCs(m, i, buf);
      PcsStore.Next(m, DataOp(n, buf), m1) && Settled(m1) && if i in m1.pool then m1.pool[i].name == n else n !in m1.table
  {
    assert Inserted(m, i);
    ToCsSettled(m, m.pool[i].name, buf);
    var m1 := ToCs(m, i, buf);
    if i !in m1.pool { GoneFrom(m, m1, i); }
  }

  lemma ExpireNext(m: Pcs, i: nat, n: Name, e: real)
    requires Settled(m) && if i in m.pool then m.pool[i].name == n else n !in m.table
    ensures PcsStore.Next(m, ExpireOp(n, e), if i in m.pool then SetExpire(m, i, e) else m)
  {
    if i in m.pool { assert Inserted(m, i); }
  }

  lemma KeptNext(m: Pcs, i: nat, t: real, lifetime: nat, buf: nat)
    requires Settled(m) && i in m.pool && m.pool[i].Pending?
    ensures Inserted(m, i) && Inserted(m, Victim(m, i))
    ensures var n, m1 := m.pool[i].name, ToCs(m, i, buf);
      && PcsStore.Next(m, DataOp(n, buf), m1) && Settled(m1)
      && PcsStore.Next(m1, ExpireOp(n, Until(t, lifetime)), CloneToCs(m, i, t, lifetime, buf))
  {
    StoreNext(m, i, buf);
    CloneIs(m, i, t, lifetime, buf);
    ExpireNext(ToCs(m, i, buf), i, m.pool[i].name, Until(t, lifetime));
  }

  lemma KeptLeads(m: Pcs, ops: seq<Op>, max: nat, i: nat, t: real, lifetime: nat, buf: nat)
    requires Settled(m) && i in m.pool && m.pool[i].Pending? && Reached(m, ops, max)
    ensures var n := m.pool[i].name;
      Reached(CloneToCs(m, i, t, lifetime, buf), ops + [DataOp(n, buf), ExpireOp(n, Until(t, lifetime))], max)
  {
    KeptNext(m, i, t, lifetime, buf);
    var n := m.pool[i].name;
    ReachedTwo(m, ops, max, DataOp(n, buf), ToCs(m, i, buf), ExpireOp(n, Until(t, lifetime)), CloneToCs(m, i, t, lifetime, buf));
  }

  lemma FwdLeads(s: Sys, a: Act, ops: seq<Op>, max: nat)
    requires Settled(s.m) && a.FwdAct? && Enabled(s, a) && Reached(s.m, ops, max)
    ensures Reached(Do(s, a).m, ops + OpsOf(s, a), max)
  {
    var i := s.q[a.k].i;
    assert ops + [] == ops;
    if i in s.m.pool && s.m.pool[i].Pending? {
      assert Inserted(s.m, i);
      if IsKept(s.m.pool[i], a.t, a.lifetime) {
        KeptLeads(s.m, ops, max, i, a.t, a.lifetime, s.q[a.k].buf);
      } else {
        UnlockLeads(s.m, ops, max, i);
      }
    }
  }

  /** Every step of the pipeline amounts to its operations. */
  lemma StepLeads(s: Sys, a: Act, ops: seq<Op>, max: nat)
    requires Settled(s.m) && Enabled(s, a) && Reached(s.m, ops, max)
    ensures Reached(Do(s, a).m, ops + OpsOf(s, a), max)
  {
    match a {
      case InterestAct(n, f, t, lifetime, i, known) => InterestLeads(s, a, ops, max);
      case HitPitAct(k, force) => HitPitLeads(s.m, ops, max, s.q[k].i, s.q[k].f, force);
      case HitCsAct(k, t, ret) => HitCsLeads(s.m, ops, max, s.q[k].i, t, ret);
      case DataAct(n, buf, known, stale) => LookupLeads(s.m, ops, max, n);
      case FwdAct(k, t, lifetime) => FwdLeads(s, a, ops, max);
    }
  }

  // ---- the order of the cache ----

  ghost function Recent(m: Pcs): (r: seq<Name>)
    requires Inv(m)
  {
    Abs(m).recent
  }

  lemma RecentLookup(m: Pcs, n: Name)
    requires Inv(m)
    ensures Inv(Lookup(m, n))
    ensures Recent(Lookup(m, n)) == if n in m.table && m.pool[m.table[n]].Cached? then [n] + Without(Recent(m), n) else Recent(m)
  {
    if n in m.table && m.pool[m.table[n]].Cached? { TouchRefines(m, n); }
  }

  lemma RecentUnlock(m: Pcs, i: nat)
    requires Settled(m) && i in m.pool
    ensures Inv(Unlock(m, i)) && Recent(Unlock(m, i)) == Without(Recent(m), m.pool[i].name)
  {
    assert Inserted(m, i);
    RemoveRefines(m, m.pool[i].name);
  }

  lemma RecentNew(m: Pcs, n: Name, f: FaceId, t: real, lifetime: nat, i: nat, known: bool)
    requires Settled(m) && i !in m.pool && n !in m.table
    ensures var r := NewInterest(m, n, f, t, lifetime, i, known).0;
      Inv(r) && Recent(r) == if known then Recent(m) else Without(Recent(m), n)
  {
    var e := ExpTime(t, lifetime);
    SettledNew(m, i, n, e);
    NewEntryRefines(m, i, n, e);
    var m1 := NewEntry(m, i, n, e);
    assert m1.table[n] == i && m1.pool[i] == Pending(n, 1, e, []);
    if known { UpdateRefines(m1, n, WithFace(m1.pool[i], f)); } else { RecentUnlock(m1, i); }
  }

  lemma RecentExpunged(m: Pcs, n: Name)
    requires Settled(m)
    ensures Settled(Expunged(m, n)) && Recent(Expunged(m, n)) == if n in m.table then Without(Recent(Lookup(m, n)), n) else Recent(m)
  {
    ExpungedEffect(m, n);
    SettledLookup(m, n);
    if n in m.table { RecentUnlock(Lookup(m, n), m.table[n]); }
  }

  /** The chain of `m` is in the order of the uses `uses`. */
  ghost predicate Ordered(m: Pcs, uses: seq<Name>) {
    Inv(m) && ByRecency(Recent(m), uses)
  }

  lemma LookupOrdered(m: Pcs, n: Name, uses: seq<Name>)
    requires Ordered(m, uses)
    ensures Ordered(Lookup(m, n), uses + if n in m.table && m.pool[m.table[n]].Cached? then [n] else [])
  {
    RecentLookup(m, n);
    if n in m.table && m.pool[m.table[n]].Cached? { UseKeepsOrder(Recent(m), uses, n); } else { assert uses + [] == uses; }
  }

  lemma InterestOrdered(m: Pcs, n: Name, f: FaceId, t: real, lifetime: nat, i: nat, known: bool, uses: seq<Name>)
    requires Settled(m) && Available(m, n, t, i) && Ordered(m, uses)
    ensures Ordered(
      InterestLookup(m, n, f, t, lifetime, i, known).0, uses + if n in m.table && m.pool[m.table[n]].Cached? then [n] else [])
  {
    LookupOrdered(m, n, uses);
    if Fresh(m, n, t) {
      FreshLookup(m, n, f, t, lifetime, i, known);
      ExpungedEffect(m, n);
      var uses2 := uses + if n in m.table && m.pool[m.table[n]].Cached? then [n] else [];
      ExpungedOrdered(m, n, uses, uses2);
      NewOrdered(Expunged(m, n), n, f, t, lifetime, i, known, uses2);
    }
  }

  lemma ExpungedOrdered(m: Pcs, n: Name, uses: seq<Name>, uses2: seq<Name>)
    requires Settled(m) && Ordered(m, uses) && Ordered(Lookup(m, n), uses2) && (n !in m.table ==> uses2 == uses)
    ensures Settled(Expunged(m, n)) && Ordered(Expunged(m, n), uses2)
  {
    RecentExpunged(m, n);
    DropKeepsOrder(Recent(Lookup(m, n)), uses2, n);
  }

  lemma NewOrdered(m: Pcs, n: Name, f: FaceId, t: real, lifetime: nat, i: nat, known: bool, uses: seq<Name>)
    requires Settled(m) && Ordered(m, uses) && i !in m.pool && n !in m.table
    ensures Ordered(NewInterest(m, n, f, t, lifetime, i, known).0, uses)
  {
    RecentNew(m, n, f, t, lifetime, i, known);
    DropKeepsOrder(Recent(m), uses, n);
  }

  lemma UpdateOrdered(m: Pcs, i: nat, item: Item, uses: seq<Name>)
    requires Settled(m) && Ordered(m, uses) && i in m.pool && item.name == m.pool[i].name && item.locks == 1
    requires item.Pending? == m.pool[i].Pending?
    ensures Ordered(m.(pool := m.pool[i := item]), uses)
  {
    assert Inserted(m, i);
    UpdateRefines(m, item.name, item);
  }

  lemma UnlockOrdered(m: Pcs, i: nat, uses: seq<Name>)
    requires Settled(m) && Ordered(m, uses) && i in m.pool
    ensures Ordered(Unlock(m, i), uses)
  {
    RecentUnlock(m, i);
    DropKeepsOrder(Recent(m), uses, m.pool[i].name);
  }

  lemma StoreOrdered(m: Pcs, i: nat, buf: nat, uses: seq<Name>)
    requires Settled(m) && Ordered(m, uses) && i in m.pool && m.pool[i].Pending?
    ensures Inserted(m, i) && Inserted(m, Victim(m, i)) && Ordered(ToCs(m, i, buf), uses + [m.pool[i].name])
  {
    assert Inserted(m, i);
    AbsInv(m);
    ToCsRefines(m, m.pool[i].name, buf);
    StoreKeepsOrder(Abs(m), m.pool[i].name, buf, uses);
  }

  lemma KeptOrdered(m: Pcs, i: nat, t: real, lifetime: nat, buf: nat, uses: seq<Name>)
    requires Settled(m) && Ordered(m, uses) && i in m.pool && m.pool[i].Pending?
    ensures Ordered(CloneToCs(m, i, t, lifetime, buf), uses + [m.pool[i].name])
  {
    StoreOrdered(m, i, buf, uses);
    StoreNext(m, i, buf);
    CloneIs(m, i, t, lifetime, buf);
    var m1 := ToCs(m, i, buf);
    if i in m1.pool { UpdateOrdered(m1, i, Expiring(m1.pool[i], Until(t, lifetime)), uses + [m.pool[i].name]); }
  }

  lemma FwdOrdered(s: Sys, a: Act, uses: seq<Name>)
    requires Settled(s.m) && a.FwdAct? && Enabled(s, a) && Ordered(s.m, uses)
    ensures Ordered(Do(s, a).m, uses + UseBy(s, a))
  {
    var i := s.q[a.k].i;
    assert uses + [] == uses;
    if i in s.m.pool && s.m.pool[i].Pending? {
      if IsKept(s.m.pool[i], a.t, a.lifetime) {
        KeptOrdered(s.m, i, a.t, a.lifetime, s.q[a.k].buf, uses);
      } else {
        UnlockOrdered(s.m, i, uses);
      }
    }
  }

  /** A step uses the names it should: the chain stays in the order of last use. */
  lemma StepOrdered(s: Sys, a: Act, uses: seq<Name>)
    requires Settled(s.m) && Enabled(s, a) && Ordered(s.m, uses)
    ensures Ordered(Do(s, a).m, uses + UseBy(s, a))
  {
    match a {
      case InterestAct(n, f, t, lifetime, i, known) => InterestOrdered(s.m, n, f, t, lifetime, i, known, uses);
      case HitPitAct(k, force) => HitOrdered(s, a, uses);
      case HitCsAct(k, t, ret) => HitOrdered(s, a, uses);
      case DataAct(n, buf, known, stale) => LookupOrdered(s.m, n, uses);
      case FwdAct(k, t, lifetime) => FwdOrdered(s, a, uses);
    }
  }

  lemma HitOrdered(s: Sys, a: Act, uses: seq<Name>)
    requires Settled(s.m) && (a.HitPitAct? || a.HitCsAct?) && Enabled(s, a) && Ordered(s.m, uses)
    ensures Ordered(Do(s, a).m, uses + UseBy(s, a))
  {
    assert uses + [] == uses;
    var fl := s.q[a.k];
    if a.HitPitAct? { HitPitOrdered(s.m, fl.i, fl.f, a.force, uses); } else { HitCsOrdered(s.m, fl.i, a.t, a.ret, uses); }
  }

  lemma HitPitOrdered(m: Pcs, i: nat, f: FaceId, force: bool, uses: seq<Name>)
    requires Settled(m) && i in m.pool && Ordered(m, uses)
    ensures Ordered(HitPit(m, i, f, force).0, uses)
  {
    if m.pool[i].Pending? { UpdateOrdered(m, i, HitPit(m, i, f, force).0.pool[i], uses); }
  }

  lemma HitCsOrdered(m: Pcs, i: nat, t: real, ret: nat, uses: seq<Name>)
    requires Settled(m) && i in m.pool && Ordered(m, uses)
    ensures Ordered(HitCs(m, i, t, ret).0, uses)
  {
    if t > m.pool[i].expire { UnlockOrdered(m, i, uses); } else if m.pool[i].Cached? { UpdateOrdered(m, i, InBuffer(m.pool[i], ret), uses); }
  }

  // ---- over every run ----

  /** The operations and the uses of the first `k` steps of a run. */
  ghost function FlowOps(ss: seq<Sys>, acts: seq<Act>, max: nat, k: nat): (ops: seq<Op>)
    requires AnyRun(ss, acts, max) && k <= |acts|
  {
    if k == 0 then []
    else
      RunSettled(ss, acts, max, k - 1);
      FlowOps(ss, acts, max, k - 1) + OpsOf(ss[k - 1], acts[k - 1])
  }

  ghost function FlowUses(ss: seq<Sys>, acts: seq<Act>, max: nat, k: nat): (uses: seq<Name>)
    requires AnyRun(ss, acts, max) && k <= |acts|
  {
    if k == 0 then []
    else
      RunSettled(ss, acts, max, k - 1);
      FlowUses(ss, acts, max, k - 1) + UseBy(ss[k - 1], acts[k - 1])
  }

  lemma EmptyReached(max: nat)
    ensures Reached(Empty(max), [], max)
  {
    assert PcsRun([Empty(max)], [], max);
  }

  lemma StepReached(s: Sys, a: Act, r: Sys, ops: seq<Op>, max: nat, more: seq<Op>)
    requires Settled(s.m) && Enabled(s, a) && r == Do(s, a) && Reached(s.m, ops, max) && more == ops + OpsOf(s, a)
    ensures Reached(r.m, more, max)
  {
    StepLeads(s, a, ops, max);
  }

  lemma OneMoreReached(ss: seq<Sys>, acts: seq<Act>, max: nat, k: nat, k1: nat)
    requires AnyRun(ss, acts, max) && k < |acts| && k1 == k + 1 && Reached(ss[k].m, FlowOps(ss, acts, max, k), max)
    ensures Reached(ss[k1].m, FlowOps(ss, acts, max, k1), max)
  {
    RunSettled(ss, acts, max, k);
    StepReached(ss[k], acts[k], ss[k1], FlowOps(ss, acts, max, k), max, FlowOps(ss, acts, max, k1));
  }

  lemma {:induction false} RunReached(ss: seq<Sys>, acts: seq<Act>, max: nat, k: nat)
    requires AnyRun(ss, acts, max) && k <= |acts|
    ensures Reached(ss[k].m, FlowOps(ss, acts, max, k), max)
  {
    if k == 0 {
      EmptyReached(max);
    } else {
      RunReached(ss, acts, max, k - 1);
      OneMoreReached(ss, acts, max, k - 1, k);
    }
  }

  lemma OneMoreOrdered(ss: seq<Sys>, acts: seq<Act>, max: nat, k: nat, k1: nat)
    requires AnyRun(ss, acts, max) && k < |acts| && k1 == k + 1
    ensures Ordered(ss[k].m, FlowUses(ss, acts, max, k)) ==> Ordered(ss[k1].m, FlowUses(ss, acts, max, k1))
  {
    RunSettled(ss, acts, max, k);
    if Ordered(ss[k].m, FlowUses(ss, acts, max, k)) { StepOrdered(ss[k], acts[k], FlowUses(ss, acts, max, k)); }
  }

  lemma {:induction false} RunOrdered(ss: seq<Sys>, acts: seq<Act>, max: nat, k: nat)
    requires AnyRun(ss, acts, max) && k <= |acts|
    ensures Ordered(ss[k].m, FlowUses(ss, acts, max, k))
  {
    if k > 0 {
      RunOrdered(ss, acts, max, k - 1);
      OneMoreOrdered(ss, acts, max, k - 1, k);
    }
  }

  /**
   Every run of the pipeline, indices recycled at will, is a run of the store: in each
   state the PIT/CS holds what the operations of the steps so far make of an
   empty store, and the cache is within its capacity.
   */
  lemma FlowRefines(ss: seq<Sys>, acts: seq<Act>, max: nat, k: nat)
    requires AnyRun(ss, acts, max) && k <= |acts|
    ensures Inv(ss[k].m) && Abs(ss[k].m) == Run(Store(map[], [], max), FlowOps(ss, acts, max, k))
    ensures |ss[k].m.lru| <= max && ss[k].m.max == max
  {
    var ops := FlowOps(ss, acts, max, k);
    RunReached(ss, acts, max, k);
    ReachedIs(ss[k].m, ops, max);
    RunFits(max, ops);
  }

  lemma RunWithin(ss: seq<Sys>, acts: seq<Act>, max: nat, k: nat)
    requires AnyRun(ss, acts, max) && k <= |acts|
    ensures |ss[k].m.lru| <= max && ss[k].m.max == max
  {
    FlowRefines(ss, acts, max, k);
  }

  // ---- what is cached, until when, and what goes ----

  lemma StoredItems(s: Store, n: Name, buf: nat)
    requires StoreInv(s) && SingleLocks(s) && n in s.items && s.items[n].Pending? && |s.recent| <= s.max
    ensures Oldest(s, n) in s.items
    ensures Stored(s, n, buf).items ==
      var d := s.items[n := Cached(n, 1, s.items[n].expire, buf)]; if |s.recent| < s.max then d else d - {Oldest(s, n)}
  {
    InsertFits(s, n, buf);
  }

  lemma ExpireContents(m: Pcs, i: nat, n: Name, e: real)
    requires Settled(m) && if i in m.pool then m.pool[i].name == n else n !in m.table
    ensures var r := if i in m.pool then SetExpire(m, i, e) else m;
      Settled(r) && Contents(r) == if n in Contents(m) then Contents(m)[n := Expiring(Contents(m)[n], e)] else Contents(m)
  {
    if i in m.pool {
      assert Inserted(m, i);
      SettledUpdate(m, n, Expiring(m.pool[i], e));
    }
  }

  /** Cached under `n` until `e`, and with a full cache without `v`. */
  ghost function Kept(c: map<Name, Item>, n: Name, e: real, buf: nat, full: bool, v: Name): (d: map<Name, Item>) {
    if full then c[n := Cached(n, 1, e, buf)] - {v} else c[n := Cached(n, 1, e, buf)]
  }

  lemma KeptThenExpiring(c: map<Name, Item>, n: Name, e0: real, e: real, buf: nat, full: bool, v: Name)
    ensures var d := Kept(c, n, e0, buf, full, v);
      Kept(c, n, e, buf, full, v) == if n in d then d[n := Expiring(d[n], e)] else d
  {
  }

  lemma StoreContents(m: Pcs, i: nat, buf: nat)
    requires Settled(m) && i in m.pool && m.pool[i].Pending? && |m.lru| <= m.max
    ensures Inserted(m, i) && Inserted(m, Victim(m, i)) && Settled(ToCs(m, i, buf))
    ensures var n, m1 := m.pool[i].name, ToCs(m, i, buf); if i in m1.pool then m1.pool[i].name == n else n !in m1.table
    ensures var n := m.pool[i].name;
      Contents(ToCs(m, i, buf)) == Kept(Contents(m), n, m.pool[i].expire, buf, |m.lru| == m.max, Oldest(Abs(m), n))
  {
    StoreNext(m, i, buf);
    AbsInv(m);
    ToCsRefines(m, m.pool[i].name, buf);
    StoredItems(Abs(m), m.pool[i].name, buf);
  }

  /** Data kept at `t` is cached under the name of the entry, until its lifetime ends; a full cache loses the last of its chain. */
  lemma KeptContents(m: Pcs, i: nat, t: real, lifetime: nat, buf: nat)
    requires Settled(m) && i in m.pool && m.pool[i].Pending? && |m.lru| <= m.max
    ensures var r, n := CloneToCs(m, i, t, lifetime, buf), m.pool[i].name;
      Settled(r) && Contents(r) == Kept(Contents(m), n, Until(t, lifetime), buf, |m.lru| == m.max, Oldest(Abs(m), n))
  {
    StoreContents(m, i, buf);
    CloneIs(m, i, t, lifetime, buf);
    KeptFrom(m, ToCs(m, i, buf), i, Until(t, lifetime), buf);
  }

  lemma CloneIs(m: Pcs, i: nat, t: real, lifetime: nat, buf: nat)
    requires Settled(m) && i in m.pool && m.pool[i].Pending? && Inserted(m, i) && Inserted(m, Victim(m, i))
    ensures var m1 := ToCs(m, i, buf);
      CloneToCs(m, i, t, lifetime, buf) == if i in m1.pool then SetExpire(m1, i, Until(t, lifetime)) else m1
  {
  }

  lemma KeptFrom(m: Pcs, m1: Pcs, i: nat, e: real, buf: nat)
    requires Inv(m) && i in m.pool && Settled(m1)
    requires var n := m.pool[i].name; if i in m1.pool then m1.pool[i].name == n else n !in m1.table
    requires var n := m.pool[i].name;
      Contents(m1) == Kept(Contents(m), n, m.pool[i].expire, buf, |m.lru| == m.max, Oldest(Abs(m), n))
    ensures var r, n := if i in m1.pool then SetExpire(m1, i, e) else m1, m.pool[i].name;
      Settled(r) && Contents(r) == Kept(Contents(m), n, e, buf, |m.lru| == m.max, Oldest(Abs(m), n))
  {
    var n := m.pool[i].name;
    ExpireContents(m1, i, n, e);
    KeptThenExpiring(Contents(m), n, m.pool[i].expire, e, buf, |m.lru| == m.max, Oldest(Abs(m), n));
  }

  /** The index and the name of the entry a data packet meets. */
  function MetBy(s: Sys, a: Act): (n: Name)
    requires a.FwdAct? && a.k < |s.q| && s.q[a.k].i in s.m.pool
  {
    s.m.pool[s.q[a.k].i].name
  }

  /** The step keeps data under `n`. */
  ghost predicate Keeping(s: Sys, a: Act, n: Name) {
    Settled(s.m) && a.FwdAct? && Enabled(s, a) && Stores(s, a) && n == MetBy(s, a)
  }

  /** From `s` to `r` the data came into the cache until its lifetime ends; a full cache lost the last of its chain. */
  ghost predicate KeptAs(s: Sys, a: Act, r: Sys, n: Name)
    requires Keeping(s, a, n)
  {
    && |s.m.lru| <= s.m.max && Settled(r.m)
    && Contents(r.m) == Kept(Contents(s.m), n, Until(a.t, a.lifetime), s.q[a.k].buf, |s.m.lru| == s.m.max, Oldest(Abs(s.m), n))
  }

  lemma StepKept(s: Sys, a: Act, r: Sys, n: Name)
    requires Keeping(s, a, n) && |s.m.lru| <= s.m.max && r == Do(s, a)
    ensures KeptAs(s, a, r, n)
  {
    var i := s.q[a.k].i;
    assert r.m == CloneToCs(s.m, i, a.t, a.lifetime, s.q[a.k].buf);
    assert Inserted(s.m, i);
    KeptContents(s.m, i, a.t, a.lifetime, s.q[a.k].buf);
  }

  /** In every run data that is kept is cached until its lifetime ends, and if the cache was full exactly one name goes. */
  lemma FlowKeeps(ss: seq<Sys>, acts: seq<Act>, max: nat, k: nat, n: Name)
    requires AnyRun(ss, acts, max) && k < |acts| && Keeping(ss[k], acts[k], n)
    ensures KeptAs(ss[k], acts[k], ss[k + 1], n) && ss[k].m.max == max
  {
    RunWithin(ss, acts, max, k);
    StepKept(ss[k], acts[k], ss[k + 1], n);
  }

  /** That name is the one whose last use is the oldest; it is the name just stored only if the capacity is zero. */
  lemma FlowEvictsOldest(ss: seq<Sys>, acts: seq<Act>, max: nat, k: nat, n: Name)
    requires AnyRun(ss, acts, max) && k < |acts| && Inv(ss[k].m) && n in ss[k].m.table && ss[k].m.pool[ss[k].m.table[n]].Pending?
    ensures var s, v, uses := Abs(ss[k].m), Oldest(Abs(ss[k].m), n), FlowUses(ss, acts, max, k);
      && (|s.recent| == max ==> (v == n <==> max == 0))
      && forall c :: Hit(s, c) && c != v ==> LastUse(uses, v) < LastUse(uses, c)
  {
    RunOrdered(ss, acts, max, k);
    RunWithin(ss, acts, max, k);
    OldestUsed(ss[k].m, n, FlowUses(ss, acts, max, k));
  }

  lemma OldestUsed(m: Pcs, n: Name, uses: seq<Name>)
    requires Inv(m) && n in m.table && m.pool[m.table[n]].Pending? && ByRecency(Abs(m).recent, uses)
    ensures Oldest(Abs(m), n) == n <==> m.lru == []
    ensures forall c :: Hit(Abs(m), c) && c != Oldest(Abs(m), n) ==> LastUse(uses, Oldest(Abs(m), n)) < LastUse(uses, c)
  {
    AbsInv(m);
    var s := Abs(m);
    assert s.recent != [] ==> s.recent[|s.recent| - 1] in s.recent;
    forall c | Hit(s, c) && c != Oldest(s, n)
      ensures LastUse(uses, Oldest(s, n)) < LastUse(uses, c)
    {
      LastIsOldest(s.recent, uses, c);
    }
  }

  /** Names that stay cached keep their expiry. */
  ghost predicate SameExpiry(c: map<Name, Item>, d: map<Name, Item>) {
    forall n :: n in c && n in d && c[n].Cached? && d[n].Cached? ==> d[n].expire == c[n].expire
  }

  lemma FwdSameExpiry(m: Pcs, i: nat, t: real, lifetime: nat, buf: nat)
    requires Settled(m)
    ensures Settled(DataFwd(m, i, t, lifetime, buf).0) && SameExpiry(Contents(m), Contents(DataFwd(m, i, t, lifetime, buf).0))
  {
    DataFwdEffect(m, i, t, lifetime, buf);
    if i in m.pool && m.pool[i].Pending? {
      assert Inserted(m, i) && Contents(m)[m.pool[i].name] == m.pool[i];
    }
  }

  lemma HitCsSameExpiry(m: Pcs, i: nat, t: real, ret: nat)
    requires Settled(m) && i in m.pool
    ensures Settled(HitCs(m, i, t, ret).0) && SameExpiry(Contents(m), Contents(HitCs(m, i, t, ret).0))
  {
    HitCsContents(m, i, t, ret);
  }

  lemma InterestSameExpiry(m: Pcs, n: Name, f: FaceId, t: real, lifetime: nat, i: nat, known: bool)
    requires Settled(m) && Available(m, n, t, i)
    ensures var r := InterestLookup(m, n, f, t, lifetime, i, known).0; Settled(r) && SameExpiry(Contents(m), Contents(r))
  {
    InterestEffect(m, n, f, t, lifetime, i, known);
    InterestContents(m, n, f, t, lifetime, i, known);
  }

  /** As long as a name stays cached its expiry stays, whatever the nodes do. */
  lemma CachedKeepsExpiry(s: Sys, a: Act)
    requires Settled(s.m) && Enabled(s, a)
    ensures Settled(Do(s, a).m) && SameExpiry(Contents(s.m), Contents(Do(s, a).m))
  {
    match a {
      case InterestAct(n, f, t, lifetime, i, known) => InterestSameExpiry(s.m, n, f, t, lifetime, i, known);
      case HitPitAct(k, force) => if s.m.pool[s.q[k].i].Pending? { HitPitContents(s.m, s.q[k].i, s.q[k].f, force); }
      case HitCsAct(k, t, ret) => HitCsSameExpiry(s.m, s.q[k].i, t, ret);
      case DataAct(n, buf, known, stale) => SettledLookup(s.m, n);
      case FwdAct(k, t, lifetime) => FwdSameExpiry(s.m, s.q[k].i, t, lifetime, s.q[k].buf);
    }
  }

  ghost predicate CachedAt(m: Pcs, n: Name) {
    Settled(m) && n in m.table && m.pool[m.table[n]].Cached?
  }

  /** `n` is cached until `e`. */
  ghost predicate CachedTill(m: Pcs, n: Name, e: real) {
    CachedAt(m, n) && m.pool[m.table[n]].expire == e
  }

  lemma StepCaches(s: Sys, a: Act, r: Sys, n: Name)
    requires Keeping(s, a, n) && |s.m.lru| <= s.m.max && r == Do(s, a) && CachedAt(r.m, n)
    ensures CachedTill(r.m, n, Until(a.t, a.lifetime))
  {
    StepKept(s, a, r, n);
    assert Contents(r.m)[n] == r.m.pool[r.m.table[n]];
  }

  lemma StepKeepsCached(s: Sys, a: Act, r: Sys, n: Name, e: real)
    requires CachedTill(s.m, n, e) && Enabled(s, a) && r == Do(s, a) && CachedAt(r.m, n)
    ensures CachedTill(r.m, n, e)
  {
    CachedKeepsExpiry(s, a);
    assert Contents(s.m)[n] == s.m.pool[s.m.table[n]] && Contents(r.m)[n] == r.m.pool[r.m.table[n]];
  }

  lemma FirstCached(ss: seq<Sys>, acts: seq<Act>, max: nat, j: nat, n: Name)
    requires AnyRun(ss, acts, max) && j < |acts| && Keeping(ss[j], acts[j], n) && CachedAt(ss[j + 1].m, n)
    ensures CachedTill(ss[j + 1].m, n, Until(acts[j].t, acts[j].lifetime))
  {
    RunWithin(ss, acts, max, j);
    StepCaches(ss[j], acts[j], ss[j + 1], n);
  }

  lemma StillCached(ss: seq<Sys>, acts: seq<Act>, max: nat, k: nat, n: Name, e: real)
    requires AnyRun(ss, acts, max) && k < |acts| && CachedTill(ss[k].m, n, e) && CachedAt(ss[k + 1].m, n)
    ensures CachedTill(ss[k + 1].m, n, e)
  {
    StepKeepsCached(ss[k], acts[k], ss[k + 1], n, e);
  }

  lemma {:induction false} CachedUntil(ss: seq<Sys>, acts: seq<Act>, max: nat, j: nat, k: nat, n: Name, e: real)
    requires AnyRun(ss, acts, max) && j < k <= |acts| && forall h :: j < h <= k ==> CachedAt(ss[h].m, n)
    requires CachedTill(ss[j + 1].m, n, e)
    ensures CachedTill(ss[k].m, n, e)
    decreases k
  {
    if k > j + 1 {
      CachedUntil(ss, acts, max, j, k - 1, n, e);
      StillCached(ss, acts, max, k - 1, n, e);
    }
  }

  /**
   How long the cache answers: in every run, an interest for a name that has been in the cache
   since its data was kept goes to hitcs if and only if it comes within the lifetime of the data.
   */
  lemma CacheAnswersIff(ss: seq<Sys>, acts: seq<Act>, max: nat, j: nat, k: nat, n: Name)
    requires AnyRun(ss, acts, max) && j < k < |acts| && forall h :: j < h <= k ==> CachedAt(ss[h].m, n)
    requires Keeping(ss[j], acts[j], n)
    requires Settled(ss[k].m) && Enabled(ss[k], acts[k]) && acts[k].InterestAct? && acts[k].known && acts[k].n == n
    ensures NodeResult(ss[k], acts[k]).0.ToHitCs? <==>
      acts[k].t <= acts[j].t + (if acts[j].lifetime > 86400000 then 300000 else acts[j].lifetime) as real / 1000.0
  {
    FirstCached(ss, acts, max, j, n);
    CachedUntil(ss, acts, max, j, k, n, Until(acts[j].t, acts[j].lifetime));
    InterestAnswers(ss[k], acts[k]);
  }

  // ---- where packets go ----

  /** Where interest_pcslookup sends an interest. */
  lemma InterestAnswers(s: Sys, a: Act)
    requires Settled(s.m) && a.InterestAct? && Enabled(s, a)
    ensures
      var c, next := Contents(s.m), NodeResult(s, a).0;
      var alive := a.n in c && a.t <= c[a.n].expire;
      && (next == Dropped <==> !a.known)
      && (next == ToStrategy <==> a.known && !alive)
      && (next.ToHitCs? <==> a.known && alive && c[a.n].Cached?)
      && (next.ToHitPit? <==> a.known && alive && c[a.n].Pending?)
      && (next.ToHitCs? || next.ToHitPit? ==> next.i in s.m.pool && s.m.pool[next.i] == c[a.n])
  {
    InterestEffect(s.m, a.n, a.f, a.t, a.lifetime, a.i, a.known);
  }

  /** hitpit forwards a retransmission, and an aggregated interest if the strategy says so; it drops other interests it aggregated. */
  lemma HitPitForwardsIff(s: Sys, a: Act)
    requires Settled(s.m) && a.HitPitAct? && Enabled(s, a)
    ensures
      var fl, next := s.q[a.k], NodeResult(s, a).0;
      if s.m.pool[fl.i].Cached? then next == ToHitCs(fl.i)
      else (next == ToStrategy <==> fl.f in Waiting(Contents(s.m), s.m.pool[fl.i].name) || a.force) &&
           (next == Dropped <==> fl.f !in Waiting(Contents(s.m), s.m.pool[fl.i].name) && !a.force)
  {
    assert Inserted(s.m, s.q[a.k].i);
  }

  /** hitcs replies with the buffer of an entry that has not expired. */
  lemma HitCsAnswers(s: Sys, a: Act)
    requires Settled(s.m) && a.HitCsAct? && Enabled(s, a) && s.m.pool[s.q[a.k].i].Cached?
    ensures
      var e := s.m.pool[s.q[a.k].i];
      NodeResult(s, a).0 == if a.t > e.expire then ToStrategy else Reply(e.buf)
  {
  }

  /** A hit moves the cached data to another buffer, which the next hit replies with; nothing else about the entry changes. */
  lemma HitAfterHit(m: Pcs, i: nat, t: real, ret: nat, t1: real, ret1: nat)
    requires Settled(m) && i in m.pool && m.pool[i].Cached? && t <= m.pool[i].expire
    ensures
      var r, e := HitCs(m, i, t, ret).0, m.pool[i];
      && r.pool.Keys == m.pool.Keys && r.pool[i] == Cached(e.name, e.locks, e.expire, ret)
      && HitCs(r, i, t1, ret1).1 == if t1 > e.expire then ToStrategy else Reply(ret)
  {
  }

  /** Where data_pcslookup sends a data packet: only to an entry of its name that waits, or, without a context, where it came with. */
  lemma DataAnswers(m: Pcs, n: Name, known: bool, stale: nat)
    requires Settled(m)
    ensures
      var c, next := Contents(m), DataLookup(m, n, known, stale).1;
      && (next == Dropped <==> n !in c || (known && c[n].Cached?))
      && (next != Dropped ==> next == ToDataFwd(if known then m.table[n] else stale))
  {
  }
}
