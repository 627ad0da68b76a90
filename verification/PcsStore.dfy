/**
 What the PIT/CS means to its callers: one map from names to pending or cached
 contents, and the cached names ordered by use. No pool index appears here.
 */
module PcsStore {
  import opened Types
  import opened Seqs
  import opened PcsModel

  datatype Store = Store(items: map<Name, Item>, recent: seq<Name>, max: nat)

  datatype Op =
    | LookupOp(n: Name)
    | InterestOp(n: Name, expire: real)
    | FaceOp(n: Name, face: FaceId)
    | DataOp(n: Name, buf: nat)
    | CacheOp(n: Name, expire: real, buf: nat)
    | ExpireOp(n: Name, expire: real)
    | BufferOp(n: Name, buf: nat)
    | LockOp(n: Name)
    | UnlockOp(n: Name)

  ghost predicate StoreInv(s: Store) {
    && Distinct(s.recent)
    && (forall n :: n in s.recent ==> n in s.items && s.items[n].Cached?)
    && (forall n :: n in s.items && s.items[n].Cached? ==> n in s.recent)
    && (forall n :: n in s.items ==> s.items[n].name == n && s.items[n].locks > 0)
  }

  /** A hit: the name is cached, so looking it up counts as a use. */
  predicate Hit(s: Store, n: Name) {
    n in s.items && s.items[n].Cached?
  }

  function Used(s: Store, n: Name): (r: Store) {
    s.(recent := [n] + Without(s.recent, n))
  }

  function Released1(s: Store, n: Name): (r: Store)
    requires n in s.items && s.items[n].locks > 0
  {
    if s.items[n].locks == 1 then s.(items := s.items - {n}, recent := Without(s.recent, n))
    else s.(items := s.items[n := Released(s.items[n])])
  }

  /** The name whose lock an overflowing insertion of `n` releases: the last of the list. */
  function Oldest(s: Store, n: Name): (v: Name) {
    if s.recent == [] then n else s.recent[|s.recent| - 1]
  }

  function Stored(s: Store, n: Name, buf: nat): (r: Store)
    requires n in s.items && s.items[n].locks > 0
    requires Oldest(s, n) in s.items && s.items[Oldest(s, n)].locks > 0
  {
    var s1 := s.(items := s.items[n := AsCached(s.items[n], buf)], recent := [n] + s.recent);
    if |s1.recent| > s.max then Released1(s1, Oldest(s, n)) else s1
  }

  function Requested(s: Store, n: Name, t: real): (r: Store) {
    s.(items := s.items[n := Pending(n, 1, t, [])])
  }

  /** One operation; one that does not apply in `s` changes nothing. */
  function Step(s: Store, op: Op): (r: Store)
    requires StoreInv(s)
  {
    match op
    case LookupOp(n) => if Hit(s, n) then Used(s, n) else s
    case InterestOp(n, t) => if n in s.items then s else Requested(s, n, t)
    case FaceOp(n, f) =>
      if n in s.items && s.items[n].Pending?
      then s.(items := s.items[n := WithFace(s.items[n], f)]) else s
    case DataOp(n, buf) =>
      if n in s.items && s.items[n].Pending?
      then
        assert s.recent != [] ==> s.recent[|s.recent| - 1] in s.recent;
        Stored(s, n, buf)
      else s
    case CacheOp(n, t, buf) =>
      if n in s.items then s
      else
        assert s.recent != [] ==> s.recent[|s.recent| - 1] in s.recent;
        Stored(Requested(s, n, t), n, buf)
    case ExpireOp(n, t) => if n in s.items then s.(items := s.items[n := Expiring(s.items[n], t)]) else s
    case BufferOp(n, buf) => if Hit(s, n) then s.(items := s.items[n := InBuffer(s.items[n], buf)]) else s
    case LockOp(n) => if n in s.items then s.(items := s.items[n := Locked(s.items[n])]) else s
    case UnlockOp(n) => if n in s.items then Released1(s, n) else s
  }

  lemma StepInv(s: Store, op: Op)
    requires StoreInv(s)
    ensures StoreInv(Step(s, op))
  {
    if op.LookupOp? || op.UnlockOp? {
      WithoutDistinct(s.recent, op.n);
    }
    if op.DataOp? && op.n in s.items && s.items[op.n].Pending? {
      StoredInv(s, op.n, op.buf);
    }
    if op.CacheOp? && op.n !in s.items {
      StoredInv(Requested(s, op.n, op.expire), op.n, op.buf);
    }
  }

  lemma StoredInv(s: Store, n: Name, buf: nat)
    requires StoreInv(s) && n in s.items && s.items[n].Pending?
    ensures Oldest(s, n) in s.items && StoreInv(Stored(s, n, buf))
  {
    assert s.recent != [] ==> s.recent[|s.recent| - 1] in s.recent;
    var s1 := s.(items := s.items[n := AsCached(s.items[n], buf)], recent := [n] + s.recent);
    assert n !in s.recent;
    assert StoreInv(s1);
    WithoutDistinct(s1.recent, Oldest(s, n));
  }

  /** A lock that is taken and given back leaves the store as it was. */
  lemma UnlockUndoesLock(s: Store, n: Name)
    requires StoreInv(s)
    ensures StoreInv(Step(s, LockOp(n))) && Step(Step(s, LockOp(n)), UnlockOp(n)) == s
  {
    StepInv(s, LockOp(n));
    if n in s.items {
      assert Released(Locked(s.items[n])) == s.items[n];
      assert s.items[n := Locked(s.items[n])][n := s.items[n]] == s.items;
    }
  }

  // ---- runs ----

  function Run(s: Store, ops: seq<Op>): (r: Store)
    requires StoreInv(s)
    ensures StoreInv(r)
    decreases |ops|
  {
    if ops == [] then s
    else
      var before := Run(s, ops[..|ops| - 1]);
      StepInv(before, ops[|ops| - 1]);
      Step(before, ops[|ops| - 1])
  }

  /** The names used along a run, oldest first: cached names looked up, and names whose data was stored. */
  function Uses(s: Store, ops: seq<Op>): (r: seq<Name>)
    requires StoreInv(s)
    decreases |ops|
  {
    if ops == [] then []
    else
      var before := Run(s, ops[..|ops| - 1]);
      Uses(s, ops[..|ops| - 1]) + UseOf(before, ops[|ops| - 1])
  }

  function UseOf(s: Store, op: Op): (r: seq<Name>) {
    if op.LookupOp? && Hit(s, op.n) then [op.n]
    else if op.DataOp? && op.n in s.items && s.items[op.n].Pending? then [op.n]
    else if op.CacheOp? && op.n !in s.items then [op.n]
    else []
  }

  /** Position of the last use of `n`, -1 if it was never used. */
  function LastUse(uses: seq<Name>, n: Name): (k: int)
    ensures -1 <= k < |uses| && (k >= 0 ==> uses[k] == n) && (k < 0 <==> n !in uses)
  {
    if uses == [] then -1
    else if uses[|uses| - 1] == n then |uses| - 1
    else LastUse(uses[..|uses| - 1], n)
  }

  /** Each name was last used after all the names behind it. */
  ghost predicate ByRecency(recent: seq<Name>, uses: seq<Name>) {
    recent != [] ==>
      && LastUse(uses, recent[0]) >= 0
      && (forall x :: x in recent[1..] ==> LastUse(uses, x) < LastUse(uses, recent[0]))
      && ByRecency(recent[1..], uses)
  }

  lemma {:induction false} DropKeepsOrder(recent: seq<Name>, uses: seq<Name>, n: Name)
    requires ByRecency(recent, uses)
    ensures ByRecency(Without(recent, n), uses)
  {
    if recent != [] {
      DropKeepsOrder(recent[1..], uses, n);
      var r := Without(recent, n);
      if recent[0] != n {
        assert r == [recent[0]] + Without(recent[1..], n);
        assert r[1..] == Without(recent[1..], n);
      }
    }
  }

  lemma LastUseAppend(uses: seq<Name>, u: Name, n: Name)
    ensures LastUse(uses + [u], n) == if n == u then |uses| else LastUse(uses, n)
  {
    assert (uses + [u])[..|uses|] == uses;
  }

  /** A use of a name outside the list does not disturb its order. */
  lemma {:induction false} OtherUseKeepsOrder(recent: seq<Name>, uses: seq<Name>, n: Name)
    requires ByRecency(recent, uses) && n !in recent
    ensures ByRecency(recent, uses + [n])
  {
    if recent != [] {
      OtherUseKeepsOrder(recent[1..], uses, n);
      LastUseAppend(uses, n, recent[0]);
      forall x | x in recent[1..]
        ensures LastUse(uses + [n], x) < LastUse(uses + [n], recent[0])
      {
        LastUseAppend(uses, n, x);
      }
    }
  }

  /** Putting the name just used in front keeps the list ordered by last use. */
  lemma UseKeepsOrder(recent: seq<Name>, uses: seq<Name>, n: Name)
    requires ByRecency(recent, uses)
    ensures ByRecency([n] + Without(recent, n), uses + [n])
  {
    DropKeepsOrder(recent, uses, n);
    var rest := Without(recent, n);
    OtherUseKeepsOrder(rest, uses, n);
    LastUseAppend(uses, n, n);
    assert ([n] + rest)[1..] == rest;
    forall x | x in rest
      ensures LastUse(uses + [n], x) < |uses|
    {
      LastUseAppend(uses, n, x);
    }
  }

  lemma StoreKeepsOrder(s: Store, n: Name, buf: nat, uses: seq<Name>)
    requires StoreInv(s) && n in s.items && s.items[n].Pending? && Oldest(s, n) in s.items
    requires ByRecency(s.recent, uses)
    ensures ByRecency(Stored(s, n, buf).recent, uses + [n])
  {
    assert n !in s.recent;
    FreshUseKeepsOrder(s.recent, uses, n, Oldest(s, n));
  }

  lemma FreshUseKeepsOrder(recent: seq<Name>, uses: seq<Name>, n: Name, v: Name)
    requires ByRecency(recent, uses) && n !in recent
    ensures ByRecency([n] + recent, uses + [n]) && ByRecency(Without([n] + recent, v), uses + [n])
  {
    UseKeepsOrder(recent, uses, n);
    DropKeepsOrder([n] + recent, uses + [n], v);
  }

  lemma StepKeepsOrder(s: Store, op: Op, uses: seq<Name>)
    requires StoreInv(s) && ByRecency(s.recent, uses)
    ensures ByRecency(Step(s, op).recent, uses + UseOf(s, op))
  {
    assert uses + [] == uses;
    match op {
      case LookupOp(n) =>
        if Hit(s, n) { UseKeepsOrder(s.recent, uses, n); }
      case DataOp(n, buf) =>
        if n in s.items && s.items[n].Pending? {
          StoreKeepsOrder(s, n, buf, uses);
        }
      case CacheOp(n, t, buf) =>
        if n !in s.items {
          StoredInv(Requested(s, n, t), n, buf);
          StoreKeepsOrder(Requested(s, n, t), n, buf, uses);
        }
      case UnlockOp(n) => DropKeepsOrder(s.recent, uses, n);
      case _ =>
    }
  }

  /** In every reachable state the chain is ordered by last use. */
  lemma {:induction false} RunOrderedByUse(max: nat, ops: seq<Op>)
    ensures ByRecency(Run(Store(map[], [], max), ops).recent, Uses(Store(map[], [], max), ops))
  {
    var s := Store(map[], [], max);
    if ops != [] {
      RunOrderedByUse(max, ops[..|ops| - 1]);
      StepKeepsOrder(Run(s, ops[..|ops| - 1]), ops[|ops| - 1], Uses(s, ops[..|ops| - 1]));
    }
  }

  /** The last of an ordered list was used before all the others. */
  lemma {:induction false} LastIsOldest(recent: seq<Name>, uses: seq<Name>, x: Name)
    requires ByRecency(recent, uses) && x in recent
    ensures x == recent[|recent| - 1] || LastUse(uses, recent[|recent| - 1]) < LastUse(uses, x)
  {
    if |recent| > 1 {
      if x == recent[0] {
        assert recent[|recent| - 1] in recent[1..];
      } else {
        LastIsOldest(recent[1..], uses, x);
      }
    }
  }

  // ---- capacity and eviction ----

  /** One insertion respects the capacity exactly if there was room or nobody else locks the oldest entry. */
  lemma InsertFits(s: Store, n: Name, buf: nat)
    requires StoreInv(s) && n in s.items && s.items[n].Pending? && |s.recent| <= s.max
    ensures Oldest(s, n) in s.items
    ensures |Stored(s, n, buf).recent| <= s.max <==> |s.recent| < s.max || s.items[Oldest(s, n)].locks == 1
  {
    assert s.recent != [] ==> s.recent[|s.recent| - 1] in s.recent;
    assert n !in s.recent;
    WithoutDistinct([n] + s.recent, Oldest(s, n));
  }

  ghost predicate SingleLocks(s: Store) {
    forall n :: n in s.items ==> s.items[n].locks == 1
  }

  lemma StoredFits(s: Store, n: Name, buf: nat)
    requires StoreInv(s) && SingleLocks(s) && n in s.items && s.items[n].Pending? && |s.recent| <= s.max
    ensures Oldest(s, n) in s.items
    ensures var r := Stored(s, n, buf); SingleLocks(r) && |r.recent| <= s.max && r.max == s.max
  {
    InsertFits(s, n, buf);
  }

  lemma StepFits(s: Store, op: Op)
    requires StoreInv(s) && SingleLocks(s) && |s.recent| <= s.max && !op.LockOp?
    ensures SingleLocks(Step(s, op)) && |Step(s, op).recent| <= s.max && Step(s, op).max == s.max
  {
    match op {
      case DataOp(n, buf) =>
        if n in s.items && s.items[n].Pending? { StoredFits(s, n, buf); }
      case CacheOp(n, t, buf) =>
        if n !in s.items { StoredFits(Requested(s, n, t), n, buf); }
      case LookupOp(n) => WithoutDistinct(s.recent, n);
      case _ =>
    }
  }

  /** Without extra locks the cache never holds more than `max` names, whatever the run. */
  lemma {:induction false} RunFits(max: nat, ops: seq<Op>)
    requires forall op :: op in ops ==> !op.LockOp?
    ensures var s := Run(Store(map[], [], max), ops); |s.recent| <= max && s.max == max && SingleLocks(s)
  {
    if ops != [] {
      RunFits(max, ops[..|ops| - 1]);
      StepFits(Run(Store(map[], [], max), ops[..|ops| - 1]), ops[|ops| - 1]);
    }
  }

  lemma EvictsOne(s: Store, n: Name, buf: nat)
    requires StoreInv(s) && SingleLocks(s) && n in s.items && s.items[n].Pending? && |s.recent| == s.max
    ensures Step(s, DataOp(n, buf)).items == s.items[n := AsCached(s.items[n], buf)] - {Oldest(s, n)}
    ensures Oldest(s, n) == n <==> s.max == 0
  {
    assert s.recent != [] ==> s.recent[|s.recent| - 1] in s.recent;
    assert n !in s.recent;
  }

  /**
   After any run, storing data in a full cache removes exactly one name: the one
   whose last use is the oldest. It is the name being stored only if the
   capacity is zero.
   */
  lemma OverflowEvictsOldest(max: nat, ops: seq<Op>, n: Name, buf: nat)
    requires forall op :: op in ops ==> !op.LockOp?
    requires var s := Run(Store(map[], [], max), ops);
      n in s.items && s.items[n].Pending? && |s.recent| == max
    ensures
      var s0 := Store(map[], [], max);
      var s, uses := Run(s0, ops), Uses(s0, ops);
      var v := Oldest(s, n);
      && Step(s, DataOp(n, buf)).items == s.items[n := AsCached(s.items[n], buf)] - {v}
      && (v == n <==> max == 0)
      && (forall c :: Hit(s, c) && c != v ==> LastUse(uses, v) < LastUse(uses, c))
  {
    var s0 := Store(map[], [], max);
    var s, uses := Run(s0, ops), Uses(s0, ops);
    RunFits(max, ops);
    RunOrderedByUse(max, ops);
    EvictsOne(s, n, buf);
    forall c | Hit(s, c) && c != Oldest(s, n)
      ensures LastUse(uses, Oldest(s, n)) < LastUse(uses, c)
    {
      LastIsOldest(s.recent, uses, c);
    }
  }

  // ---- the PIT/CS refines the store ----

  ghost function NamesOf(pool: map<nat, Item>, s: seq<nat>): (r: seq<Name>)
    requires forall i :: i in s ==> i in pool
    ensures |r| == |s|
    ensures s != [] ==> r[|s| - 1] == pool[s[|s| - 1]].name
  {
    if s == [] then [] else [pool[s[0]].name] + NamesOf(pool, s[1..])
  }

  ghost function Abs(m: Pcs): (s: Store)
    requires Inv(m)
  {
    Store(Contents(m), NamesOf(m.pool, m.lru), m.max)
  }

  ghost function Contents(m: Pcs): (r: map<Name, Item>)
    requires Indexed(m)
  {
    map n | n in m.table :: m.pool[m.table[n]]
  }

  /** A CS entry allocated at `i`, filled, and inserted under `n`. */
  ghost predicate CsInserted(m: Pcs, i: nat, n: Name, t: real, buf: nat, m2: Pcs)
    requires Inv(m) && i !in m.pool && n !in m.table
  {
    var item := Cached(n, 1, t, buf);
    AllocInv(m, i, item);
    CsInsertInv(Alloc(m, i, item), i, n);
    m2 == CsInsert(Alloc(m, i, item), i, n)
  }

  /** Caching unrequested data is requesting it and storing it at once. */
  lemma CsInsertIsBoth(m: Pcs, i: nat, n: Name, t: real, buf: nat, m2: Pcs)
    requires Inv(m) && i !in m.pool && n !in m.table && CsInserted(m, i, n, t, buf, m2)
    ensures
      var m1 := NewEntry(m, i, n, t);
      Inv(m1) && n in m1.table && m1.table[n] == i && m1.pool[i].Pending? && Inserted(m1, Victim(m1, i)) && m2 == ToCs(m1, i, buf)
  {
    var m1, item := NewEntry(m, i, n, t), Cached(n, 1, t, buf);
    NewEntryRefines(m, i, n, t);
    ToCsInv(m1, i, buf);
    assert Converted(m1, i, buf).pool == Insert(Alloc(m, i, item), i, n).pool;
    assert Converted(m1, i, buf) == Insert(Alloc(m, i, item), i, n);
  }

  lemma CacheRefines(m: Pcs, i: nat, n: Name, t: real, buf: nat, m2: Pcs)
    requires Inv(m) && i !in m.pool && n !in m.table && CsInserted(m, i, n, t, buf, m2)
    ensures Inv(m2) && StoreInv(Abs(m)) && Abs(m2) == Step(Abs(m), CacheOp(n, t, buf))
  {
    AbsInv(m);
    NewEntryRefines(m, i, n, t);
    CsInsertIsBoth(m, i, n, t, buf, m2);
    ToCsRefines(NewEntry(m, i, n, t), n, buf);
    CacheIsBoth(Abs(m), n, t, buf);
  }

  lemma CacheIsBoth(s: Store, n: Name, t: real, buf: nat)
    requires StoreInv(s) && n !in s.items
    ensures Oldest(Requested(s, n, t), n) in Requested(s, n, t).items
    ensures Step(s, CacheOp(n, t, buf)) == Stored(Requested(s, n, t), n, buf)
  {
    assert s.recent != [] ==> s.recent[|s.recent| - 1] in s.recent;
  }

  /** `m2` is what the PIT/CS may become by `op` in `m`; a new entry may take any free index. */
  ghost predicate Next(m: Pcs, op: Op, m2: Pcs)
    requires Inv(m)
  {
    match op
    case LookupOp(n) => m2 == Lookup(m, n)
    case InterestOp(n, t) =>
      if n in m.table then m2 == m
      else exists i: nat :: i !in m.pool && m2 == NewEntry(m, i, n, t)
    case FaceOp(n, f) =>
      if n in m.table && m.pool[m.table[n]].Pending? then m2 == AddFace(m, m.table[n], f) else m2 == m
    case DataOp(n, buf) =>
      if n in m.table && m.pool[m.table[n]].Pending? then
        assert m.lru != [] ==> m.lru[|m.lru| - 1] in m.lru;
        m2 == ToCs(m, m.table[n], buf)
      else m2 == m
    case CacheOp(n, t, buf) =>
      if n in m.table then m2 == m
      else exists i: nat :: i !in m.pool && CsInserted(m, i, n, t, buf, m2)
    case ExpireOp(n, t) => if n in m.table then m2 == SetExpire(m, m.table[n], t) else m2 == m
    case BufferOp(n, buf) =>
      if n in m.table && m.pool[m.table[n]].Cached?
      then m2 == m.(pool := m.pool[m.table[n] := InBuffer(m.pool[m.table[n]], buf)]) else m2 == m
    case LockOp(n) =>
      if n in m.table then m2 == m.(pool := m.pool[m.table[n] := Locked(m.pool[m.table[n]])]) else m2 == m
    case UnlockOp(n) => if n in m.table then m2 == Unlock(m, m.table[n]) else m2 == m
  }

  lemma {:induction false} NamesOfSame(p: map<nat, Item>, q: map<nat, Item>, s: seq<nat>)
    requires forall i :: i in s ==> i in p && i in q && p[i].name == q[i].name
    ensures NamesOf(p, s) == NamesOf(q, s)
  {
    if s != [] { NamesOfSame(p, q, s[1..]); }
  }

  lemma {:induction false} NamesOfWithout(p: map<nat, Item>, s: seq<nat>, i: nat)
    requires i in p && forall j :: j in s ==> j in p && (p[j].name == p[i].name ==> j == i)
    ensures NamesOf(p, Without(s, i)) == Without(NamesOf(p, s), p[i].name)
  {
    if s != [] {
      NamesOfWithout(p, s[1..], i);
      if s[0] != i {
        assert Without(s, i)[1..] == Without(s[1..], i);
      }
      assert NamesOf(p, s)[1..] == NamesOf(p, s[1..]);
    }
  }

  lemma {:induction false} NamesOfMember(p: map<nat, Item>, s: seq<nat>, x: Name)
    requires forall i :: i in s ==> i in p
    ensures x in NamesOf(p, s) <==> exists i :: i in s && p[i].name == x
  {
    if s != [] { NamesOfMember(p, s[1..], x); }
  }

  lemma {:induction false} NamesOfDistinct(p: map<nat, Item>, s: seq<nat>)
    requires Distinct(s)
    requires forall i :: i in s ==> i in p
    requires forall i, j :: i in s && j in s && p[i].name == p[j].name ==> i == j
    ensures Distinct(NamesOf(p, s))
  {
    if s != [] {
      NamesOfDistinct(p, s[1..]);
      NamesOfMember(p, s[1..], p[s[0]].name);
      assert s[0] !in s[1..];
    }
  }

  lemma AbsInv(m: Pcs)
    requires Inv(m)
    ensures StoreInv(Abs(m))
  {
    NamesOfDistinct(m.pool, m.lru);
    forall n
      ensures n in Abs(m).recent <==> n in m.table && m.pool[m.table[n]].Cached?
    {
      NamesOfMember(m.pool, m.lru, n);
    }
  }

  lemma UpdateRefines(m: Pcs, n: Name, item: Item)
    requires Inv(m) && n in m.table && item.name == n && item.locks > 0
    requires item.Pending? == m.pool[m.table[n]].Pending?
    ensures var r := m.(pool := m.pool[m.table[n] := item]);
      Inv(r) && Abs(r) == Abs(m).(items := Abs(m).items[n := item])
  {
    var r := m.(pool := m.pool[m.table[n] := item]);
    UpdateInv(m, m.table[n], item);
    NamesOfSame(m.pool, r.pool, m.lru);
    assert Abs(r).items == Abs(m).items[n := item];
  }

  lemma LookupRefines(m: Pcs, n: Name)
    requires Inv(m)
    ensures Inv(Lookup(m, n)) && StoreInv(Abs(m)) && Abs(Lookup(m, n)) == Step(Abs(m), LookupOp(n))
  {
    AbsInv(m);
    if n in m.table && m.pool[m.table[n]].Cached? { TouchRefines(m, n); }
  }

  lemma TouchRefines(m: Pcs, n: Name)
    requires Inv(m) && n in m.table && m.pool[m.table[n]].Cached?
    ensures var r := Touch(m, m.table[n]);
      Inv(r) && Abs(r) == Abs(m).(recent := [n] + Without(Abs(m).recent, n))
  {
    TouchInv(m, m.table[n]);
    TouchNames(m, n);
    assert Contents(Touch(m, m.table[n])) == Contents(m);
  }

  lemma TouchNames(m: Pcs, n: Name)
    requires Inv(m) && n in m.table && Inv(Touch(m, m.table[n]))
    ensures NamesOf(m.pool, Touch(m, m.table[n]).lru) == [n] + Without(NamesOf(m.pool, m.lru), n)
  {
    NamesOfWithout(m.pool, m.lru, m.table[n]);
    assert Touch(m, m.table[n]).lru[1..] == Without(m.lru, m.table[n]);
  }

  lemma NewEntryContents(m: Pcs, i: nat, n: Name, t: real)
    requires Indexed(m) && i !in m.pool && n !in m.table
    ensures Indexed(NewEntry(m, i, n, t))
    ensures Contents(NewEntry(m, i, n, t)) == Contents(m)[n := Pending(n, 1, t, [])]
  {
    var r := NewEntry(m, i, n, t);
    assert forall x :: x in m.table ==> r.table[x] == m.table[x] && r.pool[m.table[x]] == m.pool[m.table[x]];
  }

  lemma NewEntryRefines(m: Pcs, i: nat, n: Name, t: real)
    requires Inv(m) && i !in m.pool && n !in m.table
    ensures Inv(NewEntry(m, i, n, t))
    ensures Abs(NewEntry(m, i, n, t)) == Abs(m).(items := Abs(m).items[n := Pending(n, 1, t, [])])
  {
    NewEntryContents(m, i, n, t);
    AllocInv(m, i, Pending(n, 1, t, []));
    PitInsertInv(Alloc(m, i, Pending(n, 1, t, [])), i, n);
    NamesOfSame(m.pool, NewEntry(m, i, n, t).pool, m.lru);
  }

  lemma RemoveContents(m: Pcs, n: Name)
    requires Indexed(m) && n in m.table
    ensures Indexed(Remove(m, m.table[n])) && Contents(Remove(m, m.table[n])) == Contents(m) - {n}
  {
    var r := Remove(m, m.table[n]);
    assert forall x :: x in r.table ==> r.pool[r.table[x]] == m.pool[m.table[x]];
  }

  lemma RemoveNames(m: Pcs, n: Name)
    requires Inv(m) && n in m.table && Inv(Remove(m, m.table[n]))
    ensures var r := Remove(m, m.table[n]); NamesOf(r.pool, r.lru) == Without(NamesOf(m.pool, m.lru), n)
  {
    var r := Remove(m, m.table[n]);
    NamesOfWithout(m.pool, m.lru, m.table[n]);
    NamesOfSame(m.pool, r.pool, r.lru);
  }

  lemma RemoveRefines(m: Pcs, n: Name)
    requires Inv(m) && n in m.table
    ensures Inv(Remove(m, m.table[n]))
    ensures Abs(Remove(m, m.table[n])) == Abs(m).(items := Abs(m).items - {n}, recent := Without(Abs(m).recent, n))
  {
    RemoveInv(m, m.table[n]);
    RemoveContents(m, n);
    RemoveNames(m, n);
  }

  lemma UnlockRefines(m: Pcs, n: Name)
    requires Inv(m) && n in m.table
    ensures Inv(Unlock(m, m.table[n])) && n in Abs(m).items && Abs(Unlock(m, m.table[n])) == Released1(Abs(m), n)
  {
    if m.pool[m.table[n]].locks == 1 {
      RemoveRefines(m, n);
    } else {
      UpdateRefines(m, n, Released(m.pool[m.table[n]]));
    }
  }

  lemma ConvertContents(m: Pcs, n: Name, buf: nat)
    requires Indexed(m) && n in m.table
    ensures var r := Converted(m, m.table[n], buf);
      Indexed(r) && Contents(r) == Contents(m)[n := AsCached(m.pool[m.table[n]], buf)]
  {
    var r := Converted(m, m.table[n], buf);
    assert forall x :: x in r.table && x != n ==> r.pool[r.table[x]] == m.pool[m.table[x]];
  }

  /** The conversion before any eviction. */
  lemma ConvertRefines(m: Pcs, n: Name, buf: nat)
    requires Inv(m) && n in m.table && m.pool[m.table[n]].Pending?
    ensures
      var i := m.table[n];
      var m1 := Converted(m, i, buf).(lru := [i] + m.lru);
      && Inv(m1)
      && Abs(m1) == Abs(m).(items := Abs(m).items[n := AsCached(m.pool[i], buf)], recent := [n] + Abs(m).recent)
  {
    var i := m.table[n];
    ConvertInvBut(m, i, buf);
    ChainedInv(Converted(m, i, buf), i);
    var m1 := Converted(m, i, buf).(lru := [i] + m.lru);
    NamesOfSame(m.pool, m1.pool, m.lru);
    assert m1.lru[1..] == m.lru;
    ConvertContents(m, n, buf);
    assert Contents(m1) == Contents(Converted(m, i, buf));
  }

  lemma ToCsRefines(m: Pcs, n: Name, buf: nat)
    requires Inv(m) && n in m.table && m.pool[m.table[n]].Pending?
    ensures Inserted(m, Victim(m, m.table[n])) && Oldest(Abs(m), n) in Abs(m).items
    ensures Inv(ToCs(m, m.table[n], buf)) && Abs(ToCs(m, m.table[n], buf)) == Stored(Abs(m), n, buf)
  {
    var i := m.table[n];
    ToCsInv(m, i, buf);
    ConvertRefines(m, n, buf);
    var m1 := Converted(m, i, buf).(lru := [i] + m.lru);
    var v := Victim(m, i);
    assert m1.table[m1.pool[v].name] == v && m1.pool[v].name == Oldest(Abs(m), n);
    UnlockRefines(m1, m1.pool[v].name);
  }

  /** Every operation of the PIT/CS does to its contents what the store operation does. */
  lemma StepRefines(m: Pcs, op: Op, m2: Pcs)
    requires Inv(m) && Next(m, op, m2)
    ensures Inv(m2) && StoreInv(Abs(m)) && Abs(m2) == Step(Abs(m), op)
  {
    AbsInv(m);
    match op {
      case LookupOp(n) => LookupRefines(m, n);
      case InterestOp(n, t) =>
        if n !in m.table {
          var i: nat :| i !in m.pool && m2 == NewEntry(m, i, n, t);
          NewEntryRefines(m, i, n, t);
        }
      case FaceOp(n, f) =>
        if n in m.table && m.pool[m.table[n]].Pending? { UpdateRefines(m, n, WithFace(m.pool[m.table[n]], f)); }
      case DataOp(n, buf) =>
        if n in m.table && m.pool[m.table[n]].Pending? { ToCsRefines(m, n, buf); }
      case CacheOp(n, t, buf) =>
        if n !in m.table {
          var i: nat :| i !in m.pool && CsInserted(m, i, n, t, buf, m2);
          CacheRefines(m, i, n, t, buf, m2);
        }
      case ExpireOp(n, t) =>
        if n in m.table { UpdateRefines(m, n, Expiring(m.pool[m.table[n]], t)); }
      case BufferOp(n, buf) =>
        if n in m.table && m.pool[m.table[n]].Cached? { UpdateRefines(m, n, InBuffer(m.pool[m.table[n]], buf)); }
      case LockOp(n) =>
        if n in m.table { UpdateRefines(m, n, Locked(m.pool[m.table[n]])); }
      case UnlockOp(n) =>
        if n in m.table { UnlockRefines(m, n); }
    }
  }

  /** Every entry of the pool is the entry of its name. */
  ghost predicate AllInserted(m: Pcs) {
    forall i :: i in m.pool ==> Inserted(m, i)
  }

  lemma UnlockInserted(m: Pcs, i: nat)
    requires Inv(m) && AllInserted(m) && i in m.pool && m.pool[i].locks > 0
    ensures AllInserted(Unlock(m, i))
  {
    forall j | j in Unlock(m, i).pool
      ensures Inserted(Unlock(m, i), j)
    {
      assert Inserted(m, i) && Inserted(m, j);
    }
  }

  lemma ToCsInserted(m: Pcs, i: nat, buf: nat)
    requires Inv(m) && AllInserted(m) && i in m.pool && m.pool[i].Pending?
    ensures Inserted(m, Victim(m, i)) && AllInserted(ToCs(m, i, buf))
  {
    assert Inserted(m, i);
    ToCsInv(m, i, buf);
    ConvertInvBut(m, i, buf);
    ChainedInv(Converted(m, i, buf), i);
    var m1 := Converted(m, i, buf).(lru := [i] + m.lru);
    forall j | j in m1.pool
      ensures Inserted(m1, j)
    {
      assert Inserted(m, j);
    }
    UnlockInserted(m1, Victim(m, i));
  }

  lemma NewEntryInserted(m: Pcs, i: nat, n: Name, t: real)
    requires Inv(m) && AllInserted(m) && i !in m.pool && n !in m.table
    ensures AllInserted(NewEntry(m, i, n, t))
  {
    forall j | j in NewEntry(m, i, n, t).pool
      ensures Inserted(NewEntry(m, i, n, t), j)
    {
      if j != i { assert Inserted(m, j); }
    }
  }

  lemma NextInserted(m: Pcs, op: Op, m2: Pcs)
    requires Inv(m) && AllInserted(m) && Next(m, op, m2)
    ensures AllInserted(m2)
  {
    match op {
      case InterestOp(n, t) =>
        if n !in m.table {
          var i: nat :| i !in m.pool && m2 == NewEntry(m, i, n, t);
          NewEntryInserted(m, i, n, t);
        }
      case DataOp(n, buf) =>
        if n in m.table && m.pool[m.table[n]].Pending? { ToCsInserted(m, m.table[n], buf); }
      case CacheOp(n, t, buf) =>
        if n !in m.table {
          var i: nat :| i !in m.pool && CsInserted(m, i, n, t, buf, m2);
          CsInsertIsBoth(m, i, n, t, buf, m2);
          NewEntryInserted(m, i, n, t);
          ToCsInserted(NewEntry(m, i, n, t), i, buf);
        }
      case UnlockOp(n) =>
        if n in m.table { UnlockInserted(m, m.table[n]); }
      case _ => SameNames(m, m2);
    }
  }

  lemma SameNames(m: Pcs, m2: Pcs)
    requires AllInserted(m) && m2.table == m.table && m2.pool.Keys == m.pool.Keys
    requires forall i :: i in m.pool ==> m2.pool[i].name == m.pool[i].name
    ensures AllInserted(m2)
  {
    forall i | i in m2.pool
      ensures Inserted(m2, i)
    {
      assert Inserted(m, i);
    }
  }

  /** A run of the PIT/CS from its creation, the indices of new entries chosen freely. */
  ghost predicate PcsRun(ms: seq<Pcs>, ops: seq<Op>, max: nat) {
    && |ms| == |ops| + 1
    && ms[0] == Empty(max)
    && forall k :: 0 <= k < |ops| && Inv(ms[k]) ==> Next(ms[k], ops[k], ms[k + 1])
  }

  lemma RunPrefix(ms: seq<Pcs>, ops: seq<Op>, max: nat)
    requires PcsRun(ms, ops, max) && ops != []
    ensures PcsRun(ms[..|ops|], ops[..|ops| - 1], max)
  {
    var ps, qs := ms[..|ops|], ops[..|ops| - 1];
    forall k | 0 <= k < |qs| && Inv(ps[k])
      ensures Next(ps[k], qs[k], ps[k + 1])
    {
      assert ps[k] == ms[k] && qs[k] == ops[k] && ps[k + 1] == ms[k + 1];
    }
  }

  /** After every run the PIT/CS satisfies its invariant, its pool has no entry outside the table, and it holds exactly what the store holds. */
  lemma {:induction false} RunRefines(ms: seq<Pcs>, ops: seq<Op>, max: nat)
    requires PcsRun(ms, ops, max)
    ensures Inv(ms[|ops|]) && AllInserted(ms[|ops|]) && Abs(ms[|ops|]) == Run(Store(map[], [], max), ops)
    decreases |ops|
  {
    if ops == [] {
      assert Abs(ms[0]) == Store(map[], [], max);
    } else {
      var k := |ops| - 1;
      RunPrefix(ms, ops, max);
      RunRefines(ms[..|ops|], ops[..k], max);
      StepRefines(ms[k], ops[k], ms[k + 1]);
      NextInserted(ms[k], ops[k], ms[k + 1]);
    }
  }

  /** A cache of capacity zero evicts the data it just stored. */
  lemma CapacityZeroKeepsNothing(n: Name, t: real, buf: nat)
    ensures Run(Store(map[], [], 0), [InterestOp(n, t), DataOp(n, buf)]) == Store(map[], [], 0)
  {
    var s, ops := Store(map[], [], 0), [InterestOp(n, t), DataOp(n, buf)];
    assert ops[..1] == [InterestOp(n, t)] && ops[..1][..0] == [];
    assert Run(s, ops[..1]) == Requested(s, n, t);
    assert Requested(s, n, t).items[n := AsCached(Pending(n, 1, t, []), buf)] - {n} == map[];
    assert Without([n], n) == [];
  }
}
