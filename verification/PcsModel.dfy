/**
 The PIT/CS as a value: the hash table, the pool of entries without their LRU
 links, and the LRU order as a sequence, most recent first. Every operation of
 the `PitCs` class is specified by a function of this module.
 */
module PcsModel {
  import opened Types
  import opened Seqs

  datatype Name = Name(prefix0: nat, prefix1: nat, suffix: nat)

  /** A pool element: either a PIT entry or a CS entry, never both. */
  datatype Item =
    | Pending(name: Name, locks: nat, expire: real, faces: seq<FaceId>)
    | Cached(name: Name, locks: nat, expire: real, buf: nat)

  datatype Pcs = Pcs(table: map<Name, nat>, pool: map<nat, Item>, lru: seq<nat>, max: nat)

  datatype Option<+T> = None | Some(value: T)

  ghost predicate Inserted(m: Pcs, i: nat) {
    i in m.pool && m.pool[i].name in m.table && m.table[m.pool[i].name] == i
  }

  /** Every name of the table leads to a pool entry of that name that somebody holds a lock on. */
  ghost predicate Indexed(m: Pcs) {
    forall n :: n in m.table ==> m.table[n] in m.pool && m.pool[m.table[n]].name == n && m.pool[m.table[n]].locks > 0
  }

  /** The chain lists, once each, the inserted CS entries other than those of `out`. */
  ghost predicate Chained(m: Pcs, out: set<nat>) {
    && Distinct(m.lru)
    && (forall i :: i in m.lru ==> i !in out && Inserted(m, i) && m.pool[i].Cached?)
    && (forall n :: n in m.table && m.table[n] in m.pool && m.pool[m.table[n]].Cached? && m.table[n] !in out ==> m.table[n] in m.lru)
  }

  /** The hash table indexes the inserted entries by name; the LRU chain lists the inserted CS entries once each. */
  ghost predicate Inv(m: Pcs) {
    Indexed(m) && Chained(m, {})
  }

  function Empty(max: nat): (m: Pcs) {
    Pcs(map[], map[], [], max)
  }

  /** hicn_pcs_get_exp_time: seconds plus milliseconds. */
  function ExpTime(tnow: real, lifetimeMs: nat): (t: real) {
    tnow + lifetimeMs as real / 1000.0
  }

  // ---- operations ----

  function Touch(m: Pcs, i: nat): (r: Pcs) {
    m.(lru := [i] + Without(m.lru, i))
  }

  function Alloc(m: Pcs, i: nat, item: Item): (r: Pcs) {
    m.(pool := m.pool[i := item])
  }

  function Named(item: Item, n: Name): (r: Item) {
    item.(name := n)
  }

  function Insert(m: Pcs, i: nat, n: Name): (r: Pcs)
    requires i in m.pool
  {
    m.(table := m.table[n := i], pool := m.pool[i := Named(m.pool[i], n)])
  }

  /** A PIT entry allocated at `i` and inserted under `n`. */
  function NewEntry(m: Pcs, i: nat, n: Name, expire: real): (r: Pcs) {
    Insert(Alloc(m, i, Pending(n, 1, expire, [])), i, n)
  }

  function Remove(m: Pcs, i: nat): (r: Pcs)
    requires i in m.pool
  {
    m.(table := m.table - {m.pool[i].name}, pool := m.pool - {i}, lru := Without(m.lru, i))
  }

  function Released(item: Item): (r: Item)
    requires item.locks > 0
  {
    item.(locks := item.locks - 1)
  }

  function Locked(item: Item): (r: Item) {
    item.(locks := item.locks + 1)
  }

  function Expiring(item: Item, t: real): (r: Item) {
    item.(expire := t)
  }

  function WithFace(item: Item, f: FaceId): (r: Item)
    requires item.Pending?
  {
    item.(faces := item.faces + [f])
  }

  /** hicn_pcs_entry_cs_set_buffer */
  function InBuffer(item: Item, buf: nat): (r: Item)
    requires item.Cached?
  {
    item.(buf := buf)
  }

  function Unlock(m: Pcs, i: nat): (r: Pcs)
    requires i in m.pool && m.pool[i].locks > 0
  {
    if m.pool[i].locks == 1 then Remove(m, i)
    else m.(pool := m.pool[i := Released(m.pool[i])])
  }

  function Victim(m: Pcs, i: nat): (v: nat) {
    if m.lru == [] then i else m.lru[|m.lru| - 1]
  }

  /** Put `i` at the head of the chain and evict the tail when the chain has grown past `max`. */
  function InsertLru(m: Pcs, i: nat): (r: Pcs)
    requires Victim(m, i) in m.pool && m.pool[Victim(m, i)].locks > 0
  {
    var m1 := m.(lru := [i] + m.lru);
    if |m1.lru| > m.max then Unlock(m1, Victim(m, i)) else m1
  }

  function AsCached(item: Item, buf: nat): (r: Item) {
    Cached(item.name, item.locks, item.expire, buf)
  }

  function Converted(m: Pcs, i: nat, buf: nat): (r: Pcs)
    requires i in m.pool
  {
    m.(pool := m.pool[i := AsCached(m.pool[i], buf)])
  }

  function ToCs(m: Pcs, i: nat, buf: nat): (r: Pcs)
    requires i in m.pool && m.pool[i].locks > 0
    requires Victim(m, i) in m.pool && m.pool[Victim(m, i)].locks > 0
  {
    InsertLru(Converted(m, i, buf), i)
  }

  function SetExpire(m: Pcs, i: nat, t: real): (r: Pcs)
    requires i in m.pool
  {
    m.(pool := m.pool[i := Expiring(m.pool[i], t)])
  }

  function AddFace(m: Pcs, i: nat, f: FaceId): (r: Pcs)
    requires i in m.pool && m.pool[i].Pending?
  {
    m.(pool := m.pool[i := WithFace(m.pool[i], f)])
  }

  /** Lookup by name; a CS hit moves the entry to the head of the LRU chain. */
  function Lookup(m: Pcs, n: Name): (r: Pcs)
    requires Inv(m)
  {
    if n in m.table && m.pool[m.table[n]].Cached? then Touch(m, m.table[n]) else m
  }

  /** Insertion of a freshly allocated CS entry. */
  function CsInsert(m: Pcs, i: nat, n: Name): (r: Pcs)
    requires i in m.pool && m.pool[i].locks > 0
    requires Victim(m, i) in m.pool && m.pool[Victim(m, i)].locks > 0
  {
    InsertLru(Insert(m, i, n), i)
  }

  // ---- what every operation keeps ----

  /** Index `i` is allocated, and no name of the table leads to it. */
  ghost predicate Loose(m: Pcs, i: nat) {
    i in m.pool && m.pool[i].locks > 0 && forall n :: n in m.table ==> m.table[n] != i
  }

  /** `Inv`, but for the inserted CS entry `i`, which the chain does not hold yet. */
  ghost predicate InvBut(m: Pcs, i: nat) {
    Indexed(m) && Inserted(m, i) && m.pool[i].Cached? && Chained(m, {i})
  }

  ghost function PitNames(m: Pcs): set<Name>
    requires Indexed(m)
  {
    set n | n in m.table && m.pool[m.table[n]].Pending?
  }

  ghost function CsNames(m: Pcs): set<Name>
    requires Indexed(m)
  {
    set n | n in m.table && m.pool[m.table[n]].Cached?
  }

  /** The length of the LRU chain is the number of names answered from the cache. */
  lemma ChainCountsCache(m: Pcs)
    requires Inv(m)
    ensures |m.lru| == |CsNames(m)|
  {
    var names := seq(|m.lru|, k requires 0 <= k < |m.lru| => assert m.lru[k] in m.lru; m.pool[m.lru[k]].name);
    forall a, b | 0 <= a < b < |names|
      ensures names[a] != names[b]
    {
      assert m.lru[a] in m.lru && m.lru[b] in m.lru;
    }
    DistinctCard(names);
    forall n
      ensures n in CsNames(m) <==> n in names
    {
      if n in CsNames(m) {
        var k :| 0 <= k < |m.lru| && m.lru[k] == m.table[n];
        assert names[k] == n;
      }
      if n in names {
        var k :| 0 <= k < |names| && names[k] == n;
        assert m.lru[k] in m.lru;
      }
    }
    assert Elements(names) == CsNames(m);
  }

  lemma AllocInv(m: Pcs, i: nat, item: Item)
    requires Inv(m) && i !in m.pool && item.locks > 0
    ensures var r := Alloc(m, i, item); Inv(r) && Loose(r, i) && PitNames(r) == PitNames(m)
  {
  }

  lemma TouchInv(m: Pcs, i: nat)
    requires Inv(m) && i in m.lru
    ensures Inv(Touch(m, i)) && |Touch(m, i).lru| == |m.lru|
  {
    WithoutDistinct(m.lru, i);
  }

  lemma PitInsertInv(m: Pcs, i: nat, n: Name)
    requires Inv(m) && Loose(m, i) && n !in m.table && m.pool[i].Pending?
    ensures Inv(Insert(m, i, n)) && |PitNames(Insert(m, i, n))| == |PitNames(m)| + 1
  {
    PitInsertCounted(m, i, n);
    assert i !in m.lru;
  }

  lemma PitInsertCounted(m: Pcs, i: nat, n: Name)
    requires Indexed(m) && Loose(m, i) && n !in m.table && m.pool[i].Pending?
    ensures Indexed(Insert(m, i, n)) && |PitNames(Insert(m, i, n))| == |PitNames(m)| + 1
  {
    var r := Insert(m, i, n);
    assert forall x :: x in m.table ==> r.table[x] == m.table[x] && r.pool[r.table[x]] == m.pool[m.table[x]];
    assert PitNames(r) == PitNames(m) + {n};
  }

  lemma RemoveChained(m: Pcs, i: nat)
    requires Inv(m) && Inserted(m, i)
    ensures Inv(Remove(m, i))
    ensures |Remove(m, i).lru| == |m.lru| - (if m.pool[i].Cached? then 1 else 0)
  {
    WithoutDistinct(m.lru, i);
    assert m.pool[i].Pending? ==> i !in m.lru;
  }

  lemma RemoveInv(m: Pcs, i: nat)
    requires Inv(m) && Inserted(m, i)
    ensures Inv(Remove(m, i))
    ensures |PitNames(m)| == |PitNames(Remove(m, i))| + (if m.pool[i].Pending? then 1 else 0)
  {
    RemoveChained(m, i);
    RemoveCounted(m, i);
  }

  lemma RemoveCounted(m: Pcs, i: nat)
    requires Indexed(m) && Inserted(m, i)
    ensures Indexed(Remove(m, i))
    ensures |PitNames(m)| == |PitNames(Remove(m, i))| + (if m.pool[i].Pending? then 1 else 0)
  {
    var r := Remove(m, i);
    if m.pool[i].Pending? {
      assert PitNames(m) == PitNames(r) + {m.pool[i].name};
    } else {
      assert PitNames(m) == PitNames(r);
    }
  }

  /** Changing an inserted entry in place, its name and kind kept, keeps the invariant. */
  lemma UpdateInv(m: Pcs, i: nat, item: Item)
    requires Inv(m) && Inserted(m, i)
    requires item.name == m.pool[i].name && item.Pending? == m.pool[i].Pending? && item.locks > 0
    ensures var r := m.(pool := m.pool[i := item]);
      Inv(r) && PitNames(r) == PitNames(m) && CsNames(r) == CsNames(m)
  {
  }

  lemma UnlockInv(m: Pcs, i: nat)
    requires Inv(m) && Inserted(m, i)
    ensures Inv(Unlock(m, i))
    ensures m.pool[i].Cached? ==> |PitNames(Unlock(m, i))| == |PitNames(m)|
  {
    if m.pool[i].locks == 1 {
      RemoveInv(m, i);
    } else {
      UpdateInv(m, i, Released(m.pool[i]));
    }
  }

  lemma ChainedInv(m: Pcs, i: nat)
    requires InvBut(m, i)
    ensures Inv(m.(lru := [i] + m.lru))
    ensures Inserted(m, Victim(m, i)) && m.pool[Victim(m, i)].Cached?
    ensures Inserted(m.(lru := [i] + m.lru), Victim(m, i))
    ensures PitNames(m.(lru := [i] + m.lru)) == PitNames(m)
  {
    assert m.lru != [] ==> m.lru[|m.lru| - 1] in m.lru;
  }

  lemma InsertLruInv(m: Pcs, i: nat)
    requires InvBut(m, i)
    ensures Inserted(m, Victim(m, i))
    ensures Inv(InsertLru(m, i)) && |PitNames(InsertLru(m, i))| == |PitNames(m)|
  {
    ChainedInv(m, i);
    UnlockInv(m.(lru := [i] + m.lru), Victim(m, i));
  }

  lemma ConvertInvBut(m: Pcs, i: nat, buf: nat)
    requires Inv(m) && Inserted(m, i) && m.pool[i].Pending?
    ensures InvBut(Converted(m, i, buf), i) && |PitNames(Converted(m, i, buf))| == |PitNames(m)| - 1
  {
    var r := Converted(m, i, buf);
    assert i !in m.lru;
    assert PitNames(m) == PitNames(r) + {m.pool[i].name};
  }

  lemma ToCsInv(m: Pcs, i: nat, buf: nat)
    requires Inv(m) && Inserted(m, i) && m.pool[i].Pending?
    ensures Inserted(m, Victim(m, i))
    ensures Inv(ToCs(m, i, buf)) && |PitNames(ToCs(m, i, buf))| == |PitNames(m)| - 1
  {
    ConvertInvBut(m, i, buf);
    InsertLruInv(Converted(m, i, buf), i);
    assert m.lru != [] ==> m.lru[|m.lru| - 1] in m.lru;
  }

  lemma CsInsertedBut(m: Pcs, i: nat, n: Name)
    requires Inv(m) && Loose(m, i) && n !in m.table && m.pool[i].Cached?
    ensures InvBut(Insert(m, i, n), i) && PitNames(Insert(m, i, n)) == PitNames(m)
  {
    assert i !in m.lru;
  }

  lemma CsInsertInv(m: Pcs, i: nat, n: Name)
    requires Inv(m) && Loose(m, i) && n !in m.table && m.pool[i].Cached?
    ensures Victim(m, i) in m.pool && m.pool[Victim(m, i)].locks > 0
    ensures Inv(CsInsert(m, i, n)) && |PitNames(CsInsert(m, i, n))| == |PitNames(m)|
  {
    CsInsertedBut(m, i, n);
    InsertLruInv(Insert(m, i, n), i);
    assert m.lru != [] ==> m.lru[|m.lru| - 1] in m.lru;
  }
}
