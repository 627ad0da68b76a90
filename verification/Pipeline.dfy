/**
 The per-packet bodies of the graph nodes around the PIT/CS, as functions on
 its value: interest_pcslookup_node.c, interest_hitpit_node.c,
 interest_hitcs_node.c, data_pcslookup_node.c and data_fwd_node.c.
 A packet is looked up first; the index found travels with it to the next node.
 */
module Pipeline {
  import opened Types
  import opened Seqs
  import opened PcsModel
  import opened PcsStore
  import PitFaces

  const CS_LIFETIME_DFLT: nat := 300000
  const CS_LIFETIME_MAX: nat := 86400000

  /** Between packets every pool entry is in the table and carries one lock. */
  ghost predicate Settled(m: Pcs) {
    Inv(m) && forall i :: i in m.pool ==> Inserted(m, i) && m.pool[i].locks == 1
  }

  datatype Next = ToStrategy | ToHitPit(i: nat) | ToHitCs(i: nat) | ToDataFwd(i: nat) | Reply(buf: nat) | Dropped

  /**
   The index the pool may hand out to an interest: any that is free once the
   expired entry is gone, the one of that entry included.
   */
  ghost predicate Available(m: Pcs, n: Name, t: real, i: nat)
    requires Settled(m)
  {
    Fresh(m, n, t) ==> i !in Expunged(m, n).pool
  }

  /** interest_pcslookup: `i` is the index the pool hands out, `known` tells whether the DPO context exists. */
  function InterestLookup(m: Pcs, n: Name, f: FaceId, t: real, lifetime: nat, i: nat, known: bool): (r: (Pcs, Next))
    requires Settled(m) && Available(m, n, t, i)
  {
    var m1 := Lookup(m, n);
    if n in m.table then
      var k := m.table[n];
      if t > m.pool[k].expire then NewInterest(Unlock(m1, k), n, f, t, lifetime, i, known)
      else (m1, if !known then Dropped else if m.pool[k].Cached? then ToHitCs(k) else ToHitPit(k))
    else NewInterest(m1, n, f, t, lifetime, i, known)
  }

  function NewInterest(m: Pcs, n: Name, f: FaceId, t: real, lifetime: nat, i: nat, known: bool): (r: (Pcs, Next))
  {
    var m1 := NewEntry(m, i, n, ExpTime(t, lifetime));
    if known then (AddFace(m1, i, f), ToStrategy) else (Unlock(m1, i), Dropped)
  }

  /** interest_hitpit for an ordinary interest; an entry that turned into CS meanwhile sends it on to hitcs. */
  function HitPit(m: Pcs, i: nat, f: FaceId, force: bool): (r: (Pcs, Next))
    requires i in m.pool
  {
    if m.pool[i].Cached? then (m, ToHitCs(i))
    else
      var faces := m.pool[i].faces;
      (m.(pool := m.pool[i := m.pool[i].(faces := PitFaces.AfterHit(faces, f, force, false))]),
       if f in faces || force then ToStrategy else Dropped)
  }

  /** The low word of the bitmap of a face list, from bit `k` on; with `k == 0` all of it. */
  function BitmapWord(faces: seq<FaceId>, k: nat): (w: nat)
    decreases 32 - k
  {
    if k >= 32 then 0 else (if k in faces then 1 else 0) + 2 * BitmapWord(faces, k + 1)
  }

  /** What hicn_pcs_entry_cs_get_buffer reads: the buffer of a CS entry; in a PIT entry the bitmap is in its place. */
  function BufferOf(item: Item): (b: nat) {
    if item.Cached? then item.buf else BitmapWord(item.faces, 0)
  }

  /**
   interest_hitcs, which does not test the kind of the entry. `ret` is the buffer
   clone_from_cs leaves in the store. A PIT entry stays as it is: the word read
   from it is written back.
   */
  function HitCs(m: Pcs, i: nat, t: real, ret: nat): (r: (Pcs, Next))
    requires i in m.pool && m.pool[i].locks > 0
  {
    if t > m.pool[i].expire then (Unlock(m, i), ToStrategy)
    else (if m.pool[i].Cached? then m.(pool := m.pool[i := InBuffer(m.pool[i], ret)]) else m, Reply(BufferOf(m.pool[i])))
  }

  /** data_pcslookup; without a DPO context the packet keeps the index `stale` it carried before. */
  function DataLookup(m: Pcs, n: Name, known: bool, stale: nat): (r: (Pcs, Next))
    requires Inv(m)
  {
    if n !in m.table then (m, Dropped)
    else if !known then (Lookup(m, n), ToDataFwd(stale))
    else if m.pool[m.table[n]].Cached? then (Lookup(m, n), Dropped)
    else (m, ToDataFwd(m.table[n]))
  }

  function CsLifetime(lifetime: nat): (r: nat) {
    if lifetime > CS_LIFETIME_MAX then CS_LIFETIME_DFLT else lifetime
  }

  /** data_fwd: the new PIT/CS and the faces the data is sent to. */
  function DataFwd(m: Pcs, i: nat, t: real, lifetime: nat, buf: nat): (r: (Pcs, seq<FaceId>))
    requires Settled(m)
  {
    if i !in m.pool || m.pool[i].Cached? then (m, [])
    else if t > m.pool[i].expire || m.pool[i].faces == [] then (Unlock(m, i), [])
    else if lifetime == 0 then (Unlock(m, i), m.pool[i].faces)
    else (CloneToCs(m, i, t, lifetime, buf), m.pool[i].faces)
  }

  /** clone_data_to_cs; with a cache of size zero the entry is gone before its expiry is written. */
  function CloneToCs(m: Pcs, i: nat, t: real, lifetime: nat, buf: nat): (r: Pcs)
    requires Settled(m) && i in m.pool && m.pool[i].Pending?
  {
    assert Inserted(m, i);
    ToCsInv(m, i, buf);
    var m1 := ToCs(m, i, buf);
    if i in m1.pool then SetExpire(m1, i, ExpTime(t, CsLifetime(lifetime))) else m1
  }

  // ---- what the nodes do to the contents, and that they leave the PIT/CS settled ----

  lemma SettledRemove(m: Pcs, n: Name)
    requires Settled(m) && n in m.table
    ensures var r := Unlock(m, m.table[n]); Settled(r) && Contents(r) == Contents(m) - {n} && m.table[n] !in r.pool
    ensures var r := Unlock(m, m.table[n]); r.pool.Keys <= m.pool.Keys
  {
    RemoveInv(m, m.table[n]);
    RemoveContents(m, n);
  }

  lemma SettledNew(m: Pcs, i: nat, n: Name, t: real)
    requires Settled(m) && i !in m.pool && n !in m.table
    ensures var r := NewEntry(m, i, n, t); Settled(r) && Contents(r) == Contents(m)[n := Pending(n, 1, t, [])]
  {
    NewEntryContents(m, i, n, t);
    NewEntryRefines(m, i, n, t);
  }

  lemma SettledUpdate(m: Pcs, n: Name, item: Item)
    requires Settled(m) && n in m.table && item.name == n && item.locks == 1
    requires item.Pending? == m.pool[m.table[n]].Pending?
    ensures var r := m.(pool := m.pool[m.table[n] := item]); Settled(r) && Contents(r) == Contents(m)[n := item]
  {
    UpdateRefines(m, n, item);
  }

  lemma SettledLookup(m: Pcs, n: Name)
    requires Settled(m)
    ensures Settled(Lookup(m, n)) && Contents(Lookup(m, n)) == Contents(m)
  {
    if n in m.table && m.pool[m.table[n]].Cached? { TouchInv(m, m.table[n]); }
    SameContents(m, Lookup(m, n));
  }

  lemma SameContents(m: Pcs, r: Pcs)
    requires Indexed(m) && r.table == m.table && r.pool == m.pool
    ensures Indexed(r) && Contents(r) == Contents(m)
  {
  }

  /** Each entry of `r` was in `m` under the same name; a CS entry stayed one. */
  ghost predicate Keeps(m: Pcs, r: Pcs) {
    forall j :: j in r.pool ==> j in m.pool && r.pool[j].name == m.pool[j].name && (m.pool[j].Cached? ==> r.pool[j].Cached?)
  }

  /** `d` is `c` with the pending `n` cached in `buf` and cached names, possibly `n`, dropped. */
  ghost predicate AfterData(c: map<Name, Item>, d: map<Name, Item>, n: Name, buf: nat) {
    && (forall x :: x in d ==> if x == n then d[x].Cached? && d[x].buf == buf else x in c && d[x] == c[x])
    && (forall x :: x in c && x != n && c[x].Pending? ==> x in d)
  }

  lemma ConvertedSettled(m: Pcs, n: Name, buf: nat)
    requires Settled(m) && n in m.table && m.pool[m.table[n]].Pending?
    ensures
      var m1 := Converted(m, m.table[n], buf).(lru := [m.table[n]] + m.lru);
      && Settled(m1)
      && Contents(m1) == Contents(m)[n := AsCached(m.pool[m.table[n]], buf)]
  {
    ConvertRefines(m, n, buf);
    var m1 := Converted(m, m.table[n], buf).(lru := [m.table[n]] + m.lru);
    forall j | j in m1.pool
      ensures Inserted(m1, j) && m1.pool[j].locks == 1
    {
      assert Inserted(m, j);
    }
  }

  lemma EvictSettled(m: Pcs)
    requires Settled(m) && m.lru != []
    ensures
      var v := m.lru[|m.lru| - 1];
      && v in m.pool && m.pool[v].locks > 0 && m.pool[v].Cached? && m.pool[v].name in Contents(m)
      && Settled(Unlock(m, v)) && Keeps(m, Unlock(m, v))
      && Contents(m)[m.pool[v].name] == m.pool[v] && Contents(Unlock(m, v)) == Contents(m) - {m.pool[v].name}
  {
    var v := m.lru[|m.lru| - 1];
    assert v in m.lru && Inserted(m, v);
    SettledRemove(m, m.pool[v].name);
  }

  /** The conversion and its eviction: `n` becomes cached, and at most one name, a cached one, goes away. */
  lemma ToCsSettled(m: Pcs, n: Name, buf: nat)
    requires Settled(m) && n in m.table && m.pool[m.table[n]].Pending?
    ensures Inserted(m, Victim(m, m.table[n]))
    ensures
      var r := ToCs(m, m.table[n], buf);
      Settled(r) && Keeps(m, r) && AfterData(Contents(m), Contents(r), n, buf)
  {
    var i := m.table[n];
    ToCsInv(m, i, buf);
    ConvertedSettled(m, n, buf);
    var m1 := Converted(m, i, buf).(lru := [i] + m.lru);
    assert Keeps(m, m1);
    assert m1.lru[|m1.lru| - 1] == Victim(m, i);
    EvictSettled(m1);
    EvictAfterData(Contents(m), Contents(m1), n, buf, m1.pool[Victim(m, i)].name);
  }

  lemma EvictAfterData(c: map<Name, Item>, d: map<Name, Item>, n: Name, buf: nat, v: Name)
    requires n in c && d == c[n := AsCached(c[n], buf)] && v in d && d[v].Cached?
    ensures AfterData(c, d, n, buf) && AfterData(c, d - {v}, n, buf)
  {
  }

  lemma CloneSettled(m: Pcs, n: Name, t: real, lifetime: nat, buf: nat)
    requires Settled(m) && n in m.table && m.pool[m.table[n]].Pending?
    ensures
      var r := CloneToCs(m, m.table[n], t, lifetime, buf);
      Settled(r) && Keeps(m, r) && AfterData(Contents(m), Contents(r), n, buf)
  {
    var i := m.table[n];
    ToCsSettled(m, n, buf);
    if i in ToCs(m, i, buf).pool { ExpiringSettled(m, ToCs(m, i, buf), n, ExpTime(t, CsLifetime(lifetime)), buf); }
  }

  lemma ExpiringSettled(m: Pcs, m1: Pcs, n: Name, e: real, buf: nat)
    requires Settled(m) && n in m.table && Settled(m1) && Keeps(m, m1) && AfterData(Contents(m), Contents(m1), n, buf)
    requires m.table[n] in m1.pool && m.pool[m.table[n]].name == n
    ensures
      var r := SetExpire(m1, m.table[n], e);
      Settled(r) && Keeps(m, r) && AfterData(Contents(m), Contents(r), n, buf)
  {
    var i := m.table[n];
    assert Inserted(m1, i) && m1.pool[i].name == n;
    assert Contents(m1)[n] == m1.pool[i];
    SettledUpdate(m1, n, Expiring(m1.pool[i], e));
  }

  /** The lookup makes a new entry: the name is unknown or its entry has expired. */
  predicate Fresh(m: Pcs, n: Name, t: real)
    requires Indexed(m)
  {
    n !in m.table || t > m.pool[m.table[n]].expire
  }

  /** `r` holds `item` at the new index `i` under its name, and nothing else that `m` did not hold. */
  ghost predicate Entered(m: Pcs, r: Pcs, i: nat, item: Item)
    requires Indexed(m) && Indexed(r)
  {
    && Contents(r) == (Contents(m) - {item.name})[item.name := item]
    && i in r.pool && r.pool[i] == item
    && (forall j :: j in r.pool && j != i ==> j in m.pool && r.pool[j] == m.pool[j])
  }

  lemma NewInterestKnown(m: Pcs, n: Name, f: FaceId, t: real, lifetime: nat, i: nat)
    requires Settled(m) && i !in m.pool && n !in m.table
    ensures
      var (r, next) := NewInterest(m, n, f, t, lifetime, i, true);
      Settled(r) && next == ToStrategy && Entered(m, r, i, Pending(n, 1, ExpTime(t, lifetime), [f]))
  {
    var e := ExpTime(t, lifetime);
    SettledNew(m, i, n, e);
    var m1 := NewEntry(m, i, n, e);
    assert m1.pool[i] == Pending(n, 1, e, []) && m1.table[n] == i;
    SettledUpdate(m1, n, WithFace(m1.pool[i], f));
    assert WithFace(m1.pool[i], f) == Pending(n, 1, e, [f]);
    Overwrite(Contents(m), n, Pending(n, 1, e, []), Pending(n, 1, e, [f]));
  }

  lemma Overwrite(c: map<Name, Item>, n: Name, a: Item, b: Item)
    requires n !in c
    ensures c[n := a][n := b] == (c - {n})[n := b] && c[n := a] - {n} == c
  {
  }

  lemma NewInterestRefused(m: Pcs, n: Name, f: FaceId, t: real, lifetime: nat, i: nat)
    requires Settled(m) && i !in m.pool && n !in m.table
    ensures
      var (r, next) := NewInterest(m, n, f, t, lifetime, i, false);
      Settled(r) && next == Dropped && Contents(r) == Contents(m) && Keeps(m, r)
  {
    var e := ExpTime(t, lifetime);
    SettledNew(m, i, n, e);
    SettledRemove(NewEntry(m, i, n, e), n);
    Overwrite(Contents(m), n, Pending(n, 1, e, []), Pending(n, 1, e, []));
  }

  /** The state in which interest_pcslookup makes its new entry: the expired entry is gone. */
  function Expunged(m: Pcs, n: Name): (r: Pcs)
    requires Settled(m)
  {
    if n in m.table then SettledLookup(m, n); Unlock(Lookup(m, n), m.table[n]) else m
  }

  lemma ExpungedEffect(m: Pcs, n: Name)
    requires Settled(m)
    ensures var r := Expunged(m, n);
      && Settled(r) && n !in r.table && Contents(r) == Contents(m) - {n}
      && (forall j :: j in r.pool ==> j in m.pool && r.pool[j] == m.pool[j])
  {
    SettledLookup(m, n);
    if n in m.table {
      SettledRemove(Lookup(m, n), n);
    }
  }

  /** A new entry is made in the state without the expired one. */
  lemma FreshLookup(m: Pcs, n: Name, f: FaceId, t: real, lifetime: nat, i: nat, known: bool)
    requires Settled(m) && Available(m, n, t, i) && Fresh(m, n, t)
    ensures InterestLookup(m, n, f, t, lifetime, i, known) == NewInterest(Expunged(m, n), n, f, t, lifetime, i, known)
  {
    SettledLookup(m, n);
  }

  /** What interest_pcslookup does: an unexpired entry is kept, otherwise a new one replaces it. */
  lemma InterestEffect(m: Pcs, n: Name, f: FaceId, t: real, lifetime: nat, i: nat, known: bool)
    requires Settled(m) && Available(m, n, t, i)
    ensures
      var (r, next) := InterestLookup(m, n, f, t, lifetime, i, known);
      && Settled(r)
      && (if !Fresh(m, n, t) then r.pool == m.pool && Contents(r) == Contents(m) && next == HitNext(m, n, known)
          else if known then next == ToStrategy && Entered(m, r, i, Pending(n, 1, ExpTime(t, lifetime), [f]))
          else next == Dropped && Contents(r) == Contents(m) - {n} && Keeps(m, r))
    ensures !Fresh(m, n, t) ==>
      var i0 := m.table[n];
      InterestLookup(m, n, f, t, lifetime, i, known).0.lru == if m.pool[i0].Cached? then [i0] + Without(m.lru, i0) else m.lru
  {
    if !Fresh(m, n, t) {
      SettledLookup(m, n);
    } else if known {
      FreshKnown(m, n, f, t, lifetime, i);
    } else {
      FreshUnknown(m, n, f, t, lifetime, i);
    }
  }

  /** `m1` is `m` without name `n`. */
  ghost predicate Lacks(m: Pcs, m1: Pcs, n: Name)
    requires Indexed(m) && Indexed(m1)
  {
    Contents(m1) == Contents(m) - {n} && forall j :: j in m1.pool ==> j in m.pool && m1.pool[j] == m.pool[j]
  }

  lemma EnteredLacking(m: Pcs, m1: Pcs, r: Pcs, i: nat, item: Item)
    requires Indexed(m) && Indexed(m1) && Indexed(r) && Lacks(m, m1, item.name) && Entered(m1, r, i, item)
    ensures Entered(m, r, i, item)
  {
    assert Contents(m) - {item.name} - {item.name} == Contents(m) - {item.name};
  }

  lemma FreshKnown(m: Pcs, n: Name, f: FaceId, t: real, lifetime: nat, i: nat)
    requires Settled(m) && Available(m, n, t, i) && Fresh(m, n, t)
    ensures
      var (r, next) := InterestLookup(m, n, f, t, lifetime, i, true);
      Settled(r) && next == ToStrategy && Entered(m, r, i, Pending(n, 1, ExpTime(t, lifetime), [f]))
  {
    ExpungedEffect(m, n);
    FreshLookup(m, n, f, t, lifetime, i, true);
    NewInterestKnown(Expunged(m, n), n, f, t, lifetime, i);
    EnteredLacking(m, Expunged(m, n), NewInterest(Expunged(m, n), n, f, t, lifetime, i, true).0, i, Pending(n, 1, ExpTime(t, lifetime), [f]));
  }

  lemma FreshUnknown(m: Pcs, n: Name, f: FaceId, t: real, lifetime: nat, i: nat)
    requires Settled(m) && Available(m, n, t, i) && Fresh(m, n, t)
    ensures
      var (r, next) := InterestLookup(m, n, f, t, lifetime, i, false);
      Settled(r) && next == Dropped && Contents(r) == Contents(m) - {n} && Keeps(m, r)
  {
    ExpungedEffect(m, n);
    FreshLookup(m, n, f, t, lifetime, i, false);
    NewInterestRefused(Expunged(m, n), n, f, t, lifetime, i);
  }

  function HitNext(m: Pcs, n: Name, known: bool): (r: Next)
    requires Indexed(m) && n in m.table
  {
    if !known then Dropped else if m.pool[m.table[n]].Cached? then ToHitCs(m.table[n]) else ToHitPit(m.table[n])
  }

  lemma ReleaseSettled(m: Pcs, n: Name, buf: nat)
    requires Settled(m) && n in m.table && m.pool[m.table[n]].Pending?
    ensures
      var r := Unlock(m, m.table[n]);
      Settled(r) && Keeps(m, r) && AfterData(Contents(m), Contents(r), n, buf)
  {
    SettledRemove(m, n);
  }

  /** What data_fwd does to the contents, and to whom it sends. */
  lemma DataFwdEffect(m: Pcs, i: nat, t: real, lifetime: nat, buf: nat)
    requires Settled(m)
    ensures
      var (r, faces) := DataFwd(m, i, t, lifetime, buf);
      && Settled(r) && Keeps(m, r)
      && (i !in m.pool || m.pool[i].Cached? ==> r == m && faces == [])
      && (i in m.pool && m.pool[i].Pending? ==>
            AfterData(Contents(m), Contents(r), m.pool[i].name, buf) && Served(m, i, t, faces))
    ensures
      var r := DataFwd(m, i, t, lifetime, buf).0;
      i in m.pool && m.pool[i].Pending? && t <= m.pool[i].expire && m.pool[i].faces != [] && lifetime != 0 && i in r.pool ==>
        r.pool[i].expire == t + (if lifetime > 86400000 then 300000 else lifetime) as real / 1000.0
  {
    if i in m.pool && m.pool[i].Pending? {
      assert Inserted(m, i);
      var n := m.pool[i].name;
      assert Contents(m)[n] == m.pool[i];
      if t > m.pool[i].expire || m.pool[i].faces == [] || lifetime == 0 {
        ReleaseSettled(m, n, buf);
      } else {
        CloneSettled(m, n, t, lifetime, buf);
      }
    }
  }

  /** An unexpired entry serves all its faces, an expired one none. */
  ghost predicate Served(m: Pcs, i: nat, t: real, faces: seq<FaceId>)
    requires i in m.pool && m.pool[i].Pending?
  {
    faces == if t > m.pool[i].expire then [] else m.pool[i].faces
  }
}
