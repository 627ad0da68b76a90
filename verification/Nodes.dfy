/**
 The graph nodes over the PIT/CS object: the per-packet bodies of the interest
 nodes, and the frame loops of data_pcslookup and data_fwd.
 */
module Nodes {
  import opened Types
  import opened PcsModel
  import opened PcsStore
  import opened Pipeline
  import opened Frame
  import opened PitCs

  /** hicn_interest_pcslookup_node_inline, for one packet. `i` is the index the pool would hand out. */
  method InterestLookupPacket(
    pcs: PitCs, n: Name, f: FaceId, t: real, lifetime: nat, i: nat, leftover: Name, known: bool) returns (next: Next)
    requires pcs.Valid() && Settled(pcs.View()) && Available(pcs.View(), n, t, i) && i < END
    modifies pcs
    ensures pcs.Valid() && Settled(pcs.View())
    ensures (pcs.View(), next) == InterestLookup(old(pcs.View()), n, f, t, lifetime, i, known)
  {
    ghost var v := pcs.View();
    InterestEffect(v, n, f, t, lifetime, i, known);
    SettledLookup(v, n);
    ExpungedEffect(v, n);
    var found := pcs.LookupOne(n);
    if found.Some? {
      var k := found.value;
      if t > pcs.pool[k].expire {
        pcs.RemoveLock(k);
      } else {
        next := if !known then Dropped else if pcs.pool[k].Cached? then ToHitCs(k) else ToHitPit(k);
        return;
      }
    }
    next := NewEntryPacket(pcs, n, f, t, lifetime, i, leftover, known);
  }

  /** The newentry part of the same node. */
  method NewEntryPacket(
    pcs: PitCs, n: Name, f: FaceId, t: real, lifetime: nat, i: nat, leftover: Name, known: bool) returns (next: Next)
    requires pcs.Valid() && i !in pcs.pool && i < END && n !in pcs.table
    modifies pcs
    ensures pcs.Valid()
    ensures (pcs.View(), next) == NewInterest(old(pcs.View()), n, f, t, lifetime, i, known)
  {
    CreateEntry(pcs, n, t, lifetime, i, leftover);
    if known {
      pcs.Update(i, WithFace(pcs.pool[i], f));
      next := ToStrategy;
    } else {
      pcs.RemoveLock(i);
      next := Dropped;
    }
  }

  /** The name left in a recycled element is overwritten by the insertion. */
  lemma LeftoverReplaced(v: Pcs, n: Name, e: real, i: nat, leftover: Name)
    ensures Insert(Alloc(v, i, Pending(leftover, 1, e, [])), i, n) == NewEntry(v, i, n, e)
  {
    var p := v.pool[i := Pending(n, 1, e, [])];
    assert Insert(Alloc(v, i, Pending(leftover, 1, e, [])), i, n).pool == p;
    assert NewEntry(v, i, n, e).pool == p;
  }

  method CreateEntry(pcs: PitCs, n: Name, t: real, lifetime: nat, i: nat, leftover: Name)
    requires pcs.Valid() && i !in pcs.pool && i < END && n !in pcs.table
    modifies pcs`table, pcs`pool, pcs`pitCount, pcs`alloc
    ensures pcs.Valid() && pcs.View() == NewEntry(old(pcs.View()), i, n, ExpTime(t, lifetime))
  {
    LeftoverReplaced(pcs.View(), n, ExpTime(t, lifetime), i, leftover);
    pcs.EntryPitGet(i, leftover, t, lifetime);
    pcs.PitInsert(i, n);
  }

  /** hicn_interest_hitpit_node_fn, for one ordinary interest. */
  method HitPitPacket(pcs: PitCs, i: nat, f: FaceId, force: bool) returns (next: Next)
    requires pcs.Valid() && Settled(pcs.View()) && i in pcs.pool
    modifies pcs
    ensures pcs.Valid()
    ensures (pcs.View(), next) == HitPit(old(pcs.View()), i, f, force)
  {
    if pcs.pool[i].Cached? { return ToHitCs(i); }
    assert Inserted(pcs.View(), i);
    var faces := pcs.pool[i].faces;
    var forward := f in faces;
    var list := faces;
    if !forward && force {
      forward := true;
      list := list + [f];
    }
    if forward {
      next := ToStrategy;
    } else {
      list := list + [f];
      next := Dropped;
    }
    pcs.Update(i, Pending(pcs.pool[i].name, pcs.pool[i].locks, pcs.pool[i].expire, list));
  }

  /** hicn_interest_hitcs_node_fn, for one interest; `ret` is the buffer left in the store by `Buffers.CloneFromCs`. */
  method HitCsPacket(pcs: PitCs, i: nat, t: real, ret: nat) returns (next: Next)
    requires pcs.Valid() && Settled(pcs.View()) && i in pcs.pool
    modifies pcs
    ensures pcs.Valid()
    ensures (pcs.View(), next) == HitCs(old(pcs.View()), i, t, ret)
  {
    assert Inserted(pcs.View(), i);
    if t > pcs.pool[i].expire {
      pcs.RemoveLock(i);
      next := ToStrategy;
    } else {
      next := Reply(BufferOf(pcs.pool[i]));
      if pcs.pool[i].Cached? { pcs.Update(i, InBuffer(pcs.pool[i], ret)); }
    }
  }

  /** `all` is the answer for a frame when `done` answers its first packets and `rest` the others. */
  ghost predicate Joins<T>(all: (Pcs, seq<T>), done: seq<T>, rest: (Pcs, seq<T>)) {
    all.0 == rest.0 && all.1 == done + rest.1
  }

  lemma JoinsNext<T>(all: (Pcs, seq<T>), done: seq<T>, m: Pcs, x: T, tail: seq<T>)
    requires Joins(all, done, (m, [x] + tail))
    ensures Joins(all, done + [x], (m, tail))
  {
    assert done + ([x] + tail) == (done + [x]) + tail;
  }

  /** hicn_data_pcslookup_node_fn: the loop over a frame. */
  method DataLookupNode(pcs: PitCs, pkts: seq<Packet>) returns (idx: seq<Option<nat>>)
    requires pcs.Valid() && Settled(pcs.View())
    modifies pcs
    ensures pcs.Valid() && Settled(pcs.View())
    ensures pcs.View() == LookupFrame(old(pcs.View()), pkts).0 && idx == LookupFrame(old(pcs.View()), pkts).1
  {
    ghost var all := LookupFrame(pcs.View(), pkts);
    idx := [];
    var k := 0;
    assert pkts[0..] == pkts && Joins(all, [], all);
    while k < |pkts|
      invariant 0 <= k <= |pkts| && pcs.Valid() && Settled(pcs.View())
      invariant Joins(all, idx, LookupFrame(pcs.View(), pkts[k..]))
    {
      ghost var rest := LookupFrame(pcs.View(), pkts[k..]);
      assert pkts[k..][1..] == pkts[k + 1..];
      var found := DataLookupPacket(pcs, pkts[k].n);
      assert rest == (LookupFrame(pcs.View(), pkts[k + 1..]).0, [found] + LookupFrame(pcs.View(), pkts[k + 1..]).1);
      JoinsNext(all, idx, rest.0, found, LookupFrame(pcs.View(), pkts[k + 1..]).1);
      idx := idx + [found];
      k := k + 1;
    }
  }

  /** The per-packet body of the same node, the DPO context present. */
  method DataLookupPacket(pcs: PitCs, n: Name) returns (r: Option<nat>)
    requires pcs.Valid() && Settled(pcs.View())
    modifies pcs
    ensures pcs.Valid() && Settled(pcs.View())
    ensures
      var (m, next) := DataLookup(old(pcs.View()), n, true, 0);
      pcs.View() == m && r == if next.ToDataFwd? then Some(next.i) else None
  {
    SettledLookup(pcs.View(), n);
    r := pcs.LookupOne(n);
    if r.Some? && pcs.pool[r.value].Cached? { r := None; }
  }

  /** hicn_data_node_fn: the loop over a frame; `sent[k]` lists the faces packet `k` went to. */
  method DataFwdNode(pcs: PitCs, idx: seq<Option<nat>>, pkts: seq<Packet>, t: real) returns (sent: seq<seq<FaceId>>)
    requires pcs.Valid() && Settled(pcs.View()) && |idx| == |pkts|
    modifies pcs
    ensures pcs.Valid() && Settled(pcs.View())
    ensures pcs.View() == FwdFrame(old(pcs.View()), idx, pkts, t).0 && sent == FwdFrame(old(pcs.View()), idx, pkts, t).1
  {
    ghost var all := FwdFrame(pcs.View(), idx, pkts, t);
    sent := [];
    var k := 0;
    assert idx[0..] == idx && pkts[0..] == pkts && Joins(all, [], all);
    while k < |pkts|
      invariant 0 <= k <= |pkts| && pcs.Valid() && Settled(pcs.View())
      invariant Joins(all, sent, FwdFrame(pcs.View(), idx[k..], pkts[k..], t))
    {
      ghost var rest := FwdFrame(pcs.View(), idx[k..], pkts[k..], t);
      assert idx[k..][1..] == idx[k + 1..] && pkts[k..][1..] == pkts[k + 1..];
      var faces := [];
      if idx[k].Some? {
        faces := DataFwdPacket(pcs, idx[k].value, t, pkts[k].lifetime, pkts[k].buf);
      }
      ghost var tail := FwdFrame(pcs.View(), idx[k + 1..], pkts[k + 1..], t);
      assert rest == (tail.0, [faces] + tail.1);
      JoinsNext(all, sent, rest.0, faces, tail.1);
      sent := sent + [faces];
      k := k + 1;
    }
  }

  /** The per-packet body of hicn_data_node_fn. */
  method DataFwdPacket(pcs: PitCs, i: nat, t: real, lifetime: nat, buf: nat) returns (faces: seq<FaceId>)
    requires pcs.Valid() && Settled(pcs.View())
    modifies pcs
    ensures pcs.Valid() && Settled(pcs.View())
    ensures (pcs.View(), faces) == DataFwd(old(pcs.View()), i, t, lifetime, buf)
  {
    DataFwdEffect(pcs.View(), i, t, lifetime, buf);
    if i !in pcs.pool || pcs.pool[i].Cached? { return []; }
    assert Inserted(pcs.View(), i);
    faces := if t > pcs.pool[i].expire then [] else pcs.pool[i].faces;
    if faces == [] || lifetime == 0 {
      pcs.RemoveLock(i);
    } else {
      pcs.PitToCs(i, buf);
      if i in pcs.pool {
        ToCsSettled(old(pcs.View()), old(pcs.View()).pool[i].name, buf);
        assert Inserted(pcs.View(), i);
        pcs.Update(i, Expiring(pcs.pool[i], ExpTime(t, CsLifetime(lifetime))));
      }
    }
  }
}
