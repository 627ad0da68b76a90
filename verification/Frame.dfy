/**
 A frame of data packets: data_pcslookup looks all of them up, then data_fwd
 forwards them one by one. Each pending entry is served by one packet only.
 */
module Frame {
  import opened Types
  import opened PcsModel
  import opened PcsStore
  import opened Pipeline

  datatype Packet = Packet(n: Name, buf: nat, lifetime: nat)

  /** The lookup stage: the indices stored in the packets, and the PIT/CS after all the lookups. */
  function LookupFrame(m: Pcs, pkts: seq<Packet>): (r: (Pcs, seq<Option<nat>>))
    requires Settled(m)
    ensures |r.1| == |pkts|
    decreases |pkts|
  {
    if pkts == [] then (m, [])
    else
      var (m1, next) := DataLookup(m, pkts[0].n, true, 0);
      SettledLookup(m, pkts[0].n);
      var (m2, rest) := LookupFrame(m1, pkts[1..]);
      (m2, [if next.ToDataFwd? then Some(next.i) else None] + rest)
  }

  /** The forwarding stage, all at time `t`: the faces each packet is sent to. */
  function FwdFrame(m: Pcs, idx: seq<Option<nat>>, pkts: seq<Packet>, t: real): (r: (Pcs, seq<seq<FaceId>>))
    requires Settled(m) && |idx| == |pkts|
    ensures |r.1| == |pkts|
    decreases |pkts|
  {
    if pkts == [] then (m, [])
    else if idx[0].None? then
      var (m2, rest) := FwdFrame(m, idx[1..], pkts[1..], t);
      (m2, [[]] + rest)
    else
      DataFwdEffect(m, idx[0].value, t, pkts[0].lifetime, pkts[0].buf);
      var (m1, faces) := DataFwd(m, idx[0].value, t, pkts[0].lifetime, pkts[0].buf);
      var (m2, rest) := FwdFrame(m1, idx[1..], pkts[1..], t);
      (m2, [faces] + rest)
  }

  ghost predicate PendingIn(m: Pcs, n: Name)
    requires Indexed(m)
  {
    n in m.table && m.pool[m.table[n]].Pending?
  }

  /** All lookups of a frame answer from the PIT/CS as it was before the frame. */
  lemma {:induction false} LookupFrameAnswers(m: Pcs, pkts: seq<Packet>)
    requires Settled(m)
    ensures
      var (r, idx) := LookupFrame(m, pkts);
      && Settled(r) && r.table == m.table && r.pool == m.pool
      && forall k :: 0 <= k < |pkts| ==>
           idx[k] == if PendingIn(m, pkts[k].n) then Some(m.table[pkts[k].n]) else None
    decreases |pkts|
  {
    if pkts != [] {
      SettledLookup(m, pkts[0].n);
      var m1 := DataLookup(m, pkts[0].n, true, 0).0;
      LookupFrameAnswers(m1, pkts[1..]);
      var idx := LookupFrame(m, pkts).1;
      forall k | 0 < k < |pkts|
        ensures idx[k] == if PendingIn(m, pkts[k].n) then Some(m.table[pkts[k].n]) else None
      {
        assert pkts[k] == pkts[1..][k - 1] && idx[k] == LookupFrame(m1, pkts[1..]).1[k - 1];
      }
    }
  }

  /** `m` is `m0` after data for the names `done`: their entries are gone or cached, the other pending ones untouched. */
  ghost predicate Midway(m0: Pcs, m: Pcs, done: set<Name>)
    requires Settled(m0)
  {
    && Settled(m)
    && (forall i :: i in m.pool ==> i in m0.pool && m.pool[i].name == m0.pool[i].name)
    && (forall i :: i in m.pool && m.pool[i].name in done ==> m.pool[i].Cached?)
    && (forall n :: PendingIn(m0, n) && n !in done ==>
          m0.table[n] in m.pool && m.pool[m0.table[n]] == m0.pool[m0.table[n]])
  }

  lemma FwdMidway(m0: Pcs, m: Pcs, done: set<Name>, n: Name, t: real, lifetime: nat, buf: nat)
    requires Settled(m0) && Midway(m0, m, done) && PendingIn(m0, n)
    ensures
      var (r, faces) := DataFwd(m, m0.table[n], t, lifetime, buf);
      && Midway(m0, r, done + {n})
      && faces == if n in done || t > m0.pool[m0.table[n]].expire then [] else m0.pool[m0.table[n]].faces
  {
    var i := m0.table[n];
    DataFwdEffect(m, i, t, lifetime, buf);
    var r := DataFwd(m, i, t, lifetime, buf).0;
    if n !in done {
      FwdTurnsCs(m, i, t, lifetime, buf);
      forall x | PendingIn(m0, x) && x !in done + {n}
        ensures m0.table[x] in r.pool && r.pool[m0.table[x]] == m0.pool[m0.table[x]]
      {
        OthersUntouched(m, r, n, buf, m0.table[x]);
      }
    } else {
      forall j | j in r.pool && r.pool[j].name in done + {n}
        ensures r.pool[j].Cached?
      {
      }
    }
  }

  /** After data_fwd the entry it acted on is gone or cached. */
  lemma FwdTurnsCs(m: Pcs, i: nat, t: real, lifetime: nat, buf: nat)
    requires Settled(m) && i in m.pool && m.pool[i].Pending?
    ensures var r := DataFwd(m, i, t, lifetime, buf).0;
      Settled(r) && forall j :: j in r.pool && r.pool[j].name == m.pool[i].name ==> r.pool[j].Cached?
  {
    DataFwdEffect(m, i, t, lifetime, buf);
    var r := DataFwd(m, i, t, lifetime, buf).0;
    forall j | j in r.pool && r.pool[j].name == m.pool[i].name
      ensures r.pool[j].Cached?
    {
      assert Inserted(r, j) && Contents(r)[m.pool[i].name] == r.pool[j];
    }
  }

  /** A pending entry of another name keeps its index and its contents. */
  lemma OthersUntouched(m: Pcs, r: Pcs, n: Name, buf: nat, j: nat)
    requires Settled(m) && Settled(r) && Keeps(m, r) && AfterData(Contents(m), Contents(r), n, buf)
    requires j in m.pool && m.pool[j].Pending? && m.pool[j].name != n
    ensures j in r.pool && r.pool[j] == m.pool[j]
  {
    var x := m.pool[j].name;
    assert Inserted(m, j) && Contents(m)[x] == m.pool[j];
    assert x in Contents(r) && Contents(r)[x] == r.pool[r.table[x]];
    var k := r.table[x];
    assert k in r.pool && r.pool[k].name == x;
    assert m.pool[k].name == x && Inserted(m, k);
  }

  function NamesIn(pkts: seq<Packet>): (r: set<Name>) {
    set p | p in pkts :: p.n
  }

  /** What packet `k` delivers: the faces of the entry, if it is the first of the frame with that name and in time. */
  ghost function Due(m0: Pcs, done: set<Name>, pkts: seq<Packet>, t: real, k: nat): (faces: seq<FaceId>)
    requires Indexed(m0) && k < |pkts|
  {
    var n := pkts[k].n;
    if PendingIn(m0, n) && n !in done && n !in NamesIn(pkts[..k]) && t <= m0.pool[m0.table[n]].expire
    then m0.pool[m0.table[n]].faces else []
  }

  ghost predicate Answered(m0: Pcs, idx: seq<Option<nat>>, pkts: seq<Packet>)
    requires Indexed(m0)
  {
    |idx| == |pkts| && forall k :: 0 <= k < |pkts| ==>
      idx[k] == if PendingIn(m0, pkts[k].n) then Some(m0.table[pkts[k].n]) else None
  }

  lemma DueTail(m0: Pcs, done: set<Name>, pkts: seq<Packet>, t: real, k: nat)
    requires Indexed(m0) && 0 < k < |pkts|
    ensures
      var more := if PendingIn(m0, pkts[0].n) then {pkts[0].n} else {};
      Due(m0, done, pkts, t, k) == Due(m0, done + more, pkts[1..], t, k - 1)
  {
    assert pkts[..k] == [pkts[0]] + pkts[1..][..k - 1];
    assert NamesIn(pkts[..k]) == {pkts[0].n} + NamesIn(pkts[1..][..k - 1]);
  }

  /** The first packet of the rest of a frame: what it does, and to whom it goes. */
  lemma FwdFirst(m0: Pcs, m: Pcs, done: set<Name>, idx: seq<Option<nat>>, pkts: seq<Packet>, t: real) returns (r: Pcs)
    requires Settled(m0) && Midway(m0, m, done) && Answered(m0, idx, pkts) && pkts != []
    ensures Midway(m0, r, done + Served0(m0, pkts[0])) && Answered(m0, idx[1..], pkts[1..])
    ensures FwdFrame(m, idx, pkts, t).1 == [Due(m0, done, pkts, t, 0)] + FwdFrame(r, idx[1..], pkts[1..], t).1
  {
    var p := pkts[0];
    r := m;
    assert pkts[..0] == [];
    if PendingIn(m0, p.n) {
      FwdMidway(m0, m, done, p.n, t, p.lifetime, p.buf);
      r := DataFwd(m, idx[0].value, t, p.lifetime, p.buf).0;
    } else {
      assert done + {} == done;
    }
  }

  ghost function Served0(m0: Pcs, p: Packet): (r: set<Name>)
    requires Indexed(m0)
  {
    if PendingIn(m0, p.n) then {p.n} else {}
  }

  lemma {:induction false} FwdFrameDelivers(
    m0: Pcs, m: Pcs, done: set<Name>, idx: seq<Option<nat>>, pkts: seq<Packet>, t: real)
    requires Settled(m0) && Midway(m0, m, done) && Answered(m0, idx, pkts)
    ensures forall k :: 0 <= k < |pkts| ==> FwdFrame(m, idx, pkts, t).1[k] == Due(m0, done, pkts, t, k)
    decreases |pkts|
  {
    if pkts != [] {
      var r := FwdFirst(m0, m, done, idx, pkts, t);
      FwdFrameDelivers(m0, r, done + Served0(m0, pkts[0]), idx[1..], pkts[1..], t);
      DeliversFrom(m0, done, pkts, t, FwdFrame(m, idx, pkts, t).1, FwdFrame(r, idx[1..], pkts[1..], t).1);
    }
  }

  lemma DeliversFrom(
    m0: Pcs, done: set<Name>, pkts: seq<Packet>, t: real, all: seq<seq<FaceId>>, rest: seq<seq<FaceId>>)
    requires Indexed(m0) && pkts != [] && |rest| == |pkts| - 1 && all == [Due(m0, done, pkts, t, 0)] + rest
    requires forall k :: 0 <= k < |pkts[1..]| ==> rest[k] == Due(m0, done + Served0(m0, pkts[0]), pkts[1..], t, k)
    ensures forall k :: 0 <= k < |pkts| ==> all[k] == Due(m0, done, pkts, t, k)
  {
    forall k | 0 <= k < |pkts|
      ensures all[k] == Due(m0, done, pkts, t, k)
    {
      if k > 0 { DueTail(m0, done, pkts, t, k); }
    }
  }

  /**
   Single delivery: of the packets of a frame that carry one pending, unexpired
   name, the first is sent to exactly the faces of the entry and the others to
   none; packets of any other name are sent to none.
   */
  lemma FrameSingleDelivery(m: Pcs, pkts: seq<Packet>, t: real)
    requires Settled(m)
    ensures
      var (m1, idx) := LookupFrame(m, pkts);
      && Settled(m1)
      && forall k :: 0 <= k < |pkts| ==> FwdFrame(m1, idx, pkts, t).1[k] == Due(m, {}, pkts, t, k)
  {
    LookupFrameAnswers(m, pkts);
    var (m1, idx) := LookupFrame(m, pkts);
    FwdFrameDelivers(m, m1, {}, idx, pkts, t);
  }
}
