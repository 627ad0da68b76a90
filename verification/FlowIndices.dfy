/**
 Indices in flight: when a step frees an index that an interest on its way to
 hitpit or hitcs still carries, and when an interest that is forwarded has its
 face waiting in the PIT.
 */
module FlowIndices {
  import opened Types
  import opened PcsModel
  import opened PcsStore
  import opened Pipeline
  import opened Flow

  // ---- indices of interests that are freed ----

  /** Every interest on its way to hitpit or hitcs carries an allocated index, as the source asserts there. */
  ghost predicate AllHeld(m: Pcs, q: seq<Flight>) {
    forall fl :: fl in q && !fl.AtDataFwd? ==> fl.i in m.pool
  }

  /** The index that a step frees, from the guards of its node. */
  ghost function Frees(s: Sys, a: Act): (r: set<nat>)
    requires Settled(s.m) && Enabled(s, a)
  {
    match a
    case InterestAct(n, f, t, lifetime, i, known) =>
      if n in s.m.table && t > s.m.pool[s.m.table[n]].expire && !(known && i == s.m.table[n]) then {s.m.table[n]} else {}
    case HitCsAct(k, t, ret) => if t > s.m.pool[s.q[k].i].expire then {s.q[k].i} else {}
    case FwdAct(k, t, lifetime) =>
      var i := s.q[k].i;
      if i !in s.m.pool || s.m.pool[i].Cached? then {}
      else if t > s.m.pool[i].expire || s.m.pool[i].faces == [] || lifetime == 0 then {i}
      else if |s.m.lru| + 1 > s.m.max then {Victim(s.m, i)}
      else {}
    case _ => {}
  }

  /** The index that a step allocates. */
  ghost function Takes(s: Sys, a: Act): (r: set<nat>)
    requires Indexed(s.m)
  {
    if a.InterestAct? && a.known && Fresh(s.m, a.n, a.t) then {a.i} else {}
  }

  lemma InterestPool(m: Pcs, n: Name, f: FaceId, t: real, lifetime: nat, i: nat, known: bool)
    requires Settled(m) && Available(m, n, t, i)
    ensures
      var r := InterestLookup(m, n, f, t, lifetime, i, known).0;
      r.pool.Keys == if !Fresh(m, n, t) then m.pool.Keys
                     else m.pool.Keys - (if n in m.table then {m.table[n]} else {}) + (if known then {i} else {})
  {
    if Fresh(m, n, t) {
      FreshLookup(m, n, f, t, lifetime, i, known);
      ExpungedEffect(m, n);
      ExpungedPool(m, n);
    }
  }

  lemma ExpungedPool(m: Pcs, n: Name)
    requires Settled(m)
    ensures Expunged(m, n).pool.Keys == m.pool.Keys - if n in m.table then {m.table[n]} else {}
  {
    SettledLookup(m, n);
  }

  lemma FwdPool(m: Pcs, i: nat, t: real, lifetime: nat, buf: nat)
    requires Settled(m) && i in m.pool && m.pool[i].Pending?
    ensures DataFwd(m, i, t, lifetime, buf).0.pool.Keys == m.pool.Keys -
        if t > m.pool[i].expire || m.pool[i].faces == [] || lifetime == 0 then {i}
        else if |m.lru| + 1 > m.max then {Victim(m, i)} else {}
  {
    assert Inserted(m, i);
    if !(t > m.pool[i].expire || m.pool[i].faces == [] || lifetime == 0) {
      ToCsPool(m, i, buf);
      assert DataFwd(m, i, t, lifetime, buf).0 == CloneToCs(m, i, t, lifetime, buf);
    }
  }

  lemma ToCsPool(m: Pcs, i: nat, buf: nat)
    requires Settled(m) && i in m.pool && m.pool[i].Pending?
    ensures Inserted(m, i) && Inserted(m, Victim(m, i))
    ensures ToCs(m, i, buf).pool.Keys == m.pool.Keys - if |m.lru| + 1 > m.max then {Victim(m, i)} else {}
  {
    assert Inserted(m, i);
    ToCsInv(m, i, buf);
    assert m.pool[Victim(m, i)].locks == 1;
  }

  /** What a step does to the set of allocated indices. */
  lemma PoolAfter(s: Sys, a: Act)
    requires Settled(s.m) && Enabled(s, a)
    ensures Do(s, a).m.pool.Keys == s.m.pool.Keys - Frees(s, a) + Takes(s, a)
  {
    match a {
      case InterestAct(n, f, t, lifetime, i, known) => InterestPool(s.m, n, f, t, lifetime, i, known);
      case FwdAct(k, t, lifetime) =>
        var i := s.q[k].i;
        if i in s.m.pool && s.m.pool[i].Pending? { FwdPool(s.m, i, t, lifetime, s.q[k].buf); }
      case _ =>
    }
  }

  lemma InterestFlightHeld(m: Pcs, n: Name, f: FaceId, t: real, lifetime: nat, i: nat, known: bool)
    requires Settled(m) && Available(m, n, t, i)
    ensures
      var next := InterestLookup(m, n, f, t, lifetime, i, known).1;
      next.ToHitPit? || next.ToHitCs? ==> n in m.table && t <= m.pool[m.table[n]].expire && next.i == m.table[n]
  {
  }

  /** The packets a step adds carry an allocated index it does not free. */
  lemma NewFlightsHeld(s: Sys, a: Act, fl: Flight)
    requires Settled(s.m) && Enabled(s, a) && fl in Do(s, a).q && fl !in s.q && !fl.AtDataFwd?
    ensures fl.i in s.m.pool && fl.i !in Frees(s, a)
  {
    if a.InterestAct? { InterestFlightHeld(s.m, a.n, a.f, a.t, a.lifetime, a.i, a.known); }
  }

  /**
   Exactly when an interest is left with a free index: if all interests in flight
   carry allocated ones, they still do after a step if and only if none of those left
   carries the index the step frees.
   */
  lemma HeldIff(s: Sys, a: Act)
    requires Settled(s.m) && Enabled(s, a) && AllHeld(s.m, s.q)
    ensures AllHeld(Do(s, a).m, Do(s, a).q) <==>
      forall fl :: fl in Do(s, a).q && !fl.AtDataFwd? ==> fl.i !in Frees(s, a)
  {
    PoolAfter(s, a);
    var r := Do(s, a);
    forall fl | fl in r.q && !fl.AtDataFwd?
      ensures fl.i in r.m.pool <==> fl.i !in Frees(s, a)
    {
      if fl !in s.q { NewFlightsHeld(s, a, fl); }
      FreedNotTaken(s, a);
    }
  }

  lemma FreedNotTaken(s: Sys, a: Act)
    requires Settled(s.m) && Enabled(s, a)
    ensures Frees(s, a) !! Takes(s, a)
  {
    if a.InterestAct? && Fresh(s.m, a.n, a.t) { ExpungedPool(s.m, a.n); }
  }

  // ---- over every run ----

  /** Steps from an empty forwarder, indices recycled at will. */
  ghost predicate AnyRun(ss: seq<Sys>, acts: seq<Act>, max: nat) {
    && |ss| == |acts| + 1
    && ss[0] == Init(max)
    && forall k :: 0 <= k < |acts| && Settled(ss[k].m) ==> Enabled(ss[k], acts[k]) && ss[k + 1] == Do(ss[k], acts[k])
  }

  lemma StepSettled(s: Sys, a: Act)
    requires Settled(s.m) && Enabled(s, a)
    ensures Settled(Do(s, a).m)
  {
    match a {
      case InterestAct(n, f, t, lifetime, i, known) => InterestEffect(s.m, n, f, t, lifetime, i, known);
      case HitPitAct(k, force) => if s.m.pool[s.q[k].i].Pending? { HitPitContents(s.m, s.q[k].i, s.q[k].f, force); }
      case HitCsAct(k, t, ret) => HitCsContents(s.m, s.q[k].i, t, ret);
      case DataAct(n, buf, known, stale) => SettledLookup(s.m, n);
      case FwdAct(k, t, lifetime) => DataFwdEffect(s.m, s.q[k].i, t, lifetime, s.q[k].buf);
    }
  }

  lemma {:induction false} RunSettled(ss: seq<Sys>, acts: seq<Act>, max: nat, k: nat)
    requires AnyRun(ss, acts, max) && k <= |acts|
    ensures Settled(ss[k].m)
  {
    if k > 0 {
      RunSettled(ss, acts, max, k - 1);
      StepSettled(ss[k - 1], acts[k - 1]);
    }
  }

  /** An interest left in the queue carries the index that the step frees. */
  ghost predicate FreesHeld(s: Sys, a: Act) {
    Settled(s.m) && Enabled(s, a) && exists fl :: fl in Do(s, a).q && !fl.AtDataFwd? && fl.i in Frees(s, a)
  }

  lemma HeldStep(s: Sys, a: Act, r: Sys)
    requires Settled(s.m) && Enabled(s, a) && AllHeld(s.m, s.q) && r == Do(s, a)
    ensures AllHeld(r.m, r.q) <==> !FreesHeld(s, a)
  {
    HeldIff(s, a);
  }

  ghost predicate AlwaysHeld(ss: seq<Sys>, k: nat)
    requires k < |ss|
  {
    forall h :: 0 <= h <= k ==> AllHeld(ss[h].m, ss[h].q)
  }

  ghost predicate NeverFrees(ss: seq<Sys>, acts: seq<Act>, k: nat)
    requires k <= |acts| < |ss|
  {
    forall h :: 0 <= h < k ==> !FreesHeld(ss[h], acts[h])
  }

  /** The assertion of the source holds in all states of a run if and only if no step frees an index that an interest carries. */
  lemma {:induction false} HeldRunIff(ss: seq<Sys>, acts: seq<Act>, max: nat, k: nat)
    requires AnyRun(ss, acts, max) && k <= |acts|
    ensures AlwaysHeld(ss, k) <==> NeverFrees(ss, acts, k)
  {
    if k > 0 {
      HeldRunIff(ss, acts, max, k - 1);
      RunSettled(ss, acts, max, k - 1);
      if AlwaysHeld(ss, k - 1) { HeldStep(ss[k - 1], acts[k - 1], ss[k]); }
    }
  }

  // ---- interests that are forwarded ----

  /** What the node of an interest does with it: the next node, and the name and face of the interest. */
  function NodeResult(s: Sys, a: Act): (r: (Next, Name, FaceId))
    requires Settled(s.m) && Enabled(s, a) && (a.InterestAct? || a.HitPitAct? || a.HitCsAct?)
  {
    match a
    case InterestAct(n, f, t, lifetime, i, known) => (InterestLookup(s.m, n, f, t, lifetime, i, known).1, n, f)
    case HitPitAct(k, force) => (HitPit(s.m, s.q[k].i, s.q[k].f, force).1, s.q[k].n, s.q[k].f)
    case HitCsAct(k, t, ret) => (HitCs(s.m, s.q[k].i, t, ret).1, s.q[k].n, s.q[k].f)
  }

  /**
   PIT soundness: an interest that is forwarded has its face waiting for the data, if
   and only if it was not forwarded by hitcs.
   */
  lemma ForwardedWaitsIff(s: Sys, a: Act)
    requires Good(s) && Enabled(s, a) && (a.InterestAct? || a.HitPitAct? || a.HitCsAct?)
    requires NodeResult(s, a).0 == ToStrategy
    ensures
      var (next, n, f) := NodeResult(s, a);
      Settled(Do(s, a).m) && (f in Waiting(Contents(Do(s, a).m), n) <==> !a.HitCsAct?)
  {
    match a {
      case InterestAct(n, f, t, lifetime, i, known) => InterestEffect(s.m, n, f, t, lifetime, i, known);
      case HitPitAct(k, force) =>
        assert s.q[k] in s.q && Current(s.m, s.q[k]);
        HitPitContents(s.m, s.q[k].i, s.q[k].f, force);
      case HitCsAct(k, t, ret) =>
        assert s.q[k] in s.q && Current(s.m, s.q[k]);
        HitCsContents(s.m, s.q[k].i, t, ret);
    }
  }

  /** hitcs forwards exactly the interests that find an expired entry. */
  lemma HitCsForwardsIff(s: Sys, a: Act)
    requires Settled(s.m) && a.HitCsAct? && Enabled(s, a)
    ensures NodeResult(s, a).0 == ToStrategy <==> a.t > s.m.pool[s.q[a.k].i].expire
  {
  }
}
