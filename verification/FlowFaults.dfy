/**
 Flow balance with recycled indices: what each node does when the index a packet
 carries has come to stand for something else, and runs in which it does.
 */
module FlowFaults {
  import opened Types
  import opened Seqs
  import opened PcsModel
  import opened PcsStore
  import opened Pipeline
  import opened Flow
  import opened FlowIndices

  // ---- flow balance ----

  /** How many data packets of `n` face `f` could be sent beyond those it was sent, waits for or is about to ask for. */
  ghost function SpareOf(
    c: map<Name, Item>, q: seq<Flight>, received: multiset<(Name, FaceId)>, sent: multiset<(Name, FaceId)>, n: Name, f: FaceId): (k: int)
  {
    received[(n, f)] - sent[(n, f)] - Waiting(c, n)[f] - Demand(q, n, f)
  }

  ghost function Spare(s: Sys, n: Name, f: FaceId): (k: int)
    requires Indexed(s.m)
  {
    SpareOf(Contents(s.m), s.q, s.received, s.sent, n, f)
  }

  lemma HitPitBalancedIff(
    c: map<Name, Item>, q: seq<Flight>, k: nat, received: multiset<(Name, FaceId)>,
    sent: multiset<(Name, FaceId)>, p: Name, force: bool)
    requires Balanced(c, q, received, sent) && k < |q| && q[k].AtHitPit? && p in c && c[p].Pending?
    ensures Balanced(AfterHitPit(c, p, q[k].f, force), Cut(q, k), received, sent) <==>
      p == q[k].n || q[k].f in c[p].faces || SpareOf(c, q, received, sent, p, q[k].f) > 0
  {
    var fl, d := q[k], AfterHitPit(c, p, q[k].f, force);
    var spare := SpareOf(c, q, received, sent, p, fl.f) > 0;
    forall n, f
      ensures BalanceAt(d, Cut(q, k), received, sent, n, f) <==>
        n != p || f != fl.f || p == fl.n || fl.f in c[p].faces || spare
    {
      assert BalanceAt(c, q, received, sent, n, f);
      DemandCut(q, k, n, f);
      WaitingHit(c, p, fl.f, force, n, f);
    }
    assert Balanced(d, Cut(q, k), received, sent) ==> BalanceAt(d, Cut(q, k), received, sent, p, fl.f);
  }

  /** hitpit on the entry of another name breaks the balance exactly if it adds the face there and the face has nothing to spare. */
  lemma HitPitOnOtherName(s: Sys, a: Act)
    requires Settled(s.m) && Balance(s) && a.HitPitAct? && Enabled(s, a) && s.m.pool[s.q[a.k].i].Pending?
    ensures
      var fl := s.q[a.k];
      var entry := s.m.pool[fl.i];
      Settled(Do(s, a).m) &&
      (Balance(Do(s, a)) <==> entry.name == fl.n || fl.f in entry.faces || Spare(s, entry.name, fl.f) > 0)
  {
    var fl := s.q[a.k];
    HitPitContents(s.m, fl.i, fl.f, a.force);
    assert Do(s, a).q == Cut(s.q, a.k);
    HitPitBalancedIff(Contents(s.m), s.q, a.k, s.received, s.sent, s.m.pool[fl.i].name, a.force);
  }

  /** A reply with data of `p`, while the same faces wait. */
  lemma ReplyBalancedIff(
    c: map<Name, Item>, d: map<Name, Item>, q: seq<Flight>, k: nat, received: multiset<(Name, FaceId)>,
    sent: multiset<(Name, FaceId)>, p: Name)
    requires Balanced(c, q, received, sent) && k < |q| && q[k].AtHitCs?
    requires forall n :: Waiting(d, n) == Waiting(c, n)
    ensures Balanced(d, Cut(q, k), received, sent + multiset{(p, q[k].f)}) <==>
      p == q[k].n || SpareOf(c, q, received, sent, p, q[k].f) > 0
  {
    var fl, sent2 := q[k], sent + multiset{(p, q[k].f)};
    var spare := SpareOf(c, q, received, sent, p, fl.f) > 0;
    forall n, f
      ensures BalanceAt(d, Cut(q, k), received, sent2, n, f) <==> n != p || f != fl.f || p == fl.n || spare
    {
      assert BalanceAt(c, q, received, sent, n, f);
      DemandCut(q, k, n, f);
    }
    assert Balanced(d, Cut(q, k), received, sent2) ==> BalanceAt(d, Cut(q, k), received, sent2, p, fl.f);
  }

  /** The name hitcs replies with: that of the buffer it reads from an entry that has not expired, if it is one of a data packet. */
  function Replied(s: Sys, a: Act): (r: Option<Name>)
    requires a.HitCsAct? && a.k < |s.q| && s.q[a.k].i in s.m.pool
  {
    var entry := s.m.pool[s.q[a.k].i];
    if a.t <= entry.expire && BufferOf(entry) in s.bufs then Some(s.bufs[BufferOf(entry)]) else None
  }

  /**
   hitcs takes the entry at the index for a CS entry. The balance is lost exactly if
   it replies with data of another name than the one asked for, to a face that has
   nothing of that to spare.
   */
  lemma HitCsOnOtherName(s: Sys, a: Act)
    requires Settled(s.m) && Balance(s) && a.HitCsAct? && Enabled(s, a)
    ensures
      var fl, r := s.q[a.k], Replied(s, a);
      Settled(Do(s, a).m) && (Balance(Do(s, a)) <==> r.None? || r.value == fl.n || Spare(s, r.value, fl.f) > 0)
  {
    var m := HitCs(s.m, s.q[a.k].i, a.t, a.ret).0;
    HitCsPending(s.m, s.q[a.k].i, a.t, a.ret);
    var c, d := Contents(s.m), Contents(m);
    if Replied(s, a).None? {
      AnsweredBalanced(c, d, s.q, a.k, s.received, s.sent, false);
    } else {
      ReplyBalancedIff(c, d, s.q, a.k, s.received, s.sent, Replied(s, a).value);
    }
  }

  /** hitcs adds nothing to the PIT, and takes nothing from it when it replies. */
  lemma HitCsPending(m: Pcs, i: nat, t: real, ret: nat)
    requires Settled(m) && i in m.pool
    ensures
      var r := HitCs(m, i, t, ret).0;
      && Settled(r) && (forall n :: n in Contents(r) && Contents(r)[n].Pending? ==> n in Contents(m) && Contents(r)[n] == Contents(m)[n])
      && (t <= m.pool[i].expire ==> forall n :: Waiting(Contents(r), n) == Waiting(Contents(m), n))
  {
    HitCsContents(m, i, t, ret);
  }

  /** An unexpired PIT entry with faces is at the index. */
  predicate Serves(m: Pcs, i: nat, t: real) {
    i in m.pool && m.pool[i].Pending? && t <= m.pool[i].expire && m.pool[i].faces != []
  }

  /** Data `q[k].n` goes to `faces`, which waited for `p`. */
  lemma MisservedBalancedIff(
    c: map<Name, Item>, d: map<Name, Item>, q: seq<Flight>, k: nat, received: multiset<(Name, FaceId)>,
    sent: multiset<(Name, FaceId)>, p: Name, buf: nat, faces: seq<FaceId>)
    requires Balanced(c, q, received, sent) && k < |q| && q[k].AtDataFwd? && AfterData(c, d, p, buf) && p != q[k].n
    ensures Balanced(d, Cut(q, k), received, sent + Copies(q[k].n, faces)) <==>
      forall g :: multiset(faces)[g] <= SpareOf(c, q, received, sent, q[k].n, g)
  {
    var n, sent2 := q[k].n, sent + Copies(q[k].n, faces);
    forall x, g
      ensures BalanceAt(d, Cut(q, k), received, sent2, x, g) <==>
        x != n || multiset(faces)[g] <= SpareOf(c, q, received, sent, n, g)
    {
      assert BalanceAt(c, q, received, sent, x, g);
      DemandCut(q, k, x, g);
      CopiesCount(n, faces, x, g);
      assert x != p ==> Waiting(d, x) == Waiting(c, x);
    }
    if Balanced(d, Cut(q, k), received, sent2) {
      forall g
        ensures multiset(faces)[g] <= SpareOf(c, q, received, sent, n, g)
      {
        assert BalanceAt(d, Cut(q, k), received, sent2, n, g);
      }
    }
  }

  /**
   data_fwd acts on the entry at the index: the balance is lost exactly if that serves
   faces of another name of which one is sent more than it has to spare.
   */
  lemma FwdOnOtherName(s: Sys, a: Act)
    requires Settled(s.m) && Balance(s) && a.FwdAct? && Enabled(s, a)
    ensures
      var fl := s.q[a.k];
      Settled(Do(s, a).m) &&
      (Balance(Do(s, a)) <==>
        || !Serves(s.m, fl.i, a.t) || s.m.pool[fl.i].name == fl.n
        || forall g :: multiset(s.m.pool[fl.i].faces)[g] <= Spare(s, fl.n, g))
  {
    var fl := s.q[a.k];
    DataFwdEffect(s.m, fl.i, a.t, a.lifetime, fl.buf);
    if Serves(s.m, fl.i, a.t) && s.m.pool[fl.i].name != fl.n {
      var (m, faces) := DataFwd(s.m, fl.i, a.t, a.lifetime, fl.buf);
      MisservedBalancedIff(
        Contents(s.m), Contents(m), s.q, a.k, s.received, s.sent, s.m.pool[fl.i].name, fl.buf, faces);
    } else {
      FwdStaysBalanced(s, a);
    }
  }

  lemma FwdStaysBalanced(s: Sys, a: Act)
    requires Settled(s.m) && Balance(s) && a.FwdAct? && Enabled(s, a)
    requires var fl := s.q[a.k]; !Serves(s.m, fl.i, a.t) || s.m.pool[fl.i].name == fl.n
    ensures Settled(Do(s, a).m) && Balance(Do(s, a))
  {
    var fl := s.q[a.k];
    if Serves(s.m, fl.i, a.t) || fl.i !in s.m.pool || s.m.pool[fl.i].Cached? {
      if fl.i in s.m.pool && s.m.pool[fl.i].Cached? { FwdOnCached(s, a); } else { FwdKeepsBalance(s, a); }
    } else {
      FwdServesNobody(s, a);
    }
  }

  lemma FwdOnCached(s: Sys, a: Act)
    requires Settled(s.m) && Balance(s) && a.FwdAct? && Enabled(s, a)
    requires s.q[a.k].i in s.m.pool && s.m.pool[s.q[a.k].i].Cached?
    ensures Settled(Do(s, a).m) && Balance(Do(s, a))
  {
    ServedBalanced(Contents(s.m), Contents(s.m), s.q, a.k, s.received, s.sent, 0, []);
  }

  /** An expired entry, or one without faces, goes away, whatever its name. */
  lemma FwdServesNobody(s: Sys, a: Act)
    requires Settled(s.m) && Balance(s) && a.FwdAct? && Enabled(s, a)
    requires var fl := s.q[a.k]; fl.i in s.m.pool && s.m.pool[fl.i].Pending? && !Serves(s.m, fl.i, a.t)
    ensures Settled(Do(s, a).m) && Balance(Do(s, a))
  {
    var fl, n := s.q[a.k], s.m.pool[s.q[a.k].i].name;
    assert Inserted(s.m, fl.i);
    SettledRemove(s.m, n);
    GoneBalanced(Contents(s.m), s.q, a.k, s.received, s.sent, n);
  }

  lemma GoneBalanced(
    c: map<Name, Item>, q: seq<Flight>, k: nat, received: multiset<(Name, FaceId)>, sent: multiset<(Name, FaceId)>, n: Name)
    requires Balanced(c, q, received, sent) && k < |q| && q[k].AtDataFwd?
    ensures Balanced(c - {n}, Cut(q, k), received, sent + Copies(q[k].n, []))
  {
    forall x, g
      ensures BalanceAt(c - {n}, Cut(q, k), received, sent + Copies(q[k].n, []), x, g)
    {
      assert BalanceAt(c, q, received, sent, x, g);
      DemandCut(q, k, x, g);
    }
  }

  /** With a lifetime data_fwd also poisons the cache: the entry then answers its name with the data of another. */
  lemma FwdPoisonsCache(s: Sys, a: Act)
    requires Settled(s.m) && CsNamed(Contents(s.m), s.bufs) && a.FwdAct? && Enabled(s, a) && a.lifetime != 0
    requires var fl := s.q[a.k]; Serves(s.m, fl.i, a.t) && FlightNamed(fl, s.bufs)
    ensures
      var fl, r := s.q[a.k], Do(s, a);
      && Settled(r.m)
      && (fl.i in r.m.pool ==> (CsNamed(Contents(r.m), r.bufs) <==> s.m.pool[fl.i].name == fl.n))
  {
    var fl, m := s.q[a.k], Do(s, a).m;
    DataFwdEffect(s.m, fl.i, a.t, a.lifetime, fl.buf);
    if fl.i in m.pool {
      var p := s.m.pool[fl.i].name;
      assert Inserted(m, fl.i) && m.pool[fl.i].name == p;
      PoisonedIff(Contents(s.m), Contents(m), s.bufs, p, fl.buf);
    }
  }

  lemma PoisonedIff(c: map<Name, Item>, d: map<Name, Item>, bufs: map<nat, Name>, p: Name, buf: nat)
    requires CsNamed(c, bufs) && AfterData(c, d, p, buf) && p in d && buf in bufs
    ensures CsNamed(d, bufs) <==> bufs[buf] == p
  {
  }

  const FIRST: Name := Name(0, 0, 1)
  const SECOND: Name := Name(0, 0, 2)

  /** A PIT/CS of capacity 1 with one pending entry at index 0. */
  function OnePending(n: Name, faces: seq<FaceId>): (m: Pcs) {
    Pcs(map[n := 0], map[0 := Pending(n, 1, 1.0, faces)], [], 1)
  }

  lemma OnePendingSettled(n: Name, faces: seq<FaceId>)
    ensures Settled(OnePending(n, faces))
  {
  }

  lemma FirstInterest(n: Name, f: FaceId)
    ensures InterestLookup(Empty(1), n, f, 0.0, 1000, 0, true) == (OnePending(n, [f]), ToStrategy)
  {
    var m := InterestLookup(Empty(1), n, f, 0.0, 1000, 0, true).0;
    assert m.pool[0].faces == [f];
    assert m.pool[0] == Pending(n, 1, 1.0, [f]);
    assert m.pool == map[0 := Pending(n, 1, 1.0, [f])];
  }

  lemma LoneEntryGone(n: Name, faces: seq<FaceId>)
    ensures Settled(OnePending(n, faces)) && Unlock(OnePending(n, faces), 0) == Empty(1)
  {
    assert OnePending(n, faces).pool - {0} == map[];
    assert OnePending(n, faces).table - {n} == map[];
  }

  /** The acts of a run in which an index is recycled while a packet holds it. */
  function RecyclingAct(k: nat): (a: Act) {
    if k == 0 then InterestAct(FIRST, 1, 0.0, 1000, 0, true)
    else if k == 1 then InterestAct(FIRST, 2, 0.0, 1000, 5, true)
    else if k == 2 then DataAct(FIRST, 7, true, 0)
    else if k == 3 then FwdAct(1, 0.0, 0)
    else if k == 4 then InterestAct(SECOND, 1, 0.0, 1000, 0, true)
    else HitPitAct(0, false)
  }

  /** The states of that run: face 2 ends up waiting for a name it never asked for. */
  function RecyclingState(k: nat): (s: Sys) {
    var one, two := AtHitPit(FIRST, 2, 0), AtDataFwd(FIRST, 0, 7);
    var asked := multiset{(FIRST, 1)} + multiset{(FIRST, 2)};
    if k == 0 then Init(1)
    else if k == 1 then Sys(OnePending(FIRST, [1]), [], map[], multiset{(FIRST, 1)}, multiset{})
    else if k == 2 then Sys(OnePending(FIRST, [1]), [one], map[], asked, multiset{})
    else if k == 3 then Sys(OnePending(FIRST, [1]), [one, two], map[7 := FIRST], asked, multiset{})
    else if k == 4 then Sys(Empty(1), [one], map[7 := FIRST], asked, multiset{(FIRST, 1)})
    else if k == 5 then
      Sys(OnePending(SECOND, [1]), [one], map[7 := FIRST], asked + multiset{(SECOND, 1)}, multiset{(FIRST, 1)})
    else Sys(OnePending(SECOND, [1, 2]), [], map[7 := FIRST], asked + multiset{(SECOND, 1)}, multiset{(FIRST, 1)})
  }

  ghost predicate Leads(s: Sys, a: Act, r: Sys) {
    Settled(s.m) && Enabled(s, a) && Do(s, a) == r
  }

  ghost predicate RecyclingStep(k: nat) {
    Leads(RecyclingState(k), RecyclingAct(k), RecyclingState(k + 1))
  }

  lemma RecyclingFirst()
    ensures RecyclingStep(0)
  {
    FirstInterest(FIRST, 1);
  }

  lemma RecyclingSecond()
    ensures RecyclingStep(1)
  {
    OnePendingSettled(FIRST, [1]);
  }

  lemma RecyclingReuse()
    ensures RecyclingStep(4)
  {
    FirstInterest(SECOND, 1);
  }

  lemma RecyclingData(k: nat)
    requires k in {2, 3}
    ensures RecyclingStep(k)
  {
    LoneEntryGone(FIRST, [1]);
    var s := RecyclingState(3);
    assert Cut(s.q, 1) == RecyclingState(4).q;
    assert Copies(FIRST, [1]) == multiset{(FIRST, 1)};
  }

  lemma RecyclingHit()
    ensures RecyclingStep(5)
  {
    OnePendingSettled(SECOND, [1]);
    var s := RecyclingState(5);
    assert Cut(s.q, 0) + [] == [];
    assert [1] + [2] == [1, 2];
    assert s.m.pool[0 := Pending(SECOND, 1, 1.0, [1, 2])] == OnePending(SECOND, [1, 2]).pool;
  }

  /**
   Why the condition on recycled indices is needed: in this reachable run every
   step is enabled, only the fifth recycles an index, and the balance is lost.
   */
  lemma RecycledIndexBreaksBalance()
    ensures RecyclingState(0) == Init(1)
    ensures forall k: nat :: k < 6 ==> RecyclingStep(k)
    ensures Settled(RecyclingState(6).m) && !Balance(RecyclingState(6))
  {
    forall k: nat | k < 6
      ensures RecyclingStep(k)
    {
      if k == 0 { RecyclingFirst(); }
      else if k == 1 { RecyclingSecond(); }
      else if k == 4 { RecyclingReuse(); }
      else if k == 5 { RecyclingHit(); }
      else { RecyclingData(k); }
    }
    OnePendingSettled(SECOND, [1, 2]);
    var s := RecyclingState(6);
    assert Contents(s.m)[SECOND] == Pending(SECOND, 1, 1.0, [1, 2]);
    assert !BalanceAt(Contents(s.m), s.q, s.received, s.sent, SECOND, 2);
  }

  /** In that run hitpit is left with an index that is free, which the source asserts cannot be. */
  lemma FreedIndexAtHitPit()
    ensures
      var s := RecyclingState(4);
      |s.q| == 1 && s.q[0].AtHitPit? && s.q[0].i !in s.m.pool
  {
  }

  /** The step that freed it: data_fwd without a lifetime, on the index the interest carries. */
  lemma FreedByForwarding()
    ensures RecyclingStep(3) && AllHeld(RecyclingState(3).m, RecyclingState(3).q)
    ensures Frees(RecyclingState(3), RecyclingAct(3)) == {0} && !AllHeld(RecyclingState(4).m, RecyclingState(4).q)
  {
    RecyclingData(3);
  }

  // ---- a run in which hitcs takes a PIT entry of the same name for a CS entry ----

  lemma {:induction false} BitmapWordEmpty(faces: seq<FaceId>, k: nat)
    requires forall f :: f in faces ==> f < k
    ensures BitmapWord(faces, k) == 0
    decreases 32 - k
  {
    if k < 32 { BitmapWordEmpty(faces, k + 1); }
  }

  lemma BitmapOfFaceZero()
    ensures BitmapWord([0], 0) == 1
  {
    BitmapWordEmpty([0], 1);
  }

  function MistakenAct(k: nat): (a: Act) {
    if k == 0 then InterestAct(FIRST, 0, 0.0, 1000, 0, true)
    else if k == 1 then InterestAct(SECOND, 5, 0.0, 1000, 1, true)
    else if k == 2 then DataAct(FIRST, 7, true, 0)
    else if k == 3 then FwdAct(0, 0.0, 1000)
    else if k == 4 then InterestAct(FIRST, 1, 0.0, 1000, 9, true)
    else if k == 5 then InterestAct(FIRST, 0, 2.0, 1000, 0, true)
    else if k == 6 then DataAct(SECOND, 1, true, 0)
    else HitCsAct(0, 2.0, 1)
  }

  /** FIRST at index 0 as `item`, SECOND pending at index 1. */
  function TwoEntries(item: Item, lru: seq<nat>): (m: Pcs) {
    Pcs(map[FIRST := 0, SECOND := 1], map[0 := item, 1 := Pending(SECOND, 1, 1.0, [5])], lru, 1)
  }

  /** FIRST is cached, expires while a packet is on its way to hitcs, and is pending again at the same index. */
  function MistakenState(k: nat): (s: Sys) {
    var held, data, other := AtHitCs(FIRST, 1, 0), AtDataFwd(FIRST, 0, 7), AtDataFwd(SECOND, 1, 1);
    var two := multiset{(FIRST, 0)} + multiset{(SECOND, 5)};
    var three := two + multiset{(FIRST, 1)};
    var four := three + multiset{(FIRST, 0)};
    var once := multiset{(FIRST, 0)};
    var pending, cached, again := Pending(FIRST, 1, 1.0, [0]), Cached(FIRST, 1, 1.0, 7), Pending(FIRST, 1, 3.0, [0]);
    if k == 0 then Init(1)
    else if k == 1 then Sys(OnePending(FIRST, [0]), [], map[], once, multiset{})
    else if k == 2 then Sys(TwoEntries(pending, []), [], map[], two, multiset{})
    else if k == 3 then Sys(TwoEntries(pending, []), [data], map[7 := FIRST], two, multiset{})
    else if k == 4 then Sys(TwoEntries(cached, [0]), [], map[7 := FIRST], two, once)
    else if k == 5 then Sys(TwoEntries(cached, [0]), [held], map[7 := FIRST], three, once)
    else if k == 6 then Sys(TwoEntries(again, []), [held], map[7 := FIRST], four, once)
    else if k == 7 then Sys(TwoEntries(again, []), [held, other], map[7 := FIRST, 1 := SECOND], four, once)
    else Sys(TwoEntries(again, []), [other], map[7 := FIRST, 1 := SECOND], four, once + multiset{(SECOND, 1)})
  }

  lemma TwoEntriesSettled(item: Item, lru: seq<nat>)
    requires item.name == FIRST && item.locks == 1 && lru == if item.Cached? then [0] else []
    ensures Settled(TwoEntries(item, lru))
  {
  }

  lemma NewInterestIs(m: Pcs, n: Name, f: FaceId, t: real, lifetime: nat, i: nat)
    ensures NewInterest(m, n, f, t, lifetime, i, true) ==
      (m.(table := m.table[n := i], pool := m.pool[i := Pending(n, 1, ExpTime(t, lifetime), [f])]), ToStrategy)
  {
    var r := NewInterest(m, n, f, t, lifetime, i, true).0;
    assert r.pool[i].faces == [f];
    assert r.pool == m.pool[i := Pending(n, 1, ExpTime(t, lifetime), [f])];
  }

  lemma InterestStep(s: Sys, n: Name, f: FaceId, t: real, lifetime: nat, i: nat, r: Pcs)
    requires Settled(s.m) && Available(s.m, n, t, i)
    requires InterestLookup(s.m, n, f, t, lifetime, i, true) == (r, ToStrategy)
    ensures var a := InterestAct(n, f, t, lifetime, i, true);
      Enabled(s, a) && Do(s, a) == s.(m := r, received := s.received + multiset{(n, f)})
  {
    assert s.q + [] == s.q;
  }

  /** One step of the run of the mistaken entry. */
  ghost predicate MistakenStep(k: nat) {
    Leads(MistakenState(k), MistakenAct(k), MistakenState(k + 1))
  }

  lemma MistakenFirst()
    ensures MistakenStep(0)
  {
    FirstInterest(FIRST, 0);
  }

  lemma MistakenSecond()
    ensures MistakenStep(1)
  {
    var m := OnePending(FIRST, [0]);
    OnePendingSettled(FIRST, [0]);
    NewInterestIs(m, SECOND, 5, 0.0, 1000, 1);
    assert m.pool[1 := Pending(SECOND, 1, 1.0, [5])] == TwoEntries(Pending(FIRST, 1, 1.0, [0]), []).pool;
    assert m.table[SECOND := 1] == TwoEntries(Pending(FIRST, 1, 1.0, [0]), []).table;
  }

  lemma MistakenData()
    ensures MistakenStep(2)
  {
    TwoEntriesSettled(Pending(FIRST, 1, 1.0, [0]), []);
  }

  lemma MistakenOther()
    ensures MistakenStep(6)
  {
    TwoEntriesSettled(Pending(FIRST, 1, 3.0, [0]), []);
    assert MistakenState(6).bufs[1 := SECOND] == MistakenState(7).bufs;
  }

  lemma ForwardedFirst(m: Pcs)
    requires m == TwoEntries(Pending(FIRST, 1, 1.0, [0]), [])
    ensures Settled(m) && DataFwd(m, 0, 0.0, 1000, 7) == (TwoEntries(Cached(FIRST, 1, 1.0, 7), [0]), [0])
  {
    TwoEntriesSettled(m.pool[0], []);
    var m1 := Converted(m, 0, 7).(lru := [0]);
    assert ToCs(m, 0, 7) == m1;
    assert SetExpire(m1, 0, 1.0) == TwoEntries(Cached(FIRST, 1, 1.0, 7), [0]);
  }

  lemma ForwardedStep(s: Sys, r: Sys)
    requires s.m == TwoEntries(Pending(FIRST, 1, 1.0, [0]), []) && s.q == [AtDataFwd(FIRST, 0, 7)]
    requires r == s.(m := TwoEntries(Cached(FIRST, 1, 1.0, 7), [0]), q := [], sent := s.sent + multiset{(FIRST, 0)})
    ensures Leads(s, FwdAct(0, 0.0, 1000), r)
  {
    ForwardedFirst(s.m);
    assert Copies(FIRST, [0]) == multiset{(FIRST, 0)};
    assert Cut(s.q, 0) == [];
  }

  lemma MistakenForward(k: nat)
    requires k == 3
    ensures MistakenStep(k)
  {
    var s, r := MistakenState(k), MistakenState(k + 1);
    assert r == s.(m := TwoEntries(Cached(FIRST, 1, 1.0, 7), [0]), q := [], sent := s.sent + multiset{(FIRST, 0)});
    ForwardedStep(s, r);
  }

  lemma MistakenHold()
    ensures MistakenStep(4)
  {
    TwoEntriesSettled(Cached(FIRST, 1, 1.0, 7), [0]);
    assert Touch(MistakenState(4).m, 0) == MistakenState(4).m;
  }

  function OneLeft(): (m: Pcs) {
    Pcs(map[SECOND := 1], map[1 := Pending(SECOND, 1, 1.0, [5])], [], 1)
  }

  lemma MistakenExpunged()
    ensures
      var m := TwoEntries(Cached(FIRST, 1, 1.0, 7), [0]);
      Settled(m) && Expunged(m, FIRST) == OneLeft()
  {
    var item := Cached(FIRST, 1, 1.0, 7);
    TwoEntriesSettled(item, [0]);
    assert Touch(TwoEntries(item, [0]), 0) == TwoEntries(item, [0]);
    FirstUnlocked(item);
  }

  lemma FirstUnlocked(item: Item)
    requires item.name == FIRST && item.locks == 1
    ensures Unlock(TwoEntries(item, [0]), 0) == OneLeft()
  {
    var r := Unlock(TwoEntries(item, [0]), 0);
    assert r.pool == OneLeft().pool && r.table == OneLeft().table && r.lru == [];
  }

  lemma FreshLookupIs(m: Pcs, e: Pcs, n: Name, f: FaceId, t: real, lifetime: nat, i: nat)
    requires Settled(m) && Fresh(m, n, t) && Expunged(m, n) == e && i !in e.pool
    ensures Available(m, n, t, i)
    ensures InterestLookup(m, n, f, t, lifetime, i, true) ==
      (e.(table := e.table[n := i], pool := e.pool[i := Pending(n, 1, ExpTime(t, lifetime), [f])]), ToStrategy)
  {
    FreshLookup(m, n, f, t, lifetime, i, true);
    NewInterestIs(e, n, f, t, lifetime, i);
  }

  lemma OneLeftRefilled()
    ensures
      var e, r := OneLeft(), TwoEntries(Pending(FIRST, 1, 3.0, [0]), []);
      e.(table := e.table[FIRST := 0], pool := e.pool[0 := Pending(FIRST, 1, 3.0, [0])]) == r
  {
    assert OneLeft().pool[0 := Pending(FIRST, 1, 3.0, [0])] == TwoEntries(Pending(FIRST, 1, 3.0, [0]), []).pool;
  }

  /** The cached entry has expired; the new entry gets its index. */
  lemma RecycledFirst(s: Sys, r: Sys)
    requires s.m == TwoEntries(Cached(FIRST, 1, 1.0, 7), [0])
    requires r == s.(m := TwoEntries(Pending(FIRST, 1, 3.0, [0]), []), received := s.received + multiset{(FIRST, 0)})
    ensures Leads(s, InterestAct(FIRST, 0, 2.0, 1000, 0, true), r)
  {
    MistakenExpunged();
    FreshLookupIs(s.m, OneLeft(), FIRST, 0, 2.0, 1000, 0);
    OneLeftRefilled();
    InterestStep(s, FIRST, 0, 2.0, 1000, 0, r.m);
  }

  lemma MistakenRecycle(k: nat)
    requires k == 5
    ensures MistakenStep(k)
  {
    var s, r := MistakenState(k), MistakenState(k + 1);
    assert r == s.(m := TwoEntries(Pending(FIRST, 1, 3.0, [0]), []), received := s.received + multiset{(FIRST, 0)});
    RecycledFirst(s, r);
  }

  lemma MistakenReply()
    ensures MistakenStep(7)
  {
    var s := MistakenState(7);
    TwoEntriesSettled(s.m.pool[0], []);
    BitmapOfFaceZero();
    assert BufferOf(s.m.pool[0]) == 1;
    assert Cut(s.q, 0) == MistakenState(8).q;
    assert s.bufs[1 := SECOND] == s.bufs;
  }

  /**
   Why packets at hitcs count even for the same name: in this reachable run the
   cached entry of FIRST expires while a packet is on its way to hitcs, FIRST is
   pending again at its index, and hitcs reads the bitmap as a buffer: face 1 is
   sent data it never asked for.
   */
  lemma MistakenEntryBreaksBalance()
    ensures MistakenState(0) == Init(1)
    ensures forall k: nat :: k < 8 ==> MistakenStep(k)
    ensures Settled(MistakenState(8).m) && !Balance(MistakenState(8))
  {
    forall k: nat | k < 8
      ensures MistakenStep(k)
    {
      if k == 2 { MistakenData(); }
      else if k == 6 { MistakenOther(); }
      else if k == 0 { MistakenFirst(); }
      else if k == 1 { MistakenSecond(); }
      else if k == 3 { MistakenForward(k); }
      else if k == 4 { MistakenHold(); }
      else if k == 5 { MistakenRecycle(k); }
      else { MistakenReply(); }
    }
    var s := MistakenState(8);
    TwoEntriesSettled(s.m.pool[0], []);
    assert !BalanceAt(Contents(s.m), s.q, s.received, s.sent, SECOND, 1);
  }

  lemma ExpiredHit(s: Sys, a: Act)
    requires s.m == TwoEntries(Cached(FIRST, 1, 1.0, 7), [0]) && s.q == [AtHitCs(FIRST, 1, 0)] && a == HitCsAct(0, 2.0, 7)
    ensures
      && Settled(s.m) && Enabled(s, a) && NodeResult(s, a) == (ToStrategy, FIRST, 1)
      && Do(s, a).m == OneLeft() && Waiting(Contents(OneLeft()), FIRST) == multiset{}
  {
    TwoEntriesSettled(Cached(FIRST, 1, 1.0, 7), [0]);
    FirstUnlocked(Cached(FIRST, 1, 1.0, 7));
  }

  /** From the fifth state of that run, when the entry has expired, hitcs may forward the interest: nothing waits for the data then. */
  lemma ExpiredHitForwarded(s: Sys, a: Act)
    requires s == MistakenState(5) && a == HitCsAct(0, 2.0, 7)
    ensures MistakenState(0) == Init(1) && forall k: nat :: k < 5 ==> MistakenStep(k)
    ensures Settled(s.m) && Enabled(s, a) && NodeResult(s, a) == (ToStrategy, FIRST, 1)
    ensures Do(s, a).m == OneLeft() && Waiting(Contents(OneLeft()), FIRST) == multiset{}
  {
    MistakenEntryBreaksBalance();
    ExpiredHit(s, a);
  }
}
