/**
 Flow balance: over every run of the packet pipeline no face is sent more data
 packets of a name than interests for that name arrived on it.
 */
module Flow {
  import opened Types
  import opened Seqs
  import opened PcsModel
  import opened PcsStore
  import opened Pipeline
  import PitFaces

  /** A packet between its lookup and the node that acts on the index found. */
  datatype Flight =
    | AtHitPit(n: Name, f: FaceId, i: nat)
    | AtHitCs(n: Name, f: FaceId, i: nat)
    | AtDataFwd(n: Name, i: nat, buf: nat)

  /** The forwarder, and the history of what each face sent and was sent. `bufs` names the data in each buffer. */
  datatype Sys = Sys(
    m: Pcs, q: seq<Flight>, bufs: map<nat, Name>,
    received: multiset<(Name, FaceId)>, sent: multiset<(Name, FaceId)>)

  datatype Act =
    | InterestAct(n: Name, f: FaceId, t: real, lifetime: nat, i: nat, known: bool)
    | HitPitAct(k: nat, force: bool)
    | HitCsAct(k: nat, t: real, ret: nat)
    | DataAct(n: Name, buf: nat, known: bool, stale: nat)
    | FwdAct(k: nat, t: real, lifetime: nat)

  function Init(max: nat): (s: Sys) {
    Sys(Empty(max), [], map[], multiset{}, multiset{})
  }

  /** What a flight becomes: it is dropped, or goes on with an index. */
  function Onward(n: Name, f: FaceId, next: Next): (r: seq<Flight>) {
    match next
    case ToHitPit(i) => [AtHitPit(n, f, i)]
    case ToHitCs(i) => [AtHitCs(n, f, i)]
    case _ => []
  }

  /** The copies of data `n` sent to each face of the list. */
  function Copies(n: Name, faces: seq<FaceId>): (r: multiset<(Name, FaceId)>) {
    if faces == [] then multiset{} else multiset{(n, faces[0])} + Copies(n, faces[1..])
  }

  /**
   When a node can act: its packet is there and, for interests, its entry is
   still allocated, which the source asserts. The store keeps the buffer it had,
   or a copy in a buffer not used before.
   */
  ghost predicate Enabled(s: Sys, a: Act)
    requires Settled(s.m)
  {
    match a
    case InterestAct(n, f, t, lifetime, i, known) => Available(s.m, n, t, i)
    case HitPitAct(k, force) => k < |s.q| && s.q[k].AtHitPit? && s.q[k].i in s.m.pool
    case HitCsAct(k, t, ret) =>
      && k < |s.q| && s.q[k].AtHitCs? && s.q[k].i in s.m.pool
      && (ret == BufferOf(s.m.pool[s.q[k].i]) || (ret !in s.bufs && s.m.pool[s.q[k].i].Cached?))
    case DataAct(n, buf, known, stale) => buf !in s.bufs
    case FwdAct(k, t, lifetime) => k < |s.q| && s.q[k].AtDataFwd?
  }

  function Do(s: Sys, a: Act): (r: Sys)
    requires Settled(s.m) && Enabled(s, a)
  {
    match a
    case InterestAct(n, f, t, lifetime, i, known) =>
      var (m, next) := InterestLookup(s.m, n, f, t, lifetime, i, known);
      s.(m := m, q := s.q + Onward(n, f, next), received := s.received + multiset{(n, f)})
    case HitPitAct(k, force) =>
      var fl := s.q[k];
      var (m, next) := HitPit(s.m, fl.i, fl.f, force);
      s.(m := m, q := Cut(s.q, k) + Onward(fl.n, fl.f, next))
    case HitCsAct(k, t, ret) =>
      var fl := s.q[k];
      var (m, next) := HitCs(s.m, fl.i, t, ret);
      var data := next.Reply? && next.buf in s.bufs;
      s.(m := m, q := Cut(s.q, k), bufs := if data then s.bufs[ret := s.bufs[next.buf]] else s.bufs,
         sent := s.sent + if data then multiset{(s.bufs[next.buf], fl.f)} else multiset{})
    case DataAct(n, buf, known, stale) =>
      var (m, next) := DataLookup(s.m, n, known, stale);
      s.(m := m, q := s.q + (if next.ToDataFwd? then [AtDataFwd(n, next.i, buf)] else []), bufs := s.bufs[buf := n])
    case FwdAct(k, t, lifetime) =>
      var fl := s.q[k];
      var (m, faces) := DataFwd(s.m, fl.i, t, lifetime, fl.buf);
      s.(m := m, q := Cut(s.q, k), sent := s.sent + Copies(fl.n, faces))
  }

  // ---- the invariant ----

  /** The index a packet carries is free, or still stands for the packet's name. */
  ghost predicate Current(m: Pcs, fl: Flight) {
    fl.i in m.pool ==> m.pool[fl.i].name == fl.n && (fl.AtHitCs? ==> m.pool[fl.i].Cached?)
  }

  ghost function Waiting(c: map<Name, Item>, n: Name): (r: multiset<FaceId>) {
    if n in c && c[n].Pending? then multiset(c[n].faces) else multiset{}
  }

  /** The interests of face `f` for `n` among the packets in flight. */
  ghost function Demand(q: seq<Flight>, n: Name, f: FaceId): (r: nat) {
    if q == [] then 0 else Asks(q[0], n, f) + Demand(q[1..], n, f)
  }

  ghost function Asks(fl: Flight, n: Name, f: FaceId): (r: nat) {
    if !fl.AtDataFwd? && fl.n == n && fl.f == f then 1 else 0
  }

  /** Of contents `c` and flights `q`: what face `f` was sent of `n`, and may still be, is what it asked for. */
  ghost predicate BalanceAt(
    c: map<Name, Item>, q: seq<Flight>, received: multiset<(Name, FaceId)>, sent: multiset<(Name, FaceId)>, n: Name, f: FaceId)
  {
    sent[(n, f)] + Waiting(c, n)[f] + Demand(q, n, f) <= received[(n, f)]
  }

  ghost predicate Balanced(
    c: map<Name, Item>, q: seq<Flight>, received: multiset<(Name, FaceId)>, sent: multiset<(Name, FaceId)>)
  {
    forall n, f :: BalanceAt(c, q, received, sent, n, f)
  }

  ghost predicate Balance(s: Sys)
    requires Indexed(s.m)
  {
    Balanced(Contents(s.m), s.q, s.received, s.sent)
  }

  ghost predicate CsNamed(c: map<Name, Item>, bufs: map<nat, Name>) {
    forall n :: n in c && c[n].Cached? ==> c[n].buf in bufs && bufs[c[n].buf] == n
  }

  /** What a data packet on its way to data_fwd carries. */
  ghost predicate FlightNamed(fl: Flight, bufs: map<nat, Name>) {
    fl.AtDataFwd? ==> fl.buf in bufs && bufs[fl.buf] == fl.n
  }

  ghost predicate Good(s: Sys) {
    && Settled(s.m)
    && (forall fl :: fl in s.q ==> Current(s.m, fl) && FlightNamed(fl, s.bufs))
    && CsNamed(Contents(s.m), s.bufs)
    && Balance(s)
  }

  /**
   No index is handed out, or left in a packet, that stands for something else:
   packets that carry the index of a new entry are for its name and not at hitcs.
   */
  ghost predicate Unrecycled(s: Sys, a: Act)
    requires Indexed(s.m)
  {
    && (a.InterestAct? && a.known && Fresh(s.m, a.n, a.t) ==>
          forall fl :: fl in s.q && fl.i == a.i ==> fl.n == a.n && !fl.AtHitCs?)
    && (a.DataAct? && !a.known && a.n in s.m.table ==> Current(s.m, AtDataFwd(a.n, a.stale, a.buf)))
  }

  lemma {:induction false} DemandAppend(q: seq<Flight>, r: seq<Flight>, n: Name, f: FaceId)
    ensures Demand(q + r, n, f) == Demand(q, n, f) + Demand(r, n, f)
  {
    if q == [] {
      assert q + r == r;
    } else {
      DemandAppend(q[1..], r, n, f);
      assert (q + r)[1..] == q[1..] + r;
    }
  }

  lemma DemandCut(q: seq<Flight>, k: nat, n: Name, f: FaceId)
    requires k < |q|
    ensures Demand(q, n, f) == Demand(Cut(q, k), n, f) + Asks(q[k], n, f)
  {
    assert q == q[..k] + ([q[k]] + q[k + 1..]);
    DemandAppend(q[..k], [q[k]] + q[k + 1..], n, f);
    DemandAppend([q[k]], q[k + 1..], n, f);
    DemandAppend(q[..k], q[k + 1..], n, f);
  }

  lemma {:induction false} CopiesCount(n: Name, faces: seq<FaceId>, x: Name, f: FaceId)
    ensures Copies(n, faces)[(x, f)] == if x == n then multiset(faces)[f] else 0
  {
    if faces != [] {
      CopiesCount(n, faces[1..], x, f);
      assert faces == [faces[0]] + faces[1..];
    }
  }

  // ---- how each step moves the balance ----

  lemma WaitingEntered(c: map<Name, Item>, item: Item, f: FaceId, x: Name, g: FaceId)
    requires item.Pending? && item.faces == [f]
    ensures Waiting((c - {item.name})[item.name := item], x)[g] <=
      Waiting(c, x)[g] + (if x == item.name && g == f then 1 else 0)
  {
  }

  lemma InterestBalanced(
    c: map<Name, Item>, d: map<Name, Item>, q: seq<Flight>, received: multiset<(Name, FaceId)>,
    sent: multiset<(Name, FaceId)>, n: Name, f: FaceId, next: Next, e: real)
    requires Balanced(c, q, received, sent) && InterestChange(c, d, n, f, next, e)
    ensures Balanced(d, q + Onward(n, f, next), received + multiset{(n, f)}, sent)
  {
    forall x, g
      ensures BalanceAt(d, q + Onward(n, f, next), received + multiset{(n, f)}, sent, x, g)
    {
      assert BalanceAt(c, q, received, sent, x, g);
      DemandAppend(q, Onward(n, f, next), x, g);
      WaitingEntered(c, Pending(n, 1, e, [f]), f, x, g);
    }
  }

  /** The contents after hitpit on the pending entry of `n`. */
  ghost function AfterHitPit(c: map<Name, Item>, n: Name, f: FaceId, force: bool): (d: map<Name, Item>)
    requires n in c && c[n].Pending?
  {
    c[n := c[n].(faces := PitFaces.AfterHit(c[n].faces, f, force, false))]
  }

  lemma HitPitBalanced(
    c: map<Name, Item>, q: seq<Flight>, k: nat, received: multiset<(Name, FaceId)>,
    sent: multiset<(Name, FaceId)>, force: bool)
    requires Balanced(c, q, received, sent)
    requires k < |q| && q[k].AtHitPit? && q[k].n in c && c[q[k].n].Pending?
    ensures Balanced(AfterHitPit(c, q[k].n, q[k].f, force), Cut(q, k), received, sent)
  {
    forall x, g
      ensures BalanceAt(AfterHitPit(c, q[k].n, q[k].f, force), Cut(q, k), received, sent, x, g)
    {
      assert BalanceAt(c, q, received, sent, x, g);
      DemandCut(q, k, x, g);
      WaitingHit(c, q[k].n, q[k].f, force, x, g);
    }
  }

  /** A packet that goes on, or is dropped, while nobody else changes. */
  lemma PassedBalanced(
    c: map<Name, Item>, q: seq<Flight>, k: nat, received: multiset<(Name, FaceId)>,
    sent: multiset<(Name, FaceId)>, next: Next)
    requires Balanced(c, q, received, sent) && k < |q| && !q[k].AtDataFwd?
    ensures Balanced(c, Cut(q, k) + Onward(q[k].n, q[k].f, next), received, sent)
  {
    forall x, g
      ensures BalanceAt(c, Cut(q, k) + Onward(q[k].n, q[k].f, next), received, sent, x, g)
    {
      assert BalanceAt(c, q, received, sent, x, g);
      DemandCut(q, k, x, g);
      DemandAppend(Cut(q, k), Onward(q[k].n, q[k].f, next), x, g);
    }
  }

  /** A packet that is answered with the data it asks for, or not, while entries only stop waiting. */
  lemma AnsweredBalanced(
    c: map<Name, Item>, d: map<Name, Item>, q: seq<Flight>, k: nat, received: multiset<(Name, FaceId)>,
    sent: multiset<(Name, FaceId)>, answered: bool)
    requires Balanced(c, q, received, sent) && k < |q| && !q[k].AtDataFwd?
    requires forall n :: n in d && d[n].Pending? ==> n in c && d[n] == c[n]
    ensures Balanced(d, Cut(q, k), received, sent + if answered then multiset{(q[k].n, q[k].f)} else multiset{})
  {
    var sent2 := sent + if answered then multiset{(q[k].n, q[k].f)} else multiset{};
    forall x, g
      ensures BalanceAt(d, Cut(q, k), received, sent2, x, g)
    {
      assert BalanceAt(c, q, received, sent, x, g);
      DemandCut(q, k, x, g);
    }
  }

  lemma AddedDataBalanced(
    c: map<Name, Item>, q: seq<Flight>, received: multiset<(Name, FaceId)>, sent: multiset<(Name, FaceId)>, r: seq<Flight>)
    requires Balanced(c, q, received, sent) && forall fl :: fl in r ==> fl.AtDataFwd?
    ensures Balanced(c, q + r, received, sent)
  {
    forall x, g
      ensures BalanceAt(c, q + r, received, sent, x, g)
    {
      assert BalanceAt(c, q, received, sent, x, g);
      DemandAppend(q, r, x, g);
      NoDemand(r, x, g);
    }
  }

  lemma {:induction false} NoDemand(r: seq<Flight>, n: Name, f: FaceId)
    requires forall fl :: fl in r ==> fl.AtDataFwd?
    ensures Demand(r, n, f) == 0
  {
    if r != [] { NoDemand(r[1..], n, f); }
  }

  lemma ServedBalanced(
    c: map<Name, Item>, d: map<Name, Item>, q: seq<Flight>, k: nat, received: multiset<(Name, FaceId)>,
    sent: multiset<(Name, FaceId)>, buf: nat, faces: seq<FaceId>)
    requires Balanced(c, q, received, sent) && k < |q| && q[k].AtDataFwd?
    requires (d == c && faces == []) ||
      (AfterData(c, d, q[k].n, buf) && q[k].n in c && c[q[k].n].Pending? && (faces == [] || faces == c[q[k].n].faces))
    ensures Balanced(d, Cut(q, k), received, sent + Copies(q[k].n, faces))
  {
    forall x, g
      ensures BalanceAt(d, Cut(q, k), received, sent + Copies(q[k].n, faces), x, g)
    {
      assert BalanceAt(c, q, received, sent, x, g);
      DemandCut(q, k, x, g);
      if !(d == c && faces == []) { WaitingServed(c, d, q[k].n, buf, faces, x, g); }
    }
  }

  lemma WaitingHit(c: map<Name, Item>, n: Name, f: FaceId, force: bool, x: Name, g: FaceId)
    requires n in c && c[n].Pending?
    ensures Waiting(c[n := c[n].(faces := PitFaces.AfterHit(c[n].faces, f, force, false))], x)[g] ==
      Waiting(c, x)[g] + (if x == n && g == f && f !in c[n].faces then 1 else 0)
  {
  }

  /** Serving an entry sends at most what its faces were waiting for, and they stop waiting. */
  lemma WaitingServed(c: map<Name, Item>, d: map<Name, Item>, n: Name, buf: nat, faces: seq<FaceId>, x: Name, g: FaceId)
    requires AfterData(c, d, n, buf) && n in c && c[n].Pending? && (faces == [] || faces == c[n].faces)
    ensures Copies(n, faces)[(x, g)] + Waiting(d, x)[g] <= Waiting(c, x)[g]
  {
    CopiesCount(n, faces, x, g);
  }

  // ---- every step keeps the invariant ----

  ghost predicate FlightsOk(s: Sys) {
    forall fl :: fl in s.q ==> Current(s.m, fl) && FlightNamed(fl, s.bufs)
  }

  /** The flights that stay keep what they have while entries only go or turn into CS. */
  lemma FlightsKept(s: Sys, r: Sys)
    requires FlightsOk(s) && Keeps(s.m, r.m)
    requires forall b :: b in s.bufs ==> b in r.bufs && r.bufs[b] == s.bufs[b]
    requires forall fl :: fl in r.q && fl !in s.q ==> Current(r.m, fl) && FlightNamed(fl, r.bufs)
    ensures FlightsOk(r)
  {
    forall fl | fl in r.q
      ensures Current(r.m, fl) && FlightNamed(fl, r.bufs)
    {
      if fl in s.q { assert Current(s.m, fl) && FlightNamed(fl, s.bufs); }
    }
  }

  lemma InterestKeepsFlights(s: Sys, a: Act)
    requires Good(s) && a.InterestAct? && Enabled(s, a) && Unrecycled(s, a)
    ensures FlightsOk(Do(s, a)) && Settled(Do(s, a).m)
  {
    InterestEffect(s.m, a.n, a.f, a.t, a.lifetime, a.i, a.known);
    var r := Do(s, a);
    forall fl | fl in r.q
      ensures Current(r.m, fl) && FlightNamed(fl, r.bufs)
    {
      if fl in s.q { assert Current(s.m, fl) && FlightNamed(fl, s.bufs); }
    }
  }

  /** What an interest does to the contents: nothing, or the entry of its name goes, or is replaced. */
  ghost predicate InterestChange(c: map<Name, Item>, d: map<Name, Item>, n: Name, f: FaceId, next: Next, e: real) {
    d == c || (Onward(n, f, next) == [] && (d == c - {n} || d == (c - {n})[n := Pending(n, 1, e, [f])]))
  }

  lemma InterestContents(m: Pcs, n: Name, f: FaceId, t: real, lifetime: nat, i: nat, known: bool)
    requires Settled(m) && Available(m, n, t, i) && Settled(InterestLookup(m, n, f, t, lifetime, i, known).0)
    ensures
      var (r, next) := InterestLookup(m, n, f, t, lifetime, i, known);
      InterestChange(Contents(m), Contents(r), n, f, next, ExpTime(t, lifetime))
  {
    InterestEffect(m, n, f, t, lifetime, i, known);
  }

  lemma ChangeNamed(c: map<Name, Item>, d: map<Name, Item>, n: Name, f: FaceId, next: Next, e: real, bufs: map<nat, Name>)
    requires CsNamed(c, bufs) && InterestChange(c, d, n, f, next, e)
    ensures CsNamed(d, bufs)
  {
  }

  lemma InterestKeepsBalance(s: Sys, a: Act)
    requires Settled(s.m) && Balance(s) && CsNamed(Contents(s.m), s.bufs) && a.InterestAct? && Enabled(s, a)
    ensures Settled(Do(s, a).m) && Balance(Do(s, a)) && CsNamed(Contents(Do(s, a).m), s.bufs)
  {
    InterestEffect(s.m, a.n, a.f, a.t, a.lifetime, a.i, a.known);
    InterestContents(s.m, a.n, a.f, a.t, a.lifetime, a.i, a.known);
    var (m, next) := InterestLookup(s.m, a.n, a.f, a.t, a.lifetime, a.i, a.known);
    var c, d, e := Contents(s.m), Contents(m), ExpTime(a.t, a.lifetime);
    InterestBalanced(c, d, s.q, s.received, s.sent, a.n, a.f, next, e);
    ChangeNamed(c, d, a.n, a.f, next, e, s.bufs);
  }

  lemma HitPitContents(m: Pcs, i: nat, f: FaceId, force: bool)
    requires Settled(m) && i in m.pool && m.pool[i].Pending?
    ensures
      var r := HitPit(m, i, f, force).0;
      var n := m.pool[i].name;
      && Settled(r) && Keeps(m, r) && n in Contents(m) && Contents(m)[n] == m.pool[i]
      && Contents(r) == AfterHitPit(Contents(m), n, f, force)
  {
    assert Inserted(m, i);
    SettledUpdate(m, m.pool[i].name, m.pool[i].(faces := PitFaces.AfterHit(m.pool[i].faces, f, force, false)));
  }

  lemma HitPitKeeps(s: Sys, a: Act)
    requires Good(s) && a.HitPitAct? && Enabled(s, a)
    ensures Good(Do(s, a))
  {
    var fl := s.q[a.k];
    assert fl in s.q && Current(s.m, fl);
    if s.m.pool[fl.i].Pending? { HitPitPending(s, a); } else { HitPitCached(s, a); }
  }

  lemma HitPitPending(s: Sys, a: Act)
    requires Good(s) && a.HitPitAct? && Enabled(s, a)
    requires s.m.pool[s.q[a.k].i].Pending? && s.m.pool[s.q[a.k].i].name == s.q[a.k].n
    ensures Good(Do(s, a))
  {
    var fl, r := s.q[a.k], Do(s, a);
    HitPitContents(s.m, fl.i, fl.f, a.force);
    assert r.q == Cut(s.q, a.k);
    HitPitBalanced(Contents(s.m), s.q, a.k, s.received, s.sent, a.force);
    GoodAfter(s, r);
  }

  lemma HitPitCached(s: Sys, a: Act)
    requires Good(s) && a.HitPitAct? && Enabled(s, a)
    requires s.m.pool[s.q[a.k].i].Cached? && s.m.pool[s.q[a.k].i].name == s.q[a.k].n
    ensures Good(Do(s, a))
  {
    var fl, r := s.q[a.k], Do(s, a);
    PassedBalanced(Contents(s.m), s.q, a.k, s.received, s.sent, ToHitCs(fl.i));
    FlightsKept(s, r);
  }

  /** What hitcs does to the contents: the entry goes if it has expired; else a CS entry may move to another buffer. */
  lemma HitCsContents(m: Pcs, i: nat, t: real, ret: nat)
    requires Settled(m) && i in m.pool
    ensures
      var r := HitCs(m, i, t, ret).0;
      var n := m.pool[i].name;
      && Settled(r) && Keeps(m, r) && n in Contents(m) && Contents(m)[n] == m.pool[i]
      && Contents(r) == (if t > m.pool[i].expire then Contents(m) - {n}
                         else if m.pool[i].Cached? then Contents(m)[n := InBuffer(m.pool[i], ret)] else Contents(m))
  {
    assert Inserted(m, i);
    var n := m.pool[i].name;
    if t > m.pool[i].expire {
      SettledRemove(m, n);
    } else if m.pool[i].Cached? {
      SettledUpdate(m, n, InBuffer(m.pool[i], ret));
    }
  }

  lemma HitCsKeeps(s: Sys, a: Act)
    requires Good(s) && a.HitCsAct? && Enabled(s, a)
    ensures Good(Do(s, a))
  {
    var fl := s.q[a.k];
    assert fl in s.q && Current(s.m, fl);
    HitCsContents(s.m, fl.i, a.t, a.ret);
    assert Contents(s.m)[fl.n].Cached? && s.bufs[s.m.pool[fl.i].buf] == fl.n;
    if a.t > s.m.pool[fl.i].expire { HitCsExpired(s, a); } else { HitCsReplies(s, a); }
  }

  lemma HitCsExpired(s: Sys, a: Act)
    requires Good(s) && a.HitCsAct? && Enabled(s, a) && a.t > s.m.pool[s.q[a.k].i].expire
    ensures Good(Do(s, a))
  {
    var fl := s.q[a.k];
    HitCsContents(s.m, fl.i, a.t, a.ret);
    ExpiredGood(s, a.k, Unlock(s.m, fl.i), s.m.pool[fl.i].name);
    assert s.sent + multiset{} == s.sent;
  }

  /** A packet is dropped, and a name goes. */
  lemma ExpiredGood(s: Sys, k: nat, m: Pcs, n: Name)
    requires Good(s) && k < |s.q| && !s.q[k].AtDataFwd?
    requires Settled(m) && Keeps(s.m, m) && Contents(m) == Contents(s.m) - {n}
    ensures Good(s.(m := m, q := Cut(s.q, k)))
  {
    AnsweredBalanced(Contents(s.m), Contents(m), s.q, k, s.received, s.sent, false);
    assert s.sent + multiset{} == s.sent;
    GoodAfter(s, s.(m := m, q := Cut(s.q, k)));
  }

  /** The invariant after a step that hands out no index: what is left to show is about the contents. */
  lemma GoodAfter(s: Sys, r: Sys)
    requires Good(s) && Settled(r.m) && Keeps(s.m, r.m) && CsNamed(Contents(r.m), r.bufs) && Balance(r)
    requires forall b :: b in s.bufs ==> b in r.bufs && r.bufs[b] == s.bufs[b]
    requires forall fl :: fl in r.q && fl !in s.q ==> Current(r.m, fl) && FlightNamed(fl, r.bufs)
    ensures Good(r)
  {
    FlightsKept(s, r);
  }

  lemma HitCsReplies(s: Sys, a: Act)
    requires Good(s) && a.HitCsAct? && Enabled(s, a) && a.t <= s.m.pool[s.q[a.k].i].expire
    requires var fl := s.q[a.k]; s.m.pool[fl.i].Cached? && s.m.pool[fl.i].name == fl.n
    requires var fl := s.q[a.k]; s.m.pool[fl.i].buf in s.bufs && s.bufs[s.m.pool[fl.i].buf] == fl.n
    ensures Good(Do(s, a))
  {
    var fl, r := s.q[a.k], Do(s, a);
    HitCsContents(s.m, fl.i, a.t, a.ret);
    AnsweredBalanced(Contents(s.m), Contents(r.m), s.q, a.k, s.received, s.sent, true);
    MovedNamed(Contents(s.m), s.bufs, fl.n, a.ret);
    GoodAfter(s, r);
  }

  /** The cached name moves to another buffer that holds its data. */
  lemma MovedNamed(c: map<Name, Item>, bufs: map<nat, Name>, n: Name, ret: nat)
    requires CsNamed(c, bufs) && n in c && c[n].Cached? && (ret == c[n].buf || ret !in bufs)
    ensures CsNamed(c[n := InBuffer(c[n], ret)], bufs[ret := n])
  {
  }

  /** What data_pcslookup does: only the order of the chain changes, and the packet gets the index of its name or keeps its own. */
  lemma DataLookupEffect(m: Pcs, n: Name, known: bool, stale: nat)
    requires Settled(m)
    ensures
      var (r, next) := DataLookup(m, n, known, stale);
      && Settled(r) && r.pool == m.pool && Contents(r) == Contents(m)
      && (next.ToDataFwd? ==> n in m.table && next.i == if known then m.table[n] else stale)
  {
    SettledLookup(m, n);
  }

  lemma DataKeeps(s: Sys, a: Act)
    requires Good(s) && a.DataAct? && Enabled(s, a) && Unrecycled(s, a)
    ensures Good(Do(s, a))
  {
    DataLookupEffect(s.m, a.n, a.known, a.stale);
    var (m, next) := DataLookup(s.m, a.n, a.known, a.stale);
    var more := if next.ToDataFwd? then [AtDataFwd(a.n, next.i, a.buf)] else [];
    DataGood(s, a.n, a.buf, m, more);
  }

  lemma DataGood(s: Sys, n: Name, buf: nat, m: Pcs, more: seq<Flight>)
    requires Good(s) && Settled(m) && m.pool == s.m.pool && Contents(m) == Contents(s.m) && buf !in s.bufs
    requires forall fl :: fl in more ==> fl.AtDataFwd? && fl.n == n && fl.buf == buf && Current(s.m, fl)
    ensures Good(s.(m := m, q := s.q + more, bufs := s.bufs[buf := n]))
  {
    AddedDataBalanced(Contents(s.m), s.q, s.received, s.sent, more);
    GoodAfter(s, s.(m := m, q := s.q + more, bufs := s.bufs[buf := n]));
  }

  lemma FwdKeeps(s: Sys, a: Act)
    requires Good(s) && a.FwdAct? && Enabled(s, a)
    ensures Good(Do(s, a))
  {
    var fl, r := s.q[a.k], Do(s, a);
    assert fl in s.q && Current(s.m, fl) && FlightNamed(fl, s.bufs);
    DataFwdEffect(s.m, fl.i, a.t, a.lifetime, fl.buf);
    FlightsKept(s, r);
    FwdKeepsBalance(s, a);
  }

  lemma FwdKeepsBalance(s: Sys, a: Act)
    requires Settled(s.m) && Balance(s) && a.FwdAct? && Enabled(s, a)
    requires Current(s.m, s.q[a.k])
    ensures Settled(Do(s, a).m) && Balance(Do(s, a))
  {
    var fl := s.q[a.k];
    DataFwdEffect(s.m, fl.i, a.t, a.lifetime, fl.buf);
    var (m, faces) := DataFwd(s.m, fl.i, a.t, a.lifetime, fl.buf);
    if fl.i in s.m.pool { assert Inserted(s.m, fl.i) && Contents(s.m)[fl.n] == s.m.pool[fl.i]; }
    ServedBalanced(Contents(s.m), Contents(m), s.q, a.k, s.received, s.sent, fl.buf, faces);
  }

  lemma StepKeeps(s: Sys, a: Act)
    requires Good(s) && Enabled(s, a) && Unrecycled(s, a)
    ensures Good(Do(s, a))
  {
    match a {
      case InterestAct(_, _, _, _, _, _) => InterestKeepsFlights(s, a); InterestKeepsBalance(s, a);
      case HitPitAct(_, _) => HitPitKeeps(s, a);
      case HitCsAct(_, _, _) => HitCsKeeps(s, a);
      case DataAct(_, _, _, _) => DataKeeps(s, a);
      case FwdAct(_, _, _) => FwdKeeps(s, a);
    }
  }

  /** The condition on indices is exact: a step keeps the invariant if and only if it recycles no index in use. */
  lemma StepKeepsIff(s: Sys, a: Act)
    requires Good(s) && Enabled(s, a)
    ensures Good(Do(s, a)) <==> Unrecycled(s, a)
  {
    if Unrecycled(s, a) {
      StepKeeps(s, a);
    } else if a.InterestAct? {
      RecyclingBreaksFlight(s, a);
    } else {
      var fl := AtDataFwd(a.n, a.stale, a.buf);
      SettledLookup(s.m, a.n);
      assert fl in Do(s, a).q && !Current(Do(s, a).m, fl);
    }
  }

  lemma RecyclingBreaksFlight(s: Sys, a: Act)
    requires Good(s) && Enabled(s, a) && a.InterestAct? && !Unrecycled(s, a)
    ensures !Good(Do(s, a))
  {
    InterestEffect(s.m, a.n, a.f, a.t, a.lifetime, a.i, a.known);
    var fl :| fl in s.q && fl.i == a.i && (fl.n != a.n || fl.AtHitCs?);
    assert fl in Do(s, a).q && !Current(Do(s, a).m, fl);
  }

  // ---- runs ----

  /** A run from an empty forwarder; nodes act when they can, and no held index is recycled. */
  ghost predicate FlowRun(ss: seq<Sys>, acts: seq<Act>, max: nat) {
    && |ss| == |acts| + 1
    && ss[0] == Init(max)
    && forall k :: 0 <= k < |acts| && Settled(ss[k].m) ==> Stepped(ss[k], acts[k], ss[k + 1])
  }

  ghost predicate Stepped(s: Sys, a: Act, r: Sys)
    requires Settled(s.m)
  {
    Enabled(s, a) && Unrecycled(s, a) && r == Do(s, a)
  }

  lemma {:induction false} RunGood(ss: seq<Sys>, acts: seq<Act>, max: nat, k: nat)
    requires FlowRun(ss, acts, max) && k <= |acts|
    ensures Good(ss[k])
  {
    if k == 0 {
      assert Contents(ss[0].m) == map[];
    } else {
      RunGood(ss, acts, max, k - 1);
      assert Stepped(ss[k - 1], acts[k - 1], ss[k]);
      StepKeeps(ss[k - 1], acts[k - 1]);
    }
  }

  /**
   Flow balance: at every point of every run, the data packets of a name sent
   to a face, the places it still has in the PIT and its interests in flight
   together never exceed the interests for the name received on it.
   */
  lemma FlowBalance(ss: seq<Sys>, acts: seq<Act>, max: nat, k: nat, n: Name, f: FaceId)
    requires FlowRun(ss, acts, max) && k <= |acts|
    ensures Settled(ss[k].m)
    ensures ss[k].sent[(n, f)] + Waiting(Contents(ss[k].m), n)[f] + Demand(ss[k].q, n, f) <= ss[k].received[(n, f)]
  {
    RunGood(ss, acts, max, k);
    assert BalanceAt(Contents(ss[k].m), ss[k].q, ss[k].received, ss[k].sent, n, f);
  }
}
