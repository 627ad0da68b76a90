/**
 MAP-Me at one node, on the FIB entry itself. Next hops change through the IP
 routing table: a path is added or removed there and sync_hicn_fib_entry
 carries the change over (mapme_ctrl_node.c, mapme_ack_node.c).
 */
module MapmeNode {
  import opened Types
  import opened Seqs
  import opened Fib
  import opened RouteSync
  import opened Mapme

  /** One load-balance bucket per path. */
  function BucketsOf(paths: seq<FaceId>): (r: seq<Bucket>)
    ensures |r| == |paths|
    ensures forall k :: 0 <= k < |paths| ==> r[k] == Bucket(paths[k], HasFace(paths[k]))
  {
    seq(|paths|, k requires 0 <= k < |paths| => Bucket(paths[k], HasFace(paths[k])))
  }

  lemma {:induction false} BucketsOfPaths(paths: seq<FaceId>)
    requires Distinct(paths)
    ensures Collected(BucketsOf(paths)) == paths
  {
    if paths != [] {
      var k := |paths| - 1;
      BucketsOfPaths(paths[..k]);
      assert BucketsOf(paths)[..k] == BucketsOf(paths[..k]);
      assert paths == paths[..k] + [paths[k]];
    }
  }

  ghost function Held(v: Fib): (r: multiset<FaceId>) {
    multiset(v.nh) + multiset(v.tfib)
  }

  /** What a change of the entry does to the locks that are not its own: nothing. */
  lemma SlackKept(v: Fib, locks: multiset<FaceId>, w: Fib, locks2: multiset<FaceId>)
    requires Held(v) <= locks && locks2 + Held(v) == locks + Held(w)
    ensures Held(w) <= locks2 && locks2 - Held(w) == locks - Held(v)
  {
    forall y
      ensures Held(w)[y] <= locks2[y] && (locks2 - Held(w))[y] == (locks - Held(v))[y]
    {
      assert (locks2 + Held(v))[y] == (locks + Held(w))[y];
    }
  }

  lemma MoveNh(v: Fib, locks: multiset<FaceId>, w: Fib, locks2: multiset<FaceId>)
    requires v.tfib == w.tfib && locks2 + multiset(v.nh) == locks + multiset(w.nh)
    ensures locks2 + Held(v) == locks + Held(w)
  {
    forall y
      ensures (locks2 + Held(v))[y] == (locks + Held(w))[y]
    {
      assert (locks2 + multiset(v.nh))[y] == (locks + multiset(w.nh))[y];
    }
  }

  lemma MoveTfib(v: Fib, locks: multiset<FaceId>, w: Fib, locks2: multiset<FaceId>)
    requires v.nh == w.nh && locks2 + multiset(v.tfib) == locks + multiset(w.tfib)
    ensures locks2 + Held(v) == locks + Held(w)
  {
    forall y
      ensures (locks2 + Held(v))[y] == (locks + Held(w))[y]
    {
      assert (locks2 + multiset(v.tfib))[y] == (locks + multiset(w.tfib))[y];
    }
  }

  ghost function Abs(v: Fib): (m: Mob) {
    Mob(v.seqno, Elements(v.nh), Elements(v.tfib))
  }

  /** The loop that moves the next hops from position `k` on, but `f`, to the TFIB; refusals are ignored. */
  function Moved(v: Fib, f: FaceId, k: nat, local: set<FaceId>): (r: Fib)
    ensures r.nh == v.nh && r.seqno == v.seqno
    ensures |v.nh| + |v.tfib| <= NHOPS_MAX ==> |r.nh| + |r.tfib| <= NHOPS_MAX
    decreases |v.nh| - k
  {
    if k >= |v.nh| then v
    else Moved(MoveOne(v, f, v.nh[k], local), f, k + 1, local)
  }

  /** The previous hops there should be after the move: the TFIB and the hops from `k` on that may enter it. */
  ghost function Wanted(v: Fib, f: FaceId, k: nat, local: set<FaceId>): (r: set<FaceId>)
    requires k <= |v.nh|
  {
    Elements(v.tfib) + (Elements(v.nh[k..]) - local - {f})
  }

  lemma {:induction false} MovedWhenFull(v: Fib, f: FaceId, k: nat, local: set<FaceId>)
    requires !Room(v)
    ensures Moved(v, f, k, local) == v
    decreases |v.nh| - k
  {
    if k < |v.nh| { MovedWhenFull(v, f, k + 1, local); }
  }

  predicate Refused(v: Fib, f: FaceId, x: FaceId, local: set<FaceId>) {
    x != f && x !in local && x !in v.tfib && !Room(v)
  }

  function MoveOne(v: Fib, f: FaceId, x: FaceId, local: set<FaceId>): (r: Fib) {
    if x == f then v else AddPrev(v, x, x in local)
  }

  lemma MovedStep(v: Fib, f: FaceId, k: nat, local: set<FaceId>)
    requires k < |v.nh|
    ensures Moved(MoveOne(v, f, v.nh[k], local), f, k + 1, local) == Moved(v, f, k, local)
  {}

  lemma WantedStep(v: Fib, f: FaceId, k: nat, local: set<FaceId>)
    requires FibOk(v) && k < |v.nh|
    ensures var w := MoveOne(v, f, v.nh[k], local);
      FibOk(w) && (!Refused(v, f, v.nh[k], local) ==> Wanted(w, f, k + 1, local) == Wanted(v, f, k, local))
  {
    var x, w := v.nh[k], MoveOne(v, f, v.nh[k], local);
    assert v.nh[k..] == [x] + v.nh[k + 1..];
    assert w.tfib != v.tfib ==> Elements(w.tfib) == Elements(v.tfib) + {x};
  }

  lemma WantedRefused(v: Fib, f: FaceId, k: nat, local: set<FaceId>)
    requires FibOk(v) && k < |v.nh| && Refused(v, f, v.nh[k], local)
    ensures v.nh[k] in Wanted(v, f, k, local) && |Wanted(v, f, k, local)| + |v.nh| > NHOPS_MAX
  {
    var x := v.nh[k];
    assert v.nh[k..][0] == x;
    DistinctCard(v.tfib);
    assert |Elements(v.tfib) + {x}| == |v.tfib| + 1;
    SubsetCard(Elements(v.tfib) + {x}, Wanted(v, f, k, local));
  }

  /** Every hop gets into the TFIB exactly if the array holds them beside the next hops they still occupy. */
  lemma {:induction false} MovedAllIff(v: Fib, f: FaceId, k: nat, local: set<FaceId>)
    requires FibOk(v) && k <= |v.nh|
    ensures FibOk(Moved(v, f, k, local))
    ensures Elements(Moved(v, f, k, local).tfib) == Wanted(v, f, k, local) <==>
      |Wanted(v, f, k, local)| + |v.nh| <= NHOPS_MAX
    decreases |v.nh| - k
  {
    if k == |v.nh| {
      DistinctCard(v.tfib);
      assert Wanted(v, f, k, local) == Elements(v.tfib);
    } else {
      WantedStep(v, f, k, local);
      MovedAllIff(MoveOne(v, f, v.nh[k], local), f, k + 1, local);
      if Refused(v, f, v.nh[k], local) {
        MovedWhenFull(v, f, k + 1, local);
        WantedRefused(v, f, k, local);
      }
    }
  }

  /** More than five next hops do not fit beside themselves: not all of them are notified of a move. */
  lemma ManyHopsDoNotFit(v: Fib, f: FaceId)
    requires FibOk(v) && |v.nh| > 5 && v.tfib == [] && f !in v.nh
    ensures Elements(Moved(v, f, 0, {}).tfib) != Elements(v.nh)
  {
    MovedAllIff(v, f, 0, {});
    AllWanted(v, f);
  }

  lemma AllWanted(v: Fib, f: FaceId)
    requires Distinct(v.nh) && v.tfib == [] && f !in v.nh
    ensures Wanted(v, f, 0, {}) == Elements(v.nh) && |Elements(v.nh)| == |v.nh|
  {
    DistinctCard(v.nh);
    assert v.nh[0..] == v.nh;
  }

  /** An entry with the routes 1 to 6 and an update on face 7. */
  lemma SixHopsDoNotFit(v: Fib)
    requires v.nh == [1, 2, 3, 4, 5, 6] && v.tfib == []
    ensures Elements(Moved(v, 7, 0, {}).tfib) != {1, 2, 3, 4, 5, 6}
  {
    ManyHopsDoNotFit(v, 7);
    assert Elements(v.nh) == {1, 2, 3, 4, 5, 6};
  }

  lemma SingleHop(nh: seq<FaceId>, f: FaceId)
    requires Distinct(nh) && Elements(nh) == {f}
    ensures nh == [f]
  {
    DistinctCard(nh);
    assert nh[0] in Elements(nh);
  }

  /** What the node reports to the event manager. */
  datatype Event = NhSet | NhAdd | PhAdd | PhDel | NoEvent

  /** Where the array has room for a next hop the update adds; without it the TFIB would be written over. */
  predicate HopRoom(v: Fib, u: Update) {
    && (u.s > v.seqno ==> v.nh != [] || |Without(v.tfib, u.f)| < NHOPS_MAX)
    && (u.s == v.seqno ==> u.f in v.nh || Room(v))
  }

  /** No previous hop is refused when the update is processed. */
  ghost predicate PrevRoom(v: Fib, u: Update, local: set<FaceId>) {
    && (u.s > v.seqno ==> |Wanted(DelPrev(v, u.f), u.f, 0, local)| + |v.nh| <= NHOPS_MAX)
    && (u.s < v.seqno ==> u.f in v.nh + v.tfib || u.f in local || Room(v))
  }

  /** The entry after an update, but for the order of the next hops. */
  ghost predicate Updated(v: Fib, u: Update, local: set<FaceId>, w: Fib) {
    if u.s > v.seqno then w == Moved(DelPrev(v.(seqno := u.s), u.f), u.f, 0, local).(nh := [u.f])
    else if u.s == v.seqno then w == DelPrev(v, u.f).(nh := w.nh) && Elements(w.nh) == Elements(v.nh) + {u.f}
    else w == if u.f in v.nh then v else AddPrev(v, u.f, u.f in local)
  }

  lemma DelPrevAbs(v: Fib, f: FaceId)
    ensures Elements(DelPrev(v, f).tfib) == Elements(v.tfib) - {f}
    ensures FibOk(v) ==> FibOk(DelPrev(v, f))
  {
    if Distinct(v.tfib) { WithoutDistinct(v.tfib, f); }
  }

  lemma MovedAbs(d: Fib, f: FaceId, local: set<FaceId>)
    requires FibOk(d) && |Wanted(d, f, 0, local)| + |d.nh| <= NHOPS_MAX
    ensures Elements(Moved(d, f, 0, local).tfib) == Elements(d.tfib) + (Elements(d.nh) - local - {f})
  {
    MovedAllIff(d, f, 0, local);
    assert d.nh[0..] == d.nh;
  }

  lemma MovedSeqno(d: Fib, s: nat, f: FaceId, k: nat, local: set<FaceId>)
    requires k <= |d.nh|
    ensures Wanted(d.(seqno := s), f, k, local) == Wanted(d, f, k, local)
  {
  }

  lemma HigherAbs(v: Fib, u: Update, local: set<FaceId>, w: Fib)
    requires FibOk(v) && Updated(v, u, local, w) && PrevRoom(v, u, local) && MobOk(Abs(v), local) && u.s > v.seqno
    ensures Abs(w) == OnUpdate(Abs(v), u, local)
  {
    var d := DelPrev(v.(seqno := u.s), u.f);
    DelPrevAbs(v.(seqno := u.s), u.f);
    MovedSeqno(DelPrev(v, u.f), u.s, u.f, 0, local);
    MovedAbs(d, u.f, local);
    assert Elements(w.nh) == {u.f};
    HigherSets(Elements(v.nh), Elements(v.tfib), local, u.f);
  }

  lemma HigherSets(nh: set<FaceId>, tfib: set<FaceId>, local: set<FaceId>, f: FaceId)
    ensures tfib - {f} + (nh - local - {f}) == tfib + (nh - local) - {f}
  {
  }

  lemma OtherAbs(v: Fib, u: Update, local: set<FaceId>, w: Fib)
    requires Updated(v, u, local, w) && PrevRoom(v, u, local) && MobOk(Abs(v), local) && u.s <= v.seqno
    ensures Abs(w) == OnUpdate(Abs(v), u, local)
  {
    assert Elements(Without(v.tfib, u.f)) == Elements(v.tfib) - {u.f};
    assert Elements([u.f] + v.tfib) == {u.f} + Elements(v.tfib);
  }

  /** With room for the previous hops the entry does what the protocol on sets does. */
  lemma UpdatedAbs(v: Fib, u: Update, local: set<FaceId>, w: Fib)
    requires FibOk(v) && Updated(v, u, local, w) && PrevRoom(v, u, local) && MobOk(Abs(v), local)
    ensures Abs(w) == OnUpdate(Abs(v), u, local)
  {
    if u.s > v.seqno { HigherAbs(v, u, local, w); } else { OtherAbs(v, u, local, w); }
  }

  /** hicn_mapme_send_updates: to all previous hops, or to the newest one only. */
  function Targets(v: Fib, all: bool): (r: seq<FaceId>)
    requires all || v.tfib != []
  {
    if all then v.tfib else [v.tfib[0]]
  }

  /**
   An outdated update is to be answered to its sender. The answer goes to the
   newest previous hop: that is the sender exactly if it was that hop already or
   has just entered the TFIB.
   */
  lemma AnswerReachesSender(v: Fib, u: Update, local: set<FaceId>, w: Fib)
    requires Updated(v, u, local, w) && u.s < v.seqno && u.f !in v.nh
    ensures w.tfib != [] && Targets(w, false) == [u.f] <==>
      if u.f in v.tfib then v.tfib[0] == u.f else u.f !in local && Room(v)
  {
    if w.tfib != [] { assert w.tfib[0] in w.tfib; }
  }

  /**
   The producer moves from face 3 to face 2 and to face 1; an outdated update that
   then arrives on face 3 is answered to face 2.
   */
  lemma AnswerGoesElsewhere()
    ensures
      var v0, v1, v2 := Fib([3], [], 0), Fib([2], [3], 1), Fib([1], [2, 3], 2);
      && Updated(v0, Update(1, 2), {}, v1) && Updated(v1, Update(2, 1), {}, v2)
      && Updated(v2, Update(0, 3), {}, v2) && Targets(v2, false) == [2]
  {
    OneHopMoved(3, [], 1, 2);
    OneHopMoved(2, [3], 2, 1);
    assert [3] + [] == [3] && [2] + [3] == [2, 3];
  }

  lemma OneHopMoved(x: FaceId, t: seq<FaceId>, s: nat, f: FaceId)
    requires x != f && x !in t && f !in t && |t| < 9
    ensures Without(t, f) == t && Moved(Fib([x], t, s), f, 0, {}) == Fib([x], [x] + t, s)
  {
    var v := Fib([x], t, s);
    assert Moved(MoveOne(v, f, x, {}), f, 1, {}) == MoveOne(v, f, x, {});
  }

  /**
   The answer is read from the slot after the array exactly if there is no previous
   hop and the sender does not become one, being local or the array full of next hops.
   */
  lemma AnswerReadsPastArrayIff(v: Fib, u: Update, local: set<FaceId>, w: Fib)
    requires Updated(v, u, local, w) && u.s < v.seqno && u.f !in v.nh
    ensures w.tfib == [] <==> v.tfib == [] && (u.f in local || !Room(v))
  {
  }

  /** A local producer that restarts with an old number, at a node whose next hop has acknowledged. */
  lemma AnswerReadsPastArray()
    ensures Updated(Fib([1], [], 5), Update(0, 9), {9}, Fib([1], [], 5)) && Fib([1], [], 5).tfib == []
  {
  }

  // ---- the node with its locks ----

  /** The paths of the prefix in the IP routing table, the entry, the locks on faces and the faces deleted. */
  datatype Node = Node(paths: seq<FaceId>, v: Fib, locks: multiset<FaceId>, gone: set<FaceId>)

  /** The entry is well formed, follows the paths, and has its locks. */
  ghost predicate NodeOk(a: Node) {
    FibOk(a.v) && Distinct(a.paths) && Elements(a.paths) == Elements(a.v.nh) && Held(a.v) <= a.locks
  }

  /** The locks on faces held by others. */
  ghost function SlackOf(a: Node): (r: multiset<FaceId>) {
    a.locks - Held(a.v)
  }

  /** The faces of `s` that neither the entries `others` nor anybody else holds. */
  ghost function Unheld(s: set<FaceId>, others: seq<FaceId>, slack: multiset<FaceId>): (r: set<FaceId>) {
    set x | x in s && x !in others && slack[x] == 0
  }

  /** From `a` to `b` the locks of others stayed, and exactly the faces `lost` were deleted. */
  ghost predicate Keeps(a: Node, b: Node, lost: set<FaceId>) {
    NodeOk(b) && SlackOf(b) == SlackOf(a) && b.gone == a.gone + lost
  }

  lemma KeepsQuiet(a: Node, b: Node, c: Node, lost: set<FaceId>)
    requires Keeps(b, c, {}) && Keeps(a, b, lost)
    ensures Keeps(a, c, lost)
  {
    assert b.gone + {} == b.gone;
  }

  lemma UnheldUnion(s: set<FaceId>, t: set<FaceId>, others: seq<FaceId>, slack: multiset<FaceId>)
    ensures Unheld(s + t, others, slack) == Unheld(s, others, slack) + Unheld(t, others, slack)
  {
  }

  lemma KeepsOn(a: Node, b: Node, c: Node, l1: set<FaceId>, l2: set<FaceId>)
    requires Keeps(a, b, l1) && Keeps(b, c, l2)
    ensures Keeps(a, c, l1 + l2)
  {
    assert a.gone + l1 + l2 == a.gone + (l1 + l2);
  }

  /** The locks on a face are those of the entry and those of others. */
  lemma LocksOf(a: Node, x: FaceId)
    requires NodeOk(a)
    ensures a.locks[x] == SlackOf(a)[x] + multiset(a.v.nh)[x] + multiset(a.v.tfib)[x]
    ensures x in a.v.nh ==> multiset(a.v.nh)[x] == 1
    ensures x in a.v.tfib ==> multiset(a.v.tfib)[x] == 1
    ensures x !in a.v.nh ==> multiset(a.v.nh)[x] == 0
    ensures x !in a.v.tfib ==> multiset(a.v.tfib)[x] == 0
  {
    if x in a.v.nh { OnceIn(a.v.nh, x); }
    if x in a.v.tfib { OnceIn(a.v.tfib, x); }
    assert Held(a.v)[x] <= a.locks[x];
  }

  lemma DeadIsUnheld(a: Node, nh: seq<FaceId>)
    requires NodeOk(a)
    ensures Dead(a.v.nh, nh, a.locks) == Unheld(Elements(a.v.nh) - Elements(nh), a.v.tfib, SlackOf(a))
  {
    forall x | x in a.v.nh
      ensures a.locks[x] == 1 <==> x !in a.v.tfib && SlackOf(a)[x] == 0
    {
      LocksOf(a, x);
    }
  }

  lemma LoneIsUnheld(a: Node, f: FaceId)
    requires NodeOk(a) && f in a.v.tfib
    ensures Lone([f], a.locks) == Unheld({f}, a.v.nh, SlackOf(a))
  {
    LocksOf(a, f);
  }

  /** The paths changed and the next hops followed. */
  lemma PathsKeep(a: Node, b: Node)
    requires NodeOk(a) && b.v == a.v.(nh := b.v.nh) && FibOk(b.v)
    requires Distinct(b.paths) && Elements(b.paths) == Elements(b.v.nh)
    requires b.locks + multiset(a.v.nh) == a.locks + multiset(b.v.nh)
    requires b.gone == a.gone + Dead(a.v.nh, b.v.nh, a.locks)
    ensures Keeps(a, b, Unheld(Elements(a.v.nh) - Elements(b.v.nh), a.v.tfib, SlackOf(a)))
  {
    MoveNh(a.v, a.locks, b.v, b.locks);
    SlackKept(a.v, a.locks, b.v, b.locks);
    DeadIsUnheld(a, b.v.nh);
  }

  /** The TFIB changed; `f` left it, or nothing was unlocked. */
  lemma PrevKeeps(a: Node, b: Node, f: FaceId, left: bool)
    requires NodeOk(a) && b.v == a.v.(tfib := b.v.tfib) && FibOk(b.v) && b.paths == a.paths
    requires b.locks + multiset(a.v.tfib) == a.locks + multiset(b.v.tfib)
    requires left ==> f in a.v.tfib
    requires b.gone == a.gone + if left then Lone([f], a.locks) else {}
    ensures Keeps(a, b, if left then Unheld({f}, a.v.nh, SlackOf(a)) else {})
  {
    MoveTfib(a.v, a.locks, b.v, b.locks);
    SlackKept(a.v, a.locks, b.v, b.locks);
    if left { LoneIsUnheld(a, f); }
  }

  /** The loop of hicn_mapme_process_ctrl before next hop `pos`: moving the rest leads to `r`; `a` is the node before it. */
  ghost predicate MovingTo(a: Node, b: Node, pos: nat, f: FaceId, local: set<FaceId>, r: Fib) {
    Keeps(a, b, {}) && b.paths == a.paths && pos <= |b.v.nh| && Moved(b.v, f, pos, local) == r
  }

  /**
   The faces deleted while an update is processed. With a higher number the
   ingress face leaves the TFIB before it is a next hop, and then all next hops go
   before the ingress face comes back.
   */
  ghost function Lost(v: Fib, slack: multiset<FaceId>, u: Update, local: set<FaceId>): (r: set<FaceId>) {
    if u.s <= v.seqno then {}
    else
      var d := Moved(DelPrev(v.(seqno := u.s), u.f), u.f, 0, local);
      Unheld(if u.f in v.tfib then {u.f} else {}, v.nh, slack)
      + (if v.nh == [u.f] then {} else Unheld(Elements(v.nh), d.tfib, slack))
  }

  lemma {:induction false} MovedWithout(v: Fib, f: FaceId, k: nat, local: set<FaceId>)
    ensures f in Moved(v, f, k, local).tfib <==> f in v.tfib
    decreases |v.nh| - k
  {
    if k < |v.nh| { MovedWithout(MoveOne(v, f, v.nh[k], local), f, k + 1, local); }
  }

  /**
   The face an update arrived on survives its processing exactly if the number is
   not higher, or the face is the one next hop, or somebody else holds a lock on it,
   or the entry holds none: otherwise the source goes on with a deleted face.
   */
  lemma IngressLostIff(v: Fib, slack: multiset<FaceId>, u: Update, local: set<FaceId>)
    ensures u.f in Lost(v, slack, u, local) <==>
      u.s > v.seqno && v.nh != [u.f] && slack[u.f] == 0 && (u.f in v.nh || u.f in v.tfib)
  {
    MovedWithout(DelPrev(v.(seqno := u.s), u.f), u.f, 0, local);
  }

  /** The next hops from `k` up to `pos` that ask for a place in the TFIB: not `f`, not local, not there already. */
  ghost function Asking(v: Fib, f: FaceId, k: nat, pos: nat, local: set<FaceId>): (r: set<FaceId>)
    requires k <= pos <= |v.nh|
  {
    Elements(v.nh[k..pos]) - local - {f} - Elements(v.tfib)
  }

  lemma {:induction false} MovedOthers(v: Fib, f: FaceId, k: nat, local: set<FaceId>, x: FaceId)
    requires k <= |v.nh| && (x in local || x !in v.nh[k..] || x in v.tfib)
    ensures x in Moved(v, f, k, local).tfib <==> x in v.tfib
    decreases |v.nh| - k
  {
    if k < |v.nh| {
      assert v.nh[k..] == [v.nh[k]] + v.nh[k + 1..];
      MovedOthers(MoveOne(v, f, v.nh[k], local), f, k + 1, local, x);
    }
  }

  lemma AskingStep(v: Fib, f: FaceId, k: nat, pos: nat, local: set<FaceId>)
    requires FibOk(v) && k < pos <= |v.nh|
    ensures
      var y, w := v.nh[k], MoveOne(v, f, v.nh[k], local);
      var asks := y != f && y !in local && y !in v.tfib;
      && FibOk(w) && (y !in v.nh[k + 1..pos])
      && (!asks ==> w == v && Asking(v, f, k + 1, pos, local) == Asking(v, f, k, pos, local))
      && (asks && Room(v) ==> |w.tfib| == |v.tfib| + 1 && Asking(w, f, k + 1, pos, local) == Asking(v, f, k, pos, local) - {y})
      && (asks ==> y in Asking(v, f, k, pos, local))
  {
    var y := v.nh[k];
    assert v.nh[k..pos] == [y] + v.nh[k + 1..pos];
    assert y !in v.nh[k + 1..pos];
  }

  /** A next hop is in the TFIB after the move exactly if it was, or may enter and finds a slot that no hop before it took. */
  lemma {:induction false} MovedHas(v: Fib, f: FaceId, k: nat, local: set<FaceId>, pos: nat)
    requires FibOk(v) && k <= pos < |v.nh| && v.nh[pos] != f
    ensures v.nh[pos] in Moved(v, f, k, local).tfib <==>
      v.nh[pos] in v.tfib || (v.nh[pos] !in local && |Asking(v, f, k, pos, local)| < NHOPS_MAX - |v.nh| - |v.tfib|)
    decreases |v.nh| - k
  {
    var x, y := v.nh[pos], v.nh[k];
    assert x == v.nh[k..][pos - k];
    if x in local || x in v.tfib {
      MovedOthers(v, f, k, local, x);
    } else if !Room(v) {
      MovedWhenFull(v, f, k, local);
    } else if k == pos {
      assert Asking(v, f, k, pos, local) == {};
      MovedOthers(MoveOne(v, f, y, local), f, k + 1, local, x);
    } else {
      AskingStep(v, f, k, pos, local);
      MovedHas(MoveOne(v, f, y, local), f, k + 1, local, pos);
    }
  }

  /** The slots of the array that are free once `f` has left the TFIB. */
  function FreeSlots(v: Fib, f: FaceId): (r: int) {
    NHOPS_MAX - |v.nh| - |v.tfib| + if f in v.tfib then 1 else 0
  }

  /**
   Another face is deleted exactly if it is a next hop that nobody else holds and that
   is not in the TFIB, and it is local or the hops before it take all the free slots.
   */
  lemma OtherLostIff(v: Fib, slack: multiset<FaceId>, u: Update, local: set<FaceId>, x: FaceId)
    requires FibOk(v) && x != u.f
    ensures x in Lost(v, slack, u, local) <==>
      && u.s > v.seqno && slack[x] == 0 && x !in v.tfib
      && exists pos :: 0 <= pos < |v.nh| && v.nh[pos] == x
           && (x in local || |Asking(v, u.f, 0, pos, local)| >= FreeSlots(v, u.f))
  {
    var d := DelPrev(v.(seqno := u.s), u.f);
    DelPrevAbs(v, u.f);
    WithoutDistinct(v.tfib, u.f);
    forall pos | 0 <= pos < |v.nh| && v.nh[pos] == x
      ensures x !in Moved(d, u.f, 0, local).tfib <==>
        x !in v.tfib && (x in local || |Asking(v, u.f, 0, pos, local)| >= FreeSlots(v, u.f))
    {
      MovedHas(d, u.f, 0, local, pos);
      assert Asking(d, u.f, 0, pos, local) == Asking(v, u.f, 0, pos, local);
    }
  }

  /** A next hop beyond the free slots is deleted by a higher number on a new face, if only the entry holds it. */
  lemma HopBeyondSlotsLost(v: Fib, slack: multiset<FaceId>, u: Update, pos: nat)
    requires FibOk(v) && v.tfib == [] && u.s > v.seqno && u.f !in v.nh
    requires pos < |v.nh| && pos + |v.nh| >= NHOPS_MAX && slack[v.nh[pos]] == 0
    ensures v.nh[pos] in Lost(v, slack, u, {})
  {
    var before := v.nh[0..pos];
    assert Asking(v, u.f, 0, pos, {}) == Elements(before);
    DistinctCard(before);
    OtherLostIff(v, slack, u, {}, v.nh[pos]);
  }

  /** Of the routes 1 to 6 the last is lost with an update on face 7. */
  lemma SixthHopLost(v: Fib, u: Update)
    requires v.nh == [1, 2, 3, 4, 5, 6] && v.tfib == [] && u.s > v.seqno && u.f == 7
    ensures 6 in Lost(v, multiset{}, u, {})
  {
    HopBeyondSlotsLost(v, multiset{}, u, 5);
  }

  /**
   A producer that moves away and comes back: face 1 is the next hop, an update on
   face 2, just created, makes it a previous hop, and the next update arrives on
   face 1 again, which is deleted on the way.
   */
  lemma ReturningProducerLosesFace()
    ensures
      var v0, v1 := Fib([1], [], 0), Fib([2], [1], 1);
      && Updated(v0, Update(1, 2), {}, v1)
      && SlackAfter(multiset{2}, true, 2) == multiset{}
      && Lost(v0, multiset{2}, Update(1, 2), {}) == {} && 1 in Lost(v1, multiset{}, Update(2, 1), {})
  {
    var v0, v1 := Fib([1], [], 0), Fib([2], [1], 1);
    assert Without<FaceId>([], 2) == [];
    assert DelPrev(v0.(seqno := 1), 2) == Fib([1], [], 1);
    assert Moved(Fib([1], [1], 1), 2, 1, {}) == Fib([1], [1], 1);
    assert Moved(Fib([1], [], 1), 2, 0, {}) == Fib([1], [1], 1);
    assert Unheld(Elements(v0.nh), [1], multiset{2}) == {};
    IngressLostIff(v1, multiset{}, Update(2, 1), {});
  }

  ghost function SlackAfter(slack: multiset<FaceId>, drop: bool, f: FaceId): (r: multiset<FaceId>) {
    if drop then slack - multiset{f} else slack
  }

  class Route {
    const fib: FibEntry
    const faces: FaceTable
    /** The paths of the prefix in the IP routing table. */
    var paths: seq<FaceId>

    constructor (fib: FibEntry, faces: FaceTable, paths: seq<FaceId>)
      ensures this.fib == fib && this.faces == faces && this.paths == paths
    {
      this.fib, this.faces, this.paths := fib, faces, paths;
    }

    ghost function State(): Node
      requires fib.Shape()
      reads this, fib, fib.slots, faces
    {
      Node(paths, fib.View(), faces.locks, faces.gone)
    }

    ghost predicate Valid()
      reads this, fib, fib.slots, faces
    {
      fib.Shape() && NodeOk(State())
    }

    /** A path of the prefix changes and the FIB entry follows. */
    method SetPaths(ps: seq<FaceId>)
      requires Valid() && Distinct(ps) && |ps| + |fib.View().tfib| <= NHOPS_MAX
      modifies `paths, fib`entryCount, fib.slots, faces
      ensures fib.Shape()
      ensures var a, b := old(State()), State();
        && Keeps(a, b, Unheld(Elements(a.v.nh) - Elements(ps), a.v.tfib, SlackOf(a)))
        && b.paths == ps && b.v == a.v.(nh := b.v.nh) && |b.v.nh| == |ps|
    {
      ghost var a := State();
      BucketsOfPaths(ps);
      DistinctCard(ps);
      paths := ps;
      Sync(fib, BucketsOf(ps), faces);
      PathsKeep(a, State());
      DistinctCard(fib.View().nh);
    }

    /** ip_nh_..._add_del_helper with is_add: the path is appended unless it is there. */
    method AddPath(f: FaceId)
      requires Valid() && (f in fib.View().nh || Room(fib.View()))
      modifies `paths, fib`entryCount, fib.slots, faces
      ensures fib.Shape()
      ensures var a, b := old(State()), State();
        Keeps(a, b, {}) && b.v == a.v.(nh := b.v.nh) && Elements(b.v.nh) == Elements(a.v.nh) + {f}
    {
      ghost var a := State();
      assert f in paths <==> f in Elements(paths);
      assert f in fib.View().nh <==> f in Elements(fib.View().nh);
      DistinctCard(paths);
      DistinctCard(fib.View().nh);
      if f !in paths {
        assert Elements(paths + [f]) == Elements(paths) + {f};
        assert Unheld(Elements(a.v.nh) - Elements(paths + [f]), a.v.tfib, SlackOf(a)) == {};
        SetPaths(paths + [f]);
      }
    }

    /** The same helper removing a path. */
    method DelPath(f: FaceId)
      requires Valid() && f in fib.View().nh
      modifies `paths, fib`entryCount, fib.slots, faces
      ensures fib.Shape()
      ensures var a, b := old(State()), State();
        && Keeps(a, b, Unheld({f}, a.v.tfib, SlackOf(a))) && b.v == a.v.(nh := b.v.nh)
        && Elements(b.v.nh) == Elements(a.v.nh) - {f} && |b.v.nh| == |a.v.nh| - 1
    {
      ghost var a := State();
      assert f in Elements(fib.View().nh) && f in paths;
      DistinctCard(paths);
      DistinctCard(fib.View().nh);
      WithoutDistinct(paths, f);
      assert Elements(Without(paths, f)) == Elements(paths) - {f};
      assert Elements(a.v.nh) - Elements(Without(paths, f)) == {f};
      SetPaths(Without(paths, f));
    }

    /** hicn_mapme_tfib_del on the entry of the route. */
    method DropPrev(f: FaceId)
      requires Valid()
      modifies fib`tfibCount, fib.slots, faces
      ensures fib.Shape()
      ensures var a, b := old(State()), State();
        && Keeps(a, b, if f in a.v.tfib then Unheld({f}, a.v.nh, SlackOf(a)) else {})
        && b.paths == a.paths && b.v == DelPrev(a.v, f)
    {
      ghost var a := State();
      var ok := fib.TfibDel(f, faces);
      PrevKeeps(a, State(), f, ok);
    }

    /** hicn_mapme_tfib_add on the entry of the route, its result ignored as in the source. */
    method KeepPrev(f: FaceId, local: bool)
      requires Valid()
      modifies fib`tfibCount, fib.slots, faces
      ensures fib.Shape()
      ensures var a, b := old(State()), State();
        Keeps(a, b, {}) && b.paths == a.paths && b.v == AddPrev(a.v, f, local)
    {
      ghost var a := State();
      var _ := fib.TfibAdd(f, local, faces);
      PrevKeeps(a, State(), f, false);
    }

    /** hicn_mapme_nh_set: all paths go, then the one of `f` comes. */
    method SetHop(f: FaceId) returns (added: bool)
      requires Valid() && (fib.View().nh != [] || Room(fib.View()))
      modifies `paths, fib`entryCount, fib.slots, faces
      ensures fib.Shape() && HopSet(old(State()), State(), f, added)
    {
      ghost var a := State();
      if fib.entryCount == 1 && fib.slots[0] == f {
        assert a.v.nh == [f];
        return false;
      }
      ClearHops();
      ghost var b := State();
      AddPath(f);
      HopSetAfter(a, b, State(), f);
      added := true;
    }

    /** Its loop. */
    method ClearHops()
      requires Valid()
      modifies `paths, fib`entryCount, fib.slots, faces
      ensures fib.Shape()
      ensures var a, b := old(State()), State();
        Keeps(a, b, Unheld(Elements(a.v.nh), a.v.tfib, SlackOf(a))) && b.v == a.v.(nh := [])
    {
      ghost var a := State();
      var n := fib.entryCount;
      for i := 0 to n
        invariant fib.Shape() && Clearing(a, State(), n - i)
      {
        ClearHop(a, n - i);
      }
    }

    method ClearHop(ghost a: Node, ghost left: nat)
      requires NodeOk(a) && fib.Shape() && left > 0 && Clearing(a, State(), left)
      modifies `paths, fib`entryCount, fib.slots, faces
      ensures fib.Shape() && Clearing(a, State(), left - 1)
    {
      ghost var b, f := State(), fib.slots[0];
      assert f == b.v.nh[0];
      DelPath(fib.slots[0]);
      ClearingStep(a, b, State(), f);
    }

    /** The body of the loop that moves the next hops to the TFIB. */
    method MoveHop(pos: nat, f: FaceId, local: set<FaceId>, ghost a: Node, ghost r: Fib)
      requires fib.Shape() && MovingTo(a, State(), pos, f, local, r) && pos < fib.entryCount
      modifies fib`tfibCount, fib.slots, faces
      ensures fib.Shape() && MovingTo(a, State(), pos + 1, f, local, r)
    {
      ghost var b := State();
      MovedStep(fib.View(), f, pos, local);
      var x := fib.slots[pos];
      if x != f { KeepPrev(x, x in local); }
      KeepsOn(a, b, State(), {}, {});
    }

    method MoveHops(f: FaceId, local: set<FaceId>)
      requires Valid()
      modifies fib`tfibCount, fib.slots, faces
      ensures fib.Shape()
      ensures var a, b := old(State()), State();
        Keeps(a, b, {}) && b.paths == a.paths && b.v == Moved(a.v, f, 0, local)
    {
      ghost var a := State();
      for pos := 0 to fib.entryCount
        invariant fib.Shape() && MovingTo(a, State(), pos, f, local, Moved(a.v, f, 0, local))
      {
        MoveHop(pos, f, local, a, Moved(a.v, f, 0, local));
      }
    }

    /**
     hicn_mapme_process_ctrl on the entry of an existing prefix. `newFace` is the
     flag of a face created for this packet, whose creation lock is dropped once
     the face is a next hop.
     */
    method ProcessCtrl(u: Update, local: set<FaceId>, newFace: bool) returns (ev: Event)
      requires Valid() && HopRoom(fib.View(), u) && (newFace ==> u.f in SlackOf(State()))
      modifies `paths, fib, fib.slots, faces
      ensures fib.Shape() && Processed(old(State()), State(), u, local, newFace)
      ensures ev == Reported(old(fib.View()), u)
    {
      var seqno := fib.seqno;
      if u.s > seqno {
        HigherSeq(u, local, newFace);
        ev := NhSet;
      } else if u.s == seqno {
        SameSeq(u, local, newFace);
        ev := NhAdd;
      } else {
        var sent := LowerSeq(u, local, newFace);
        ev := if sent then PhAdd else NoEvent;
      }
    }

    /** The branch of a lower number: the face is a previous hop from now on, unless it is a next hop. */
    method LowerSeq(u: Update, local: set<FaceId>, ghost newFace: bool) returns (sent: bool)
      requires Valid() && u.s < fib.View().seqno
      modifies fib`tfibCount, fib.slots, faces
      ensures fib.Shape() && Processed(old(State()), State(), u, local, newFace)
      ensures sent <==> u.f !in old(fib.View()).nh
    {
      ghost var a := State();
      var has := fib.NhHas(u.f);
      if !has { KeepPrev(u.f, u.f in local); }
      QuietProcessed(a, State(), u, local, newFace);
      sent := !has;
    }

    /** The branch of the same number: the hop is added before the face leaves the TFIB, so that it keeps a lock. */
    method SameSeq(u: Update, local: set<FaceId>, ghost newFace: bool)
      requires Valid() && u.s == fib.View().seqno && (u.f in fib.View().nh || Room(fib.View()))
      modifies `paths, fib, fib.slots, faces
      ensures fib.Shape() && Processed(old(State()), State(), u, local, newFace)
    {
      ghost var a := State();
      AddPath(u.f);
      ghost var b := State();
      assert u.f in Elements(b.v.nh);
      DropPrev(u.f);
      assert Unheld({u.f}, b.v.nh, SlackOf(b)) == {};
      KeepsQuiet(a, b, State(), {});
      QuietProcessed(a, State(), u, local, newFace);
    }

    /** The branch of a higher number. */
    method HigherSeq(u: Update, local: set<FaceId>, newFace: bool)
      requires Valid() && HopRoom(fib.View(), u) && u.s > fib.View().seqno && (newFace ==> u.f in SlackOf(State()))
      modifies `paths, fib, fib.slots, faces
      ensures fib.Shape() && Processed(old(State()), State(), u, local, newFace)
    {
      var added := SwitchHops(u, local);
      assert u.f in fib.View().nh;
      DropCreationLock(newFace && added, u.f);
    }

    method SwitchHops(u: Update, local: set<FaceId>) returns (added: bool)
      requires Valid() && HopRoom(fib.View(), u) && u.s > fib.View().seqno
      modifies `paths, fib, fib.slots, faces
      ensures fib.Shape()
      ensures var a, b := old(State()), State();
        && Keeps(a, b, Lost(a.v, SlackOf(a), u, local)) && Updated(a.v, u, local, b.v)
        && b.v.nh == [u.f] && (added <==> a.v.nh != [u.f])
    {
      ghost var a := State();
      StartSeq(u);
      ghost var b := State();
      MoveHops(u.f, local);
      ghost var c := State();
      added := SetHop(u.f);
      Switched(a, b, c, State(), u, local, added);
    }

    /** The sequence number is updated first, so that acknowledgements of it count; the ingress face leaves the TFIB. */
    method StartSeq(u: Update)
      requires Valid()
      modifies fib`seqno, fib`tfibCount, fib.slots, faces
      ensures fib.Shape()
      ensures var a, b := old(State()), State();
        && Keeps(a, b, if u.f in a.v.tfib then Unheld({u.f}, a.v.nh, SlackOf(a)) else {})
        && b.paths == a.paths && b.v == DelPrev(a.v.(seqno := u.s), u.f)
    {
      ghost var a := State();
      fib.seqno := u.s;
      ghost var b := State();
      assert b == a.(v := a.v.(seqno := u.s)) && SlackOf(b) == SlackOf(a);
      DropPrev(u.f);
    }

    /** The lock taken when the face was created goes if `drop`; the lock of the next hop stays. */
    method DropCreationLock(drop: bool, f: FaceId)
      requires Valid() && (drop ==> f in SlackOf(State())) && f in fib.View().nh
      modifies faces
      ensures fib.Shape() && LetGo(old(State()), State(), drop, f)
    {
      if drop {
        ghost var a := State();
        SpareLock(a, f);
        faces.Unlock(f);
        assert State() == a.(locks := a.locks - multiset{f}, gone := a.gone + {});
      }
    }

    /** hicn_mapme_process_ack on the entry of an existing prefix; the face is deleted if the TFIB held its only lock. */
    method ProcessAck(u: Update) returns (ev: Event)
      requires Valid()
      modifies fib`tfibCount, fib.slots, faces
      ensures fib.Shape()
      ensures var a, b := old(State()), State();
        && Keeps(a, b, if u.s >= a.v.seqno && u.f in a.v.tfib then Unheld({u.f}, a.v.nh, SlackOf(a)) else {})
        && Abs(b.v) == OnAck(Abs(a.v), u)
        && ev == if u.s < a.v.seqno then NoEvent else PhDel
    {
      if u.s < fib.seqno { return NoEvent; }
      DelPrevAbs(fib.View(), u.f);
      DropPrev(u.f);
      ev := PhDel;
    }
  }

  /** An update has been processed: the entry, the locks of others and the faces deleted. */
  ghost predicate Processed(a: Node, b: Node, u: Update, local: set<FaceId>, newFace: bool) {
    && NodeOk(b) && Updated(a.v, u, local, b.v)
    && SlackOf(b) == SlackAfter(SlackOf(a), u.s > a.v.seqno && newFace && a.v.nh != [u.f], u.f)
    && b.gone == a.gone + Lost(a.v, SlackOf(a), u, local)
  }

  /**
   The lock of its creation leaves a new face, so that the entry alone holds it, exactly if
   the update has a higher number and the face was not the one next hop.
   */
  lemma NewFaceHeldByEntryIff(a: Node, b: Node, u: Update, local: set<FaceId>)
    requires NodeOk(a) && Processed(a, b, u, local, true) && SlackOf(a)[u.f] == 1
    ensures b.locks[u.f] == (multiset(b.v.nh) + multiset(b.v.tfib))[u.f] <==> u.s > a.v.seqno && a.v.nh != [u.f]
  {
    assert b.locks[u.f] == SlackOf(b)[u.f] + Held(b.v)[u.f];
  }

  lemma QuietProcessed(a: Node, b: Node, u: Update, local: set<FaceId>, newFace: bool)
    requires NodeOk(a) && (a == b || Keeps(a, b, {})) && u.s <= a.v.seqno && Updated(a.v, u, local, b.v)
    ensures Processed(a, b, u, local, newFace)
  {
  }

  /** The event for the update manager. */
  function Reported(v: Fib, u: Update): (ev: Event) {
    if u.s > v.seqno then NhSet else if u.s == v.seqno then NhAdd else if u.f in v.nh then NoEvent else PhAdd
  }

  /** The loop that clears the next hops of `a`, `left` of them still there. */
  ghost predicate Clearing(a: Node, b: Node, left: nat) {
    && Keeps(a, b, Unheld(Elements(a.v.nh) - Elements(b.v.nh), a.v.tfib, SlackOf(a)))
    && b.v == a.v.(nh := b.v.nh) && Elements(b.v.nh) <= Elements(a.v.nh) && |b.v.nh| == left
  }

  lemma ClearingStep(a: Node, b: Node, c: Node, f: FaceId)
    requires NodeOk(a) && |b.v.nh| > 0 && Clearing(a, b, |b.v.nh|) && f in b.v.nh
    requires Keeps(b, c, Unheld({f}, b.v.tfib, SlackOf(b))) && c.v == b.v.(nh := c.v.nh)
    requires Elements(c.v.nh) == Elements(b.v.nh) - {f} && |c.v.nh| == |b.v.nh| - 1
    ensures Clearing(a, c, |b.v.nh| - 1)
  {
    var gone1 := Elements(a.v.nh) - Elements(b.v.nh);
    KeepsOn(a, b, c, Unheld(gone1, a.v.tfib, SlackOf(a)), Unheld({f}, a.v.tfib, SlackOf(a)));
    UnheldUnion(gone1, {f}, a.v.tfib, SlackOf(a));
    OneMoreGone(Elements(a.v.nh), Elements(b.v.nh), f);
  }

  lemma OneMoreGone(all: set<FaceId>, left: set<FaceId>, f: FaceId)
    requires f in left && left <= all
    ensures all - (left - {f}) == all - left + {f}
  {
  }

  /** The next hop is `f` alone; unless it was so before, all next hops went first. */
  ghost predicate HopSet(a: Node, b: Node, f: FaceId, added: bool) {
    && Keeps(a, b, if added then Unheld(Elements(a.v.nh), a.v.tfib, SlackOf(a)) else {})
    && b.v == a.v.(nh := [f]) && (added <==> a.v.nh != [f])
  }

  lemma HopSetAfter(a: Node, b: Node, c: Node, f: FaceId)
    requires a.v.nh != [f] && b.v == a.v.(nh := []) && c.v == b.v.(nh := c.v.nh)
    requires Keeps(a, b, Unheld(Elements(a.v.nh), a.v.tfib, SlackOf(a))) && Keeps(b, c, {})
    requires Elements(c.v.nh) == Elements(b.v.nh) + {f}
    ensures HopSet(a, c, f, true)
  {
    KeepsQuiet(a, b, c, Unheld(Elements(a.v.nh), a.v.tfib, SlackOf(a)));
    assert Elements(c.v.nh) == {f};
    SingleHop(c.v.nh, f);
  }

  /** One foreign lock on `f` was given back if `drop`. */
  ghost predicate LetGo(a: Node, b: Node, drop: bool, f: FaceId) {
    NodeOk(b) && b.v == a.v && b.gone == a.gone && SlackOf(b) == SlackAfter(SlackOf(a), drop, f)
  }

  lemma SpareLock(a: Node, f: FaceId)
    requires NodeOk(a) && f in SlackOf(a) && f in a.v.nh
    ensures LetGo(a, a.(locks := a.locks - multiset{f}, gone := a.gone + {}), true, f)
    ensures Lone([f], a.locks) == {}
  {
    LocksOf(a, f);
  }

  /** The three parts of the branch of a higher number together. */
  lemma Switched(a: Node, b: Node, c: Node, d: Node, u: Update, local: set<FaceId>, added: bool)
    requires u.s > a.v.seqno && b.v == DelPrev(a.v.(seqno := u.s), u.f) && c.v == Moved(b.v, u.f, 0, local)
    requires Keeps(a, b, if u.f in a.v.tfib then Unheld({u.f}, a.v.nh, SlackOf(a)) else {}) && Keeps(b, c, {})
    requires added == (c.v.nh != [u.f])
    requires Keeps(c, d, if added then Unheld(Elements(c.v.nh), c.v.tfib, SlackOf(c)) else {})
    ensures Keeps(a, d, Lost(a.v, SlackOf(a), u, local))
  {
    var l1 := if u.f in a.v.tfib then Unheld({u.f}, a.v.nh, SlackOf(a)) else {};
    var l3 := if added then Unheld(Elements(c.v.nh), c.v.tfib, SlackOf(c)) else {};
    KeepsQuiet(a, b, c, l1);
    KeepsOn(a, c, d, l1, l3);
    LostIs(a.v, SlackOf(a), u, local, c.v);
  }

  lemma LostIs(v: Fib, slack: multiset<FaceId>, u: Update, local: set<FaceId>, c: Fib)
    requires u.s > v.seqno && c == Moved(DelPrev(v.(seqno := u.s), u.f), u.f, 0, local)
    ensures c.nh == v.nh
    ensures Lost(v, slack, u, local) ==
      (if u.f in v.tfib then Unheld({u.f}, v.nh, slack) else {})
      + (if v.nh == [u.f] then {} else Unheld(Elements(v.nh), c.tfib, slack))
  {
    assert Unheld({}, v.nh, slack) == {};
  }
}
