/**
 A handover of the producer in a network at rest. Once the notifications have
 settled, every node that could reach the old location can reach the producer.
 */
module Handover {
  import opened Mapme
  import opened Network

  /** No previous hop is left to be notified. */
  ghost predicate Quiet(n: Net) {
    forall i :: i in n.nodes ==> n.nodes[i].tfib == {}
  }

  /** A number higher than any node has. */
  ghost predicate Above(n: Net, t: nat) {
    forall i :: i in n.nodes ==> n.nodes[i].seqno < t
  }

  /**
   A step of a handover with number `t`: nothing is refused or given up, old updates
   are no longer delivered, and what the producer announces is `t` or later, or known at its node.
   */
  ghost predicate InPhase(n: Net, st: Step, t: nat) {
    match st
    case Attach(i, s, refused) => refused == {} && i in n.nodes && (s >= t || s <= n.nodes[i].seqno)
    case Receive(m, refused) => refused == {} && m.s >= t
    case GiveUp(i) => false
    case _ => true
  }

  /** The steps from `h` to `k` of a run are a handover with number `t` that starts at rest. */
  ghost predicate Phase(ns: seq<Net>, sts: seq<Step>, h: nat, k: nat, t: nat) {
    && NetRun(ns, sts) && h <= k <= |sts|
    && Quiet(ns[h]) && Above(ns[h], t)
    && forall a :: h <= a < k ==> InPhase(ns[a], sts[a], t)
  }

  /**
   Node `i`, with next hops `was` before: without the new number it still has them, and
   with it each of them has the number too or is still to be notified.
   */
  ghost predicate Informs(was: set<Id>, n: Net, i: Id, t: nat)
    requires i in n.nodes
  {
    if n.nodes[i].seqno < t then was <= n.nodes[i].nh && n.nodes[i].tfib == {}
    else forall j :: j in was && j != LOCAL ==> j in n.nodes[i].tfib || (j in n.nodes && n.nodes[j].seqno >= t)
  }

  lemma StepInforms(was: set<Id>, n: Net, st: Step, i: Id, t: nat)
    requires NetInv(n) && Enabled(n, st) && InPhase(n, st, t) && i in n.nodes && Informs(was, n, i, t)
    ensures Informs(was, Do(n, st), i, t)
  {
  }

  lemma {:induction false} PhaseInforms(ns: seq<Net>, sts: seq<Step>, h: nat, k: nat, t: nat, i: Id)
    requires Phase(ns, sts, h, k, t) && i in ns[h].nodes
    ensures i in ns[k].nodes && Informs(ns[h].nodes[i].nh, ns[k], i, t)
    decreases k
  {
    if k > h {
      PhaseInforms(ns, sts, h, k - 1, t, i);
      InformsNext(ns, sts, k - 1, k, t, i, ns[h].nodes[i].nh);
    }
  }

  lemma InformsNext(ns: seq<Net>, sts: seq<Step>, k: nat, k1: nat, t: nat, i: Id, was: set<Id>)
    requires NetRun(ns, sts) && k < |sts| && k1 == k + 1 && InPhase(ns[k], sts[k], t) && i in ns[k].nodes
    ensures i in ns[k1].nodes && (Informs(was, ns[k], i, t) ==> Informs(was, ns[k1], i, t))
  {
    RunInv(ns, sts, k);
    if Informs(was, ns[k], i, t) { StepInforms(was, ns[k], sts[k], i, t); }
  }

  /** Notification is complete: at rest, the number has spread along every old forwarding path from a node that has it. */
  lemma {:induction false} OldPathsInformed(ns: seq<Net>, sts: seq<Step>, h: nat, k: nat, t: nat, p: seq<Id>, b: nat)
    requires Phase(ns, sts, h, k, t) && Quiet(ns[k]) && Path(ns[h], p) && b < |p|
    requires p[0] in ns[k].nodes && ns[k].nodes[p[0]].seqno >= t
    ensures p[b] in ns[k].nodes && ns[k].nodes[p[b]].seqno >= t
  {
    if b > 0 {
      OldPathsInformed(ns, sts, h, k, t, p, b - 1);
      PhaseInforms(ns, sts, h, k, t, p[b - 1]);
      assert p[b - 1 + 1] in ns[h].nodes[p[b - 1]].nh;
    }
  }

  /** From every node of an old path to a node with the new number there is a path to where the producer is now. */
  lemma {:induction false} OldPathDelivers(ns: seq<Net>, sts: seq<Step>, h: nat, k: nat, t: nat, p: seq<Id>)
    returns (q: seq<Id>)
    requires Phase(ns, sts, h, k, t) && t > 0 && Path(ns[h], p)
    requires p[|p| - 1] in ns[k].nodes && ns[k].nodes[p[|p| - 1]].seqno >= t
    ensures Delivers(ns, sts, k, p[0], q, t)
    decreases |p|
  {
    PhaseInforms(ns, sts, h, k, t, p[0]);
    if ns[k].nodes[p[0]].seqno >= t {
      UpdatedNodesReachProducer(ns, sts, k, p[0]);
      q :| Delivers(ns, sts, k, p[0], q, ns[k].nodes[p[0]].seqno);
    } else {
      PathTail(ns[h], p);
      var r := OldPathDelivers(ns, sts, h, k, t, p[1..]);
      PathCons(ns[k], p[0], r);
      q := [p[0]] + r;
      assert q[|q| - 1] == r[|r| - 1];
    }
  }

  /**
   Handover: the producer announces a new number at a node from which forwarding
   led to its old location. When the network is at rest again, every node from which
   forwarding led to the old location has a path to a place the producer
   announced with the new number or a later one.
   */
  lemma HandoverDelivers(ns: seq<Net>, sts: seq<Step>, h: nat, k: nat, t: nat, home: seq<Id>, p: seq<Id>)
    requires Phase(ns, sts, h, k, t) && t > 0 && Quiet(ns[k])
    requires Path(ns[h], home) && home[0] in ns[k].nodes && ns[k].nodes[home[0]].seqno >= t
    requires Path(ns[h], p) && p[|p| - 1] == home[|home| - 1]
    ensures exists q :: Delivers(ns, sts, k, p[0], q, t)
  {
    OldPathsInformed(ns, sts, h, k, t, home, |home| - 1);
    var q := OldPathDelivers(ns, sts, h, k, t, p);
  }

  /** What the producer announced at a node stays known there. */
  lemma {:induction false} AnnouncementKept(ns: seq<Net>, sts: seq<Step>, a: nat, h: nat)
    requires NetRun(ns, sts) && a < h <= |sts| && sts[a].Attach?
    ensures sts[a].i in ns[h].nodes && ns[h].nodes[sts[a].i].seqno >= sts[a].s
    decreases h
  {
    RunInv(ns, sts, h - 1);
    if h - 1 > a { AnnouncementKept(ns, sts, a, h - 1); }
    NodeStep(ns[h - 1], sts[h - 1], sts[a].i);
  }

  /** A single move: if the new numbers are all announced at one node, that is where the paths end. */
  lemma MoveDelivers(ns: seq<Net>, sts: seq<Step>, h: nat, k: nat, t: nat, home: seq<Id>, p: seq<Id>)
    requires Phase(ns, sts, h, k, t) && t > 0 && Quiet(ns[k])
    requires Path(ns[h], home) && home[0] in ns[k].nodes && ns[k].nodes[home[0]].seqno >= t
    requires forall a :: h <= a < k && sts[a].Attach? && sts[a].s >= t ==> sts[a].i == home[0]
    requires Path(ns[h], p) && p[|p| - 1] == home[|home| - 1]
    ensures exists q :: ToProducer(ns[k], p[0], q) && q[|q| - 1] == home[0]
  {
    HandoverDelivers(ns, sts, h, k, t, home, p);
    var q :| Delivers(ns, sts, k, p[0], q, t);
    var end := q[|q| - 1];
    var a :| 0 <= a < k && sts[a].Attach? && sts[a].i == end && sts[a].s == ns[k].nodes[end].seqno;
    if a < h { AnnouncementKept(ns, sts, a, h); }
    assert ToProducer(ns[k], p[0], q) && end == home[0];
  }

  // ---- from the initial routes ----

  /** A node without number has no previous hops, and no update is without number. */
  ghost predicate Numbered(n: Net) {
    && (forall i :: i in n.nodes && n.nodes[i].seqno == 0 ==> n.nodes[i].tfib == {})
    && forall m :: m in n.ius ==> m.s > 0
  }

  lemma StepNumbered(n: Net, st: Step)
    requires Numbered(n) && Enabled(n, st)
    ensures Numbered(Do(n, st))
  {
  }

  lemma {:induction false} RunNumbered(ns: seq<Net>, sts: seq<Step>, k: nat)
    requires NetRun(ns, sts) && k <= |sts|
    ensures Numbered(ns[k])
  {
    if k > 0 {
      RunNumbered(ns, sts, k - 1);
      StepNumbered(ns[k - 1], sts[k - 1]);
    }
  }

  /** No previous hop is refused for lack of room or given up after ten notifications. */
  predicate Lossless(st: Step) {
    !st.GiveUp? && (st.Attach? || st.Receive? ==> st.refused == {})
  }

  /** Every run without losses is a handover from the initial routes. */
  lemma FirstPhase(ns: seq<Net>, sts: seq<Step>, k: nat)
    requires NetRun(ns, sts) && k <= |sts| && forall a :: 0 <= a < k ==> Lossless(sts[a])
    ensures Phase(ns, sts, 0, k, 1)
  {
    forall a | 0 <= a < k
      ensures InPhase(ns[a], sts[a], 1)
    {
      RunNumbered(ns, sts, a);
    }
  }

  /**
   In a run without losses, at rest: the nodes on an initial forwarding path from an
   updated node are updated, and whoever had an initial path to one of them has a path to
   a place the producer announced.
   */
  lemma InitialPathsDeliver(ns: seq<Net>, sts: seq<Step>, k: nat, home: seq<Id>, p: seq<Id>)
    requires NetRun(ns, sts) && k <= |sts| && (forall a :: 0 <= a < k ==> Lossless(sts[a])) && Quiet(ns[k])
    requires Path(ns[0], home) && home[0] in ns[k].nodes && ns[k].nodes[home[0]].seqno > 0
    requires Path(ns[0], p) && p[|p| - 1] == home[|home| - 1]
    ensures forall b :: 0 <= b < |home| ==> home[b] in ns[k].nodes && ns[k].nodes[home[b]].seqno > 0
    ensures exists q :: Delivers(ns, sts, k, p[0], q, 1)
  {
    FirstPhase(ns, sts, k);
    forall b | 0 <= b < |home|
      ensures home[b] in ns[k].nodes && ns[k].nodes[home[b]].seqno > 0
    {
      OldPathsInformed(ns, sts, 0, k, 1, home, b);
    }
    HandoverDelivers(ns, sts, 0, k, 1, home, p);
  }

  // ---- such a handover ----

  function MoveStep(k: nat): (st: Step) {
    if k == 0 then Attach(2, 1, {})
    else if k == 1 then Send(2, 1)
    else if k == 2 then Receive(Msg(2, 1, 1), {})
    else Acknowledge(Msg(1, 2, 1))
  }

  function MoveState(k: nat): (n: Net) {
    Net(map[1 := if k < 3 then Mob(0, {LOCAL}, {}) else Mob(1, {2}, {}),
            2 := if k == 0 then Mob(0, {1}, {}) else if k < 4 then Mob(1, {LOCAL}, {1}) else Mob(1, {LOCAL}, {})],
        if k > 1 then {Msg(2, 1, 1)} else {},
        if k > 2 then {Msg(1, 2, 1)} else {})
  }

  lemma MoveSteps(k: nat)
    requires k < 4
    ensures Enabled(MoveState(k), MoveStep(k)) && Do(MoveState(k), MoveStep(k)) == MoveState(k + 1)
  {
    assert Handled(Mob(0, {1}, {}), Update(1, LOCAL), {}) == Mob(1, {LOCAL}, {1});
    assert Handled(Mob(0, {LOCAL}, {}), Update(1, 2), {}) == Mob(1, {2}, {});
    assert OnAck(Mob(1, {LOCAL}, {1}), Update(1, 1)) == Mob(1, {LOCAL}, {});
    assert Do(MoveState(k), MoveStep(k)).nodes == MoveState(k + 1).nodes;
  }

  /** The producer moves from node 1 to node 2, which forwarded to it: at rest after four steps, forwarding goes from 1 to 2. */
  lemma MoveOccurs()
    ensures
      var ns, sts := seq(5, k requires 0 <= k < 5 => MoveState(k)), seq(4, k requires 0 <= k < 4 => MoveStep(k));
      && Phase(ns, sts, 0, 4, 1) && Quiet(ns[4])
      && Path(ns[0], [2, 1]) && LOCAL in ns[0].nodes[1].nh && ToProducer(ns[4], 1, [1, 2])
  {
    var ns, sts := seq(5, k requires 0 <= k < 5 => MoveState(k)), seq(4, k requires 0 <= k < 4 => MoveStep(k));
    forall k | 0 <= k < 4
      ensures Enabled(ns[k], sts[k]) && ns[k + 1] == Do(ns[k], sts[k])
    {
      MoveSteps(k);
    }
    assert Initial(ns[0]);
    FirstPhase(ns, sts, 4);
  }
}
