/**
 MAP-Me across a network of nodes for one prefix. A node's face towards a
 neighbour carries the neighbour's number; face 0 is the local application.
 Updates and acknowledgements once sent stay deliverable for ever, so any
 loss, duplication and reordering is allowed.
 */
module Network {
  import opened Types
  import opened Mapme

  type Id = nat

  const LOCAL: FaceId := 0

  /** An Interest Update or acknowledgement on its way. */
  datatype Msg = Msg(src: Id, dst: Id, s: nat)

  datatype Net = Net(nodes: map<Id, Mob>, ius: set<Msg>, acks: set<Msg>)

  datatype Step =
    | Attach(i: Id, s: nat, refused: set<FaceId>)
    | Send(i: Id, j: Id)
    | Receive(m: Msg, refused: set<FaceId>)
    | Acknowledge(m: Msg)
    | GiveUp(i: Id)

  /** All nodes at INIT_SEQ with any routes between them and no previous hops. */
  ghost predicate Initial(n: Net) {
    && n.ius == {} && n.acks == {} && LOCAL !in n.nodes
    && forall i :: i in n.nodes ==>
         n.nodes[i].seqno == 0 && n.nodes[i].tfib == {} && forall j :: j in n.nodes[i].nh ==> j == LOCAL || j in n.nodes
  }

  ghost predicate Enabled(n: Net, st: Step) {
    match st
    case Attach(i, s, refused) => i in n.nodes
    case Send(i, j) => i in n.nodes && j in n.nodes && j in n.nodes[i].tfib
    case Receive(m, refused) => m in n.ius && m.dst in n.nodes
    case Acknowledge(m) => m in n.acks && m.dst in n.nodes
    case GiveUp(i) => i in n.nodes
  }

  /** Processing of an update by a node that may have no room for some previous hops. */
  function Handled(m: Mob, u: Update, refused: set<FaceId>): (r: Mob) {
    var r := OnUpdate(m, u, {LOCAL});
    r.(tfib := r.tfib - refused)
  }

  function Do(n: Net, st: Step): (r: Net)
    requires Enabled(n, st)
  {
    match st
    case Attach(i, s, refused) =>
      // the producer application, attached to node i, announces sequence number s
      n.(nodes := n.nodes[i := Handled(n.nodes[i], Update(s, LOCAL), refused)])
    case Send(i, j) =>
      // the event manager notifies a previous hop with the node's current number
      n.(ius := n.ius + {Msg(i, j, n.nodes[i].seqno)})
    case Receive(m, refused) =>
      n.(nodes := n.nodes[m.dst := Handled(n.nodes[m.dst], Update(m.s, m.src), refused)],
         acks := n.acks + {Msg(m.dst, m.src, m.s)})
    case Acknowledge(m) =>
      n.(nodes := n.nodes[m.dst := OnAck(n.nodes[m.dst], Update(m.s, m.src))])
    case GiveUp(i) =>
      // retransmissions exhausted: hicn_mapme_tfib_clear
      n.(nodes := n.nodes[i := n.nodes[i].(tfib := {})])
  }

  // ---- the invariant ----

  /** No message claims more than its sender knows. */
  ghost predicate Honest(n: Net, msgs: set<Msg>) {
    forall m :: m in msgs ==> m.src in n.nodes && m.s <= n.nodes[m.src].seqno
  }

  /** A next hop is at least as recent as the node that uses it. */
  ghost predicate Uphill(n: Net) {
    forall i, j :: i in n.nodes && j in n.nodes[i].nh ==>
      j == LOCAL || (j in n.nodes && n.nodes[i].seqno <= n.nodes[j].seqno)
  }

  ghost predicate NetInv(n: Net) {
    Uphill(n) && Honest(n, n.ius) && Honest(n, n.acks)
  }

  /** A node that moves on to a higher number, or keeps its own, harms nobody if its own next hops are right. */
  lemma NodeChange(n: Net, i: Id, m: Mob)
    requires NetInv(n) && i in n.nodes && m.seqno >= n.nodes[i].seqno
    requires forall j :: j in m.nh ==> j == LOCAL || (j in n.nodes && (j == i || m.seqno <= n.nodes[j].seqno))
    ensures NetInv(n.(nodes := n.nodes[i := m]))
  {
  }

  lemma ReceiveInv(n: Net, m: Msg, refused: set<FaceId>)
    requires NetInv(n) && m in n.ius && m.dst in n.nodes
    ensures NetInv(Do(n, Receive(m, refused)))
  {
    NodeChange(n, m.dst, Handled(n.nodes[m.dst], Update(m.s, m.src), refused));
  }

  lemma StepInv(n: Net, st: Step)
    requires NetInv(n) && Enabled(n, st)
    ensures NetInv(Do(n, st))
  {
    match st {
      case Attach(i, s, refused) => NodeChange(n, i, Handled(n.nodes[i], Update(s, LOCAL), refused));
      case Receive(m, refused) => ReceiveInv(n, m, refused);
      case Acknowledge(m) => NodeChange(n, m.dst, OnAck(n.nodes[m.dst], Update(m.s, m.src)));
      case GiveUp(i) => NodeChange(n, i, n.nodes[i].(tfib := {}));
      case Send(_, _) =>
    }
  }

  ghost predicate NetRun(ns: seq<Net>, sts: seq<Step>) {
    && |ns| == |sts| + 1
    && Initial(ns[0])
    && forall k :: 0 <= k < |sts| ==> Enabled(ns[k], sts[k]) && ns[k + 1] == Do(ns[k], sts[k])
  }

  lemma {:induction false} RunInv(ns: seq<Net>, sts: seq<Step>, k: nat)
    requires NetRun(ns, sts) && k <= |sts|
    ensures NetInv(ns[k])
  {
    if k > 0 {
      RunInv(ns, sts, k - 1);
      StepInv(ns[k - 1], sts[k - 1]);
    }
  }

  // ---- what it means for forwarding ----

  /** A forwarding path: each node is a next hop of the one before. */
  ghost predicate Path(n: Net, p: seq<Id>) {
    && p != []
    && (forall k :: 0 <= k < |p| ==> p[k] in n.nodes && p[k] != LOCAL)
    && (forall k :: 0 <= k < |p| - 1 ==> p[k + 1] in n.nodes[p[k]].nh)
  }

  lemma {:induction false} PathUphill(n: Net, p: seq<Id>, a: nat, b: nat)
    requires NetInv(n) && Path(n, p) && a <= b < |p|
    ensures n.nodes[p[a]].seqno <= n.nodes[p[b]].seqno
    decreases b - a
  {
    if a < b {
      PathUphill(n, p, a, b - 1);
      assert p[b - 1 + 1] in n.nodes[p[b - 1]].nh;
    }
  }

  /**
   In every state of every run, sequence numbers never fall along a forwarding
   path; hence all nodes of a forwarding loop have one sequence number.
   */
  lemma ForwardingNeverGoesBack(ns: seq<Net>, sts: seq<Step>, k: nat, p: seq<Id>)
    requires NetRun(ns, sts) && k <= |sts| && Path(ns[k], p)
    ensures forall a, b :: 0 <= a <= b < |p| ==> ns[k].nodes[p[a]].seqno <= ns[k].nodes[p[b]].seqno
    ensures p[0] == p[|p| - 1] ==>
      forall a :: 0 <= a < |p| ==> ns[k].nodes[p[a]].seqno == ns[k].nodes[p[0]].seqno
  {
    RunInv(ns, sts, k);
    forall a, b | 0 <= a <= b < |p|
      ensures ns[k].nodes[p[a]].seqno <= ns[k].nodes[p[b]].seqno
    {
      PathUphill(ns[k], p, a, b);
    }
  }

  /** When a node accepts an acknowledgement and forgets the previous hop, that hop has caught up with it. */
  lemma AcknowledgedHopCaughtUp(ns: seq<Net>, sts: seq<Step>, k: nat, m: Msg)
    requires NetRun(ns, sts) && k <= |sts| && m in ns[k].acks && m.dst in ns[k].nodes
    requires OnAck(ns[k].nodes[m.dst], Update(m.s, m.src)) != ns[k].nodes[m.dst]
    ensures m.src in ns[k].nodes && ns[k].nodes[m.src].seqno >= ns[k].nodes[m.dst].seqno
  {
    RunInv(ns, sts, k);
  }

  // ---- an updated node can reach the producer ----

  /** The step at which node `i` got the sequence number it has after `k` steps; 0 if it never got one. */
  ghost function Birth(ns: seq<Net>, k: nat, i: Id): (b: nat)
    requires k < |ns|
    ensures b <= k
  {
    if k == 0 then 0
    else if i in ns[k].nodes && i in ns[k - 1].nodes && ns[k].nodes[i].seqno == ns[k - 1].nodes[i].seqno
      then Birth(ns, k - 1, i)
    else k
  }

  /** `j` is closer to the producer than `i`: more recent, or as recent and informed earlier. */
  ghost predicate Closer(ns: seq<Net>, k: nat, i: Id, j: Id)
    requires k < |ns| && i in ns[k].nodes
  {
    j == LOCAL || (j in ns[k].nodes && (ns[k].nodes[j].seqno > ns[k].nodes[i].seqno ||
      (ns[k].nodes[j].seqno == ns[k].nodes[i].seqno && Birth(ns, k, j) < Birth(ns, k, i))))
  }

  /** A node that was ever updated has a next hop closer to the producer. */
  ghost predicate Anchored(ns: seq<Net>, k: nat, i: Id)
    requires k < |ns| && i in ns[k].nodes
  {
    ns[k].nodes[i].seqno > 0 ==> exists j :: j in ns[k].nodes[i].nh && Closer(ns, k, i, j)
  }

  lemma {:induction false} SameNodes(ns: seq<Net>, sts: seq<Step>, k: nat)
    requires NetRun(ns, sts) && k <= |sts|
    ensures ns[k].nodes.Keys == ns[0].nodes.Keys
  {
    if k > 0 { SameNodes(ns, sts, k - 1); }
  }

  /** Where node `i` may have got number `s`: the producer, or another node that has it. */
  ghost predicate Source(n: Net, i: Id, j: Id, s: nat) {
    j == LOCAL || (j in n.nodes && n.nodes[j].seqno >= s && j != i)
  }

  /** What one step does to one node: it keeps its number and its next hops, or gets a new number from somewhere. */
  lemma NodeStep(n: Net, st: Step, i: Id)
    requires NetInv(n) && Enabled(n, st) && i in n.nodes
    ensures var a, b := n.nodes[i], Do(n, st).nodes[i];
      if b.seqno == a.seqno then a.nh <= b.nh
      else b.seqno > a.seqno && (exists j :: b.nh == {j} && Source(n, i, j, b.seqno))
  {
    var a, b := n.nodes[i], Do(n, st).nodes[i];
    if b.seqno != a.seqno {
      var j := if st.Attach? then LOCAL else st.m.src;
      assert b.nh == {j};
    }
  }

  lemma {:induction false} RunAnchored(ns: seq<Net>, sts: seq<Step>, k: nat, i: Id)
    requires NetRun(ns, sts) && k <= |sts| && i in ns[k].nodes
    ensures Anchored(ns, k, i)
  {
    if k > 0 && ns[k].nodes[i].seqno > 0 {
      SameNodes(ns, sts, k);
      SameNodes(ns, sts, k - 1);
      RunInv(ns, sts, k - 1);
      var n, st := ns[k - 1], sts[k - 1];
      NodeStep(n, st, i);
      if ns[k].nodes[i].seqno == n.nodes[i].seqno {
        RunAnchored(ns, sts, k - 1, i);
        var j :| j in n.nodes[i].nh && Closer(ns, k - 1, i, j);
        CloserKept(ns, sts, k, i, j);
      } else {
        var j :| ns[k].nodes[i].nh == {j} && Source(n, i, j, ns[k].nodes[i].seqno);
        CloserBorn(ns, sts, k, i, j);
      }
    }
  }

  lemma OnlyOneChanges(n: Net, st: Step, i: Id, j: Id)
    requires Enabled(n, st) && i in n.nodes && j in n.nodes && i != j && Do(n, st).nodes[i] != n.nodes[i]
    ensures Do(n, st).nodes[j] == n.nodes[j]
  {
  }

  lemma CloserKept(ns: seq<Net>, sts: seq<Step>, k: nat, i: Id, j: Id)
    requires NetRun(ns, sts) && 0 < k <= |sts| && NetInv(ns[k - 1])
    requires ns[k].nodes.Keys == ns[k - 1].nodes.Keys && i in ns[k].nodes
    requires ns[k].nodes[i].seqno == ns[k - 1].nodes[i].seqno && Closer(ns, k - 1, i, j)
    ensures Closer(ns, k, i, j)
  {
    if j != LOCAL { NodeStep(ns[k - 1], sts[k - 1], j); }
  }

  lemma CloserBorn(ns: seq<Net>, sts: seq<Step>, k: nat, i: Id, j: Id)
    requires NetRun(ns, sts) && 0 < k <= |sts| && NetInv(ns[k - 1])
    requires ns[k].nodes.Keys == ns[k - 1].nodes.Keys && i in ns[k].nodes
    requires ns[k].nodes[i].seqno != ns[k - 1].nodes[i].seqno && j in ns[k].nodes[i].nh
    ensures Closer(ns, k, i, j)
  {
    NodeStep(ns[k - 1], sts[k - 1], i);
    if j != LOCAL { OnlyOneChanges(ns[k - 1], sts[k - 1], i, j); }
  }

  /** A bound on the sequence numbers in the network. */
  lemma {:induction false} Bounded(nodes: map<Id, Mob>) returns (top: nat)
    ensures forall i :: i in nodes ==> nodes[i].seqno <= top
    decreases |nodes|
  {
    if nodes == map[] {
      top := 0;
    } else {
      var i :| i in nodes;
      assert (nodes - {i}).Keys == nodes.Keys - {i};
      var t := Bounded(nodes - {i});
      top := if nodes[i].seqno > t then nodes[i].seqno else t;
      assert forall j :: j in nodes && j != i ==> j in nodes - {i} && nodes[j] == (nodes - {i})[j];
    }
  }

  /** A forwarding path from `i` to a node with a local next hop. */
  ghost predicate ToProducer(n: Net, i: Id, p: seq<Id>) {
    Path(n, p) && p[0] == i && LOCAL in n.nodes[p[|p| - 1]].nh
  }

  lemma {:induction false} PathToProducer(ns: seq<Net>, sts: seq<Step>, k: nat, i: Id, top: nat) returns (p: seq<Id>)
    requires NetRun(ns, sts) && k <= |sts| && i in ns[k].nodes && ns[k].nodes[i].seqno > 0
    requires forall j :: j in ns[k].nodes ==> ns[k].nodes[j].seqno <= top
    ensures ToProducer(ns[k], i, p)
    decreases top - ns[k].nodes[i].seqno, Birth(ns, k, i)
  {
    SameNodes(ns, sts, k);
    RunAnchored(ns, sts, k, i);
    var j :| j in ns[k].nodes[i].nh && Closer(ns, k, i, j);
    if j == LOCAL {
      p := [i];
    } else {
      var q := PathToProducer(ns, sts, k, j, top);
      p := [i] + q;
    }
  }

  /** Within the first `k` steps the producer announced number `s` at node `i`. */
  ghost predicate Announced(sts: seq<Step>, k: nat, i: Id, s: nat)
    requires k <= |sts|
  {
    exists h :: 0 <= h < k && sts[h].Attach? && sts[h].i == i && sts[h].s == s
  }

  /** Only an announcement at the node gives it a local next hop. */
  lemma LocalStep(n: Net, st: Step, i: Id)
    requires NetInv(n) && LOCAL !in n.nodes && Enabled(n, st) && i in n.nodes
    ensures
      var a, b := n.nodes[i], Do(n, st).nodes[i];
      LOCAL in b.nh ==> (a.seqno == b.seqno && LOCAL in a.nh) || (st.Attach? && st.i == i && st.s == b.seqno)
  {
  }

  /** An updated node with a local next hop is one where the producer announced the number it has. */
  lemma {:induction false} LocalAnnounced(ns: seq<Net>, sts: seq<Step>, k: nat, i: Id)
    requires NetRun(ns, sts) && k <= |sts| && i in ns[k].nodes && ns[k].nodes[i].seqno > 0 && LOCAL in ns[k].nodes[i].nh
    ensures Announced(sts, k, i, ns[k].nodes[i].seqno)
  {
    if k > 0 {
      SameNodes(ns, sts, k);
      SameNodes(ns, sts, k - 1);
      RunInv(ns, sts, k - 1);
      LocalStep(ns[k - 1], sts[k - 1], i);
      var st := sts[k - 1];
      if !(st.Attach? && st.i == i && st.s == ns[k].nodes[i].seqno) { LocalAnnounced(ns, sts, k - 1, i); }
    }
  }

  /** A forwarding path from `i` to a node where the producer announced the number that node has, `s` or higher. */
  ghost predicate Delivers(ns: seq<Net>, sts: seq<Step>, k: nat, i: Id, p: seq<Id>, s: nat)
    requires k <= |sts| < |ns|
  {
    && ToProducer(ns[k], i, p)
    && ns[k].nodes[p[|p| - 1]].seqno >= s
    && Announced(sts, k, p[|p| - 1], ns[k].nodes[p[|p| - 1]].seqno)
  }

  /**
   Delivery: in every state of every run, from each node that an update ever
   reached there is a forwarding path to a node where the producer announced the
   number that node has, which is at least as high. From a node with the highest
   number of all that is the place the producer announced last.
   */
  lemma UpdatedNodesReachProducer(ns: seq<Net>, sts: seq<Step>, k: nat, i: Id)
    requires NetRun(ns, sts) && k <= |sts| && i in ns[k].nodes && ns[k].nodes[i].seqno > 0
    ensures exists p :: Delivers(ns, sts, k, i, p, ns[k].nodes[i].seqno)
    ensures (forall j :: j in ns[k].nodes ==> ns[k].nodes[j].seqno <= ns[k].nodes[i].seqno) ==>
      exists p :: Delivers(ns, sts, k, i, p, ns[k].nodes[i].seqno) && Announced(sts, k, p[|p| - 1], ns[k].nodes[i].seqno)
  {
    var top := Bounded(ns[k].nodes);
    var p := PathToProducer(ns, sts, k, i, top);
    RunInv(ns, sts, k);
    PathUphill(ns[k], p, 0, |p| - 1);
    LocalAnnounced(ns, sts, k, p[|p| - 1]);
    assert Delivers(ns, sts, k, i, p, ns[k].nodes[i].seqno);
  }

  // ---- when a loop closes ----

  /** No forwarding path comes back to an updated node. */
  ghost predicate NoLoop(n: Net) {
    forall p :: Path(n, p) && |p| >= 2 && n.nodes[p[0]].seqno > 0 ==> p[0] != p[|p| - 1]
  }

  ghost predicate Reaches(n: Net, i: Id, j: Id) {
    exists p :: Path(n, p) && p[0] == i && p[|p| - 1] == j
  }

  /** An update that repeats the node's number, from a face that is not a next hop but from which forwarding leads to the node. */
  ghost predicate Closes(n: Net, st: Step)
    requires Enabled(n, st)
  {
    && st.Receive? && st.m.s == n.nodes[st.m.dst].seqno > 0
    && st.m.src !in n.nodes[st.m.dst].nh && Reaches(n, st.m.src, st.m.dst)
  }

  lemma PathCons(n: Net, i: Id, p: seq<Id>)
    requires Path(n, p) && i in n.nodes && i != LOCAL && p[0] in n.nodes[i].nh
    ensures Path(n, [i] + p)
  {
    var q := [i] + p;
    forall k | 0 <= k < |q| - 1
      ensures q[k + 1] in n.nodes[q[k]].nh
    {
      if k > 0 { assert p[(k - 1) + 1] in n.nodes[p[k - 1]].nh; }
    }
  }

  lemma PathTail(n: Net, p: seq<Id>)
    requires Path(n, p) && |p| >= 2
    ensures Path(n, p[1..]) && p[1] in n.nodes[p[0]].nh
  {
    assert p[0 + 1] in n.nodes[p[0]].nh;
    forall k | 0 <= k < |p| - 2
      ensures p[1..][k + 1] in n.nodes[p[1..][k]].nh
    {
      assert p[(k + 1) + 1] in n.nodes[p[k + 1]].nh;
    }
  }

  lemma {:induction false} ReachesOn(n: Net, p: seq<Id>, j: Id)
    requires Path(n, p) && Reaches(n, p[|p| - 1], j)
    ensures Reaches(n, p[0], j)
    decreases |p|
  {
    if |p| >= 2 {
      PathTail(n, p);
      ReachesOn(n, p[1..], j);
      var q :| Path(n, q) && q[0] == p[1] && q[|q| - 1] == j;
      PathCons(n, p[0], q);
      assert ([p[0]] + q)[|q|] == j;
    }
  }

  /** `r` forwards as `n` does, but that node `d` may have next hop `s` besides. */
  ghost predicate AddsEdge(n: Net, r: Net, d: Id, s: Id) {
    && r.nodes.Keys == n.nodes.Keys && d in n.nodes && s in n.nodes
    && forall i :: i in n.nodes ==> r.nodes[i].nh <= n.nodes[i].nh + (if i == d then {s} else {})
  }

  /** A path that uses the new edge goes to its beginning, and from its end, in the old network. */
  lemma {:induction false} PathSplit(n: Net, r: Net, d: Id, s: Id, p: seq<Id>)
    requires AddsEdge(n, r, d, s) && d != LOCAL && s != LOCAL && Path(r, p)
    ensures Path(n, p) || (Reaches(n, p[0], d) && Reaches(n, s, p[|p| - 1]))
    decreases |p|
  {
    if |p| >= 2 {
      PathTail(r, p);
      PathSplit(n, r, d, s, p[1..]);
      if p[1] in n.nodes[p[0]].nh {
        if Path(n, p[1..]) {
          PathCons(n, p[0], p[1..]);
          assert p == [p[0]] + p[1..];
        } else {
          var q :| Path(n, q) && q[0] == p[1] && q[|q| - 1] == d;
          PathCons(n, p[0], q);
          assert ([p[0]] + q)[|q|] == d;
        }
      } else {
        assert p[0] == d && p[1] == s;
        assert Path(n, [d]);
        if Path(n, p[1..]) { assert Reaches(n, s, p[|p| - 1]); }
      }
    }
  }

  /** With the same numbers an edge closes a loop through an updated node exactly if forwarding led from its end to its beginning. */
  lemma EdgeLoop(n: Net, r: Net, d: Id, s: Id)
    requires NetInv(n) && NoLoop(n) && AddsEdge(n, r, d, s) && d != LOCAL && s != LOCAL
    requires forall i :: i in n.nodes ==> r.nodes[i].seqno == n.nodes[i].seqno
    ensures !(n.nodes[d].seqno > 0 && Reaches(n, s, d)) ==> NoLoop(r)
  {
    forall p | Path(r, p) && |p| >= 2 && r.nodes[p[0]].seqno > 0 && p[0] == p[|p| - 1]
      ensures n.nodes[d].seqno > 0 && Reaches(n, s, d)
    {
      PathSplit(n, r, d, s, p);
      var a :| Path(n, a) && a[0] == p[0] && a[|a| - 1] == d;
      PathUphill(n, a, 0, |a| - 1);
      var b :| Path(n, b) && b[0] == s && b[|b| - 1] == p[0];
      assert Reaches(n, p[0], d);
      ReachesOn(n, b, d);
    }
  }

  /** The same for an edge that is added: it does close one. */
  lemma EdgeCloses(n: Net, r: Net, d: Id, s: Id)
    requires r.nodes.Keys == n.nodes.Keys && d in n.nodes && d != LOCAL && Reaches(n, s, d)
    requires (forall i :: i in n.nodes ==> n.nodes[i].nh <= r.nodes[i].nh) && s in r.nodes[d].nh && r.nodes[d].seqno > 0
    ensures !NoLoop(r)
  {
    var p :| Path(n, p) && p[0] == s && p[|p| - 1] == d;
    assert Path(r, p) by {
      forall k | 0 <= k < |p| - 1
        ensures p[k + 1] in r.nodes[p[k]].nh
      {
        assert p[k + 1] in n.nodes[p[k]].nh;
      }
    }
    PathCons(r, d, p);
    var q := [d] + p;
    assert q[0] == d && q[|q| - 1] == d && |q| >= 2;
  }

  /** A node that takes a higher number closes no loop: whoever forwards to it has a lower number than it has now. */
  lemma {:induction false} HigherClosesNothing(n: Net, r: Net, d: Id, p: seq<Id>)
    requires NetInv(n) && NetInv(r) && NoLoop(n) && r.nodes.Keys == n.nodes.Keys && d in n.nodes
    requires (forall i :: i in n.nodes && i != d ==> r.nodes[i] == n.nodes[i]) && r.nodes[d].seqno > n.nodes[d].seqno
    requires d !in r.nodes[d].nh && Path(r, p) && |p| >= 2 && r.nodes[p[0]].seqno > 0
    ensures p[0] != p[|p| - 1]
  {
    if p[0] == p[|p| - 1] {
      forall k | 0 <= k < |p| ensures p[k] != d {
        LoopAvoids(n, r, d, p, k);
      }
      forall k | 0 <= k < |p| - 1 ensures p[k + 1] in n.nodes[p[k]].nh {
        assert p[k + 1] in r.nodes[p[k]].nh && p[k] != d;
      }
      assert Path(n, p);
    }
  }

  lemma LoopAvoids(n: Net, r: Net, d: Id, p: seq<Id>, k: nat)
    requires NetInv(n) && NetInv(r) && r.nodes.Keys == n.nodes.Keys && d in n.nodes
    requires (forall i :: i in n.nodes && i != d ==> r.nodes[i] == n.nodes[i]) && r.nodes[d].seqno > n.nodes[d].seqno
    requires d !in r.nodes[d].nh && Path(r, p) && |p| >= 2 && p[0] == p[|p| - 1] && k < |p|
    ensures p[k] != d
  {
    var b := if k == 0 then |p| - 1 else k;
    assert p[(b - 1) + 1] in r.nodes[p[b - 1]].nh && p[b] == p[k];
    PathUphill(r, p, 0, b - 1);
    PathUphill(r, p, b, |p| - 1);
  }

  lemma ReceiveHigher(n: Net, m: Msg, refused: set<FaceId>)
    requires NetInv(n) && NoLoop(n) && m in n.ius && m.dst in n.nodes && m.s > n.nodes[m.dst].seqno
    ensures NoLoop(Do(n, Receive(m, refused)))
  {
    var r := Do(n, Receive(m, refused));
    ReceiveInv(n, m, refused);
    forall p | Path(r, p) && |p| >= 2 && r.nodes[p[0]].seqno > 0
      ensures p[0] != p[|p| - 1]
    {
      HigherClosesNothing(n, r, m.dst, p);
    }
  }

  lemma ReceiveLoopIff(n: Net, m: Msg, refused: set<FaceId>)
    requires NetInv(n) && LOCAL !in n.nodes && NoLoop(n) && m in n.ius && m.dst in n.nodes
    ensures NoLoop(Do(n, Receive(m, refused))) <==> !Closes(n, Receive(m, refused))
  {
    if m.s > n.nodes[m.dst].seqno {
      ReceiveHigher(n, m, refused);
    } else {
      var r := Do(n, Receive(m, refused));
      EdgeLoop(n, r, m.dst, if m.s == n.nodes[m.dst].seqno then m.src else m.dst);
      if Closes(n, Receive(m, refused)) { EdgeCloses(n, r, m.dst, m.src); }
    }
  }

  /** Steps that only take next hops away, or add the local one, close no loop. */
  lemma FewerEdges(n: Net, r: Net)
    requires NoLoop(n) && r.nodes.Keys == n.nodes.Keys
    requires forall i :: i in n.nodes ==> r.nodes[i].nh <= n.nodes[i].nh + {LOCAL}
    requires forall i :: i in n.nodes && r.nodes[i].seqno != n.nodes[i].seqno ==> r.nodes[i].nh == {LOCAL}
    ensures NoLoop(r)
  {
    forall p | Path(r, p) && |p| >= 2 && r.nodes[p[0]].seqno > 0
      ensures p[0] != p[|p| - 1]
    {
      forall k | 0 <= k < |p| - 1
        ensures p[k + 1] in n.nodes[p[k]].nh
      {
        assert p[k + 1] in r.nodes[p[k]].nh;
      }
      assert p[0 + 1] in r.nodes[p[0]].nh;
      assert Path(n, p);
    }
  }

  /** Exactly which steps close a loop: updates that repeat a number on a face from which forwarding leads to the node. */
  lemma StepLoopIff(n: Net, st: Step)
    requires NetInv(n) && LOCAL !in n.nodes && NoLoop(n) && Enabled(n, st)
    ensures NoLoop(Do(n, st)) <==> !Closes(n, st)
  {
    if st.Receive? {
      ReceiveLoopIff(n, st.m, st.refused);
    } else {
      FewerEdges(n, Do(n, st));
    }
  }

  lemma RunStepLoop(ns: seq<Net>, sts: seq<Step>, k: nat)
    requires NetRun(ns, sts) && k < |sts| && NoLoop(ns[k])
    ensures Enabled(ns[k], sts[k]) && (NoLoop(ns[k + 1]) <==> !Closes(ns[k], sts[k]))
  {
    SameNodes(ns, sts, k);
    RunInv(ns, sts, k);
    StepLoopIff(ns[k], sts[k]);
  }

  lemma InitialNoLoop(n: Net)
    requires Initial(n)
    ensures NoLoop(n)
  {
  }

  /** The first `k` steps of a run close no loop. */
  ghost predicate NeverCloses(ns: seq<Net>, sts: seq<Step>, k: nat)
    requires NetRun(ns, sts) && k <= |sts|
  {
    forall h :: 0 <= h < k ==> !Closes(ns[h], sts[h])
  }

  ghost predicate LoopFree(ns: seq<Net>, k: nat)
    requires k < |ns|
  {
    forall h :: 0 <= h <= k ==> NoLoop(ns[h])
  }

  /** A run is free of loops through updated nodes if and only if no step of it closes one. */
  lemma {:induction false} LoopFreeIff(ns: seq<Net>, sts: seq<Step>, k: nat)
    requires NetRun(ns, sts) && k <= |sts|
    ensures LoopFree(ns, k) <==> NeverCloses(ns, sts, k)
  {
    if k == 0 {
      InitialNoLoop(ns[0]);
    } else {
      LoopFreeIff(ns, sts, k - 1);
      LoopFreeNext(ns, sts, k - 1);
    }
  }

  lemma LoopFreeNext(ns: seq<Net>, sts: seq<Step>, k: nat)
    requires NetRun(ns, sts) && k < |sts| && (LoopFree(ns, k) <==> NeverCloses(ns, sts, k))
    ensures LoopFree(ns, k + 1) <==> NeverCloses(ns, sts, k + 1)
  {
    if LoopFree(ns, k) {
      RunStepLoop(ns, sts, k);
    } else {
      var h :| 0 <= h < k && Closes(ns[h], sts[h]);
    }
  }

  // ---- loops inside one sequence number do occur ----

  function LoopStep(k: nat): (st: Step) {
    if k == 0 then Attach(3, 1, {})
    else if k == 1 then Send(3, 1)
    else if k == 2 then Attach(3, 2, {})
    else if k == 3 then Send(3, 2)
    else if k == 4 then Receive(Msg(3, 2, 2), {})
    else if k == 5 then Send(2, 1)
    else if k == 6 then Receive(Msg(2, 1, 2), {})
    else if k == 7 then Receive(Msg(3, 1, 1), {})
    else if k == 8 then Send(1, 3)
    else Receive(Msg(1, 3, 2), {})
  }

  /** The three nodes of the run after `k` steps. */
  function LoopNodes(k: nat): (r: map<Id, Mob>) {
    map[
      1 := if k < 7 then Mob(0, {LOCAL}, {}) else if k < 8 then Mob(2, {2}, {}) else Mob(2, {2}, {3}),
      2 := if k < 5 then Mob(0, {1}, {}) else Mob(2, {3}, {1}),
      3 := if k == 0 then Mob(0, {1, 2}, {}) else if k < 3 then Mob(1, {LOCAL}, {1, 2})
           else if k < 10 then Mob(2, {LOCAL}, {1, 2}) else Mob(2, {LOCAL, 1}, {2})]
  }

  function LoopState(k: nat): (n: Net) {
    Net(LoopNodes(k),
        (if k > 1 then {Msg(3, 1, 1)} else {}) + (if k > 3 then {Msg(3, 2, 2)} else {}) +
        (if k > 5 then {Msg(2, 1, 2)} else {}) + (if k > 8 then {Msg(1, 3, 2)} else {}),
        (if k > 4 then {Msg(2, 3, 2)} else {}) + (if k > 6 then {Msg(1, 2, 2)} else {}) +
        (if k > 7 then {Msg(1, 3, 1)} else {}) + (if k > 9 then {Msg(3, 1, 2)} else {}))
  }

  lemma LoopMoves()
    ensures Handled(Mob(0, {1, 2}, {}), Update(1, LOCAL), {}) == Mob(1, {LOCAL}, {1, 2})
    ensures Handled(Mob(1, {LOCAL}, {1, 2}), Update(2, LOCAL), {}) == Mob(2, {LOCAL}, {1, 2})
    ensures Handled(Mob(0, {1}, {}), Update(2, 3), {}) == Mob(2, {3}, {1})
    ensures Handled(Mob(0, {LOCAL}, {}), Update(2, 2), {}) == Mob(2, {2}, {})
    ensures Handled(Mob(2, {2}, {}), Update(1, 3), {}) == Mob(2, {2}, {3})
    ensures Handled(Mob(2, {LOCAL}, {1, 2}), Update(2, 1), {}) == Mob(2, {LOCAL, 1}, {2})
  {
  }

  lemma LoopEarly(k: nat)
    requires k < 5
    ensures Enabled(LoopState(k), LoopStep(k)) && Do(LoopState(k), LoopStep(k)) == LoopState(k + 1)
  {
    LoopMoves();
    assert Do(LoopState(k), LoopStep(k)).nodes == LoopNodes(k + 1);
  }

  lemma LoopLate(k: nat)
    requires 5 <= k < 10
    ensures Enabled(LoopState(k), LoopStep(k)) && Do(LoopState(k), LoopStep(k)) == LoopState(k + 1)
  {
    LoopMoves();
    assert Do(LoopState(k), LoopStep(k)).nodes == LoopNodes(k + 1);
  }

  /** At first forwarding only goes from higher to lower node numbers. */
  lemma {:induction false} LoopStartDescends(p: seq<Id>, b: nat)
    requires Path(LoopState(0), p) && 0 < b < |p|
    ensures p[b] < p[0]
  {
    assert p[b - 1 + 1] in LoopState(0).nodes[p[b - 1]].nh;
    if b > 1 { LoopStartDescends(p, b - 1); }
  }

  lemma LoopStartFree()
    ensures forall p :: Path(LoopState(0), p) && |p| >= 2 ==> p[0] != p[|p| - 1]
  {
    forall p | Path(LoopState(0), p) && |p| >= 2
      ensures p[0] != p[|p| - 1]
    {
      LoopStartDescends(p, |p| - 1);
    }
  }

  /**
   Loop freedom does not hold: in this run the producer moves from node 1 to node 3,
   where it announces number 1 to node 1 and number 2 to node 2. The first
   announcement is delayed, arrives at node 1 after the second did by way of
   node 2, and is answered to node 3, which adds node 1 beside its local
   application. Forwarding was free of loops before, and then goes 3, 1, 2, 3.
   */
  lemma LoopOccurs()
    ensures
      var ns, sts := seq(11, k requires 0 <= k < 11 => LoopState(k)), seq(10, k requires 0 <= k < 10 => LoopStep(k));
      && NetRun(ns, sts) && Path(ns[10], [3, 1, 2, 3])
      && forall p :: Path(ns[0], p) && |p| >= 2 ==> p[0] != p[|p| - 1]
  {
    var ns, sts := seq(11, k requires 0 <= k < 11 => LoopState(k)), seq(10, k requires 0 <= k < 10 => LoopStep(k));
    forall k | 0 <= k < 10
      ensures Enabled(ns[k], sts[k]) && ns[k + 1] == Do(ns[k], sts[k])
    {
      if k < 5 { LoopEarly(k); } else { LoopLate(k); }
    }
    assert Initial(ns[0]);
    LoopStartFree();
  }
}
