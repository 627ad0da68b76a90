/**
 MAP-Me at one node, on sets of faces (mapme_ctrl_node.c, mapme_ack_node.c):
 what an Interest Update or its acknowledgement does to the sequence number,
 the next hops and the TFIB of a prefix. `local` are the application faces,
 which never enter the TFIB.
 */
module Mapme {
  import opened Types

  datatype Mob = Mob(seqno: nat, nh: set<FaceId>, tfib: set<FaceId>)

  /** An Interest Update as received: its sequence number and its ingress face. */
  datatype Update = Update(s: nat, f: FaceId)

  /** hicn_mapme_process_ctrl, as long as no face is refused for lack of room. */
  function OnUpdate(m: Mob, u: Update, local: set<FaceId>): (r: Mob) {
    if u.s > m.seqno then Mob(u.s, {u.f}, m.tfib + (m.nh - local) - {u.f})
    else if u.s == m.seqno then m.(nh := m.nh + {u.f}, tfib := m.tfib - {u.f})
    else if u.f in m.nh then m
    else m.(tfib := m.tfib + ({u.f} - local))
  }

  /** hicn_mapme_process_ack: an acknowledgement of an older update is ignored. */
  function OnAck(m: Mob, u: Update): (r: Mob) {
    if u.s < m.seqno then m else m.(tfib := m.tfib - {u.f})
  }

  predicate MobOk(m: Mob, local: set<FaceId>) {
    m.nh !! m.tfib && m.tfib !! local
  }

  function Process(m: Mob, us: seq<Update>, local: set<FaceId>): (r: Mob) {
    if us == [] then m
    else OnUpdate(Process(m, us[..|us| - 1], local), us[|us| - 1], local)
  }

  // ---- the closed form ----

  /** The highest sequence number among `q` and the updates. */
  function Top(q: nat, us: seq<Update>): (t: nat)
    ensures t >= q && (forall u :: u in us ==> u.s <= t)
    ensures t == q || exists u :: u in us && u.s == t
  {
    if us == [] then q
    else
      var t, last := Top(q, us[..|us| - 1]), us[|us| - 1];
      assert forall u :: u in us ==> u in us[..|us| - 1] || u == last;
      assert last in us;
      if last.s > t then last.s else t
  }

  ghost function Carriers(us: seq<Update>, t: nat): (r: set<FaceId>) {
    set u | u in us && u.s == t :: u.f
  }

  ghost function Senders(us: seq<Update>): (r: set<FaceId>) {
    set u | u in us :: u.f
  }

  /** Next hops: the faces that carried the highest number. TFIB: every other face ever known, but local ones. */
  ghost function ClosedForm(m: Mob, us: seq<Update>, local: set<FaceId>): (r: Mob) {
    var t := Top(m.seqno, us);
    var nh := Carriers(us, t) + (if t == m.seqno then m.nh else {});
    Mob(t, nh, m.nh + m.tfib + Senders(us) - nh - local)
  }

  lemma CarriersSnoc(us: seq<Update>, t: nat)
    requires us != []
    ensures var last := us[|us| - 1];
      Carriers(us, t) == Carriers(us[..|us| - 1], t) + (if last.s == t then {last.f} else {})
    ensures Senders(us) == Senders(us[..|us| - 1]) + {us[|us| - 1].f}
  {
    var pre, last := us[..|us| - 1], us[|us| - 1];
    assert us == pre + [last];
  }

  /** Whatever arrives, in whatever order and however often, the node ends in the closed form. */
  lemma {:induction false} ProcessClosedForm(m: Mob, us: seq<Update>, local: set<FaceId>)
    requires MobOk(m, local)
    ensures Process(m, us, local) == ClosedForm(m, us, local)
  {
    if us != [] {
      var pre, last := us[..|us| - 1], us[|us| - 1];
      ProcessClosedForm(m, pre, local);
      StepClosedForm(m, pre, last, local);
      assert us == pre + [last];
    } else {
      assert Carriers(us, m.seqno) == {} && Senders(us) == {};
    }
  }

  /** One more update moves the closed form as OnUpdate does. */
  lemma StepClosedForm(m: Mob, pre: seq<Update>, last: Update, local: set<FaceId>)
    requires MobOk(m, local)
    ensures OnUpdate(ClosedForm(m, pre, local), last, local) == ClosedForm(m, pre + [last], local)
  {
    var us := pre + [last];
    assert us[..|us| - 1] == pre;
    CarriersSnoc(us, Top(m.seqno, us));
    if last.s > Top(m.seqno, pre) { assert Carriers(pre, last.s) == {}; }
  }

  /** Confluence: the outcome depends only on the set of updates received. */
  lemma Confluence(m: Mob, us: seq<Update>, vs: seq<Update>, local: set<FaceId>)
    requires MobOk(m, local)
    requires forall u :: u in us <==> u in vs
    ensures Process(m, us, local) == Process(m, vs, local)
  {
    ProcessClosedForm(m, us, local);
    ProcessClosedForm(m, vs, local);
    assert Top(m.seqno, us) == Top(m.seqno, vs);
    assert Carriers(us, Top(m.seqno, us)) == Carriers(vs, Top(m.seqno, us));
    assert Senders(us) == Senders(vs);
  }
}
