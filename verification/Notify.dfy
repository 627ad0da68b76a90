/**
 Notification of previous hops: the FIB entry of a prefix and the event manager
 together. An update that raises the entry's number is passed on at once and
 at ten timeouts to every previous hop that does not answer.
 */
module Notify {
  import opened Types
  import opened Seqs
  import opened Fib
  import opened Mapme
  import opened MapmeNode
  import E = EventMgr

  /** An Interest Update sent: the face and the number it carries. */
  type Msg = (FaceId, nat)

  function Addressed(to: seq<FaceId>, s: nat): (r: seq<Msg>)
    ensures |r| == |to| && forall k :: 0 <= k < |to| ==> r[k] == (to[k], s)
  {
    seq(|to|, k requires 0 <= k < |to| => (to[k], s))
  }

  /** hicn_mapme_send_updates: to every previous hop, or to the newest, with the number of the entry. */
  method SendUpdates(fib: FibEntry, all: bool) returns (msgs: seq<Msg>)
    requires fib.Valid() && (all || fib.tfibCount > 0)
    ensures all ==> |msgs| == |fib.View().tfib| && forall k :: 0 <= k < |msgs| ==> msgs[k] == (fib.View().tfib[k], fib.seqno)
    ensures !all ==> msgs == [(fib.View().tfib[0], fib.seqno)]
    ensures msgs == Addressed(Targets(fib.View(), all), fib.seqno)
  {
    var last := NHOPS_MAX - fib.tfibCount;
    if !all { return [(fib.slots[last], fib.seqno)]; }
    msgs := [];
    for pos := last to NHOPS_MAX
      invariant msgs == Addressed(fib.slots[last..pos], fib.seqno)
    {
      msgs := msgs + [(fib.slots[pos], fib.seqno)];
    }
  }

  /** The updates sent on an event; without a previous hop the answer to an outdated one goes nowhere known. */
  function SentOn(v: Fib, ev: Event): (r: seq<Msg>) {
    if ev == NhSet then Addressed(Targets(v, true), v.seqno)
    else if ev == PhAdd && v.tfib != [] then Addressed(Targets(v, false), v.seqno)
    else []
  }

  /** The event manager's event for the event a node reports. */
  function EventFor(ev: Event, d: E.Dpo): (r: Option<E.Event>) {
    match ev
    case NhSet => Some(E.NhSetEv(d))
    case NhAdd => Some(E.ActivityEv)
    case PhAdd => Some(E.ActivityEv)
    case PhDel => Some(E.PhDelEv)
    case NoEvent => None
  }

  datatype Option<+T> = None | Some(value: T)

  function Heard(s: E.Sched, told: Option<E.Event>): (r: E.Sched) {
    if told.Some? then E.Next(s, told.value) else s
  }

  /** The switch of hicn_mapme_eventmgr_process, for one event on one prefix. */
  method Dispatch(mgr: E.Manager, fib: FibEntry, d: E.Dpo, ev: Event) returns (msgs: seq<Msg>)
    requires mgr.Valid() && fib.Valid() && (ev == PhAdd ==> fib.tfibCount > 0)
    modifies mgr
    ensures mgr.Valid() && mgr.View() == Heard(old(mgr.View()), EventFor(ev, d))
    ensures msgs == SentOn(fib.View(), ev)
  {
    msgs := [];
    match ev {
      case NhSet =>
        msgs := SendUpdates(fib, true);
        mgr.NhSet(d);
      case NhAdd =>
        mgr.Activity();
      case PhAdd =>
        msgs := SendUpdates(fib, false);
        mgr.Activity();
      case PhDel =>
        mgr.PhDel();
      case NoEvent =>
    }
  }

  // ---- what the events mean ----

  /** What the entry before and after an update tells from the event, and the event from the entry. */
  lemma EventMeaning(v: Fib, u: Update, local: set<FaceId>, w: Fib)
    requires Updated(v, u, local, w)
    ensures Reported(v, u) == NhSet <==> w.seqno > v.seqno
    ensures Reported(v, u) == NhAdd <==> w.seqno == v.seqno && u.s == w.seqno && u.f in w.nh
    ensures Reported(v, u) == PhAdd <==> u.s < w.seqno == v.seqno && u.f !in v.nh
    ensures Reported(v, u) == NoEvent <==> u.s < w.seqno && u.f in v.nh && w == v
  {
    if u.s == v.seqno { assert u.f in Elements(w.nh); }
    if u.s < v.seqno && u.f in v.nh { assert w == v; }
  }

  /** Every event but an acknowledgement restarts the idle count and the timer. */
  lemma EventRestarts(s: E.Sched, ev: Event, d: E.Dpo)
    ensures var r := Heard(s, EventFor(ev, d));
      if ev == NhSet || ev == NhAdd || ev == PhAdd then r.idle == 0 && r.timer
      else r.idle == s.idle && r.cur == s.cur && r.nxt == s.nxt
  {
  }

  /** An outdated update is answered at once with the current number, to its sender under the condition of `AnswerReachesSender`. */
  lemma OutdatedAnswered(v: Fib, u: Update, local: set<FaceId>, w: Fib)
    requires Updated(v, u, local, w) && u.s < v.seqno
    ensures u.f in v.nh ==> SentOn(w, Reported(v, u)) == []
    ensures u.f !in v.nh ==>
      (SentOn(w, Reported(v, u)) == [(u.f, v.seqno)] <==>
       if u.f in v.tfib then v.tfib[0] == u.f else u.f !in local && Room(v))
  {
    if u.f !in v.nh {
      AnswerReachesSender(v, u, local, w);
      if w.tfib != [] { assert SentOn(w, PhAdd) == [(w.tfib[0], w.seqno)]; }
    }
  }

  // ---- the entry and the scheduler together ----

  /** The entry of the prefix, whose DPO is `d`, and the event manager. */
  datatype Joint = Joint(v: Fib, s: E.Sched)

  datatype JointStep =
    | UpdateArrives(u: Update, local: set<FaceId>, w: Fib)
    | AckArrives(u: Update)
    | Other(ev: E.Event)
    | Timer(known: set<E.Dpo>)

  /** Other events concern other prefixes or faces; the TFIB of the prefix exists at every timeout. */
  ghost predicate Enabled(j: Joint, st: JointStep, d: E.Dpo, all: set<E.Dpo>) {
    match st
    case UpdateArrives(u, local, w) => Updated(j.v, u, local, w)
    case AckArrives(u) => true
    case Other(ev) => !ev.TimeoutEv? && ev != E.NhSetEv(d) && E.Possible(j.s, ev, all)
    case Timer(known) => j.s.timer && d in known
  }

  /** What the manager is told in a step. */
  function Told(j: Joint, st: JointStep, d: E.Dpo): (r: Option<E.Event>) {
    match st
    case UpdateArrives(u, local, w) => EventFor(Reported(j.v, u), d)
    case AckArrives(u) => EventFor(if u.s < j.v.seqno then NoEvent else PhDel, d)
    case Other(ev) => Some(ev)
    case Timer(known) => Some(E.TimeoutEv(known))
  }

  /** The entry after a step: a timeout may clear the TFIB. */
  function EntryAfter(j: Joint, st: JointStep, d: E.Dpo): (v: Fib) {
    match st
    case UpdateArrives(u, local, w) => w
    case AckArrives(u) => if u.s < j.v.seqno then j.v else DelPrev(j.v, u.f)
    case Other(ev) => j.v
    case Timer(known) => if d in E.Cleared(j.s.cur, known) then j.v.(tfib := []) else j.v
  }

  function Do(j: Joint, st: JointStep, d: E.Dpo): (r: Joint) {
    Joint(EntryAfter(j, st, d), Heard(j.s, Told(j, st, d)))
  }

  /** The updates sent for the prefix in a step. */
  function Messages(j: Joint, st: JointStep, d: E.Dpo): (r: seq<Msg>) {
    match st
    case UpdateArrives(u, local, w) => SentOn(w, Reported(j.v, u))
    case Timer(known) =>
      if d in E.Sent(j.s.cur, known) then Addressed(Targets(j.v, true), j.v.seqno) else []
    case _ => []
  }

  /** One step of a run. */
  ghost predicate Stepped(j: Joint, st: JointStep, r: Joint, d: E.Dpo, all: set<E.Dpo>) {
    Enabled(j, st, d, all) && r == Do(j, st, d)
  }

  /** A run from an idle event manager. */
  ghost predicate JointRun(js: seq<Joint>, sts: seq<JointStep>, d: E.Dpo, all: set<E.Dpo>) {
    && |js| == |sts| + 1 && js[0].s == E.START && d in all && d != E.GONE
    && forall k {:trigger sts[k]} :: 0 <= k < |sts| ==> Stepped(js[k], sts[k], js[k + 1], d, all)
  }

  lemma StepSched(j: Joint, st: JointStep, d: E.Dpo, all: set<E.Dpo>)
    requires Enabled(j, st, d, all) && d in all && d != E.GONE && E.SchedInv(j.s, all) && E.TimerOk(j.s)
    ensures E.SchedInv(Do(j, st, d).s, all) && E.TimerOk(Do(j, st, d).s)
  {
    var t := Told(j, st, d);
    if t.Some? { E.NextInv(j.s, t.value, all); }
  }

  ghost predicate SchedOk(s: E.Sched, all: set<E.Dpo>) {
    E.SchedInv(s, all) && E.TimerOk(s)
  }

  lemma SchedNext(js: seq<Joint>, sts: seq<JointStep>, d: E.Dpo, all: set<E.Dpo>, k: nat, k1: nat)
    requires JointRun(js, sts, d, all) && k < |sts| && k1 == k + 1
    ensures SchedOk(js[k].s, all) ==> SchedOk(js[k1].s, all)
  {
    if SchedOk(js[k].s, all) { StepSched(js[k], sts[k], d, all); }
  }

  lemma {:induction false} RunSched(js: seq<Joint>, sts: seq<JointStep>, d: E.Dpo, all: set<E.Dpo>, k: nat)
    requires JointRun(js, sts, d, all) && k <= |sts|
    ensures SchedOk(js[k].s, all)
  {
    if k > 0 {
      RunSched(js, sts, d, all, k - 1);
      SchedNext(js, sts, d, all, k - 1, k);
    }
  }

  /** The step is an update that raises the number of the entry. */
  predicate Raises(j: Joint, st: JointStep) {
    st.UpdateArrives? && st.u.s > j.v.seqno
  }

  /** The step tells the node that face `f` has the number: an acknowledgement of it, or an update with it. */
  predicate Answers(j: Joint, st: JointStep, f: FaceId) {
    (st.UpdateArrives? || st.AckArrives?) && st.u.f == f && st.u.s >= j.v.seqno
  }

  /** A new number goes to every previous hop at once, and the prefix is scheduled. */
  lemma RaiseNotifies(j: Joint, st: JointStep, d: E.Dpo, all: set<E.Dpo>, f: FaceId)
    requires Enabled(j, st, d, all) && Raises(j, st) && f in Do(j, st, d).v.tfib
    ensures (f, st.u.s) in Messages(j, st, d) && Do(j, st, d).v.seqno == st.u.s && E.At(Do(j, st, d).s, d, 0)
  {
    EventMeaning(j.v, st.u, st.local, st.w);
    var k :| 0 <= k < |st.w.tfib| && st.w.tfib[k] == f;
    assert Addressed(Targets(st.w, true), st.w.seqno)[k] == (f, st.u.s);
    E.NhSetAt(j.s, d);
  }

  /** A step that neither raises the number nor is an answer of `f`, the prefix waiting for `t` timeouts. */
  lemma StepNotifies(j: Joint, st: JointStep, d: E.Dpo, all: set<E.Dpo>, t: nat, f: FaceId)
    requires Enabled(j, st, d, all) && E.SchedInv(j.s, all) && d != E.GONE && E.At(j.s, d, t)
    requires !Raises(j, st) && !Answers(j, st, f)
    ensures
      var r, t1 := Do(j, st, d), if st.Timer? then t + 1 else t;
      && E.At(r.s, d, t1) && r.v.seqno == j.v.seqno
      && (f in j.v.tfib && t1 <= 10 ==> f in r.v.tfib)
      && (f in j.v.tfib && st.Timer? && 1 <= t <= 10 ==> (f, j.v.seqno) in Messages(j, st, d))
      && (st.Timer? && t == 10 ==> r.v.tfib == [])
  {
    var told := Told(j, st, d);
    if told.Some? { E.NextAt(j.s, told.value, all, d, t); }
    if st.Timer? {
      E.TimeoutAt(j.s, st.known, all, d, t);
      if f in j.v.tfib {
        var k :| 0 <= k < |j.v.tfib| && j.v.tfib[k] == f;
        assert Addressed(Targets(j.v, true), j.v.seqno)[k] == (f, j.v.seqno);
      }
    }
  }

  function Timers(sts: seq<JointStep>, a: nat, b: nat): (n: nat)
    requires a <= b <= |sts|
  {
    if a == b then 0 else Timers(sts, a, b - 1) + if sts[b - 1].Timer? then 1 else 0
  }

  /** From the raise at `a` until `b` the number stays and `f` gives no answer. */
  ghost predicate Silent(js: seq<Joint>, sts: seq<JointStep>, a: nat, b: nat, f: FaceId)
    requires b <= |sts| < |js|
  {
    forall c :: a < c < b ==> !Raises(js[c], sts[c]) && !Answers(js[c], sts[c], f)
  }

  /** The state `t` timeouts after a raise to `s`, `f` silent. */
  ghost predicate Notifying(j: Joint, d: E.Dpo, f: FaceId, s: nat, t: nat) {
    j.v.seqno == s && E.At(j.s, d, t) && (t <= 10 ==> f in j.v.tfib)
  }

  lemma NotifyingFirst(js: seq<Joint>, sts: seq<JointStep>, d: E.Dpo, all: set<E.Dpo>, a: nat, b: nat, f: FaceId)
    requires JointRun(js, sts, d, all) && a < b <= |sts| && b == a + 1 && Raises(js[a], sts[a]) && f in js[b].v.tfib
    ensures Notifying(js[b], d, f, sts[a].u.s, 0)
  {
    RaiseNotifies(js[a], sts[a], d, all, f);
  }

  /** Step `c` leaves `f` as notified as it should be. */
  ghost predicate Carries(js: seq<Joint>, sts: seq<JointStep>, d: E.Dpo, f: FaceId, s: nat, c: nat)
    requires c < |sts| && c + 1 < |js|
  {
    forall t: nat :: Notifying(js[c], d, f, s, t) ==> Notifying(js[c + 1], d, f, s, if sts[c].Timer? then t + 1 else t)
  }

  lemma StepCarries(js: seq<Joint>, sts: seq<JointStep>, d: E.Dpo, all: set<E.Dpo>, c: nat, f: FaceId, s: nat)
    requires JointRun(js, sts, d, all) && c < |sts| && !Raises(js[c], sts[c]) && !Answers(js[c], sts[c], f)
    ensures Carries(js, sts, d, f, s, c)
  {
    RunSched(js, sts, d, all, c);
    forall t: nat | Notifying(js[c], d, f, s, t)
      ensures Notifying(js[c + 1], d, f, s, if sts[c].Timer? then t + 1 else t)
    {
      StepNotifies(js[c], sts[c], d, all, t, f);
    }
  }

  lemma {:induction false} CarriedOn(js: seq<Joint>, sts: seq<JointStep>, d: E.Dpo, a: nat, b: nat, f: FaceId, s: nat)
    requires |js| == |sts| + 1 && a < b <= |sts| && !sts[a].Timer? && Notifying(js[a + 1], d, f, s, 0)
    requires forall c :: a < c < b ==> Carries(js, sts, d, f, s, c)
    ensures Notifying(js[b], d, f, s, Timers(sts, a, b))
    decreases b
  {
    if b == a + 1 {
      assert Timers(sts, a, a) == 0;
    } else {
      CarriedOn(js, sts, d, a, b - 1, f, s);
      assert Carries(js, sts, d, f, s, b - 1);
    }
  }

  lemma RunNotifying(js: seq<Joint>, sts: seq<JointStep>, d: E.Dpo, all: set<E.Dpo>, a: nat, b: nat, f: FaceId)
    requires JointRun(js, sts, d, all) && a < b <= |sts| && Raises(js[a], sts[a]) && f in js[a + 1].v.tfib
    requires Silent(js, sts, a, b, f)
    ensures Notifying(js[b], d, f, sts[a].u.s, Timers(sts, a, b))
  {
    NotifyingFirst(js, sts, d, all, a, a + 1, f);
    forall c | a < c < b
      ensures Carries(js, sts, d, f, sts[a].u.s, c)
    {
      StepCarries(js, sts, d, all, c, f, sts[a].u.s);
    }
    CarriedOn(js, sts, d, a, b, f, sts[a].u.s);
  }

  /** A new number goes to every previous hop at once. */
  lemma RaiseSent(js: seq<Joint>, sts: seq<JointStep>, d: E.Dpo, all: set<E.Dpo>, a: nat, f: FaceId)
    requires JointRun(js, sts, d, all) && a < |sts| && Raises(js[a], sts[a]) && f in js[a + 1].v.tfib
    ensures (f, sts[a].u.s) in Messages(js[a], sts[a], d)
  {
    RaiseNotifies(js[a], sts[a], d, all, f);
  }

  /**
   Notification: when an update raises the number of an entry, each previous hop is
   sent it at once, and again at each timeout from the second to the eleventh as
   long as it gives no answer. The timer runs and the entry keeps the hop until
   the eleventh timeout, which clears the TFIB.
   */
  lemma PreviousHopNotified(
    js: seq<Joint>, sts: seq<JointStep>, d: E.Dpo, all: set<E.Dpo>, a: nat, b: nat, f: FaceId)
    requires JointRun(js, sts, d, all) && a < b <= |sts| && Raises(js[a], sts[a]) && f in js[a + 1].v.tfib
    requires Silent(js, sts, a, b, f)
    ensures (f, sts[a].u.s) in Messages(js[a], sts[a], d) && js[b].v.seqno == sts[a].u.s
    ensures Timers(sts, a, b) <= 10 ==> f in js[b].v.tfib && js[b].s.timer
    ensures b < |sts| && sts[b].Timer? && 1 <= Timers(sts, a, b) <= 10 ==> (f, sts[a].u.s) in Messages(js[b], sts[b], d)
    ensures b < |sts| && sts[b].Timer? && Timers(sts, a, b) == 10 ==> js[b + 1].v.tfib == []
  {
    RaiseSent(js, sts, d, all, a, f);
    RunNotifying(js, sts, d, all, a, b, f);
    RunSched(js, sts, d, all, b);
    if Timers(sts, a, b) <= 10 { E.TimerRuns(js[b].s, all, d, Timers(sts, a, b)); }
    if b < |sts| && sts[b].Timer? { StepNotifies(js[b], sts[b], d, all, Timers(sts, a, b), f); }
  }
}
