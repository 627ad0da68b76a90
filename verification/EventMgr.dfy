/**
 The MAP-Me event manager (mapme_eventmgr.c): retransmissions of Interest
 Updates are scheduled in two slots that change roles at every timeout, and the
 timer stops after two idle slots.
 */
module EventMgr {
  import opened Seqs

  type Dpo = nat

  /** The dpoi_index of a deleted entry, and HICN_PARAM_RTX_MAX */
  const GONE: Dpo := 0xFFFF_FFFF
  const RTX_MAX: nat := 10

  datatype Retx = Retx(dpo: Dpo, rtx: nat)

  datatype Sched = Sched(cur: seq<Retx>, nxt: seq<Retx>, idle: nat, timer: bool)

  // ---- what the events do ----

  function Marked(q: seq<Retx>, d: Dpo): (r: seq<Retx>)
    ensures |r| == |q|
    ensures forall k :: 0 <= k < |q| ==> r[k] == if q[k].dpo == d then q[k].(dpo := GONE) else q[k]
  {
    seq(|q|, k requires 0 <= k < |q| => if q[k].dpo == d then q[k].(dpo := GONE) else q[k])
  }

  predicate Has(q: seq<Retx>, d: Dpo) {
    exists k :: 0 <= k < |q| && q[k].dpo == d
  }

  function Timed(s: Sched): (r: Sched) {
    s.(timer := s.idle <= 1)
  }

  /** FACE_NH_SET: off the current slot, onto the next one. */
  function OnNhSet(s: Sched, d: Dpo): (r: Sched) {
    Timed(s.(cur := Marked(s.cur, d), nxt := if Has(s.nxt, d) then s.nxt else s.nxt + [Retx(d, 0)], idle := 0))
  }

  /** FACE_ADD, FACE_DEL, FACE_NH_ADD and FACE_PH_ADD restart the idle count. */
  function OnActivity(s: Sched): (r: Sched) {
    Timed(s.(idle := 0))
  }

  /** FACE_PH_DEL changes nothing but re-evaluates the timer. */
  function OnPhDel(s: Sched): (r: Sched) {
    Timed(s)
  }

  /** An entry a timeout acts on; `known` are the DPOs whose TFIB exists. */
  predicate Due(e: Retx, known: set<Dpo>) {
    e.dpo != GONE && e.dpo in known
  }

  /** The entries put back for another slot. */
  function Again(q: seq<Retx>, known: set<Dpo>): (r: seq<Retx>) {
    if q == [] then []
    else
      var e, rest := q[|q| - 1], Again(q[..|q| - 1], known);
      if Due(e, known) && e.rtx + 1 < RTX_MAX then rest + [Retx(e.dpo, e.rtx + 1)] else rest
  }

  /** The DPOs updates are sent for, and those whose TFIB is cleared, in order. */
  function Sent(q: seq<Retx>, known: set<Dpo>): (r: seq<Dpo>) {
    if q == [] then []
    else
      var e, rest := q[|q| - 1], Sent(q[..|q| - 1], known);
      if Due(e, known) then rest + [e.dpo] else rest
  }

  function Cleared(q: seq<Retx>, known: set<Dpo>): (r: seq<Dpo>) {
    if q == [] then []
    else
      var e, rest := q[|q| - 1], Cleared(q[..|q| - 1], known);
      if Due(e, known) && e.rtx + 1 >= RTX_MAX then rest + [e.dpo] else rest
  }

  function OnTimeout(s: Sched, known: set<Dpo>): (r: Sched) {
    var again := Again(s.cur, known);
    Timed(Sched(s.nxt + again, [], if again == [] then s.idle + 1 else 0, s.timer))
  }

  const START: Sched := Sched([], [], 0, false)

  // ---- the scheduler as the source runs it ----

  class Manager {
    var slots0: seq<Retx>
    var slots1: seq<Retx>
    var cur: nat
    var idle: nat
    var timer: bool

    ghost predicate Valid()
      reads this
    {
      cur <= 1
    }

    ghost function View(): Sched
      reads this
    {
      if cur == 0 then Sched(slots0, slots1, idle, timer) else Sched(slots1, slots0, idle, timer)
    }

    constructor ()
      ensures Valid() && View() == START
    {
      slots0, slots1, cur, idle, timer := [], [], 0, 0, false;
    }

    /** The slot `which`, 0 or 1. */
    function Slot(which: nat): seq<Retx>
      reads this
    {
      if which == 0 then slots0 else slots1
    }

    method SetSlot(which: nat, q: seq<Retx>)
      requires which <= 1
      modifies `slots0, `slots1
      ensures Slot(which) == q && Slot(1 - which) == old(Slot(1 - which))
    {
      if which == 0 { slots0 := q; } else { slots1 := q; }
    }

    method NhSet(d: Dpo)
      requires Valid()
      modifies this
      ensures Valid() && View() == OnNhSet(old(View()), d)
    {
      var q := Slot(cur);
      var j := 0;
      while j < |q|
        invariant 0 <= j <= |q| && |q| == |Slot(cur)|
        invariant forall k :: 0 <= k < |q| ==>
          q[k] == if k < j && Slot(cur)[k].dpo == d then Slot(cur)[k].(dpo := GONE) else Slot(cur)[k]
      {
        if q[j].dpo == d { q := q[j := q[j].(dpo := GONE)]; }
        j := j + 1;
      }
      assert q == Marked(Slot(cur), d);
      SetSlot(cur, q);
      var next := Slot(1 - cur);
      j := 0;
      while j < |next| && next[j].dpo != d
        invariant 0 <= j <= |next|
        invariant forall k :: 0 <= k < j ==> next[k].dpo != d
      {
        j := j + 1;
      }
      if j == |next| { SetSlot(1 - cur, next + [Retx(d, 0)]); }
      idle := 0;
      timer := idle <= 1;
    }

    method Activity()
      requires Valid()
      modifies `idle, `timer
      ensures Valid() && View() == OnActivity(old(View()))
    {
      idle := 0;
      timer := idle <= 1;
    }

    method PhDel()
      requires Valid()
      modifies `timer
      ensures Valid() && View() == OnPhDel(old(View()))
    {
      timer := idle <= 1;
    }

    method Timeout(known: set<Dpo>) returns (sent: seq<Dpo>, cleared: seq<Dpo>)
      requires Valid()
      modifies this
      ensures Valid() && View() == OnTimeout(old(View()), known)
      ensures sent == Sent(old(View()).cur, known) && cleared == Cleared(old(View()).cur, known)
    {
      idle := idle + 1;
      var q, next := Slot(cur), Slot(1 - cur);
      sent, cleared := [], [];
      var back := next;
      for pos := 0 to |q|
        modifies `idle
        invariant back == next + Again(q[..pos], known)
        invariant sent == Sent(q[..pos], known) && cleared == Cleared(q[..pos], known)
        invariant idle == if Again(q[..pos], known) == [] then old(idle) + 1 else 0
      {
        var e := q[pos];
        assert q[..pos + 1][..pos] == q[..pos];
        if e.dpo != GONE && e.dpo in known {
          sent := sent + [e.dpo];
          if e.rtx + 1 < RTX_MAX {
            back := back + [Retx(e.dpo, e.rtx + 1)];
            idle := 0;
          } else {
            cleared := cleared + [e.dpo];
          }
        }
      }
      assert q[..|q|] == q;
      SetSlot(1 - cur, back);
      SetSlot(cur, []);
      cur := 1 - cur;
      timer := idle <= 1;
    }
  }

  // ---- the invariant ----

  ghost predicate Live(q: seq<Retx>, d: Dpo) {
    d != GONE && Has(q, d)
  }

  /** No two live entries of the list are for one DPO. */
  ghost predicate OneEach(q: seq<Retx>) {
    forall a, b :: 0 <= a < b < |q| && q[a].dpo == q[b].dpo ==> q[a].dpo == GONE
  }

  /** `all` are the DPOs of the forwarder. */
  ghost predicate SchedInv(s: Sched, all: set<Dpo>) {
    && OneEach(s.cur) && OneEach(s.nxt)
    && (forall d :: Live(s.cur, d) ==> !Live(s.nxt, d))
    && (forall k :: 0 <= k < |s.cur| ==> s.cur[k].rtx < RTX_MAX && (s.cur[k].dpo == GONE || s.cur[k].dpo in all))
    && (forall k :: 0 <= k < |s.nxt| ==> s.nxt[k].rtx == 0 && s.nxt[k].dpo != GONE && s.nxt[k].dpo in all)
    && |s.cur| <= |all| && |s.nxt| <= |all|
    && s.idle <= 2 && (s.idle >= 1 ==> s.nxt == [])
    && (s.idle >= 2 || !s.timer ==> s.nxt == [] && forall d :: !Live(s.cur, d))
  }

  /** A list of live entries for different DPOs is no longer than there are DPOs. */
  lemma SlotFits(q: seq<Retx>, all: set<Dpo>)
    requires OneEach(q) && forall k :: 0 <= k < |q| ==> q[k].dpo != GONE && q[k].dpo in all
    ensures |q| <= |all|
  {
    var ds := seq(|q|, k requires 0 <= k < |q| => q[k].dpo);
    DistinctCard(ds);
    assert Elements(ds) <= all;
    SubsetCard(Elements(ds), all);
  }

  /** Every entry that is not deleted, has a TFIB and was sent for fewer than ten times with this one is put back, counted up. */
  lemma {:induction false} AgainHas(q: seq<Retx>, known: set<Dpo>, j: nat)
    requires j < |q| && q[j].dpo != GONE && q[j].dpo in known && q[j].rtx + 1 < 10
    ensures Retx(q[j].dpo, q[j].rtx + 1) in Again(q, known)
  {
    if j < |q| - 1 {
      assert q[..|q| - 1][j] == q[j];
      AgainHas(q[..|q| - 1], known, j);
    }
  }

  /** The entries put back are those due and not exhausted, each counted up by one. */
  lemma {:induction false} AgainIs(q: seq<Retx>, known: set<Dpo>)
    requires OneEach(q)
    ensures var r := Again(q, known);
      && OneEach(r) && |r| <= |q|
      && (forall k :: 0 <= k < |r| ==> 0 < r[k].rtx < RTX_MAX && r[k].dpo != GONE && r[k].dpo in known)
      && (forall k :: 0 <= k < |r| ==> exists j :: 0 <= j < |q| && q[j] == Retx(r[k].dpo, r[k].rtx - 1))
  {
    if q != [] {
      var pre, e := q[..|q| - 1], q[|q| - 1];
      AgainIs(pre, known);
      var p, r := Again(pre, known), Again(q, known);
      forall k | 0 <= k < |r|
        ensures exists j :: 0 <= j < |q| && q[j] == Retx(r[k].dpo, r[k].rtx - 1)
      {
        if k < |p| {
          var j :| 0 <= j < |pre| && pre[j] == Retx(p[k].dpo, p[k].rtx - 1);
          assert q[j] == Retx(r[k].dpo, r[k].rtx - 1);
        } else {
          assert q[|q| - 1] == Retx(r[k].dpo, r[k].rtx - 1);
        }
      }
      forall a, b | 0 <= a < b < |r|
        ensures r[a].dpo != r[b].dpo
      {
        var j :| 0 <= j < |pre| && pre[j] == Retx(p[a].dpo, p[a].rtx - 1);
        assert q[j] == pre[j];
      }
    }
  }

  lemma NhSetInv(s: Sched, d: Dpo, all: set<Dpo>)
    requires SchedInv(s, all) && d in all && d != GONE
    ensures SchedInv(OnNhSet(s, d), all)
  {
    var r := OnNhSet(s, d);
    forall x | Live(r.cur, x)
      ensures !Live(r.nxt, x)
    {
      var k :| 0 <= k < |r.cur| && r.cur[k].dpo == x;
      assert s.cur[k].dpo == x && Live(s.cur, x);
      assert !Live(s.nxt, x) && !Has(s.nxt, x);
      assert forall h :: 0 <= h < |r.nxt| ==> r.nxt[h] == if h < |s.nxt| then s.nxt[h] else Retx(d, 0);
    }
    SlotFits(r.nxt, all);
  }

  lemma TimeoutInv(s: Sched, known: set<Dpo>, all: set<Dpo>)
    requires SchedInv(s, all) && s.timer && s.idle <= 1
    ensures SchedInv(OnTimeout(s, known), all)
  {
    AgainIs(s.cur, known);
    var r := OnTimeout(s, known);
    var again := Again(s.cur, known);
    forall a, b | 0 <= a < b < |r.cur|
      ensures r.cur[a].dpo != r.cur[b].dpo
    {
      if a < |s.nxt| <= b {
        var x := again[b - |s.nxt|];
        var j :| 0 <= j < |s.cur| && s.cur[j] == Retx(x.dpo, x.rtx - 1);
        assert Live(s.cur, x.dpo) && Has(s.nxt, s.nxt[a].dpo);
      }
    }
    forall k | 0 <= k < |r.cur|
      ensures r.cur[k].rtx < RTX_MAX && r.cur[k].dpo != GONE && r.cur[k].dpo in all
    {
      if k >= |s.nxt| {
        var j :| 0 <= j < |s.cur| && s.cur[j] == Retx(r.cur[k].dpo, r.cur[k].rtx - 1);
      }
    }
    SlotFits(r.cur, all);
  }

  // ---- runs ----

  datatype Event = NhSetEv(d: Dpo) | ActivityEv | PhDelEv | TimeoutEv(known: set<Dpo>)

  function Next(s: Sched, ev: Event): (r: Sched) {
    match ev
    case NhSetEv(d) => OnNhSet(s, d)
    case ActivityEv => OnActivity(s)
    case PhDelEv => OnPhDel(s)
    case TimeoutEv(known) => OnTimeout(s, known)
  }

  /** Events concern DPOs of the forwarder; timeouts happen while the timer runs. */
  predicate Possible(s: Sched, ev: Event, all: set<Dpo>) {
    (ev.NhSetEv? ==> ev.d in all && ev.d != GONE) && (ev.TimeoutEv? ==> s.timer)
  }

  function After(evs: seq<Event>): (s: Sched) {
    if evs == [] then START else Next(After(evs[..|evs| - 1]), evs[|evs| - 1])
  }

  ghost predicate SchedRun(evs: seq<Event>, all: set<Dpo>) {
    forall k :: 0 <= k < |evs| ==> Possible(After(evs[..k]), evs[k], all)
  }

  /** The timer runs exactly while fewer than two idle slots went by, once anything happened. */
  ghost predicate TimerOk(s: Sched) {
    s == START || (s.timer <==> s.idle <= 1)
  }

  lemma NextInv(s: Sched, ev: Event, all: set<Dpo>)
    requires SchedInv(s, all) && TimerOk(s) && Possible(s, ev, all)
    ensures SchedInv(Next(s, ev), all) && TimerOk(Next(s, ev))
  {
    match ev {
      case NhSetEv(d) => NhSetInv(s, d, all);
      case TimeoutEv(known) => TimeoutInv(s, known, all);
      case _ =>
    }
  }

  /**
   Over every interleaving of events and timeouts: each DPO is live at most once
   in the two slots, the next slot holds fresh entries only, no slot outgrows the
   number of DPOs, and when the timer is off nothing is pending.
   */
  lemma {:induction false} RunInv(evs: seq<Event>, all: set<Dpo>)
    requires SchedRun(evs, all)
    ensures SchedInv(After(evs), all) && TimerOk(After(evs))
  {
    if evs != [] {
      var k := |evs| - 1;
      assert forall j :: 0 <= j < k ==> evs[..k][..j] == evs[..j];
      RunInv(evs[..k], all);
      NextInv(After(evs[..k]), evs[k], all);
    }
  }

  // ---- bounded retransmission ----

  /** Timer-driven sends for `d` since the last NH_SET for it. */
  function Sends(evs: seq<Event>, d: Dpo): (n: nat) {
    if evs == [] then 0
    else
      var k := |evs| - 1;
      match evs[k]
      case NhSetEv(x) => if x == d then 0 else Sends(evs[..k], d)
      case TimeoutEv(known) =>
        Sends(evs[..k], d) + (if d in Sent(After(evs[..k]).cur, known) then 1 else 0)
      case _ => Sends(evs[..k], d)
  }

  lemma {:induction false} SentIs(q: seq<Retx>, known: set<Dpo>, d: Dpo)
    ensures d in Sent(q, known) <==> d in known && Live(q, d)
  {
    if q != [] {
      var pre, e := q[..|q| - 1], q[|q| - 1];
      SentIs(pre, known, d);
      assert Has(q, d) <==> Has(pre, d) || e.dpo == d by {
        if Has(pre, d) {
          var k :| 0 <= k < |pre| && pre[k].dpo == d;
          assert q[k].dpo == d;
        }
        assert q[|q| - 1] == e;
      }
    }
  }

  /** Updates are sent once for each DPO, and each TFIB is cleared once. */
  lemma {:induction false} SentOnce(q: seq<Retx>, known: set<Dpo>)
    requires OneEach(q)
    ensures Distinct(Sent(q, known)) && Distinct(Cleared(q, known))
  {
    if q != [] {
      var pre, e := q[..|q| - 1], q[|q| - 1];
      SentOnce(pre, known);
      SentIs(pre, known, e.dpo);
      ClearedIs(pre, known, e.dpo);
      assert e.dpo != GONE ==> !Has(pre, e.dpo);
    }
  }

  /** The entry of `d`, wherever it is, counts the sends for it. */
  ghost predicate Counts(s: Sched, d: Dpo, n: nat) {
    && (forall k :: 0 <= k < |s.cur| && s.cur[k].dpo == d ==> s.cur[k].rtx == n)
    && (Has(s.nxt, d) ==> n == 0)
    && n <= RTX_MAX
    && (n == RTX_MAX ==> !Has(s.cur, d) && !Has(s.nxt, d))
  }

  lemma TimeoutCounts(s: Sched, known: set<Dpo>, all: set<Dpo>, d: Dpo, n: nat)
    requires SchedInv(s, all) && Counts(s, d, n) && d != GONE
    ensures Counts(OnTimeout(s, known), d, n + (if d in Sent(s.cur, known) then 1 else 0))
  {
    SentIs(s.cur, known, d);
    AgainIs(s.cur, known);
    var r, again := OnTimeout(s, known), Again(s.cur, known);
    forall k | 0 <= k < |r.cur| && r.cur[k].dpo == d
      ensures r.cur[k].rtx == n + (if d in Sent(s.cur, known) then 1 else 0)
    {
      if k < |s.nxt| {
        assert s.nxt[k].dpo == d && Has(s.nxt, d) && Live(s.nxt, d);
      } else {
        var x := again[k - |s.nxt|];
        var j :| 0 <= j < |s.cur| && s.cur[j] == Retx(x.dpo, x.rtx - 1);
        assert Live(s.cur, d);
      }
    }
  }

  lemma {:induction false} ClearedIs(q: seq<Retx>, known: set<Dpo>, d: Dpo)
    ensures d in Cleared(q, known) <==>
      d != GONE && d in known && exists k :: 0 <= k < |q| && q[k].dpo == d && q[k].rtx + 1 >= RTX_MAX
  {
    if q != [] {
      var pre, e := q[..|q| - 1], q[|q| - 1];
      ClearedIs(pre, known, d);
      if exists k :: 0 <= k < |q| && q[k].dpo == d && q[k].rtx + 1 >= RTX_MAX {
        var k :| 0 <= k < |q| && q[k].dpo == d && q[k].rtx + 1 >= RTX_MAX;
        assert k < |q| - 1 ==> pre[k] == q[k];
      }
      if exists k :: 0 <= k < |pre| && pre[k].dpo == d && pre[k].rtx + 1 >= RTX_MAX {
        var k :| 0 <= k < |pre| && pre[k].dpo == d && pre[k].rtx + 1 >= RTX_MAX;
        assert q[k] == pre[k];
      }
      assert q[|q| - 1] == e;
    }
  }

  lemma NextCounts(s: Sched, ev: Event, all: set<Dpo>, d: Dpo, n: nat)
    requires SchedInv(s, all) && Counts(s, d, n) && d != GONE && !ev.TimeoutEv?
    ensures Counts(Next(s, ev), d, if ev == NhSetEv(d) then 0 else n)
  {
    if ev.NhSetEv? {
      var r := Next(s, ev);
      assert forall h :: 0 <= h < |r.nxt| ==> r.nxt[h] == if h < |s.nxt| then s.nxt[h] else Retx(ev.d, 0);
      assert Has(r.nxt, d) ==> Has(s.nxt, d) || ev.d == d;
      assert Has(r.cur, d) ==> Has(s.cur, d) && ev.d != d;
    }
  }

  lemma {:induction false} RunCounts(evs: seq<Event>, all: set<Dpo>, d: Dpo)
    requires SchedRun(evs, all) && d != GONE
    ensures Counts(After(evs), d, Sends(evs, d))
  {
    if evs != [] {
      var k := |evs| - 1;
      assert forall j :: 0 <= j < k ==> evs[..k][..j] == evs[..j];
      RunInv(evs[..k], all);
      RunCounts(evs[..k], all, d);
      if evs[k].TimeoutEv? {
        TimeoutCounts(After(evs[..k]), evs[k].known, all, d, Sends(evs[..k], d));
      } else {
        NextCounts(After(evs[..k]), evs[k], all, d, Sends(evs[..k], d));
      }
    }
  }

  /**
   Bounded retransmission: since the last NH_SET for a DPO the timer sent for it
   at most RTX_MAX times, and a timeout clears its TFIB exactly when it is the
   one that reaches that count.
   */
  lemma BoundedRetransmission(evs: seq<Event>, all: set<Dpo>, d: Dpo)
    requires SchedRun(evs, all) && d != GONE
    ensures Sends(evs, d) <= RTX_MAX
    ensures evs != [] && evs[|evs| - 1].TimeoutEv? ==>
      var before := evs[..|evs| - 1];
      d in Cleared(After(before).cur, evs[|evs| - 1].known) <==> Sends(before, d) < Sends(evs, d) == RTX_MAX
  {
    RunCounts(evs, all, d);
    if evs != [] && evs[|evs| - 1].TimeoutEv? {
      var k := |evs| - 1;
      assert forall j :: 0 <= j < k ==> evs[..k][..j] == evs[..j];
      RunCounts(evs[..k], all, d);
      ClearedIs(After(evs[..k]).cur, evs[k].known, d);
      SentIs(After(evs[..k]).cur, evs[k].known, d);
    }
  }

  // ---- exactly ten retransmissions ----

  /**
   Where `d` is after an NH_SET for it and `t` timeouts: in the next slot, then in
   the current one with its count, and after eleven timeouts nowhere.
   */
  ghost predicate At(s: Sched, d: Dpo, t: nat) {
    if t == 0 then Has(s.nxt, d)
    else if t <= 10 then exists k :: 0 <= k < |s.cur| && s.cur[k] == Retx(d, t - 1)
    else !Has(s.cur, d) && !Has(s.nxt, d)
  }

  lemma NhSetAt(s: Sched, d: Dpo)
    ensures At(OnNhSet(s, d), d, 0)
  {
    var r := OnNhSet(s, d);
    if !Has(s.nxt, d) { assert r.nxt[|s.nxt|].dpo == d; }
  }

  lemma OtherAt(s: Sched, x: Dpo, d: Dpo, t: nat)
    requires At(s, d, t) && x != d && d != GONE
    ensures At(OnNhSet(s, x), d, t)
  {
    var r := OnNhSet(s, x);
    assert forall h :: 0 <= h < |s.nxt| ==> r.nxt[h] == s.nxt[h];
    if t == 0 {
      var k :| 0 <= k < |s.nxt| && s.nxt[k].dpo == d;
      assert r.nxt[k].dpo == d;
    } else if t <= 10 {
      var k :| 0 <= k < |s.cur| && s.cur[k] == Retx(d, t - 1);
      assert r.cur[k] == Retx(d, t - 1);
    } else {
      assert forall h :: 0 <= h < |r.cur| ==> r.cur[h].dpo == GONE || r.cur[h] == s.cur[h];
      assert forall h :: 0 <= h < |r.nxt| ==> r.nxt[h] == if h < |s.nxt| then s.nxt[h] else Retx(x, 0);
    }
  }

  /** One more timeout that finds the TFIB of `d`: what becomes of `d`, whether it is sent for, and whether its TFIB is cleared. */
  lemma TimeoutAt(s: Sched, known: set<Dpo>, all: set<Dpo>, d: Dpo, t: nat)
    requires SchedInv(s, all) && At(s, d, t) && d != GONE && d in known
    ensures At(OnTimeout(s, known), d, t + 1)
    ensures d in Sent(s.cur, known) <==> 1 <= t <= 10
    ensures d in Cleared(s.cur, known) <==> t == 10
  {
    SentIs(s.cur, known, d);
    ClearedIs(s.cur, known, d);
    AgainIs(s.cur, known);
    if t == 0 { TimeoutFirst(s, known, d); } else if t <= 10 { TimeoutLater(s, known, all, d, t); } else { TimeoutNone(s, known, d); }
  }

  lemma TimeoutFirst(s: Sched, known: set<Dpo>, d: Dpo)
    requires Has(s.nxt, d) && d != GONE && !Live(s.cur, d) && forall k :: 0 <= k < |s.nxt| ==> s.nxt[k].rtx == 0
    ensures At(OnTimeout(s, known), d, 1)
  {
    var k :| 0 <= k < |s.nxt| && s.nxt[k].dpo == d;
    assert OnTimeout(s, known).cur[k] == Retx(d, 0);
  }

  lemma TimeoutNone(s: Sched, known: set<Dpo>, d: Dpo)
    requires OneEach(s.cur) && !Has(s.cur, d) && !Has(s.nxt, d)
    ensures !Has(OnTimeout(s, known).cur, d) && !Has(OnTimeout(s, known).nxt, d)
  {
    AgainIs(s.cur, known);
    var r, again := OnTimeout(s, known), Again(s.cur, known);
    forall k | 0 <= k < |r.cur|
      ensures r.cur[k].dpo != d
    {
      if k < |s.nxt| { assert s.nxt[k].dpo != d; } else { assert again[k - |s.nxt|].dpo != d; }
    }
  }

  lemma TimeoutLater(s: Sched, known: set<Dpo>, all: set<Dpo>, d: Dpo, t: nat)
    requires SchedInv(s, all) && At(s, d, t) && 1 <= t <= 10 && d != GONE && d in known
    ensures At(OnTimeout(s, known), d, t + 1) && Has(s.cur, d)
    ensures (exists k :: 0 <= k < |s.cur| && s.cur[k].dpo == d && s.cur[k].rtx + 1 >= RTX_MAX) <==> t == 10
  {
    var j :| 0 <= j < |s.cur| && s.cur[j] == Retx(d, t - 1);
    assert forall k :: 0 <= k < |s.cur| && s.cur[k].dpo == d ==> k == j;
    if t < 10 {
      AgainHas(s.cur, known, j);
      PutBackAt(s, known, d, t);
    } else {
      assert Live(s.cur, d) && !Has(s.nxt, d);
      Exhausted(s, known, d, j);
    }
  }

  lemma PutBackAt(s: Sched, known: set<Dpo>, d: Dpo, t: nat)
    requires Retx(d, t) in Again(s.cur, known) && t < 10
    ensures At(OnTimeout(s, known), d, t + 1)
  {
    var r, again := OnTimeout(s, known), Again(s.cur, known);
    var h :| 0 <= h < |again| && again[h] == Retx(d, t);
    assert r.cur[|s.nxt| + h] == Retx(d, t);
  }

  lemma Exhausted(s: Sched, known: set<Dpo>, d: Dpo, j: nat)
    requires OneEach(s.cur) && j < |s.cur| && s.cur[j] == Retx(d, 9) && d != GONE && !Has(s.nxt, d)
    ensures At(OnTimeout(s, known), d, 11)
  {
    AgainIs(s.cur, known);
    var r, again := OnTimeout(s, known), Again(s.cur, known);
    forall k | 0 <= k < |r.cur|
      ensures r.cur[k].dpo != d
    {
      if k < |s.nxt| {
        assert s.nxt[k].dpo != d;
      } else {
        var x := again[k - |s.nxt|];
        var i :| 0 <= i < |s.cur| && s.cur[i] == Retx(x.dpo, x.rtx - 1);
        assert x.dpo == d ==> i == j;
      }
    }
  }

  /** Any event: an NH_SET for `d` starts anew, a timeout counts, all else leaves `d` where it is. */
  lemma NextAt(s: Sched, ev: Event, all: set<Dpo>, d: Dpo, t: nat)
    requires SchedInv(s, all) && At(s, d, t) && d != GONE && (ev.TimeoutEv? ==> d in ev.known)
    ensures At(Next(s, ev), d, if ev == NhSetEv(d) then 0 else if ev.TimeoutEv? then t + 1 else t)
  {
    match ev {
      case NhSetEv(x) => if x == d { NhSetAt(s, d); } else { OtherAt(s, x, d, t); }
      case TimeoutEv(known) => TimeoutAt(s, known, all, d, t);
      case _ =>
    }
  }

  /** The timer runs as long as an entry waits, so that the timeouts do come. */
  lemma TimerRuns(s: Sched, all: set<Dpo>, d: Dpo, t: nat)
    requires SchedInv(s, all) && At(s, d, t) && d != GONE && t <= 10
    ensures s.timer
  {
    if t > 0 {
      var k :| 0 <= k < |s.cur| && s.cur[k] == Retx(d, t - 1);
      assert Live(s.cur, d);
    }
  }

  /** Timeouts since the last NH_SET for `d`; negative without one, or if its TFIB was missing at one of them. */
  function Waited(evs: seq<Event>, d: Dpo): (t: int) {
    if evs == [] then -1
    else
      var k := |evs| - 1;
      var t := Waited(evs[..k], d);
      if evs[k] == NhSetEv(d) then 0
      else if !evs[k].TimeoutEv? || t < 0 then t
      else if d in evs[k].known then t + 1 else -1
  }

  lemma {:induction false} RunAt(evs: seq<Event>, all: set<Dpo>, d: Dpo)
    requires SchedRun(evs, all) && d != GONE && Waited(evs, d) >= 0
    ensures At(After(evs), d, Waited(evs, d))
    ensures Sends(evs, d) == if Waited(evs, d) == 0 then 0 else if Waited(evs, d) <= 11 then Waited(evs, d) - 1 else 10
  {
    var k := |evs| - 1;
    assert forall j :: 0 <= j < k ==> evs[..k][..j] == evs[..j];
    RunInv(evs[..k], all);
    var s := After(evs[..k]);
    if evs[k] == NhSetEv(d) {
      NhSetAt(s, d);
    } else {
      RunAt(evs[..k], all, d);
      NextAt(s, evs[k], all, d, Waited(evs[..k], d));
      if evs[k].TimeoutEv? { TimeoutAt(s, evs[k].known, all, d, Waited(evs[..k], d)); }
    }
  }

  /**
   Exact retransmission: while the TFIB of a DPO exists, an NH_SET for it is followed by
   ten sends, one at each timeout from the second to the eleventh; the timer runs
   until then, and the eleventh timeout, and no other, clears the TFIB.
   */
  lemma ExactRetransmission(evs: seq<Event>, all: set<Dpo>, d: Dpo)
    requires SchedRun(evs, all) && d != GONE && Waited(evs, d) >= 0
    ensures Sends(evs, d) == if Waited(evs, d) == 0 then 0 else if Waited(evs, d) <= 11 then Waited(evs, d) - 1 else 10
    ensures Waited(evs, d) <= 10 ==> After(evs).timer
    ensures evs[|evs| - 1].TimeoutEv? ==>
      var q, known := After(evs[..|evs| - 1]).cur, evs[|evs| - 1].known;
      && (d in Sent(q, known) <==> 2 <= Waited(evs, d) <= 11)
      && (d in Cleared(q, known) <==> Waited(evs, d) == 11)
  {
    RunAt(evs, all, d);
    RunInv(evs, all);
    var k := |evs| - 1;
    assert forall j :: 0 <= j < k ==> evs[..k][..j] == evs[..j];
    if Waited(evs, d) <= 10 { TimerRuns(After(evs), all, d, Waited(evs, d)); }
    if evs[k].TimeoutEv? {
      RunAt(evs[..k], all, d);
      RunInv(evs[..k], all);
      TimeoutAt(After(evs[..k]), evs[k].known, all, d, Waited(evs[..k], d));
    }
  }

  // ---- the timer stops ----

  /** The most timeouts an entry of the current slot can still be sent for. */
  ghost function Left(q: seq<Retx>): (n: nat) {
    if q == [] then 0
    else
      var e, n := q[|q| - 1], Left(q[..|q| - 1]);
      if e.dpo != GONE && e.rtx < RTX_MAX && RTX_MAX - e.rtx > n then RTX_MAX - e.rtx else n
  }

  lemma {:induction false} LeftIs(q: seq<Retx>, bound: nat)
    requires forall k :: 0 <= k < |q| ==> q[k].dpo == GONE || q[k].rtx + bound >= RTX_MAX
    ensures Left(q) <= bound
  {
    if q != [] { LeftIs(q[..|q| - 1], bound); }
  }

  lemma {:induction false} LeftAtLeast(q: seq<Retx>, k: nat)
    requires k < |q| && q[k].dpo != GONE && q[k].rtx < RTX_MAX
    ensures Left(q) >= RTX_MAX - q[k].rtx
  {
    if k < |q| - 1 { LeftAtLeast(q[..|q| - 1], k); }
  }

  /** Timeouts until the timer stops if nothing else happens. */
  ghost function Remaining(s: Sched): (n: nat) {
    if s.nxt != [] then RTX_MAX + 2
    else if Left(s.cur) > 0 then Left(s.cur) + 1
    else if s.idle <= 2 then 2 - s.idle else 0
  }

  lemma TimeoutProgress(s: Sched, known: set<Dpo>, all: set<Dpo>)
    requires SchedInv(s, all) && s.timer && s.idle <= 1
    ensures Remaining(OnTimeout(s, known)) < Remaining(s)
  {
    AgainIs(s.cur, known);
    var r, again := OnTimeout(s, known), Again(s.cur, known);
    if s.nxt != [] {
      LeftIs(r.cur, RTX_MAX);
    } else if Left(s.cur) > 0 {
      forall k | 0 <= k < |r.cur|
        ensures r.cur[k].dpo == GONE || r.cur[k].rtx + (Left(s.cur) - 1) >= RTX_MAX
      {
        var j :| 0 <= j < |s.cur| && s.cur[j] == Retx(again[k].dpo, again[k].rtx - 1);
        LeftAtLeast(s.cur, j);
      }
      LeftIs(r.cur, Left(s.cur) - 1);
    } else {
      NothingLeft(s.cur, known);
    }
  }

  lemma {:induction false} NothingLeft(q: seq<Retx>, known: set<Dpo>)
    requires Left(q) == 0 && forall k :: 0 <= k < |q| ==> q[k].rtx < RTX_MAX
    ensures Again(q, known) == []
  {
    if q != [] { NothingLeft(q[..|q| - 1], known); }
  }

  /** With nothing to send, activity keeps the timer for one more timeout, and the second stops it. */
  lemma IdleStops(s: Sched, k0: set<Dpo>, k1: set<Dpo>, all: set<Dpo>)
    requires SchedInv(s, all) && s.nxt == [] && forall d :: !Live(s.cur, d)
    ensures OnActivity(s).timer && OnTimeout(OnActivity(s), k0).timer
    ensures !OnTimeout(OnTimeout(OnActivity(s), k0), k1).timer
  {
    forall k | 0 <= k < |s.cur|
      ensures s.cur[k].dpo == GONE
    {
      assert Has(s.cur, s.cur[k].dpo) && !Live(s.cur, s.cur[k].dpo);
    }
    NothingDue(s.cur, k0);
  }

  lemma {:induction false} NothingDue(q: seq<Retx>, known: set<Dpo>)
    requires forall k :: 0 <= k < |q| ==> q[k].dpo == GONE
    ensures Again(q, known) == []
  {
    if q != [] { NothingDue(q[..|q| - 1], known); }
  }

  /** An acknowledgement neither prolongs nor shortens the wait. */
  lemma PhDelKeeps(s: Sched)
    requires TimerOk(s) && s != START
    ensures OnPhDel(s) == s
  {
  }

  function Timeouts(s: Sched, knowns: seq<set<Dpo>>): (r: Sched)
    decreases |knowns|
  {
    if knowns == [] || !s.timer then s else Timeouts(OnTimeout(s, knowns[0]), knowns[1..])
  }

  lemma {:induction false} TimeoutsStop(s: Sched, knowns: seq<set<Dpo>>, all: set<Dpo>)
    requires SchedInv(s, all) && TimerOk(s) && |knowns| >= Remaining(s)
    ensures !Timeouts(s, knowns).timer
    decreases |knowns|
  {
    if s.timer {
      TimeoutProgress(s, knowns[0], all);
      NextInv(s, TimeoutEv(knowns[0]), all);
      TimeoutsStop(OnTimeout(s, knowns[0]), knowns[1..], all);
    }
  }

  /** After any run, RTX_MAX + 2 timeouts without another event stop the timer, whichever TFIBs exist. */
  lemma TimerStops(evs: seq<Event>, all: set<Dpo>, knowns: seq<set<Dpo>>)
    requires SchedRun(evs, all) && |knowns| >= RTX_MAX + 2
    ensures !Timeouts(After(evs), knowns).timer
  {
    RunInv(evs, all);
    var s := After(evs);
    LeftIs(s.cur, RTX_MAX);
    TimeoutsStop(s, knowns, all);
  }
}
