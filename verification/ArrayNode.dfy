/**
 The node with its ten-slot array against the protocol on sets: it is a node of
 the network whatever the array refuses, and confluent as long as few enough faces
 are known.
 */
module ArrayNode {
  import opened Types
  import opened Seqs
  import opened Fib
  import opened Mapme
  import opened MapmeNode
  import opened Network

  // ---- refusals ----

  /** Whatever is refused, nothing else enters the TFIB, and what was there stays. */
  lemma {:induction false} MovedWithin(v: Fib, f: FaceId, k: nat, local: set<FaceId>)
    requires k <= |v.nh|
    ensures Elements(v.tfib) <= Elements(Moved(v, f, k, local).tfib) <= Wanted(v, f, k, local)
    decreases |v.nh| - k
  {
    if k < |v.nh| {
      var w := MoveOne(v, f, v.nh[k], local);
      MovedWithin(w, f, k + 1, local);
      assert v.nh[k..] == [v.nh[k]] + v.nh[k + 1..];
      assert w.nh == v.nh && Elements(v.tfib) <= Elements(w.tfib);
      assert Wanted(w, f, k + 1, local) <= Wanted(v, f, k, local);
    }
  }

  lemma HigherIsHandled(v: Fib, u: Update, w: Fib)
    requires Updated(v, u, {LOCAL}, w) && MobOk(Abs(v), {LOCAL}) && u.s > v.seqno
    ensures var m := OnUpdate(Abs(v), u, {LOCAL});
      w.seqno == m.seqno && Elements(w.nh) == m.nh && Elements(w.tfib) <= m.tfib
  {
    var d := DelPrev(v.(seqno := u.s), u.f);
    DelPrevAbs(v.(seqno := u.s), u.f);
    MovedWithin(d, u.f, 0, {LOCAL});
    assert d.nh[0..] == d.nh;
    HigherSets(Elements(v.nh), Elements(v.tfib), {LOCAL}, u.f);
  }

  lemma OtherIsHandled(v: Fib, u: Update, w: Fib)
    requires Updated(v, u, {LOCAL}, w) && MobOk(Abs(v), {LOCAL}) && u.s <= v.seqno
    ensures var m := OnUpdate(Abs(v), u, {LOCAL});
      w.seqno == m.seqno && Elements(w.nh) == m.nh && Elements(w.tfib) <= m.tfib
  {
    DelPrevAbs(v, u.f);
    assert Elements([u.f] + v.tfib) == {u.f} + Elements(v.tfib);
  }

  /**
   Every update the array node processes is a step of a node of the network, with
   the previous hops it found no room for as the refused ones.
   */
  lemma UpdatedIsHandled(v: Fib, u: Update, w: Fib)
    requires Updated(v, u, {LOCAL}, w) && MobOk(Abs(v), {LOCAL})
    ensures exists refused :: Abs(w) == Handled(Abs(v), u, refused)
    ensures MobOk(Abs(w), {LOCAL})
  {
    if u.s > v.seqno { HigherIsHandled(v, u, w); } else { OtherIsHandled(v, u, w); }
    var m := OnUpdate(Abs(v), u, {LOCAL});
    var refused := m.tfib - Elements(w.tfib);
    assert m.tfib - refused == Elements(w.tfib);
    assert Abs(w) == Handled(Abs(v), u, refused);
  }

  // ---- confluence ----

  /** The entry after each of a list of updates. */
  ghost predicate UpdateRun(vs: seq<Fib>, us: seq<Update>, local: set<FaceId>) {
    && |vs| == |us| + 1 && (forall k :: 0 <= k < |vs| ==> FibOk(vs[k]))
    && forall k :: 0 <= k < |us| ==> Updated(vs[k], us[k], local, vs[k + 1])
  }

  /** The faces of the entry and of the updates. */
  ghost function Known(m: Mob, us: seq<Update>): (r: set<FaceId>) {
    m.nh + m.tfib + Senders(us)
  }

  lemma Few(s: seq<FaceId>, known: set<FaceId>)
    requires Distinct(s) && Elements(s) <= known
    ensures |s| <= |known|
  {
    DistinctCard(s);
    SubsetCard(Elements(s), known);
  }

  lemma WantedKnown(v: Fib, f: FaceId, local: set<FaceId>, known: set<FaceId>)
    requires Elements(v.nh) <= known && Elements(v.tfib) <= known
    ensures |Wanted(DelPrev(v, f), f, 0, local)| <= |known|
  {
    DelPrevAbs(v, f);
    assert v.nh[0..] == v.nh;
    SubsetCard(Wanted(DelPrev(v, f), f, 0, local), known);
  }

  /** With at most five faces known no previous hop is ever refused. */
  lemma FewFacesFit(v: Fib, u: Update, local: set<FaceId>, known: set<FaceId>)
    requires FibOk(v) && |known| <= 5 && u.f in known && Elements(v.nh) <= known && Elements(v.tfib) <= known
    ensures PrevRoom(v, u, local)
  {
    Few(v.nh, known);
    WantedKnown(v, u.f, local, known);
    if u.f !in v.nh + v.tfib {
      assert u.f !in Elements(v.nh) && u.f !in Elements(v.tfib);
      Few(v.nh, known - {u.f});
      Few(v.tfib, known - {u.f});
    }
  }

  lemma ProcessKnown(m: Mob, us: seq<Update>, local: set<FaceId>)
    requires MobOk(m, local)
    ensures var r := Process(m, us, local); r.nh + r.tfib <= Known(m, us) && MobOk(r, local)
  {
    ProcessClosedForm(m, us, local);
  }

  /** None of the updates finds the array too full for a previous hop. */
  ghost predicate RoomRun(vs: seq<Fib>, us: seq<Update>, local: set<FaceId>)
    requires UpdateRun(vs, us, local)
  {
    forall k :: 0 <= k < |us| ==> PrevRoom(vs[k], us[k], local)
  }

  /** As long as there is room the array ends in the closed form: order and repetition of the updates do not matter. */
  lemma {:induction false} ArrayClosedForm(vs: seq<Fib>, us: seq<Update>, local: set<FaceId>)
    requires UpdateRun(vs, us, local) && MobOk(Abs(vs[0]), local) && RoomRun(vs, us, local)
    ensures Abs(vs[|us|]) == Process(Abs(vs[0]), us, local) == ClosedForm(Abs(vs[0]), us, local)
    decreases |us|
  {
    ProcessClosedForm(Abs(vs[0]), us, local);
    if us != [] {
      var k := |us| - 1;
      RunPrefix(vs, us, local);
      ArrayClosedForm(vs[..|us|], us[..k], local);
      ArrayStep(Abs(vs[0]), us, local, vs[k], vs[k + 1]);
    }
  }

  lemma RunPrefix(vs: seq<Fib>, us: seq<Update>, local: set<FaceId>)
    requires UpdateRun(vs, us, local) && us != []
    ensures UpdateRun(vs[..|us|], us[..|us| - 1], local)
    ensures RoomRun(vs, us, local) ==> RoomRun(vs[..|us|], us[..|us| - 1], local)
  {
  }

  lemma ArrayStep(m: Mob, us: seq<Update>, local: set<FaceId>, v: Fib, w: Fib)
    requires MobOk(m, local) && us != [] && FibOk(v) && Abs(v) == Process(m, us[..|us| - 1], local)
    requires Updated(v, us[|us| - 1], local, w) && PrevRoom(v, us[|us| - 1], local)
    ensures Abs(w) == Process(m, us, local)
  {
    ProcessKnown(m, us[..|us| - 1], local);
    UpdatedAbs(v, us[|us| - 1], local, w);
  }

  /** Confluence of the array node. */
  lemma ArrayConfluence(vs: seq<Fib>, us: seq<Update>, ws: seq<Fib>, xs: seq<Update>, local: set<FaceId>)
    requires UpdateRun(vs, us, local) && UpdateRun(ws, xs, local) && vs[0] == ws[0] && MobOk(Abs(vs[0]), local)
    requires RoomRun(vs, us, local) && RoomRun(ws, xs, local)
    requires forall u :: u in us <==> u in xs
    ensures Abs(vs[|us|]) == Abs(ws[|xs|])
  {
    ArrayClosedForm(vs, us, local);
    ArrayClosedForm(ws, xs, local);
    Confluence(Abs(vs[0]), us, xs, local);
  }

  /** Known in advance: with at most five faces in all there is always room. */
  lemma {:induction false} FewFacesRoom(vs: seq<Fib>, us: seq<Update>, local: set<FaceId>)
    requires UpdateRun(vs, us, local) && MobOk(Abs(vs[0]), local) && |Known(Abs(vs[0]), us)| <= 5
    ensures RoomRun(vs, us, local)
    decreases |us|
  {
    if us != [] {
      var k := |us| - 1;
      var pre, m := us[..k], Abs(vs[0]);
      assert Known(m, pre) <= Known(m, us);
      SubsetCard(Known(m, pre), Known(m, us));
      RunPrefix(vs, us, local);
      FewFacesRoom(vs[..|us|], pre, local);
      ArrayClosedForm(vs[..|us|], pre, local);
      ProcessKnown(m, pre, local);
      assert us[k].f in Senders(us);
      FewFacesFit(vs[k], us[k], local, Known(m, us));
      RoomSnoc(vs, us, local);
    }
  }

  lemma RoomSnoc(vs: seq<Fib>, us: seq<Update>, local: set<FaceId>)
    requires UpdateRun(vs, us, local) && us != []
    requires UpdateRun(vs[..|us|], us[..|us| - 1], local) && RoomRun(vs[..|us|], us[..|us| - 1], local)
    requires PrevRoom(vs[|us| - 1], us[|us| - 1], local)
    ensures RoomRun(vs, us, local)
  {
    forall k | 0 <= k < |us|
      ensures PrevRoom(vs[k], us[k], local)
    {
      if k < |us| - 1 { assert PrevRoom(vs[..|us|][k], us[..|us| - 1][k], local); }
    }
  }
}
