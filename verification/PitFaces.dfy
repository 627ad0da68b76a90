/**
 The face database of a PIT entry (pcs.h): eight inline slots, an overflow
 vector and a bitmap, and what interest_hitpit_node.c does with it.
 */
module PitFaces {
  import opened Types
  import opened Seqs

  /** HICN_FACE_DB_INLINE_FACES and HICN_PARAM_FACES_MAX */
  const INLINE_FACES: nat := 8
  const FACES_MAX: nat := 512

  class FaceDb {
    const slots: array<FaceId>
    const bitmap: array<bool>
    /** Allocated on demand, never shrunk: it may hold more than the current entry uses. */
    var overflow: seq<FaceId>
    var nFaces: nat

    ghost function Faces(): seq<FaceId>
      requires slots.Length == INLINE_FACES && nFaces <= INLINE_FACES + |overflow|
      reads this, slots
    {
      if nFaces <= INLINE_FACES then slots[..nFaces] else slots[..] + overflow[..nFaces - INLINE_FACES]
    }

    ghost predicate Valid()
      reads this, slots, bitmap
    {
      && slots.Length == INLINE_FACES && bitmap.Length == FACES_MAX
      && nFaces <= INLINE_FACES + |overflow|
      && (forall f :: f in Faces() ==> f < FACES_MAX)
      && (forall f :: 0 <= f < FACES_MAX ==> (bitmap[f] <==> f in Faces()))
    }

    constructor ()
      ensures Valid() && Faces() == [] && fresh(slots) && fresh(bitmap)
    {
      slots := new FaceId[INLINE_FACES](i => 0);
      bitmap := new bool[FACES_MAX](i => false);
      overflow, nFaces := [], 0;
    }

    /** hicn_pcs_entry_pit_get on a recycled element: the overflow vector stays. */
    method Reset()
      requires slots.Length == INLINE_FACES && bitmap.Length == FACES_MAX
      modifies `nFaces, bitmap
      ensures Valid() && Faces() == []
    {
      forall f | 0 <= f < bitmap.Length { bitmap[f] := false; }
      nFaces := 0;
    }

    /** hicn_pcs_entry_pit_add_face: appends, whether or not the face is listed already. */
    method AddFace(f: FaceId)
      requires Valid() && f < FACES_MAX
      modifies this, slots, bitmap
      ensures Valid() && Faces() == old(Faces()) + [f]
    {
      ghost var before := Faces();
      if nFaces < INLINE_FACES {
        slots[nFaces] := f;
      } else {
        var k := nFaces - INLINE_FACES;
        if |overflow| <= k { overflow := overflow + [0]; }
        overflow := overflow[k := f];
      }
      nFaces := nFaces + 1;
      bitmap[f] := true;
      assert Faces() == before + [f];
    }

    /** hicn_pcs_entry_pit_search */
    method Search(f: FaceId) returns (found: bool)
      requires Valid() && f < FACES_MAX
      ensures found <==> f in Faces()
    {
      found := bitmap[f];
    }

    /** hicn_pcs_entry_pit_get_dpo_face */
    method GetFace(k: nat) returns (f: FaceId)
      requires Valid() && k < nFaces
      ensures k < |Faces()| && f == Faces()[k]
    {
      if k < INLINE_FACES {
        f := slots[k];
      } else {
        f := overflow[k - INLINE_FACES];
      }
    }

    /**
     The PIT branch of hicn_interest_hitpit_node_fn. `force` is the strategy's
     send-after-aggregation answer; the result tells whether the interest goes on
     to the strategy node (or is dropped as aggregated).
     */
    method HitPit(f: FaceId, force: bool, manifest: bool) returns (toStrategy: bool)
      requires Valid() && f < FACES_MAX
      modifies this, slots, bitmap
      ensures Valid() && Faces() == AfterHit(old(Faces()), f, force, manifest)
      ensures toStrategy <==> (f in old(Faces()) || force) && !manifest
    {
      var forward := Search(f);
      if !forward && force {
        forward := true;
        AddFace(f);
      }
      if forward && !manifest {
        toStrategy := true;
      } else {
        AddFace(f);
        toStrategy := false;
      }
    }
  }

  /** The face list after one interest hits the PIT entry. */
  function AfterHit(faces: seq<FaceId>, f: FaceId, force: bool, manifest: bool): (r: seq<FaceId>) {
    var first := if f !in faces && force then faces + [f] else faces;
    if (f in faces || force) && !manifest then first else first + [f]
  }

  /** The list stays free of repeats exactly when no interest manifest is retransmitted or forced on. */
  lemma HitKeepsDistinct(faces: seq<FaceId>, f: FaceId, force: bool, manifest: bool)
    requires Distinct(faces)
    ensures Distinct(AfterHit(faces, f, force, manifest)) <==> !manifest || (f !in faces && !force)
  {
    var r := AfterHit(faces, f, force, manifest);
    if manifest && (f in faces || force) {
      var first := if f in faces then faces else faces + [f];
      assert f in first && r == first + [f];
      var k :| 0 <= k < |first| && first[k] == f;
      assert r[k] == r[|first|];
    }
  }

  datatype Arrival = Arrival(face: FaceId, force: bool)

  /** The face list of an entry after ordinary interests arrived on it in this order. */
  function AfterAll(arrivals: seq<Arrival>): (r: seq<FaceId>) {
    if arrivals == [] then []
    else
      var last := arrivals[|arrivals| - 1];
      AfterHit(AfterAll(arrivals[..|arrivals| - 1]), last.face, last.force, false)
  }

  /** A manifest that is sent again on the face that is listed. */
  lemma ManifestListedTwice()
    ensures AfterHit([1], 1, false, true) == [1, 1]
  {
    assert [1] + [1] == [1, 1];
  }

  /** Position at which face `f` first arrived; the number of arrivals if it did not. */
  function FirstArrival(arrivals: seq<Arrival>, f: FaceId): (k: nat)
    ensures k <= |arrivals| && (k < |arrivals| ==> arrivals[k].face == f)
    ensures forall j :: 0 <= j < k ==> arrivals[j].face != f
  {
    if arrivals == [] then 0
    else
      var k := FirstArrival(arrivals[..|arrivals| - 1], f);
      if k < |arrivals| - 1 || arrivals[|arrivals| - 1].face == f then k else |arrivals|
  }

  /**
   For every run of ordinary interests the list holds exactly the faces that
   arrived, once each, in the order of their first arrival, whatever the
   strategy answered.
   */
  lemma {:induction false} AfterAllOrder(arrivals: seq<Arrival>)
    ensures var r := AfterAll(arrivals);
      && (forall f :: f in r <==> FirstArrival(arrivals, f) < |arrivals|)
      && (forall a, b :: 0 <= a < b < |r| ==> FirstArrival(arrivals, r[a]) < FirstArrival(arrivals, r[b]))
  {
    if arrivals != [] {
      var before := arrivals[..|arrivals| - 1];
      AfterAllOrder(before);
      var p, r := AfterAll(before), AfterAll(arrivals);
      forall f
        ensures f in r <==> FirstArrival(arrivals, f) < |arrivals|
      {
      }
      forall a, b | 0 <= a < b < |r|
        ensures FirstArrival(arrivals, r[a]) < FirstArrival(arrivals, r[b])
      {
        assert r[a] == p[a] && r[a] in p;
        assert b < |p| ==> r[b] == p[b] && r[b] in p;
      }
    }
  }

  lemma {:induction false} BoundedDistinct(s: seq<FaceId>, n: nat)
    requires Distinct(s) && forall f :: f in s ==> f < n
    ensures |s| <= n
    decreases n
  {
    if s != [] {
      assert s[0] in s;
      var top: FaceId := n - 1;
      WithoutDistinct(s, top);
      BoundedDistinct(Without(s, top), n - 1);
    }
  }

  /** Hence the list has no repeats and never more than HICN_PARAM_FACES_MAX faces. */
  lemma AfterAllBounded(arrivals: seq<Arrival>)
    requires forall a :: a in arrivals ==> a.face < FACES_MAX
    ensures Distinct(AfterAll(arrivals)) && |AfterAll(arrivals)| <= FACES_MAX
  {
    AfterAllOrder(arrivals);
    var r := AfterAll(arrivals);
    forall f | f in r
      ensures f < FACES_MAX
    {
      assert arrivals[FirstArrival(arrivals, f)] in arrivals;
    }
    BoundedDistinct(r, FACES_MAX);
  }
}
