/**
 Reconciliation of an hICN FIB entry with the IP routing table (route.c,
 sync_hicn_fib_entry): the next hops become the faces of the route's buckets,
 and the locks taken on the way are given back.
 */
module RouteSync {
  import opened Types
  import opened Seqs
  import opened Fib

  /** A load-balance bucket: its forwarding object, and the face made for it if it is of a supported kind. */
  datatype Bucket = Bucket(dpo: nat, face: Face)
  datatype Face = NoFace | HasFace(id: FaceId)

  /** Equal objects in a row stand for weights and count once. */
  function Collected(buckets: seq<Bucket>): (r: seq<FaceId>) {
    if buckets == [] then []
    else
      var k := |buckets| - 1;
      if (k > 0 && buckets[k - 1].dpo == buckets[k].dpo) || buckets[k].face.NoFace? then Collected(buckets[..k])
      else Collected(buckets[..k]) + [buckets[k].face.id]
  }

  /** A forwarding object determines its face. */
  ghost predicate Coherent(buckets: seq<Bucket>) {
    forall a, b :: 0 <= a < b < |buckets| && buckets[a].dpo == buckets[b].dpo ==> buckets[a].face == buckets[b].face
  }

  /** Whatever the repetitions, the faces collected are those of the buckets. */
  lemma {:induction false} CollectedFaces(buckets: seq<Bucket>, f: FaceId)
    requires Coherent(buckets)
    ensures f in Collected(buckets) <==> exists k :: 0 <= k < |buckets| && buckets[k].face == HasFace(f)
  {
    if buckets != [] {
      var k := |buckets| - 1;
      CollectedFaces(buckets[..k], f);
      assert k > 0 ==> buckets[..k][k - 1] == buckets[k - 1];
      if exists j :: 0 <= j < |buckets| && buckets[j].face == HasFace(f) {
        var j :| 0 <= j < |buckets| && buckets[j].face == HasFace(f);
        assert j < k ==> buckets[..k][j].face == HasFace(f);
        if j == k && k > 0 && buckets[k - 1].dpo == buckets[k].dpo {
          assert buckets[..k][k - 1].face == HasFace(f);
        }
      }
    }
  }

  /** The first loop: one face, with one lock added by hicn_face_add, per change of forwarding object. */
  method Collect(buckets: seq<Bucket>, faces: FaceTable) returns (vec: seq<FaceId>)
    modifies faces`locks
    ensures vec == Collected(buckets)
    ensures faces.locks == old(faces.locks) + multiset(vec)
  {
    vec := [];
    for j := 0 to |buckets|
      invariant vec == Collected(buckets[..j])
      invariant faces.locks == old(faces.locks) + multiset(vec)
    {
      assert buckets[..j + 1][..j] == buckets[..j];
      if !(j > 0 && buckets[j - 1].dpo == buckets[j].dpo) && buckets[j].face.HasFace? {
        faces.Lock(buckets[j].face.id);
        vec := vec + [buckets[j].face.id];
      }
    }
    assert buckets[..|buckets|] == buckets;
  }

  /**
   The second loop at hop `i`. `nh0` and `locks0` are the hops and locks it
   started from and `target` the faces collected; the hops before `i` are final.
   */
  ghost predicate Pruning(
    nh0: seq<FaceId>, target: seq<FaceId>, locks0: multiset<FaceId>,
    nh: seq<FaceId>, vec: seq<FaceId>, i: nat, locks: multiset<FaceId>)
  {
    && Distinct(nh) && i <= |nh|
    && (forall x :: x in nh ==> x in nh0)
    && (forall x :: x in nh0 && x in target ==> x in nh)
    && multiset(vec) + multiset(nh[..i]) == multiset(target)
    && locks + (multiset(nh0) + multiset(nh[..i])) == locks0 + multiset(nh)
    && multiset(nh) + multiset(vec) <= locks
  }

  lemma PruneDrop(
    nh0: seq<FaceId>, target: seq<FaceId>, locks0: multiset<FaceId>,
    nh: seq<FaceId>, vec: seq<FaceId>, i: nat, locks: multiset<FaceId>)
    requires Pruning(nh0, target, locks0, nh, vec, i, locks) && i < |nh| && nh[i] !in vec
    ensures |SwapDel(nh, nh[i])| == |nh| - 1
    ensures Pruning(nh0, target, locks0, SwapDel(nh, nh[i]), vec, i, locks - multiset{nh[i]})
  {
    var x, r := nh[i], SwapDel(nh, nh[i]);
    SwapDelIsRemoval(nh, x);
    assert forall y :: y in r <==> y in Elements(r);
    assert forall y :: y in nh <==> y in Elements(nh);
    FindIs(nh, x, i);
    assert r[..i] == nh[..i];
    NotInTarget(target, nh, vec, i);
    assert x in multiset(nh) && x in locks;
    DropLocks(locks, multiset(nh0) + multiset(nh[..i]), locks0, multiset(nh), x);
  }

  lemma DropLocks(a: multiset<FaceId>, m: multiset<FaceId>, b: multiset<FaceId>, c: multiset<FaceId>, x: FaceId)
    requires a + m == b + c && x in a && x in c
    ensures a - multiset{x} + m == b + (c - multiset{x})
  {
    forall y
      ensures (a - multiset{x} + m)[y] == (b + (c - multiset{x}))[y]
    {
      assert (a + m)[y] == (b + c)[y];
    }
  }

  lemma NotInTarget(target: seq<FaceId>, nh: seq<FaceId>, vec: seq<FaceId>, i: nat)
    requires Distinct(nh) && i < |nh| && nh[i] !in vec && multiset(vec) + multiset(nh[..i]) == multiset(target)
    ensures nh[i] !in target
  {
    var x := nh[i];
    assert x !in nh[..i];
    assert multiset(target)[x] == 0;
  }

  lemma PruneKeep(
    nh0: seq<FaceId>, target: seq<FaceId>, locks0: multiset<FaceId>,
    nh: seq<FaceId>, vec: seq<FaceId>, i: nat, locks: multiset<FaceId>)
    requires Pruning(nh0, target, locks0, nh, vec, i, locks) && i < |nh| && nh[i] in vec
    ensures Pruning(nh0, target, locks0, nh, SwapDel(vec, nh[i]), i + 1, locks - multiset{nh[i]})
  {
    var x := nh[i];
    SwapDelIsRemoval(vec, x);
    assert nh[..i + 1] == nh[..i] + [x];
    assert multiset{x} <= multiset(vec);
    KeepLocks(nh0, locks0, nh, i, locks);
  }

  lemma KeepLocks(nh0: seq<FaceId>, locks0: multiset<FaceId>, nh: seq<FaceId>, i: nat, locks: multiset<FaceId>)
    requires i < |nh| && nh[i] in locks
    requires locks + (multiset(nh0) + multiset(nh[..i])) == locks0 + multiset(nh)
    ensures locks - multiset{nh[i]} + (multiset(nh0) + multiset(nh[..i + 1])) == locks0 + multiset(nh)
  {
    assert nh[..i + 1] == nh[..i] + [nh[i]];
  }

  /** The third loop after the first `k` remaining faces were added; `nh1` and `locks1` are what it started from. */
  ghost predicate Filling(
    nh1: seq<FaceId>, locks1: multiset<FaceId>, vec: seq<FaceId>, k: nat, nh: seq<FaceId>, locks: multiset<FaceId>)
  {
    && k <= |vec| && Distinct(nh)
    && (forall x :: x in nh <==> x in nh1 || x in vec[..k])
    && locks + (multiset(nh1) + multiset(vec[..k])) == locks1 + multiset(nh)
    && multiset(nh) + multiset(vec[k..]) <= locks
  }

  /** One more of the faces is accounted for: its lock is given back, or becomes the lock of the new hop. */
  lemma FillLocks(locks: multiset<FaceId>, a: multiset<FaceId>, b: multiset<FaceId>, n: multiset<FaceId>, rest: multiset<FaceId>, x: FaceId)
    requires locks + a == b + n && n + (multiset{x} + rest) <= locks
    ensures locks - multiset{x} + (a + multiset{x}) == b + n && n + rest <= locks - multiset{x}
    ensures locks + multiset{x} - multiset{x} + (a + multiset{x}) == b + (n + multiset{x})
    ensures n + multiset{x} + rest <= locks + multiset{x} - multiset{x}
  {
    assert multiset{x} <= n + (multiset{x} + rest);
    assert locks + multiset{x} - multiset{x} == locks;
    forall y
      ensures (locks - multiset{x} + (a + multiset{x}))[y] == (b + n)[y]
      ensures (locks + (a + multiset{x}))[y] == (b + (n + multiset{x}))[y]
    {
      assert (locks + a)[y] == (b + n)[y];
    }
  }

  lemma FillStep(
    nh1: seq<FaceId>, locks1: multiset<FaceId>, vec: seq<FaceId>, k: nat, nh: seq<FaceId>, locks: multiset<FaceId>)
    requires Filling(nh1, locks1, vec, k, nh, locks) && k < |vec|
    ensures
      var x := vec[k];
      var nh2 := if x in nh then nh else nh + [x];
      var locks2 := if x in nh then locks else locks + multiset{x};
      Filling(nh1, locks1, vec, k + 1, nh2, locks2 - multiset{x})
  {
    var x := vec[k];
    assert vec[..k + 1] == vec[..k] + [x];
    assert vec[k..] == [x] + vec[k + 1..];
    var a, rest := multiset(nh1) + multiset(vec[..k]), multiset(vec[k + 1..]);
    assert multiset(vec[k..]) == multiset{x} + rest;
    assert multiset(nh1) + multiset(vec[..k + 1]) == a + multiset{x};
    FillLocks(locks, a, locks1, multiset(nh), rest, x);
    if x !in nh {
      assert multiset(nh + [x]) == multiset(nh) + multiset{x};
    }
  }

  /** The hops that went with the only lock on their face. */
  ghost function Dead(nh0: seq<FaceId>, nh: seq<FaceId>, locks: multiset<FaceId>): (r: set<FaceId>) {
    set x | x in nh0 && x !in nh && locks[x] == 1
  }

  lemma DeadDrop(
    nh0: seq<FaceId>, target: seq<FaceId>, locks0: multiset<FaceId>,
    nh: seq<FaceId>, vec: seq<FaceId>, i: nat, locks: multiset<FaceId>)
    requires Pruning(nh0, target, locks0, nh, vec, i, locks) && Distinct(nh0) && i < |nh|
    ensures Dead(nh0, SwapDel(nh, nh[i]), locks0) == Dead(nh0, nh, locks0) + Lone([nh[i]], locks)
  {
    var x := nh[i];
    SwapDelIsRemoval(nh, x);
    assert forall y :: y in SwapDel(nh, x) <==> y in Elements(SwapDel(nh, x));
    assert forall y :: y in nh <==> y in Elements(nh);
    OnceIn(nh0, x);
    OnceIn(nh, x);
    assert x !in nh[..i];
    assert (locks + (multiset(nh0) + multiset(nh[..i])))[x] == (locks0 + multiset(nh))[x];
    assert locks[x] == locks0[x];
  }

  lemma OnceIn(s: seq<FaceId>, x: FaceId)
    requires Distinct(s) && x in s
    ensures multiset(s)[x] == 1
  {
    var k :| 0 <= k < |s| && s[k] == x;
    assert s == s[..k] + [x] + s[k + 1..];
    assert x !in s[..k] && x !in s[k + 1..];
  }

  /** The second loop at hop `i`, in the entry itself; `v`, `locks0` and `gone0` are what it started from. */
  ghost predicate AtHop(
    fib: FibEntry, faces: FaceTable, v: Fib, target: seq<FaceId>, locks0: multiset<FaceId>, gone0: set<FaceId>,
    vec: seq<FaceId>, i: nat)
    reads fib, fib.slots, faces
  {
    && fib.Valid() && fib.View() == v.(nh := fib.View().nh) && i <= fib.entryCount
    && Pruning(v.nh, target, locks0, fib.View().nh, vec, i, faces.locks)
    && faces.gone == gone0 + Dead(v.nh, fib.View().nh, locks0)
  }

  /** One hop without a bucket goes. */
  method PruneHop(fib: FibEntry, faces: FaceTable, i: nat,
      ghost v: Fib, ghost target: seq<FaceId>, ghost locks0: multiset<FaceId>, ghost gone0: set<FaceId>, vec: seq<FaceId>)
    requires AtHop(fib, faces, v, target, locks0, gone0, vec, i) && i < fib.entryCount && fib.slots[i] !in vec
    requires Distinct(v.nh)
    modifies fib`entryCount, fib.slots, faces
    ensures AtHop(fib, faces, v, target, locks0, gone0, vec, i) && fib.entryCount == old(fib.entryCount) - 1
  {
    ghost var nh, locks := fib.View().nh, faces.locks;
    var x := fib.slots[i];
    PruneDrop(v.nh, target, locks0, nh, vec, i, locks);
    DeadDrop(v.nh, target, locks0, nh, vec, i, locks);
    var _ := fib.DelNh(x, faces);
    LocksLess(locks, faces.locks, nh, fib.View().nh, x);
  }

  /** One hop with a bucket stays, and gives back the lock hicn_face_add took. */
  method KeepHop(fib: FibEntry, faces: FaceTable, i: nat,
      ghost v: Fib, ghost target: seq<FaceId>, ghost locks0: multiset<FaceId>, ghost gone0: set<FaceId>, vec: seq<FaceId>)
      returns (vec2: seq<FaceId>)
    requires AtHop(fib, faces, v, target, locks0, gone0, vec, i) && i < fib.entryCount && fib.slots[i] in vec
    modifies faces
    ensures AtHop(fib, faces, v, target, locks0, gone0, vec2, i + 1)
  {
    PruneKeep(v.nh, target, locks0, fib.View().nh, vec, i, faces.locks);
    LockedTwice(fib.View().nh, vec, fib.slots[i], faces.locks);
    faces.Unlock(fib.slots[i]);
    vec2 := SwapDel(vec, fib.slots[i]);
  }

  lemma LockedTwice(nh: seq<FaceId>, vec: seq<FaceId>, x: FaceId, locks: multiset<FaceId>)
    requires x in nh && x in vec && multiset(nh) + multiset(vec) <= locks
    ensures Lone([x], locks) == {}
  {
    assert x in multiset(nh) && x in multiset(vec);
    assert (multiset(nh) + multiset(vec))[x] >= 2;
  }

  /** The second loop: hops without a bucket go, the others stay. */
  method Prune(fib: FibEntry, target: seq<FaceId>, faces: FaceTable) returns (vec: seq<FaceId>)
    requires fib.Valid() && multiset(fib.View().nh) + multiset(target) <= faces.locks
    modifies fib`entryCount, fib.slots, faces
    ensures fib.Valid() && fib.View() == old(fib.View()).(nh := fib.View().nh)
    ensures Pruning(old(fib.View()).nh, target, old(faces.locks), fib.View().nh, vec, |fib.View().nh|, faces.locks)
    ensures faces.gone == old(faces.gone) + Dead(old(fib.View()).nh, fib.View().nh, old(faces.locks))
  {
    assert fib.View().nh[..0] == [];
    vec := PruneLoop(fib, target, faces, fib.View(), faces.locks, faces.gone);
  }

  method PruneLoop(fib: FibEntry, target: seq<FaceId>, faces: FaceTable,
      ghost v: Fib, ghost locks0: multiset<FaceId>, ghost gone0: set<FaceId>) returns (vec: seq<FaceId>)
    requires AtHop(fib, faces, v, target, locks0, gone0, target, 0) && Distinct(v.nh)
    modifies fib`entryCount, fib.slots, faces
    ensures AtHop(fib, faces, v, target, locks0, gone0, vec, fib.entryCount)
  {
    vec := target;
    var i := 0;
    while i < fib.entryCount
      invariant AtHop(fib, faces, v, target, locks0, gone0, vec, i)
      decreases fib.entryCount - i
    {
      if fib.slots[i] in vec {
        vec := KeepHop(fib, faces, i, v, target, locks0, gone0, vec);
        i := i + 1;
      } else {
        PruneHop(fib, faces, i, v, target, locks0, gone0, vec);
      }
    }
  }

  lemma LocksLess(a: multiset<FaceId>, b: multiset<FaceId>, nh: seq<FaceId>, r: seq<FaceId>, x: FaceId)
    requires b + multiset(nh) == a + multiset(r) && r == SwapDel(nh, x) && x in nh && x in a
    ensures b == a - multiset{x}
  {
    SwapDelIsRemoval(nh, x);
    forall y
      ensures b[y] == (a - multiset{x})[y]
    {
      assert (b + multiset(nh))[y] == (a + multiset(r))[y];
    }
  }

  lemma HopsFit(nh: seq<FaceId>, x: FaceId, target: seq<FaceId>)
    requires Distinct(nh) && x !in nh && x in target && forall y :: y in nh ==> y in target
    ensures |nh| < |Elements(target)|
  {
    DistinctCard(nh + [x]);
    SubsetCard(Elements(nh + [x]), Elements(target));
  }

  lemma FillFits(
    nh1: seq<FaceId>, locks1: multiset<FaceId>, vec: seq<FaceId>, k: nat, nh: seq<FaceId>, locks: multiset<FaceId>,
    target: seq<FaceId>)
    requires Filling(nh1, locks1, vec, k, nh, locks) && k < |vec|
    requires (forall x :: x in nh1 ==> x in target) && (forall x :: x in vec ==> x in target)
    ensures vec[k] in nh || |nh| < |Elements(target)|
  {
    assert vec[k] in vec && forall y :: y in vec[..k] ==> y in vec;
    if vec[k] !in nh { HopsFit(nh, vec[k], target); }
  }

  /** The lock hicn_face_add took on the next face is there, beside the one of a hop. */
  lemma FillLocked(vec: seq<FaceId>, k: nat, nh: seq<FaceId>, locks: multiset<FaceId>)
    requires k < |vec| && multiset(nh) + multiset(vec[k..]) <= locks
    ensures locks[vec[k]] >= if vec[k] in nh then 2 else 1
  {
    var x := vec[k];
    assert vec[k..][0] == x;
    assert x in multiset(vec[k..]);
    if x in nh { assert x in multiset(nh); }
    assert (multiset(nh) + multiset(vec[k..]))[x] <= locks[x];
  }

  /** The third loop at face `k`, in the entry itself; `v`, `locks1` and `gone1` are what it started from. */
  ghost predicate AtFace(
    fib: FibEntry, faces: FaceTable, v: Fib, locks1: multiset<FaceId>, gone1: set<FaceId>, vec: seq<FaceId>, k: nat)
    reads fib, fib.slots, faces
  {
    && fib.Valid() && fib.View() == v.(nh := fib.View().nh)
    && Filling(v.nh, locks1, vec, k, fib.View().nh, faces.locks) && faces.gone == gone1
  }

  /** Every face of the entry and of the list is a target, and the targets fit. */
  ghost predicate AllTargets(v: Fib, vec: seq<FaceId>, target: seq<FaceId>) {
    && (forall x :: x in v.nh ==> x in target) && (forall x :: x in vec ==> x in target)
    && |Elements(target)| + |v.tfib| <= NHOPS_MAX
  }

  /** One face is added, unless a repeat of it is there, and unlocked. */
  method FillFace(fib: FibEntry, faces: FaceTable, k: nat, vec: seq<FaceId>,
      ghost v: Fib, ghost locks1: multiset<FaceId>, ghost gone1: set<FaceId>, ghost target: seq<FaceId>)
    requires AtFace(fib, faces, v, locks1, gone1, vec, k) && k < |vec| && AllTargets(v, vec, target)
    modifies fib`entryCount, fib.slots, faces
    ensures AtFace(fib, faces, v, locks1, gone1, vec, k + 1)
  {
    ghost var nh := fib.View().nh;
    FillStep(v.nh, locks1, vec, k, nh, faces.locks);
    FillFits(v.nh, locks1, vec, k, nh, faces.locks, target);
    FillLocked(vec, k, nh, faces.locks);
    FillOne(fib, vec[k], faces);
  }

  /** The third loop: the faces left are added and unlocked. */
  method Fill(fib: FibEntry, vec: seq<FaceId>, ghost target: seq<FaceId>, faces: FaceTable)
    requires fib.Valid() && multiset(fib.View().nh) + multiset(vec) <= faces.locks
    requires AllTargets(fib.View(), vec, target)
    modifies fib`entryCount, fib.slots, faces
    ensures fib.Valid() && fib.View() == old(fib.View()).(nh := fib.View().nh)
    ensures Filling(old(fib.View()).nh, old(faces.locks), vec, |vec|, fib.View().nh, faces.locks)
    ensures faces.gone == old(faces.gone)
  {
    ghost var v, locks1, gone1 := fib.View(), faces.locks, faces.gone;
    assert vec[..0] == [] && vec[0..] == vec;
    for k := 0 to |vec|
      invariant AtFace(fib, faces, v, locks1, gone1, vec, k)
    {
      FillFace(fib, faces, k, vec, v, locks1, gone1, target);
    }
  }

  /** Its body: hicn_dpo_add_update_nh and the release of the lock of hicn_face_add. */
  method FillOne(fib: FibEntry, x: FaceId, faces: FaceTable)
    requires fib.Valid() && (x in fib.View().nh || Room(fib.View()))
    requires faces.locks[x] >= if x in fib.View().nh then 2 else 1
    modifies fib`entryCount, fib.slots, faces
    ensures fib.Valid() && fib.View() == AddHop(old(fib.View()), x)
    ensures faces.gone == old(faces.gone)
    ensures faces.locks ==
      (if x in old(fib.View()).nh then old(faces.locks) else old(faces.locks) + multiset{x}) - multiset{x}
  {
    ghost var v, locks := fib.View(), faces.locks;
    var added := fib.AddNh(x, false, faces);
    if added {
      LocksMore(locks, faces.locks, v.nh, x);
    } else {
      LocksSame(locks, faces.locks, v.nh);
    }
    faces.Unlock(x);
  }

  lemma LocksMore(a: multiset<FaceId>, b: multiset<FaceId>, nh: seq<FaceId>, x: FaceId)
    requires b + multiset(nh) == a + multiset(nh + [x])
    ensures b == a + multiset{x}
  {
    forall y
      ensures b[y] == (a + multiset{x})[y]
    {
      assert (b + multiset(nh))[y] == (a + multiset(nh + [x]))[y];
    }
  }

  lemma LocksSame(a: multiset<FaceId>, b: multiset<FaceId>, nh: seq<FaceId>)
    requires b + multiset(nh) == a + multiset(nh)
    ensures b == a
  {
    forall y
      ensures b[y] == a[y]
    {
      assert (b + multiset(nh))[y] == (a + multiset(nh))[y];
    }
  }

  /**
   sync_hicn_fib_entry: the next hops become exactly the faces collected from
   the buckets, the TFIB stays, and the locks on each face change by its change
   in membership: every temporary lock was released once. The faces deleted are
   those that stop being a hop and had no other lock.
   */
  method Sync(fib: FibEntry, buckets: seq<Bucket>, faces: FaceTable)
    requires fib.Valid() && multiset(fib.View().nh) <= faces.locks
    requires |Elements(Collected(buckets))| + |fib.View().tfib| <= NHOPS_MAX
    modifies fib`entryCount, fib.slots, faces
    ensures fib.Valid() && fib.View() == old(fib.View()).(nh := fib.View().nh)
    ensures Elements(fib.View().nh) == Elements(Collected(buckets))
    ensures faces.locks + multiset(old(fib.View()).nh) == old(faces.locks) + multiset(fib.View().nh)
    ensures faces.gone == old(faces.gone) + Dead(old(fib.View()).nh, fib.View().nh, old(faces.locks))
  {
    ghost var v, locks0 := fib.View(), faces.locks;
    var target := Collect(buckets, faces);
    ghost var locks1 := faces.locks;
    var vec := Prune(fib, target, faces);
    ghost var nh1, locks2 := fib.View().nh, faces.locks;
    PrunedAll(v.nh, target, locks1, nh1, vec, locks2);
    Fill(fib, vec, target, faces);
    FilledAll(v.nh, target, locks0, nh1, vec, locks2, fib.View().nh, faces.locks);
    DeadAll(v.nh, target, locks0, locks1, nh1, vec, fib.View().nh, locks2);
  }

  /** Pruning decides which faces die; the temporary locks do not touch them. */
  lemma DeadAll(
    nh0: seq<FaceId>, target: seq<FaceId>, locks0: multiset<FaceId>, locks1: multiset<FaceId>, nh1: seq<FaceId>,
    vec: seq<FaceId>, nh: seq<FaceId>, locks2: multiset<FaceId>)
    requires Pruning(nh0, target, locks1, nh1, vec, |nh1|, locks2) && locks1 == locks0 + multiset(target)
    requires Elements(nh) == Elements(target) && (forall x :: x in nh1 ==> x in target)
    ensures Dead(nh0, nh1, locks1) == Dead(nh0, nh, locks0)
  {
    forall x | x in nh0
      ensures x in nh1 <==> x in nh
      ensures x !in nh ==> locks1[x] == locks0[x]
    {
      assert x in nh <==> x in Elements(nh);
      assert x in target <==> x in Elements(target);
      if x !in target { assert multiset(target)[x] == 0; }
    }
  }

  lemma PrunedAll(
    nh0: seq<FaceId>, target: seq<FaceId>, locks1: multiset<FaceId>, nh1: seq<FaceId>, vec: seq<FaceId>, locks2: multiset<FaceId>)
    requires Pruning(nh0, target, locks1, nh1, vec, |nh1|, locks2)
    ensures multiset(vec) + multiset(nh1) == multiset(target)
    ensures locks2 + multiset(nh0) == locks1
    ensures (forall x :: x in nh1 ==> x in target) && (forall x :: x in vec ==> x in target)
  {
    assert nh1[..|nh1|] == nh1;
    forall y
      ensures (locks2 + multiset(nh0))[y] == locks1[y]
    {
      assert (locks2 + (multiset(nh0) + multiset(nh1)))[y] == (locks1 + multiset(nh1))[y];
    }
    forall x | x in nh1 || x in vec
      ensures x in target
    {
      assert x in multiset(vec) + multiset(nh1) && x in multiset(target);
    }
  }

  lemma FilledAll(
    nh0: seq<FaceId>, target: seq<FaceId>, locks0: multiset<FaceId>, nh1: seq<FaceId>, vec: seq<FaceId>,
    locks2: multiset<FaceId>, nh: seq<FaceId>, locks: multiset<FaceId>)
    requires multiset(vec) + multiset(nh1) == multiset(target)
    requires locks2 + multiset(nh0) == locks0 + multiset(target)
    requires Filling(nh1, locks2, vec, |vec|, nh, locks)
    ensures Elements(nh) == Elements(target)
    ensures locks + multiset(nh0) == locks0 + multiset(nh)
  {
    assert vec[..|vec|] == vec;
    forall x
      ensures x in nh <==> x in target
    {
      assert x in multiset(target) <==> x in multiset(vec) || x in multiset(nh1);
    }
    forall y
      ensures (locks + multiset(nh0))[y] == (locks0 + multiset(nh))[y]
    {
      assert (locks + (multiset(nh1) + multiset(vec)))[y] == (locks2 + multiset(nh))[y];
      assert (locks2 + multiset(nh0))[y] == (locks0 + multiset(target))[y];
      assert (multiset(vec) + multiset(nh1))[y] == multiset(target)[y];
    }
  }
}
