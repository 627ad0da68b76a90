/**
 An hICN FIB entry (strategy_dpo_ctx.c, strategy_dpo_ctx.h, mapme.h): one array
 of ten slots holds the next hops from the front and the TFIB, the previous
 hops still to be notified, from the back. Each slot in use holds a lock on its
 face.
 */
module Fib {
  import opened Types
  import opened Seqs

  /** HICN_PARAM_FIB_ENTRY_NHOPS_MAX and NEXT_HOP_INVALID */
  const NHOPS_MAX: nat := 10
  const INVALID: FaceId := 0xFFFF_FFFF

  /** The two lists, the newest previous hop first, and the sequence number. */
  datatype Fib = Fib(nh: seq<FaceId>, tfib: seq<FaceId>, seqno: nat)

  ghost predicate FibOk(v: Fib) {
    Distinct(v.nh) && Distinct(v.tfib) && |v.nh| + |v.tfib| <= NHOPS_MAX
  }

  predicate Room(v: Fib) {
    |v.nh| + |v.tfib| < NHOPS_MAX
  }

  /** hicn_mapme_tfib_add: local faces, faces already there and faces that do not fit are left out. */
  function AddPrev(v: Fib, f: FaceId, local: bool): (r: Fib) {
    if f in v.tfib || local || !Room(v) then v else v.(tfib := [f] + v.tfib)
  }

  function DelPrev(v: Fib, f: FaceId): (r: Fib) {
    v.(tfib := Without(v.tfib, f))
  }

  function AddHop(v: Fib, f: FaceId): (r: Fib) {
    if f in v.nh then v else v.(nh := v.nh + [f])
  }

  /**
   hicn_strategy_dpo_ctx_add_nh. Its room check does not look at the TFIB, so on a
   full array the new hop is written over the newest previous hop. A hop whose
   face is marked deleted is added once more.
   */
  function HopAdded(v: Fib, f: FaceId, deleted: bool): (r: Fib)
    requires |v.nh| + |v.tfib| <= NHOPS_MAX
    requires |v.nh| < NHOPS_MAX || (f in v.nh && !deleted)
  {
    if f in v.nh && !deleted then v
    else v.(nh := v.nh + [f], tfib := if Room(v) then v.tfib else v.tfib[0 := f])
  }

  /** Adding a hop keeps the entry well formed exactly if there is room and the face is not listed as deleted. */
  lemma HopAddedOkIff(v: Fib, f: FaceId, deleted: bool)
    requires FibOk(v) && |v.nh| < NHOPS_MAX
    ensures FibOk(HopAdded(v, f, deleted)) && HopAdded(v, f, deleted) == AddHop(v, f) <==>
      if f in v.nh then !deleted else Room(v)
  {
    if f in v.nh && deleted {
      var k, r := Find(v.nh, f), HopAdded(v, f, deleted).nh;
      assert r[k] == r[|v.nh|];
    }
  }

  /** Nine next hops and one previous hop: the tenth next hop takes the place of the previous hop. */
  lemma FullArrayLosesPrev()
    ensures
      var v := AddPrev(Fib([1, 2, 3, 4, 5, 6, 7, 8, 9], [], 0), 10, false);
      && FibOk(v) && v.tfib == [10]
      && HopAdded(v, 11, false).nh == [1, 2, 3, 4, 5, 6, 7, 8, 9, 11] && HopAdded(v, 11, false).tfib == [11]
  {
    assert [10] + [] == [10];
    assert [10][0 := 11] == [11];
  }

  /** Position of `f` in `s`, its length if absent. */
  function Find(s: seq<FaceId>, f: FaceId): (k: nat)
    ensures k <= |s| && (k < |s| ==> s[k] == f) && (f in s <==> k < |s|)
    ensures forall j :: 0 <= j < k ==> s[j] != f
  {
    if s == [] || s[0] == f then 0 else 1 + Find(s[1..], f)
  }

  lemma FindIs(s: seq<FaceId>, f: FaceId, k: nat)
    requires k < |s| && s[k] == f && f !in s[..k]
    ensures Find(s, f) == k
  {
    assert forall j :: 0 <= j < k ==> s[j] in s[..k];
  }

  /** hicn_strategy_dpo_ctx_del_nh: the last next hop takes the place of the deleted one. */
  function SwapDel(s: seq<FaceId>, f: FaceId): (r: seq<FaceId>) {
    if f !in s then s else s[Find(s, f) := s[|s| - 1]][..|s| - 1]
  }

  lemma SwapAt(s: seq<FaceId>, k: nat)
    requires k < |s|
    ensures multiset(s[k := s[|s| - 1]][..|s| - 1]) == multiset(s) - multiset{s[k]}
  {
    var n := |s| - 1;
    if k == n {
      assert s == s[..n] + [s[n]];
      assert s[k := s[n]] == s;
    } else {
      assert s == s[..k] + [s[k]] + s[k + 1..n] + [s[n]];
      assert s[k := s[n]][..n] == s[..k] + [s[n]] + s[k + 1..n];
    }
  }

  lemma SwapAtDistinct(s: seq<FaceId>, k: nat)
    requires k < |s| && Distinct(s)
    ensures var r := s[k := s[|s| - 1]][..|s| - 1]; Distinct(r) && forall x :: x in r <==> x in s && x != s[k]
  {
    var n := |s| - 1;
    var r := s[k := s[n]][..n];
    forall x
      ensures x in r <==> x in s && x != s[k]
    {
      if x in s && x != s[k] {
        var j :| 0 <= j < |s| && s[j] == x;
        assert r[if j == n then k else j] == x;
      }
    }
  }

  /** Deleting a next hop removes one occurrence of the face, wherever it stands. */
  lemma SwapDelIsRemoval(s: seq<FaceId>, f: FaceId)
    ensures multiset(SwapDel(s, f)) == multiset(s) - multiset{f}
    ensures Distinct(s) ==> Distinct(SwapDel(s, f)) && Elements(SwapDel(s, f)) == Elements(s) - {f}
  {
    if f in s {
      SwapAt(s, Find(s, f));
      if Distinct(s) { SwapAtDistinct(s, Find(s, f)); }
    }
  }

  lemma HopCut(nh: seq<FaceId>, f: FaceId, locks: multiset<FaceId>)
    requires f in nh && multiset(nh) <= locks
    ensures SwapDel(nh, f) == nh[Find(nh, f) := nh[|nh| - 1]][..|nh| - 1]
    ensures locks - multiset{f} + multiset(nh) == locks + multiset(SwapDel(nh, f))
  {
    SwapAt(nh, Find(nh, f));
    OneLockLess(locks, nh, SwapDel(nh, f), f);
  }

  lemma CutAt(t: seq<FaceId>, k: nat)
    requires Distinct(t) && k < |t|
    ensures var r := Cut(t, k);
      r == Without(t, t[k]) && Distinct(r) && |r| == |t| - 1 && multiset(t) == multiset(r) + multiset{t[k]}
  {
    WithoutAt(t, k);
    WithoutDistinct(t, t[k]);
    assert t == t[..k] + [t[k]] + t[k + 1..];
  }

  /** The entry and the locks when previous hop `k` goes. */
  lemma PrevCut(v: Fib, k: nat, locks: multiset<FaceId>)
    requires FibOk(v) && k < |v.tfib| && multiset(v.tfib) <= locks
    ensures var w := v.(tfib := Cut(v.tfib, k));
      && w == DelPrev(v, v.tfib[k]) && FibOk(w)
      && locks - multiset{v.tfib[k]} + multiset(v.tfib) == locks + multiset(w.tfib)
  {
    CutAt(v.tfib, k);
    OneLockLess(locks, v.tfib, Cut(v.tfib, k), v.tfib[k]);
  }

  /** The slots after the entries `start..pos` have moved up over slot `pos`. */
  lemma GapClosed(a: seq<FaceId>, b: seq<FaceId>, start: nat, pos: nat)
    requires |a| == |b| && start <= pos < |a|
    requires forall j :: start < j <= pos ==> b[j] == a[j - 1]
    requires forall j :: 0 <= j < |a| && (j < start || pos < j) ==> b[j] == a[j]
    ensures b[start + 1..] == Cut(a[start..], pos - start)
    ensures b[..start] == a[..start]
  {
    var l, r := b[start + 1..], Cut(a[start..], pos - start);
    forall j | 0 <= j < |l|
      ensures l[j] == r[j]
    {
    }
  }

  lemma LessLess(a: multiset<FaceId>, b: multiset<FaceId>, c: multiset<FaceId>)
    ensures a - b - c == a - (b + c)
  {}

  /** Releasing one more of the distinct faces of a list deletes it if its lock was the only one. */
  lemma LoneMore(s: seq<FaceId>, start: nat, pos: nat, locks0: multiset<FaceId>, locks: multiset<FaceId>)
    requires start <= pos < |s| && Distinct(s[start..]) && locks == locks0 - multiset(s[start..pos])
    ensures Lone(s[start..pos], locks0) + Lone([s[pos]], locks) == Lone(s[start..pos + 1], locks0)
  {
    var x := s[pos];
    forall j | start <= j < pos ensures s[j] != x {
      assert s[start..][j - start] == s[j] && s[start..][pos - start] == x;
    }
    assert x !in s[start..pos];
    assert multiset(s[start..pos])[x] == 0;
    assert s[start..pos + 1] == s[start..pos] + [x];
  }

  /** The slots from `start` to `pos` have been released: what is left of slots and locks, and the faces deleted. */
  ghost predicate Releasing(
    before: seq<FaceId>, start: nat, now: seq<FaceId>, pos: nat,
    locks0: multiset<FaceId>, locks: multiset<FaceId>, gone0: set<FaceId>, gone: set<FaceId>)
  {
    && |before| == |now| && start <= pos <= |now|
    && now[..start] == before[..start] && now[pos..] == before[pos..]
    && locks == locks0 - multiset(before[start..pos])
    && gone == gone0 + Lone(before[start..pos], locks0)
  }

  lemma ReleaseStep(
    before: seq<FaceId>, start: nat, now: seq<FaceId>, pos: nat,
    locks0: multiset<FaceId>, locks: multiset<FaceId>, gone0: set<FaceId>, gone: set<FaceId>)
    requires Releasing(before, start, now, pos, locks0, locks, gone0, gone) && pos < |now| && Distinct(before[start..])
    ensures Releasing(before, start, now[pos := INVALID], pos + 1,
      locks0, locks - multiset{now[pos]}, gone0, gone + Lone([now[pos]], locks))
  {
    assert now[pos] == now[pos..][0] == before[pos..][0] == before[pos];
    assert now[pos := INVALID][pos + 1..] == now[pos..][1..] == before[pos..][1..] == before[pos + 1..];
    assert before[start..pos + 1] == before[start..pos] + [before[pos]];
    LessLess(locks0, multiset(before[start..pos]), multiset{before[pos]});
    LoneMore(before, start, pos, locks0, locks);
  }

  lemma OneLockLess(locks: multiset<FaceId>, s: seq<FaceId>, r: seq<FaceId>, f: FaceId)
    requires f in s && multiset(s) <= locks && multiset(r) == multiset(s) - multiset{f}
    ensures locks - multiset{f} + multiset(s) == locks + multiset(r)
  {
    assert f in multiset(s);
  }

  /** The faces of the list that have no lock but one. */
  ghost function Lone(s: seq<FaceId>, locks: multiset<FaceId>): (r: set<FaceId>) {
    set x | x in s && locks[x] == 1
  }

  /** The face table, as far as the FIB uses it: the locks on each face, and the faces that were deleted. */
  class FaceTable {
    var locks: multiset<FaceId>
    var gone: set<FaceId>

    /** hicn_face_lock_with_id */
    method Lock(f: FaceId)
      modifies `locks
      ensures locks == old(locks) + multiset{f}
    {
      locks := locks + multiset{f};
    }

    /** hicn_face_unlock_with_id: nothing happens to a face without locks; at zero hicn_face_del deletes the face. */
    method Unlock(f: FaceId)
      modifies `locks, `gone
      ensures locks == old(locks) - multiset{f}
      ensures gone == old(gone) + Lone([f], old(locks))
    {
      if f in locks {
        locks := locks - multiset{f};
        if f !in locks { gone := gone + {f}; }
      }
    }
  }

  class FibEntry {
    const slots: array<FaceId>
    var entryCount: nat
    var tfibCount: nat
    var seqno: nat

    ghost predicate Shape()
      reads this
    {
      slots.Length == NHOPS_MAX && entryCount <= NHOPS_MAX && tfibCount <= NHOPS_MAX
    }

    ghost function View(): Fib
      requires Shape()
      reads this, slots
    {
      Fib(slots[..entryCount], slots[NHOPS_MAX - tfibCount..], seqno)
    }

    ghost predicate Valid()
      reads this, slots
    {
      Shape() && FibOk(View())
    }

    /** init_dpo_ctx: no lock is taken; hops beyond the tenth are ignored. */
    constructor (hops: seq<FaceId>)
      ensures Shape() && fresh(slots)
      ensures View() == Fib(hops[..if |hops| <= NHOPS_MAX then |hops| else NHOPS_MAX], [], 0)
      ensures forall k :: entryCount <= k < NHOPS_MAX ==> slots[k] == INVALID
    {
      var a := new FaceId[NHOPS_MAX];
      var i := 0;
      while i < NHOPS_MAX && i < |hops|
        invariant 0 <= i <= NHOPS_MAX && i <= |hops|
        invariant a[..i] == hops[..i]
      {
        a[i] := hops[i];
        i := i + 1;
      }
      var n := i;
      while i < NHOPS_MAX
        invariant n <= i <= NHOPS_MAX
        invariant a[..n] == hops[..n]
        invariant forall k :: n <= k < i ==> a[k] == INVALID
      {
        a[i] := INVALID;
        i := i + 1;
      }
      slots := a;
      entryCount, tfibCount, seqno := n, 0, 0;
    }

    /** hicn_mapme_tfib_has */
    method TfibHas(f: FaceId) returns (b: bool)
      requires Shape()
      ensures b <==> f in View().tfib
    {
      var k := NHOPS_MAX - tfibCount;
      while k < NHOPS_MAX
        invariant NHOPS_MAX - tfibCount <= k <= NHOPS_MAX
        invariant f !in slots[NHOPS_MAX - tfibCount..k]
      {
        if slots[k] == f { return true; }
        k := k + 1;
      }
      return false;
    }

    /** hicn_mapme_nh_has */
    method NhHas(f: FaceId) returns (b: bool)
      requires Shape()
      ensures b <==> f in View().nh
    {
      for k := 0 to entryCount
        invariant f !in slots[..k]
      {
        if slots[k] == f { return true; }
      }
      return false;
    }

    /** hicn_mapme_tfib_add */
    method TfibAdd(f: FaceId, local: bool, faces: FaceTable) returns (ok: bool)
      requires Valid()
      modifies `tfibCount, slots, faces`locks
      ensures Valid() && View() == AddPrev(old(View()), f, local)
      ensures ok <==> f in old(View()).tfib || local || Room(old(View()))
      ensures faces.locks + multiset(old(View()).tfib) == old(faces.locks) + multiset(View().tfib)
    {
      var has := TfibHas(f);
      if has || local { return true; }
      var pos := NHOPS_MAX - tfibCount;
      if pos <= entryCount { return false; }
      ghost var v := View();
      slots[pos - 1] := f;
      tfibCount := tfibCount + 1;
      assert View().tfib == [f] + v.tfib;
      assert View().nh == v.nh;
      faces.Lock(f);
      ok := true;
    }

    /** The scan of hicn_mapme_tfib_del. */
    method FindPrev(f: FaceId) returns (pos: nat)
      requires Shape()
      ensures NHOPS_MAX - tfibCount <= pos <= NHOPS_MAX
      ensures pos < NHOPS_MAX ==> View().tfib[pos - (NHOPS_MAX - tfibCount)] == f
      ensures pos == NHOPS_MAX ==> f !in View().tfib
    {
      var start := NHOPS_MAX - tfibCount;
      pos := start;
      while pos < NHOPS_MAX && slots[pos] != f
        invariant start <= pos <= NHOPS_MAX
        invariant f !in slots[start..pos]
      {
        pos := pos + 1;
      }
    }

    /** hicn_mapme_tfib_del */
    method TfibDel(f: FaceId, faces: FaceTable) returns (ok: bool)
      requires Valid() && multiset(View().tfib) <= faces.locks
      modifies `tfibCount, slots, faces
      ensures Valid() && View() == DelPrev(old(View()), f)
      ensures ok <==> f in old(View()).tfib
      ensures faces.locks + multiset(old(View()).tfib) == old(faces.locks) + multiset(View().tfib)
      ensures faces.gone == old(faces.gone) + if ok then Lone([f], old(faces.locks)) else {}
    {
      var pos := FindPrev(f);
      ok := pos < NHOPS_MAX;
      if ok {
        var start := NHOPS_MAX - tfibCount;
        ghost var v, locks := View(), faces.locks;
        PrevCut(v, pos - start, locks);
        ReleasePrev(start, pos, f, faces);
      }
    }

    /** The previous hop in slot `pos` gives up its lock and its slot. */
    method ReleasePrev(start: nat, pos: nat, f: FaceId, faces: FaceTable)
      requires Shape() && start == NHOPS_MAX - tfibCount && entryCount <= start <= pos < NHOPS_MAX
      modifies `tfibCount, slots, faces
      ensures Shape() && View() == old(View()).(tfib := Cut(old(View()).tfib, pos - start))
      ensures faces.locks == old(faces.locks) - multiset{f} && faces.gone == old(faces.gone) + Lone([f], old(faces.locks))
    {
      faces.Unlock(f);
      CloseGap(start, pos);
    }

    /** The rest of hicn_mapme_tfib_del: slot `pos` is dropped and the entries before it move up by one. */
    method CloseGap(start: nat, pos: nat)
      requires Shape() && start == NHOPS_MAX - tfibCount && entryCount <= start <= pos < NHOPS_MAX
      modifies `tfibCount, slots
      ensures Shape() && View() == old(View()).(tfib := Cut(old(View()).tfib, pos - start))
    {
      ghost var before := slots[..];
      ShiftUp(start, pos);
      tfibCount := tfibCount - 1;
      GapClosed(before, slots[..], start, pos);
      assert slots[..entryCount] == slots[..][..start][..entryCount] == before[..start][..entryCount];
    }

    /** The memmove. */
    method ShiftUp(start: nat, pos: nat)
      requires slots.Length == NHOPS_MAX && start <= pos < NHOPS_MAX
      modifies slots
      ensures forall j :: start < j <= pos ==> slots[..][j] == old(slots[..])[j - 1]
      ensures forall j :: 0 <= j < NHOPS_MAX && (j < start || pos < j) ==> slots[..][j] == old(slots[..])[j]
    {
      slots[pos] := INVALID;
      if pos > start {
        forall j | start < j <= pos { slots[j] := slots[j - 1]; }
      }
    }

    /** The loop of hicn_mapme_tfib_clear, and its body. */
    method ReleaseFrom(start: nat, faces: FaceTable, ghost before: seq<FaceId>)
      requires slots.Length == NHOPS_MAX && start <= NHOPS_MAX && slots[..] == before && Distinct(before[start..])
      modifies slots, faces
      ensures Releasing(before, start, slots[..], NHOPS_MAX, old(faces.locks), faces.locks, old(faces.gone), faces.gone)
    {
      ghost var locks0, gone0 := faces.locks, faces.gone;
      assert before[start..start] == [];
      for pos := start to NHOPS_MAX
        invariant Releasing(before, start, slots[..], pos, locks0, faces.locks, gone0, faces.gone)
      {
        ReleaseOne(pos, faces, before, start, locks0, gone0);
      }
    }

    method ReleaseOne(pos: nat, faces: FaceTable,
        ghost before: seq<FaceId>, ghost start: nat, ghost locks0: multiset<FaceId>, ghost gone0: set<FaceId>)
      requires slots.Length == NHOPS_MAX && pos < NHOPS_MAX && start <= |before| && Distinct(before[start..])
      requires Releasing(before, start, slots[..], pos, locks0, faces.locks, gone0, faces.gone)
      modifies slots, faces
      ensures Releasing(before, start, slots[..], pos + 1, locks0, faces.locks, gone0, faces.gone)
    {
      ghost var now := slots[..];
      ReleaseStep(before, start, now, pos, locks0, faces.locks, gone0, faces.gone);
      faces.Unlock(slots[pos]);
      slots[pos] := INVALID;
      assert slots[..] == now[pos := INVALID];
    }

    /** hicn_mapme_tfib_clear */
    method TfibClear(faces: FaceTable)
      requires Valid()
      modifies `tfibCount, slots, faces
      ensures Valid() && View() == old(View()).(tfib := [])
      ensures faces.locks == old(faces.locks) - multiset(old(View()).tfib)
      ensures faces.gone == old(faces.gone) + Lone(old(View()).tfib, old(faces.locks))
    {
      var start := NHOPS_MAX - tfibCount;
      ghost var before := slots[..];
      assert before[start..NHOPS_MAX] == View().tfib;
      ReleaseFrom(start, faces, before);
      tfibCount := 0;
      assert slots[..entryCount] == slots[..][..start][..entryCount] == before[..entryCount];
    }

    /** hicn_strategy_dpo_ctx_add_nh; `deleted` tells whether the face is marked deleted. */
    method AddNh(f: FaceId, deleted: bool, faces: FaceTable) returns (added: bool)
      requires Shape() && entryCount + tfibCount <= NHOPS_MAX
      requires entryCount < NHOPS_MAX || (f in View().nh && !deleted)
      modifies `entryCount, slots, faces`locks
      ensures Shape() && View() == HopAdded(old(View()), f, deleted)
      ensures added <==> deleted || f !in old(View()).nh
      ensures faces.locks + multiset(old(View()).nh) == old(faces.locks) + multiset(View().nh)
    {
      var has := NhHas(f);
      if has && !deleted { return false; }
      ghost var nh := View().nh;
      PutHop(f);
      faces.Lock(f);
      added := true;
      assert View().nh == nh + [f];
    }

    /** Its writes: the slot after the last hop, whoever uses it. */
    method PutHop(f: FaceId)
      requires Shape() && entryCount + tfibCount <= NHOPS_MAX && entryCount < NHOPS_MAX
      modifies `entryCount, slots
      ensures Shape()
      ensures var v := old(View());
        View() == v.(nh := v.nh + [f], tfib := if Room(v) then v.tfib else v.tfib[0 := f])
    {
      slots[entryCount] := f;
      entryCount := entryCount + 1;
    }

    /** The scan of hicn_strategy_dpo_ctx_del_nh. */
    method FindHop(f: FaceId) returns (i: nat)
      requires Shape()
      ensures i == Find(View().nh, f)
    {
      i := 0;
      while i < entryCount && slots[i] != f
        invariant 0 <= i <= entryCount && f !in slots[..i]
      {
        i := i + 1;
      }
      if i < entryCount { FindIs(View().nh, f, i); }
    }

    /** Its writes: the last hop moves into slot `i`. */
    method DropHop(i: nat)
      requires Shape() && entryCount + tfibCount <= NHOPS_MAX && i < entryCount
      modifies `entryCount, slots
      ensures Shape()
      ensures var v := old(View()); View() == v.(nh := v.nh[i := v.nh[|v.nh| - 1]][..|v.nh| - 1])
    {
      entryCount := entryCount - 1;
      slots[i] := slots[entryCount];
      slots[entryCount] := INVALID;
    }

    /** hicn_strategy_dpo_ctx_del_nh */
    method DelNh(f: FaceId, faces: FaceTable) returns (ok: bool)
      requires Shape() && entryCount + tfibCount <= NHOPS_MAX && multiset(View().nh) <= faces.locks
      modifies `entryCount, slots, faces
      ensures Shape() && View() == old(View()).(nh := SwapDel(old(View()).nh, f))
      ensures ok <==> f in old(View()).nh
      ensures faces.locks + multiset(old(View()).nh) == old(faces.locks) + multiset(View().nh)
      ensures faces.gone == old(faces.gone) + if ok then Lone([f], old(faces.locks)) else {}
    {
      var i := FindHop(f);
      ok := i < entryCount;
      if ok {
        HopCut(View().nh, f, faces.locks);
        ReleaseHop(i, f, faces);
      }
    }

    /** The hop in slot `i` gives up its lock and its slot. */
    method ReleaseHop(i: nat, f: FaceId, faces: FaceTable)
      requires Shape() && entryCount + tfibCount <= NHOPS_MAX && i < entryCount && f in faces.locks
      modifies `entryCount, slots, faces
      ensures Shape()
      ensures var v := old(View()); View() == v.(nh := v.nh[i := v.nh[|v.nh| - 1]][..|v.nh| - 1])
      ensures faces.locks == old(faces.locks) - multiset{f} && faces.gone == old(faces.gone) + Lone([f], old(faces.locks))
    {
      faces.Unlock(f);
      DropHop(i);
    }
  }
}
