/**
 The combined PIT and Content Store (pcs.h, pcs.c) with its LRU policy
 (cache_policies/cs_lru.c): a hash table from names to pool indices, a pool of
 entries, four counters and a doubly linked chain through the CS entries.
 */
module PitCs {
  import opened Seqs
  import opened PcsModel

  /** HICN_CS_POLICY_END_OF_CHAIN */
  const END: nat := 0xFFFF_FFFF

  /** The LRU links of a CS entry, as pool indices. */
  datatype Link = Link(prev: nat, next: nat)

  ghost function Before(s: seq<nat>, k: nat): nat
    requires k < |s|
  {
    if k == 0 then END else s[k - 1]
  }

  ghost function After(s: seq<nat>, k: nat): nat
    requires k < |s|
  {
    if k == |s| - 1 then END else s[k + 1]
  }

  ghost predicate LinkedAt(links: map<nat, Link>, s: seq<nat>, k: nat)
    requires k < |s|
  {
    s[k] in links && links[s[k]] == Link(Before(s, k), After(s, k))
  }

  /** The links of the entries of `s` lead from each to its neighbours in `s`. */
  ghost predicate Linked(links: map<nat, Link>, s: seq<nat>) {
    Distinct(s) && END !in s && forall k :: 0 <= k < |s| ==> LinkedAt(links, s, k)
  }

  /** The links after `i` is put in front of the chain `s`. */
  ghost function Linking(links: map<nat, Link>, s: seq<nat>, i: nat): map<nat, Link>
    requires s != [] ==> s[0] in links
  {
    if s == [] then links[i := Link(END, END)]
    else links[s[0] := links[s[0]].(prev := i)][i := Link(END, s[0])]
  }

  /** The links after the writes that take `i` out of its chain. */
  ghost function Unlinked(links: map<nat, Link>, i: nat): map<nat, Link>
    requires i in links
    requires links[i].prev != END ==> links[i].prev in links
    requires links[i].next != END ==> links[i].next in links
  {
    var e := links[i];
    var p1 := if e.prev != END then links[e.prev := links[e.prev].(next := e.next)] else links;
    var p2 := if e.next != END then p1[e.next := p1[e.next].(prev := e.prev)] else p1;
    p2[i := Link(END, END)]
  }

  lemma LinkKeepsLinks(links: map<nat, Link>, s: seq<nat>, i: nat)
    requires Linked(links, s) && i !in s && i != END
    ensures s != [] ==> LinkedAt(links, s, 0)
    ensures Linked(Linking(links, s, i), [i] + s)
  {
    assert s != [] ==> LinkedAt(links, s, 0);
    var t := [i] + s;
    var q := Linking(links, s, i);
    forall j | 0 <= j < |t|
      ensures LinkedAt(q, t, j)
    {
      if j > 0 { assert t[j] == s[j - 1] && LinkedAt(links, s, j - 1); }
    }
  }

  lemma UnlinkKeepsLinks(links: map<nat, Link>, s: seq<nat>, k: nat)
    requires Linked(links, s) && k < |s|
    ensures LinkedAt(links, s, k)
    ensures k > 0 ==> LinkedAt(links, s, k - 1)
    ensures k < |s| - 1 ==> LinkedAt(links, s, k + 1)
    ensures Linked(Unlinked(links, s[k]), Cut(s, k))
  {
    assert LinkedAt(links, s, k);
    assert k > 0 ==> LinkedAt(links, s, k - 1);
    assert k < |s| - 1 ==> LinkedAt(links, s, k + 1);
    var t := Cut(s, k);
    var q := Unlinked(links, s[k]);
    forall j | 0 <= j < |t|
      ensures LinkedAt(q, t, j)
    {
      var j0 := if j < k then j else j + 1;
      assert t[j] == s[j0] && LinkedAt(links, s, j0);
    }
  }

  /** The four counters: PIT entries, CS entries, and allocations less releases are the pool. */
  ghost predicate Counted(m: Pcs, pit: nat, cs: nat, alloc: nat, dealloc: nat) {
    END !in m.pool && Indexed(m) && pit == |PitNames(m)| && cs == |m.lru| && alloc == dealloc + |m.pool|
  }

  /** The counters that belong to `v` without entry `i`, given those of `v`. */
  ghost predicate Deletable(v: Pcs, i: nat, pit: nat, cs: nat, alloc: nat, dealloc: nat)
    requires i in v.pool
  {
    && (v.pool[i].Cached? <==> i in v.lru) && cs == |v.lru| && v.pool[i].locks > 0
    && Remove(v.(pool := v.pool[i := Released(v.pool[i])]), i) == Remove(v, i) && Inv(Remove(v, i))
    && if v.pool[i].Pending? then pit > 0 && Counted(Remove(v, i), pit - 1, cs, alloc, dealloc + 1)
       else cs > 0 && Counted(Remove(v, i), pit, cs - 1, alloc, dealloc + 1)
  }

  /** What deleting an entry after its last lock was released amounts to. */
  lemma RemoveReleased(v: Pcs, i: nat, pit: nat, cs: nat, alloc: nat, dealloc: nat)
    requires Inv(v) && Inserted(v, i) && Counted(v, pit, cs, alloc, dealloc)
    ensures Deletable(v, i, pit, cs, alloc, dealloc)
  {
    RemoveInv(v, i);
    RemoveChained(v, i);
    assert (v.pool - {i}).Keys == v.pool.Keys - {i};
    assert v.pool[i := Released(v.pool[i])] - {i} == v.pool - {i};
  }

  class PitCs {
    var table: map<Name, nat>
    var pool: map<nat, Item>
    /** The cs_lru_prev and cs_lru_next fields of the pool elements. */
    var links: map<nat, Link>
    var pitCount: nat
    var csCount: nat
    /** Unbounded here; the source keeps both modulo 2^32, and so their difference too. */
    var alloc: nat
    var dealloc: nat
    // hicn_cs_policy_t
    var max: nat
    var count: nat
    var head: nat
    var tail: nat
    /** The chain from head to tail, as pool indices. */
    ghost var lru: seq<nat>

    ghost function View(): Pcs
      reads this
    {
      Pcs(table, pool, lru, max)
    }

    /** The links of the chain entries spell `lru`; head, tail and count describe its ends and length. */
    ghost predicate LinksOk()
      reads `links, `lru, `head, `tail, `count
    {
      && Linked(links, lru)
      && head == (if lru == [] then END else lru[0])
      && tail == (if lru == [] then END else lru[|lru| - 1])
      && count == |lru|
    }

    ghost predicate CountersOk()
      reads this
    {
      Counted(View(), pitCount, csCount, alloc, dealloc)
    }

    /** The representation invariant that every operation keeps. */
    ghost predicate Valid()
      reads this
    {
      LinksOk() && Inv(View()) && CountersOk()
    }

    // ---- cs_lru.c ----

    /** hicn_cs_lru_insert */
    method LruInsert(i: nat)
      requires LinksOk() && i !in lru && i != END
      modifies `links, `head, `tail, `count, `lru
      ensures LinksOk() && lru == [i] + old(lru)
    {
      LinkKeepsLinks(links, lru, i);
      if head != END {
        links := links[head := links[head].(prev := i)];
        links := links[i := Link(END, head)];
        head := i;
      } else {
        head := i;
        tail := i;
        links := links[i := Link(END, END)];
      }
      count := count + 1;
      lru := [i] + lru;
    }

    /** The writes of hicn_cs_lru_dequeue. */
    method Unlink(i: nat)
      requires i in links && count > 0
      requires links[i].prev != END ==> links[i].prev in links
      requires links[i].next != END ==> links[i].next in links
      modifies `links, `head, `tail, `count
      ensures links == Unlinked(old(links), i) && count == old(count) - 1
      ensures head == if old(links[i]).prev == END then old(links[i]).next else old(head)
      ensures tail == if old(links[i]).next == END then old(links[i]).prev else old(tail)
    {
      var e := links[i];
      if e.prev != END {
        links := links[e.prev := links[e.prev].(next := e.next)];
      } else {
        head := e.next;
      }
      if e.next != END {
        links := links[e.next := links[e.next].(prev := e.prev)];
      } else {
        tail := e.prev;
      }
      links := links[i := Link(END, END)];
      count := count - 1;
    }

    /** hicn_cs_lru_dequeue */
    method LruDequeue(i: nat)
      requires LinksOk() && i in lru
      modifies `links, `head, `tail, `count, `lru
      ensures LinksOk() && lru == Without(old(lru), i) && count == old(count) - 1
      ensures i in links && links[i] == Link(END, END)
    {
      ghost var k :| 0 <= k < |lru| && lru[k] == i;
      WithoutAt(lru, k);
      UnlinkKeepsLinks(links, lru, k);
      Unlink(i);
      lru := Cut(lru, k);
    }

    /** hicn_cs_lru_update_head */
    method LruUpdateHead(i: nat)
      requires LinksOk() && i in lru
      modifies `links, `head, `tail, `count, `lru
      ensures LinksOk() && lru == [i] + Without(old(lru), i) && count == old(count)
    {
      ghost var k :| 0 <= k < |lru| && lru[k] == i;
      WithoutAt(lru, k);
      assert LinkedAt(links, lru, k);
      if links[i].prev != END {
        LruDequeue(i);
        LruInsert(i);
      }
    }

    // ---- pcs.h, pcs.c ----

    /** hicn_pit_create */
    constructor (maxCs: nat)
      ensures Valid() && View() == Empty(maxCs)
    {
      table, pool, links := map[], map[], map[];
      pitCount, csCount, alloc, dealloc := 0, 0, 0, 0;
      max, count, head, tail := maxCs, 0, END, END;
      lru := [];
    }

    /** _hicn_pcs_entry_get and hicn_pcs_entry_init_data; `i` is the index the pool hands out. */
    method Allocate(i: nat, item: Item)
      requires Valid() && i !in pool && i < END && item.locks == 1
      modifies `pool, `alloc
      ensures Valid() && Loose(View(), i) && View() == Alloc(old(View()), i, item)
    {
      AllocInv(View(), i, item);
      pool := pool[i := item];
      alloc := alloc + 1;
    }

    /** hicn_pcs_entry_pit_get; `leftover` is the name still stored in the recycled element. */
    method EntryPitGet(i: nat, leftover: Name, tnow: real, lifetimeMs: nat)
      requires Valid() && i !in pool && i < END
      modifies `pool, `alloc
      ensures Valid() && Loose(View(), i)
      ensures View() == Alloc(old(View()), i, Pending(leftover, 1, ExpTime(tnow, lifetimeMs), []))
    {
      Allocate(i, Pending(leftover, 1, ExpTime(tnow, lifetimeMs), []));
    }

    /** hicn_pcs_entry_cs_get; the buffer argument is not stored, so buffer and expiry stay as recycled. */
    method EntryCsGet(i: nat, leftover: Name, leftExpire: real, leftBuf: nat)
      requires Valid() && i !in pool && i < END
      modifies `pool, `alloc
      ensures Valid() && Loose(View(), i)
      ensures View() == Alloc(old(View()), i, Cached(leftover, 1, leftExpire, leftBuf))
    {
      Allocate(i, Cached(leftover, 1, leftExpire, leftBuf));
    }

    /** hicn_pcs_lookup_one: a CS hit moves the entry to the head of the chain. */
    method LookupOne(n: Name) returns (r: Option<nat>)
      requires Valid()
      modifies `links, `head, `tail, `count, `lru
      ensures Valid() && View() == Lookup(old(View()), n)
      ensures r == if n in table then Some(table[n]) else None
    {
      if n !in table { return None; }
      var i := table[n];
      if pool[i].Cached? {
        TouchInv(View(), i);
        LruUpdateHead(i);
      }
      return Some(i);
    }

    /** hicn_pcs_pit_insert over hicn_pcs_insert */
    method PitInsert(i: nat, n: Name)
      requires Valid() && Loose(View(), i) && pool[i].Pending? && n !in table
      modifies `table, `pool, `pitCount
      ensures Valid() && View() == Insert(old(View()), i, n)
    {
      PitInsertInv(View(), i, n);
      pool := pool[i := Named(pool[i], n)];
      table := table[n := i];
      pitCount := pitCount + 1;
    }

    /** hicn_pcs_delete_internal, on an entry whose last lock is gone. */
    method DeleteInternal(i: nat)
      requires LinksOk() && i in pool
      requires pool[i].Cached? <==> i in lru
      requires csCount == count && (pool[i].Pending? ==> pitCount > 0)
      modifies `table, `pool, `links, `pitCount, `csCount, `dealloc, `count, `head, `tail, `lru
      ensures LinksOk() && csCount == count
      ensures View() == Remove(old(View()), i)
      ensures pitCount == old(pitCount) - (if old(pool[i]).Pending? then 1 else 0)
      ensures dealloc == old(dealloc) + 1
    {
      if pool[i].Cached? {
        LruDequeue(i);
        csCount := csCount - 1;
        assert links[i].prev == END && links[i].prev == links[i].next;  // the source's sanity check
      } else {
        pitCount := pitCount - 1;
      }
      Free(i);
    }

    /** Hash table removal and hicn_pcs_entry_put. */
    method Free(i: nat)
      requires i in pool
      modifies `table, `pool, `dealloc
      ensures table == old(table) - {old(pool[i].name)} && pool == old(pool) - {i}
      ensures dealloc == old(dealloc) + 1
    {
      table := table - {pool[i].name};
      pool := pool - {i};
      dealloc := dealloc + 1;
    }

    /** In-place change of an inserted entry: its lock count, expiry, buffer or face list. */
    method Update(i: nat, item: Item)
      requires Valid() && Inserted(View(), i)
      requires item.name == pool[i].name && item.Pending? == pool[i].Pending? && item.locks > 0
      modifies `pool
      ensures Valid() && View() == old(View()).(pool := old(View()).pool[i := item])
    {
      UpdateInv(View(), i, item);
      pool := pool[i := item];
    }

    /** Release of the last lock: the entry goes away. */
    method RemoveLastLock(i: nat)
      requires Valid() && Inserted(View(), i) && pool[i].locks == 1
      modifies `table, `pool, `links, `pitCount, `csCount, `dealloc, `count, `head, `tail, `lru
      ensures Valid() && View() == Remove(old(View()), i)
    {
      ghost var v := View();
      RemoveReleased(v, i, pitCount, csCount, alloc, dealloc);
      pool := pool[i := Released(pool[i])];
      DeleteReleased(i, v);
    }

    /** hicn_pcs_delete_internal on the entry that was `v.pool[i]` before its last lock went. */
    method DeleteReleased(i: nat, ghost v: Pcs)
      requires LinksOk() && i in v.pool && Deletable(v, i, pitCount, csCount, alloc, dealloc)
      requires View() == v.(pool := v.pool[i := Released(v.pool[i])])
      modifies `table, `pool, `links, `pitCount, `csCount, `dealloc, `count, `head, `tail, `lru
      ensures Valid() && View() == Remove(v, i)
    {
      DeleteInternal(i);
    }

    /** hicn_pcs_entry_remove_lock */
    method RemoveLock(i: nat)
      requires Valid() && Inserted(View(), i)
      modifies this
      ensures Valid() && View() == Unlock(old(View()), i)
    {
      if pool[i].locks == 1 {
        RemoveLastLock(i);
      } else {
        Update(i, Released(pool[i]));
      }
    }

    /** hicn_pcs_cs_insert_lru: the tail of the chain is evicted when the chain has outgrown `max`. */
    method CsInsertLru(i: nat)
      requires LinksOk() && InvBut(View(), i) && CountersOk()
      modifies this
      ensures Inserted(old(View()), Victim(old(View()), i)) && old(View()).pool[Victim(old(View()), i)].locks > 0
      ensures Valid() && View() == InsertLru(old(View()), i)
    {
      ghost var v := View();
      InsertLruInv(v, i);
      ChainedInv(v, i);
      LruInsert(i);
      csCount := csCount + 1;
      assert View() == v.(lru := [i] + v.lru);
      if count > max {
        RemoveLock(tail);
      }
    }

    /** hicn_pcs_cs_insert */
    method CsInsert(i: nat, n: Name)
      requires Valid() && Loose(View(), i) && pool[i].Cached? && n !in table
      modifies this
      ensures Victim(old(View()), i) in old(View()).pool && old(View()).pool[Victim(old(View()), i)].locks > 0
      ensures Valid() && View() == PcsModel.CsInsert(old(View()), i, n)
    {
      CsInsertInv(View(), i, n);
      CsInsertedBut(View(), i, n);
      pool := pool[i := Named(pool[i], n)];
      table := table[n := i];
      CsInsertLru(i);
    }

    /** hicn_pit_to_cs */
    method PitToCs(i: nat, buf: nat)
      requires Valid() && Inserted(View(), i) && pool[i].Pending?
      modifies this
      ensures Inserted(old(View()), Victim(old(View()), i))
      ensures Valid() && View() == ToCs(old(View()), i, buf)
    {
      ToCsInv(View(), i, buf);
      ConvertInvBut(View(), i, buf);
      pitCount := pitCount - 1;
      pool := pool[i := AsCached(pool[i], buf)];
      CsInsertLru(i);
    }

  }
}
