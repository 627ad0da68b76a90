/**
 Packet buffers shared between the Content Store and the packets in flight
 (data_fwd.h, data_fwd_node.c, interest_hitcs_node.c). A clone is a new head of
 128 bytes chained in front of the cached buffer, whose start is moved past
 those bytes; short packets are copied instead.
 */
module Buffers {
  import opened Types
  import opened Seqs

  /** Two cache lines: the head of a clone. A packet is short up to twice that. */
  const HEAD: int := 128
  const SHORT: nat := 256

  class Buffer {
    var data: seq<Byte>
    /** current_data and current_length */
    var start: int
    var len: nat
    /** 8 bits in the source. */
    var refs: nat
    /** HICN_BUFFER_FLAGS_PKT_LESS_TWO_CL */
    var less: bool

    ghost predicate InBounds()
      reads `data, `start, `len
    {
      0 <= start && start + len <= |data|
    }

    ghost predicate Shape()
      reads this
    {
      InBounds() && refs < 256
    }

    ghost function Current(): seq<Byte>
      requires InBounds()
      reads `data, `start, `len
    {
      data[start..start + len]
    }

    /** The buffer keeps packet `p`: as it is if short, its head skipped otherwise. */
    ghost predicate Stores(p: seq<Byte>)
      reads `data, `start, `len, `less
    {
      && InBounds()
      && if less then Current() == p && |p| <= SHORT
         else start >= HEAD && data[start - HEAD..start + len] == p && |p| > SHORT
    }

    constructor (bytes: seq<Byte>, headroom: nat)
      ensures Shape() && Current() == bytes && start == headroom && refs == 1 && !less
    {
      data := seq(headroom, i => 0) + bytes;
      start, len, refs, less := headroom, |bytes|, 1, false;
    }

    /** vlib_buffer_advance */
    method Advance(l: int)
      requires Shape() && 0 <= start + l && l <= len && start + len <= |data|
      modifies `start, `len
      ensures Shape() && start == old(start) + l && len == old(len) - l
    {
      start := start + l;
      len := len - l;
    }
  }

  /** A packet made from a buffer: chained in front of it, or a copy that does not touch it. */
  datatype Clone = OnTop(head: seq<Byte>) | Apart(bytes: seq<Byte>)

  ghost function Read(c: Clone, tail: seq<Byte>): seq<Byte> {
    match c
    case OnTop(head) => head + tail
    case Apart(bytes) => bytes
  }

  ghost function Bytes(c: Clone, b: Buffer): seq<Byte>
    requires b.InBounds()
    reads b`data, b`start, b`len
  {
    Read(c, b.Current())
  }

  /** All of `cs`, in front of `tail`, are packet `p`. */
  ghost predicate AllRead(cs: seq<Clone>, tail: seq<Byte>, p: seq<Byte>) {
    forall k :: 0 <= k < |cs| ==> Read(cs[k], tail) == p
  }

  ghost function Chained(cs: seq<Clone>): (n: nat)
    ensures n <= |cs|
  {
    if cs == [] then 0 else Chained(cs[..|cs| - 1]) + (if cs[|cs| - 1].OnTop? then 1 else 0)
  }

  lemma {:induction false} ChainedAppend(a: seq<Clone>, b: seq<Clone>)
    ensures Chained(a + b) == Chained(a) + Chained(b)
    decreases |b|
  {
    if b == [] {
      assert a + b == a;
    } else {
      ChainedAppend(a, b[..|b| - 1]);
      assert (a + b)[..|a + b| - 1] == a + b[..|b| - 1];
    }
  }

  /** `n` clones of the same kind. */
  method Fill(n: nat, c: Clone) returns (cs: seq<Clone>)
    ensures |cs| == n && (forall k :: 0 <= k < n ==> cs[k] == c)
    ensures Chained(cs) == if c.OnTop? then n else 0
  {
    cs := [];
    for i := 0 to n
      invariant |cs| == i && (forall k :: 0 <= k < i ==> cs[k] == c)
      invariant Chained(cs) == if c.OnTop? then i else 0
    {
      assert (cs + [c])[..i] == cs;
      cs := cs + [c];
    }
  }

  /** vlib_buffer_clone_256_2, all allocations succeeding. */
  method Clone256(s: Buffer, n: nat) returns (cs: seq<Clone>)
    requires s.Shape() && 1 <= n <= 255
    modifies s`start, s`len, s`refs
    ensures s.Shape() && |cs| == n && AllRead(cs, s.Current(), old(s.Current()))
    ensures if old(s.len) <= SHORT then Chained(cs) == 0 && s.start == old(s.start) && s.len == old(s.len) && s.refs == old(s.refs)
            else Chained(cs) == n && s.start == old(s.start) + HEAD && s.len == old(s.len) - HEAD && s.refs == n
  {
    if s.len <= SHORT {
      cs := Fill(n, Apart(s.data[s.start..s.start + s.len]));
    } else {
      ghost var p := s.Current();
      var head := s.data[s.start..s.start + HEAD];
      cs := Fill(n, OnTop(head));
      s.Advance(HEAD);
      s.refs := n;
      assert p == head + s.Current();
    }
  }

  /** Addition on the 8-bit count. */
  function AddCount(a: nat, b: nat): (c: nat)
    ensures c < 256 && (a + b < 256 ==> c == a + b)
  {
    (a + b) % 256
  }

  /** How many of `n` clones an 8-bit count that stands at `refs` can still take. */
  function FromSource(n: nat, refs: nat): (m: nat)
    requires 1 <= refs <= 254
  {
    if n > 255 - refs then 255 - refs else n
  }

  /**
   vlib_buffer_clone2, all allocations succeeding: what the 8-bit count cannot
   hold is cloned from a copy of its own. The count is set aside during the
   cloning and added back; it does not wrap.
   */
  method Clone2(s: Buffer, n: nat) returns (cs: seq<Clone>)
    requires s.Shape() && 1 <= s.refs <= 254 && 1 <= n
    modifies s`start, s`len, s`refs
    ensures s.Shape() && |cs| == n && AllRead(cs, s.Current(), old(s.Current()))
    ensures old(s.len) <= SHORT ==>
      Chained(cs) == 0 && s.start == old(s.start) && s.len == old(s.len) && s.refs == old(s.refs)
    ensures old(s.len) > SHORT ==>
      && Chained(cs) == FromSource(n, old(s.refs)) && s.refs == old(s.refs) - 1 + Chained(cs)
      && s.start == old(s.start) + HEAD && s.len == old(s.len) - HEAD
  {
    var fromSrc := FromSource(n, s.refs);
    var others := Fill(n - fromSrc, Apart(s.data[s.start..s.start + s.len]));
    var saved := s.refs;
    s.refs := 1;
    var own := Clone256(s, fromSrc);
    s.refs := AddCount(s.refs, saved - 1);
    ChainedAppend(others, own);
    cs := others + own;
  }

  /**
   hicn_satisfy_faces: the packet for every face. One reference is added for the
   Content Store; a short packet is marked as not advanced.
   */
  method SatisfyFaces(s: Buffer, faces: nat) returns (cs: seq<Clone>)
    requires s.Shape() && s.refs == 1 && !s.less && 1 <= faces
    modifies s`start, s`len, s`refs, s`less
    ensures s.Shape() && |cs| == faces && AllRead(cs, s.Current(), old(s.Current()))
    ensures s.refs == Chained(cs) + 1 && (s.less <==> old(s.len) <= SHORT)
    ensures s.less ==> s.start == old(s.start) && s.len == old(s.len)
    ensures !s.less ==> s.start == old(s.start) + HEAD && s.len == old(s.len) - HEAD
  {
    if s.len <= SHORT { s.less := true; } else { s.refs := s.refs + 1; }
    cs := Clone2(s, faces);
  }

  /**
   What hicn_data_node_fn does with the buffer: the Content Store keeps it if the
   data has a lifetime, and otherwise only the clones hold it.
   */
  method ForwardData(s: Buffer, faces: nat, lifetime: nat) returns (cs: seq<Clone>)
    requires s.Shape() && s.refs == 1 && !s.less && 1 <= faces
    modifies s
    ensures s.Shape() && |cs| == faces && AllRead(cs, s.Current(), old(s.Current()))
    ensures s.refs == Chained(cs) + if lifetime != 0 then 1 else 0
    ensures s.Stores(old(s.Current()))
  {
    cs := SatisfyFaces(s, faces);
    if lifetime == 0 { s.refs := s.refs - 1; }
  }

  /** clone_from_cs: the reply, and the buffer the Content Store keeps from now on. */
  method CloneFromCs(cs: Buffer, ghost p: seq<Byte>) returns (reply: Clone, ret: Buffer)
    requires cs.Shape() && cs.Stores(p) && 1 <= cs.refs
    modifies cs`start, cs`len, cs`refs
    ensures ret.Shape() && ret.Stores(p) && Bytes(reply, ret) == p && (ret == cs || fresh(ret))
    ensures cs.Shape() && cs.start == old(cs.start) && cs.len == old(cs.len)
    ensures if reply.Apart? then ret == cs && cs.refs == old(cs.refs)
            else if ret == cs then old(cs.refs) < 255 && cs.refs == old(cs.refs) + 1
            else old(cs.refs) == 255 && cs.refs == 254 && ret.refs == 2
  {
    ret := cs;
    if cs.less {
      reply := Apart(cs.data[cs.start..cs.start + cs.len]);
      return;
    }
    cs.Advance(-HEAD);
    if cs.refs == 255 {
      ret := Duplicate(cs);
    }
    reply := Chain(ret, p);
  }

  /** The head of the packet goes to the clone, the rest stays and is referred to once more. */
  method Chain(b: Buffer, ghost p: seq<Byte>) returns (reply: Clone)
    requires b.Shape() && b.Current() == p && |p| > SHORT && b.refs < 255 && !b.less
    modifies b`start, b`len, b`refs
    ensures b.Shape() && b.Stores(p) && reply.OnTop? && Bytes(reply, b) == p && b.refs == old(b.refs) + 1
    ensures b.start == old(b.start) + HEAD && b.len == old(b.len) - HEAD
  {
    var head := b.data[b.start..b.start + HEAD];
    assert p == head + b.data[b.start + HEAD..b.start + b.len];
    b.Advance(HEAD);
    reply := OnTop(head);
    b.refs := AddCount(b.refs, 1);
  }

  /** A buffer whose count is full: the Content Store leaves it for a copy of the whole packet. */
  method Duplicate(cs: Buffer) returns (ret: Buffer)
    requires cs.Shape() && cs.refs == 255 && cs.len >= HEAD && !cs.less
    modifies cs`start, cs`len, cs`refs
    ensures fresh(ret) && ret.Shape() && ret.refs == 1 && !ret.less && ret.Current() == old(cs.Current())
    ensures cs.Shape() && cs.refs == 254 && cs.start == old(cs.start) + HEAD && cs.len == old(cs.len) - HEAD
  {
    ret := new Buffer(cs.data[cs.start..cs.start + cs.len], cs.start);
    cs.Advance(HEAD);
    cs.refs := cs.refs - 1;
  }

  // ---- a cached packet over its life ----

  /** A packet in flight and the buffer it was made from. */
  datatype Answer = Answer(clone: Clone, buf: Buffer) {
    ghost predicate Reads(p: seq<Byte>)
      reads buf`data, buf`start, buf`len
    {
      buf.InBounds() && Bytes(clone, buf) == p
    }

    ghost predicate On(b: Buffer) {
      clone.OnTop? && buf == b
    }
  }

  /** How many of the packets are chained to the buffer. */
  ghost function Holds(out: seq<Answer>, b: Buffer): (n: nat) {
    if out == [] then 0 else Holds(out[..|out| - 1], b) + (if out[|out| - 1].On(b) then 1 else 0)
  }

  lemma HoldsSnoc(out: seq<Answer>, a: Answer, b: Buffer)
    ensures Holds(out + [a], b) == Holds(out, b) + (if a.On(b) then 1 else 0)
  {
    assert (out + [a])[..|out|] == out;
  }

  lemma {:induction false} HoldsNone(out: seq<Answer>, b: Buffer)
    requires forall a :: a in out ==> a.buf != b
    ensures Holds(out, b) == 0
  {
    if out != [] { HoldsNone(out[..|out| - 1], b); }
  }

  lemma {:induction false} HoldsCut(out: seq<Answer>, k: nat, b: Buffer)
    requires k < |out|
    ensures Holds(out, b) == Holds(Cut(out, k), b) + (if out[k].On(b) then 1 else 0)
    decreases |out|
  {
    var n := |out| - 1;
    if k == n {
      assert Cut(out, k) == out[..n];
    } else {
      HoldsCut(out[..n], k, b);
      assert Cut(out, k) == Cut(out[..n], k) + [out[n]];
      HoldsSnoc(Cut(out[..n], k), out[n], b);
    }
  }

  ghost function AnswersOf(cs: seq<Clone>, s: Buffer): (r: seq<Answer>)
    ensures |r| == |cs|
  {
    seq(|cs|, k requires 0 <= k < |cs| => Answer(cs[k], s))
  }

  lemma {:induction false} HoldsOf(cs: seq<Clone>, s: Buffer)
    ensures Holds(AnswersOf(cs, s), s) == Chained(cs)
  {
    if cs != [] {
      HoldsOf(cs[..|cs| - 1], s);
      assert AnswersOf(cs, s)[..|cs| - 1] == AnswersOf(cs[..|cs| - 1], s);
    }
  }

  datatype Op = HitOp | ReleaseOp(k: nat) | EvictOp

  /**
   One data packet from its arrival on: the buffer the Content Store holds, if any,
   and the packets made from it that have not been released.
   */
  class CachedPacket {
    var store: Buffer?
    var out: seq<Answer>
    /** The packet, and all buffers that ever held it. */
    ghost const packet: seq<Byte>
    ghost var bufs: set<Buffer>

    /** The count of every buffer is the packets chained to it, and one if the Content Store holds it. */
    ghost predicate Counted()
      reads this, bufs
    {
      forall b :: b in bufs ==> b.Shape() && b.refs == Holds(out, b) + if b == store then 1 else 0
    }

    /** The Content Store holds the packet, and every packet in flight reads it. */
    ghost predicate Intact()
      reads `store, `out, `bufs, bufs`data, bufs`start, bufs`len, bufs`less
    {
      && (store != null ==> store in bufs && store.Stores(packet))
      && (forall a :: a in out ==> a.buf in bufs && a.Reads(packet))
    }

    ghost predicate Valid()
      reads this, bufs
    {
      Counted() && Intact()
    }

    /** hicn_data_node_fn */
    constructor (s: Buffer, faces: nat, lifetime: nat)
      requires s.Shape() && s.refs == 1 && !s.less && 1 <= faces
      modifies s
      ensures Valid() && packet == old(s.Current()) && |out| == faces
      ensures bufs == {s} && store == if lifetime != 0 then s else null
    {
      packet := s.Current();
      store := if lifetime != 0 then s else null;
      out := [];
      bufs := {s};
      new;
      var cs := ForwardData(s, faces, lifetime);
      out := seq(|cs|, k requires 0 <= k < |cs| => Answer(cs[k], s));
      HoldsOf(cs, s);
      assert out == AnswersOf(cs, s);
    }

    /** The reply to a hit: the references are those of before, and the ones it and the Content Store take on its buffer. */
    method Reply() returns (a: Answer)
      requires Valid() && store != null
      modifies store`start, store`len, store`refs
      ensures Intact() && a.buf.Shape() && a.buf.Stores(packet) && a.Reads(packet)
      ensures a.buf in bufs || (fresh(a.buf) && a.clone.OnTop? && a.buf.refs == 2)
      ensures forall b :: b in bufs ==>
        b.Shape() && b.refs == Holds(out, b) + if b != a.buf then 0 else if a.clone.OnTop? then 2 else 1
    {
      var reply, ret := CloneFromCs(store, packet);
      a := Answer(reply, ret);
    }

    /** A hit in the Content Store. */
    method Hit() returns (a: Answer)
      requires Valid() && store != null
      modifies `store, `out, `bufs, store`start, store`len, store`refs
      ensures Valid() && store == a.buf && bufs == old(bufs) + {a.buf} && (a.buf in old(bufs) || fresh(a.buf))
      ensures out == old(out) + [a] && a.Reads(packet)
    {
      a := Reply();
      forall b | b in bufs + {a.buf}
        ensures b.Shape() && b.refs == Holds(out + [a], b) + if b == a.buf then 1 else 0
      {
        HoldsSnoc(out, a, b);
        if b !in bufs { HoldsNone(out, b); }
      }
      Install(a);
    }

    /** The reply is on its way, and the Content Store holds its buffer. */
    method Install(a: Answer)
      requires Intact() && a.buf.Stores(packet) && a.Reads(packet)
      requires forall b :: b in bufs + {a.buf} ==> b.Shape() && b.refs == Holds(out + [a], b) + if b == a.buf then 1 else 0
      modifies `store, `out, `bufs
      ensures Valid() && store == a.buf && bufs == old(bufs) + {a.buf} && out == old(out) + [a]
    {
      store, out, bufs := a.buf, out + [a], bufs + {a.buf};
    }

    /** A packet has been sent: the reference of its head to the tail is given back. */
    method Release(k: nat)
      requires Valid() && k < |out|
      modifies this`out, out[k].buf`refs
      ensures Valid() && out == Cut(old(out), k)
    {
      ghost var before := out;
      assert out[k] in out;
      Unchain(k);
      out := out[..k] + out[k + 1..];
      forall b | b in bufs
        ensures b.Shape() && b.refs == Holds(out, b) + if b == store then 1 else 0
      {
        HoldsCut(before, k, b);
      }
    }

    /** The head of packet `k` lets go of its tail. */
    method Unchain(k: nat)
      requires Valid() && k < |out|
      modifies out[k].buf`refs
      ensures out[k].buf.refs == old(out[k].buf.refs) - if out[k].clone.OnTop? then 1 else 0
    {
      assert out[k] in out;
      HoldsCut(out, k, out[k].buf);
      if out[k].clone.OnTop? { out[k].buf.refs := out[k].buf.refs - 1; }
    }

    /** The entry is evicted or expires: hicn_pcs_entry_cs_free_data. */
    method Evict()
      requires Valid() && store != null
      modifies this`store, store`refs
      ensures Valid() && store == null && out == old(out)
    {
      store.refs := store.refs - 1;
      store := null;
    }

    /**
     Conservation and transparency over any interleaving of hits, releases and
     evictions: at its end, as after every step, the count of every buffer is what
     is chained to it, and one if the store holds it; and every packet in flight
     reads the bytes that arrived.
     */
    method Run(ops: seq<Op>)
      requires Valid()
      modifies this`store, this`out, this`bufs, bufs
      ensures Valid() && bufs >= old(bufs)
    {
      for i := 0 to |ops|
        invariant Valid() && bufs >= old(bufs) && fresh(bufs - old(bufs))
      {
        match ops[i]
        case HitOp => if store != null { var _ := Hit(); }
        case ReleaseOp(k) => if k < |out| { assert out[k] in out; Release(k); }
        case EvictOp => if store != null { Evict(); }
      }
    }
  }
}
