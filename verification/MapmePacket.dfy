/**
 MAP-Me packets at byte level (lib/src/mapme.c): an Interest Update travels as an
 ICMP redirect; its acknowledgement is the same packet sent back with the
 addresses exchanged.
 */
module MapmePacket {
  import opened Types

  type Word = x: int | 0 <= x < 0x1_0000_0000

  const IPPROTO_IP: int := 0
  const IPPROTO_IPV6: int := 41

  datatype Kind = Unknown | Update | UpdateAck | Notification | NotificationAck

  /** hicn_prefix_t: 16 bytes of address, of which IPv4 uses the last four, and a length. */
  datatype Prefix = Prefix(name: seq<Byte>, len: Byte)

  /** mapme_params_t */
  datatype Params = Params(protocol: int, kind: Kind, seqno: Word)

  datatype Parsed = Parsed(prefix: Prefix, params: Params) | Unexpected

  /** Where the two header structures keep what MAP-Me reads and writes. */
  datatype Layout = Layout(size: nat, ttl: nat, src: nat, dst: nat, width: nat, icmp: nat, seqno: nat, len: nat, update: Byte, ack: Byte)

  const V4 := Layout(120, 8, 12, 16, 4, 20, 112, 116, 5, 0x65)
  const V6 := Layout(88, 7, 8, 24, 16, 40, 80, 84, 137, 0xE9)

  const LOOPBACK4: seq<Byte> := [127, 0, 0, 1]
  const LOOPBACK6: seq<Byte> := [0, 0, 0, 0, 0, 0, 0, 0, 0, 0, 0, 0, 0, 0, 0, 1]

  function Zeros(n: nat): seq<Byte> {
    seq(n, i => 0)
  }

  /** htonl and ntohl */
  function Big(x: Word): (b: seq<Byte>)
    ensures |b| == 4
  {
    [x / 0x100_0000, x / 0x1_0000 % 256, x / 256 % 256, x % 256]
  }

  function FromBig(b: seq<Byte>): Word
    requires |b| == 4
  {
    (b[0] as int) * 0x100_0000 + (b[1] as int) * 0x1_0000 + (b[2] as int) * 256 + b[3]
  }

  lemma BigRoundTrip(x: Word)
    ensures FromBig(Big(x)) == x
  {
    assert x == x / 0x100_0000 * 0x100_0000 + x % 0x100_0000;
    assert x / 256 / 256 == x / 0x1_0000 && x / 0x1_0000 / 256 == x / 0x100_0000;
  }

  // ---- hicn_mapme_create_packet ----

  predicate IsUpdate(k: Kind) {
    k == Update || k == Notification
  }

  function TypeByte(l: Layout, k: Kind): Byte {
    if IsUpdate(k) then l.update else l.ack
  }

  /** The IPv4 header: 20 bytes; the total length is not swapped to network order. */
  function Ip4(name: seq<Byte>): seq<Byte> {
    [0x45, 0, 120, 0, 1, 44, 0, 0, 255, 1, 0, 0] + LOOPBACK4 + name
  }

  /** The ICMP redirect: type, code, checksum, gateway, and room for the original datagram. */
  function Redirect4(t: Byte, name: seq<Byte>): seq<Byte> {
    [t, 0, 0, 0] + name + Zeros(84)
  }

  function Ip6(name: seq<Byte>): seq<Byte> {
    [0x60, 0, 0, 0, 0, 48, 58, 255] + LOOPBACK6 + name
  }

  /** The ICMPv6 redirect of section 4.5 of RFC 4861: target and destination are the prefix. */
  function Redirect6(t: Byte, name: seq<Byte>): seq<Byte> {
    [t, 0, 0, 0, 0, 0, 0, 0] + name + name
  }

  function Trailer(p: Prefix, q: Params): seq<Byte> {
    Big(q.seqno) + [p.len, 0, 0, 0]
  }

  function Header(p: Prefix, q: Params): seq<Byte>
    requires |p.name| == 16
  {
    if q.protocol == IPPROTO_IPV6 then
      Ip6(p.name) + Redirect6(TypeByte(V6, q.kind), p.name) + Trailer(p, q)
    else
      Ip4(p.name[12..]) + Redirect4(TypeByte(V4, q.kind), p.name[12..]) + Trailer(p, q)
  }

  function LayoutFor(protocol: int): Layout {
    if protocol == IPPROTO_IPV6 then V6 else V4
  }

  function Loopback(protocol: int): seq<Byte> {
    if protocol == IPPROTO_IPV6 then LOOPBACK6 else LOOPBACK4
  }

  /** The part of the name that travels. */
  function Carried(p: Prefix, protocol: int): seq<Byte>
    requires |p.name| == 16
  {
    if protocol == IPPROTO_IPV6 then p.name else p.name[12..]
  }

  /** An IPv4 prefix is zero in the part that does not travel. */
  predicate Padded(p: Prefix, protocol: int)
    requires |p.name| == 16
  {
    protocol != IPPROTO_IPV6 ==> p.name[..12] == Zeros(12)
  }

  /** Copies bytes into a buffer. */
  method Store(buf: array<Byte>, at: nat, bytes: seq<Byte>)
    requires at + |bytes| <= buf.Length
    modifies buf
    ensures buf[at..at + |bytes|] == bytes
    ensures forall j :: 0 <= j < buf.Length && !(at <= j < at + |bytes|) ==> buf[j] == old(buf[j])
  {
    for i := 0 to |bytes|
      invariant forall j :: 0 <= j < i ==> buf[at + j] == bytes[j]
      invariant forall j :: 0 <= j < buf.Length && !(at <= j < at + i) ==> buf[j] == old(buf[j])
    {
      buf[at + i] := bytes[i];
    }
  }

  method Create(buf: array<Byte>, p: Prefix, q: Params) returns (size: nat)
    requires |p.name| == 16 && buf.Length >= LayoutFor(q.protocol).size
    modifies buf
    ensures size == LayoutFor(q.protocol).size == |Header(p, q)|
    ensures buf[..] == Header(p, q) + old(buf[size..])
  {
    size := LayoutFor(q.protocol).size;
    Store(buf, 0, Header(p, q));
  }

  // ---- hicn_mapme_parse_packet ----

  function Version(w: seq<Byte>): nat
    requires |w| > 0
  {
    w[0] / 16
  }

  /** The packet is as long as the header its version announces. */
  predicate Whole(w: seq<Byte>) {
    |w| > 0 && (Version(w) == 4 ==> |w| >= V4.size) && (Version(w) == 6 ==> |w| >= V6.size)
  }

  /** HICN_MAPME_TYPE_IS_IU: the type of either IP version. */
  predicate TypeIsUpdate(t: Byte) {
    t == 5 || t == 137
  }

  function Field(w: seq<Byte>, at: nat, n: nat): seq<Byte>
    requires at + n <= |w|
  {
    w[at..at + n]
  }

  predicate Fits(w: seq<Byte>, l: Layout) {
    (l == V4 || l == V6) && |w| >= l.size
  }

  function Source(w: seq<Byte>, l: Layout): seq<Byte>
    requires Fits(w, l)
  {
    Field(w, l.src, l.width)
  }

  function Destination(w: seq<Byte>, l: Layout): seq<Byte>
    requires Fits(w, l)
  {
    Field(w, l.dst, l.width)
  }

  /** The body of both parsers. An update names its prefix as destination, anything else as source. */
  function ParseAs(w: seq<Byte>, l: Layout, protocol: int): Parsed
    requires Fits(w, l)
  {
    var t := w[l.icmp];
    var name := if TypeIsUpdate(t) then Destination(w, l) else Source(w, l);
    Parsed(Prefix(Zeros(16 - l.width) + name, w[l.len]),
           Params(protocol, if t == l.update then Update else UpdateAck, FromBig(Field(w, l.seqno, 4))))
  }

  function Parse(w: seq<Byte>): Parsed
    requires Whole(w)
  {
    if Version(w) == 4 then ParseAs(w, V4, IPPROTO_IP)
    else if Version(w) == 6 then ParseAs(w, V6, IPPROTO_IPV6)
    else Unexpected
  }

  /** What a created packet has in the places the parser reads, whatever follows it in the buffer. */
  ghost predicate Holds(w: seq<Byte>, p: Prefix, q: Params)
    requires |p.name| == 16
  {
    var l := LayoutFor(q.protocol);
    && Fits(w, l) && Version(w) == (if q.protocol == IPPROTO_IPV6 then 6 else 4)
    && Source(w, l) == Loopback(q.protocol) && Destination(w, l) == Carried(p, q.protocol)
    && w[l.icmp] == TypeByte(l, q.kind) && Field(w, l.seqno, 4) == Big(q.seqno) && w[l.len] == p.len
  }

  lemma Created4(name: seq<Byte>, t: Byte, tail: seq<Byte>, rest: seq<Byte>, w: seq<Byte>)
    requires |name| == 4 && |tail| == 8 && w == Ip4(name) + Redirect4(t, name) + tail + rest
    ensures |w| >= 120 && w[0] == 0x45 && w[12..16] == LOOPBACK4 && w[16..20] == name && w[20] == t && w[112..120] == tail
  {}

  lemma Created6(name: seq<Byte>, t: Byte, tail: seq<Byte>, rest: seq<Byte>, w: seq<Byte>)
    requires |name| == 16 && |tail| == 8 && w == Ip6(name) + Redirect6(t, name) + tail + rest
    ensures |w| >= 88 && w[0] == 0x60 && w[8..24] == LOOPBACK6 && w[24..40] == name && w[40] == t && w[80..88] == tail
  {}

  lemma CreatedHolds(p: Prefix, q: Params, rest: seq<Byte>)
    requires |p.name| == 16
    ensures Holds(Header(p, q) + rest, p, q)
  {
    var w := Header(p, q) + rest;
    var tail := Trailer(p, q);
    if q.protocol == IPPROTO_IPV6 {
      Created6(p.name, TypeByte(V6, q.kind), tail, rest, w);
      assert w[80..84] == w[80..88][..4] && w[84] == w[80..88][4];
    } else {
      Created4(p.name[12..], TypeByte(V4, q.kind), tail, rest, w);
      assert w[112..116] == w[112..120][..4] && w[116] == w[112..120][4];
    }
  }

  ghost predicate AllZero(b: seq<Byte>) {
    forall i :: 0 <= i < |b| ==> b[i] == 0
  }

  /** IPv6: payload length, next header ICMPv6, hop limit, and the prefix as redirect target and destination. */
  ghost predicate Fields6(w: seq<Byte>, name: seq<Byte>)
    requires |w| >= 88
  {
    && w[0] == 0x60 && AllZero(w[1..4]) && w[4] as int * 256 + w[5] as int == 88 - 40 && w[6] == 58 && w[7] == 255
    && AllZero(w[41..48]) && w[48..64] == name && w[64..80] == name && AllZero(w[85..88])
  }

  /** IPv4: header length, identification, time to live, protocol ICMP, the prefix as gateway; the total length has its least significant byte first. */
  ghost predicate Fields4(w: seq<Byte>, name: seq<Byte>)
    requires |w| >= 120
  {
    && w[0] % 16 * 4 == 20 && w[1] == 0 && w[2] as int + w[3] as int * 256 == 120 && w[4] as int * 256 + w[5] as int == 300
    && AllZero(w[6..8]) && w[8] == 255 && w[9] == 1 && AllZero(w[10..12])
    && AllZero(w[21..24]) && w[24..28] == name && AllZero(w[28..112]) && AllZero(w[117..120])
  }

  lemma CreatedFields6(name: seq<Byte>, t: Byte, tail: seq<Byte>, rest: seq<Byte>, w: seq<Byte>)
    requires |name| == 16 && |tail| == 8 && tail[5..] == [0, 0, 0] && w == Ip6(name) + Redirect6(t, name) + tail + rest
    ensures |w| >= 88 && Fields6(w, name)
  {
    assert w[85..88] == tail[5..];
  }

  lemma CreatedFields4(name: seq<Byte>, t: Byte, tail: seq<Byte>, rest: seq<Byte>, w: seq<Byte>)
    requires |name| == 4 && |tail| == 8 && tail[5..] == [0, 0, 0] && w == Ip4(name) + Redirect4(t, name) + tail + rest
    ensures |w| >= 120 && Fields4(w, name)
  {
    assert w[117..120] == tail[5..];
  }

  /** The fields of a created packet that the parser does not read. */
  lemma CreatedFields(p: Prefix, q: Params, rest: seq<Byte>)
    requires |p.name| == 16
    ensures var w := Header(p, q) + rest;
      |w| >= LayoutFor(q.protocol).size && if q.protocol == IPPROTO_IPV6 then Fields6(w, p.name) else Fields4(w, p.name[12..])
  {
    var w, tail := Header(p, q) + rest, Trailer(p, q);
    if q.protocol == IPPROTO_IPV6 {
      CreatedFields6(p.name, TypeByte(V6, q.kind), tail, rest, w);
    } else {
      CreatedFields4(p.name[12..], TypeByte(V4, q.kind), tail, rest, w);
    }
  }

  /**
   Round trip of a created packet, for both versions and every kind: the number,
   the length and the direction come back. The prefix does if and only if it is
   one of the version, and the packet is an update or the prefix the loopback address.
   */
  lemma CreateParse(p: Prefix, q: Params, rest: seq<Byte>)
    requires |p.name| == 16
    ensures Whole(Header(p, q) + rest)
    ensures var r := Parse(Header(p, q) + rest);
      && r.Parsed? && r.params.seqno == q.seqno && r.prefix.len == p.len
      && r.params.protocol == (if q.protocol == IPPROTO_IPV6 then IPPROTO_IPV6 else IPPROTO_IP)
      && r.params.kind == (if IsUpdate(q.kind) then Update else UpdateAck)
      && (r.prefix == p <==>
          && Padded(p, q.protocol)
          && (IsUpdate(q.kind) || Carried(p, q.protocol) == Loopback(q.protocol)))
  {
    CreatedHolds(p, q, rest);
    BigRoundTrip(q.seqno);
    var l := LayoutFor(q.protocol);
    assert p.name == p.name[..16 - l.width] + Carried(p, q.protocol);
    assert Padded(p, q.protocol) <==> p.name[..16 - l.width] == Zeros(16 - l.width);
    assert (Zeros(16 - l.width) + Loopback(q.protocol))[..16 - l.width] == Zeros(16 - l.width);
    assert (Zeros(16 - l.width) + Carried(p, q.protocol))[..16 - l.width] == Zeros(16 - l.width);
    assert (Zeros(16 - l.width) + Loopback(q.protocol))[16 - l.width..] == Loopback(q.protocol);
    assert (Zeros(16 - l.width) + Carried(p, q.protocol))[16 - l.width..] == Carried(p, q.protocol);
  }

  /** An acknowledgement made by hicn_mapme_create_packet for b001::/64 names ::1 to the parser. */
  lemma CreatedAckNamesLoopback()
    ensures
      var p := Prefix([0xB0, 1, 0, 0, 0, 0, 0, 0, 0, 0, 0, 0, 0, 0, 0, 0], 64);
      var w := Header(p, Params(IPPROTO_IPV6, UpdateAck, 7)) + [];
      Whole(w) && Parse(w) == Parsed(Prefix(LOOPBACK6, 64), Params(IPPROTO_IPV6, UpdateAck, 7))
  {
    var p, q := Prefix([0xB0, 1, 0, 0, 0, 0, 0, 0, 0, 0, 0, 0, 0, 0, 0, 0], 64), Params(IPPROTO_IPV6, UpdateAck, 7);
    CreatedHolds(p, q, []);
    CreateParse(p, q, []);
    assert Zeros(0) + LOOPBACK6 == LOOPBACK6;
  }

  // ---- hicn_mapme_create_ack ----

  /** The packet with the addresses exchanged, the hop limit renewed and the type of an acknowledgement. */
  ghost predicate IsAckOf(a: seq<Byte>, w: seq<Byte>, l: Layout)
    requires Fits(w, l)
  {
    && |a| == |w|
    && Source(a, l) == Destination(w, l) && Destination(a, l) == Source(w, l)
    && a[l.ttl] == 255 && a[l.icmp] == l.ack && a[l.icmp + 2] == 0 && a[l.icmp + 3] == 0
    && forall i :: (0 <= i < |w| && !(l.src <= i < l.dst + l.width)
                    && i != l.ttl && i != l.icmp && i != l.icmp + 2 && i != l.icmp + 3) ==> a[i] == w[i]
  }

  method SwapAddresses(buf: array<Byte>, l: Layout)
    requires (l == V4 || l == V6) && buf.Length >= l.size
    modifies buf
    ensures buf[l.src..l.src + l.width] == old(buf[l.dst..l.dst + l.width])
    ensures buf[l.dst..l.dst + l.width] == old(buf[l.src..l.src + l.width])
    ensures forall i :: 0 <= i < buf.Length && !(l.src <= i < l.dst + l.width) ==> buf[i] == old(buf[i])
  {
    var tmp := buf[l.dst..l.dst + l.width];
    Store(buf, l.dst, buf[l.src..l.src + l.width]);
    Store(buf, l.src, tmp);
  }

  method CreateAck(buf: array<Byte>, q: Params) returns (size: nat)
    requires buf.Length >= LayoutFor(q.protocol).size
    modifies buf
    ensures size == LayoutFor(q.protocol).size
    ensures IsAckOf(buf[..], old(buf[..]), LayoutFor(q.protocol))
  {
    var l := LayoutFor(q.protocol);
    SwapAddresses(buf, l);
    label swapped:
    buf[l.ttl] := 255;
    buf[l.icmp] := l.ack;
    buf[l.icmp + 2], buf[l.icmp + 3] := 0, 0;
    size := l.size;
    assert buf[l.src..l.src + l.width] == old@swapped(buf[l.src..l.src + l.width]);
    assert buf[l.dst..l.dst + l.width] == old@swapped(buf[l.dst..l.dst + l.width]);
  }

  /**
   The acknowledgement of any packet parses to the same number and length, as an
   acknowledgement. It names the same prefix if and only if the packet was an
   update, or had equal addresses.
   */
  lemma AckParse(w: seq<Byte>, a: seq<Byte>)
    requires Whole(w) && Parse(w).Parsed? && IsAckOf(a, w, LayoutFor(Parse(w).params.protocol))
    ensures Whole(a)
    ensures var l := LayoutFor(Parse(w).params.protocol);
      var r, s := Parse(w), Parse(a);
      && s.Parsed? && s.params == r.params.(kind := UpdateAck) && s.prefix.len == r.prefix.len
      && (s.prefix == r.prefix <==> TypeIsUpdate(w[l.icmp]) || Source(w, l) == Destination(w, l))
  {
    var l := LayoutFor(Parse(w).params.protocol);
    assert a[0] == w[0];
    assert Field(a, l.seqno, 4) == Field(w, l.seqno, 4);
    var z := Zeros(16 - l.width);
    assert (z + Source(w, l))[16 - l.width..] == Source(w, l);
    assert (z + Destination(w, l))[16 - l.width..] == Destination(w, l);
  }

  /** What the protocol needs: an update that is created, answered and parsed names the same prefix and number. */
  lemma UpdateAckRoundTrip(p: Prefix, q: Params, rest: seq<Byte>, a: seq<Byte>)
    requires |p.name| == 16 && Padded(p, q.protocol) && q.kind == Update
    requires Fits(Header(p, q) + rest, LayoutFor(q.protocol)) && IsAckOf(a, Header(p, q) + rest, LayoutFor(q.protocol))
    ensures Whole(a) && Parse(a).Parsed? && Parse(a).prefix == p
    ensures Parse(a).params.kind == UpdateAck && Parse(a).params.seqno == q.seqno
  {
    CreateParse(p, q, rest);
    CreatedHolds(p, q, rest);
    AckParse(Header(p, q) + rest, a);
  }
}
