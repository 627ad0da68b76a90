/**
 Prefixes of addresses (lib/src/name.c): the first bit in which two addresses
 differ, found word by word; the longest common prefix; truncation in place.
 The reference is the plain sequence of the 128 address bits in network order.
 */
module Prefix {
  type Address = a: seq<bv8> | |a| == 16 witness seq(16, i => 0)

  /** The mask of bit `k` of a byte, the most significant first. */
  function Mask(k: nat): bv8
    requires k < 8
  {
    if k == 0 then 0x80 else if k == 1 then 0x40 else if k == 2 then 0x20 else if k == 3 then 0x10 else
    if k == 4 then 0x08 else if k == 5 then 0x04 else if k == 6 then 0x02 else 0x01
  }

  predicate Bit(b: bv8, k: nat)
    requires k < 8
  {
    b & Mask(k) != 0
  }

  /** Bit `n` of an address in network order. */
  predicate AddressBit(a: Address, n: nat)
    requires n < 128
  {
    Bit(a[n / 8], n % 8)
  }

  /** The first `n` bits of two addresses are the same. */
  ghost predicate Agree(a: Address, b: Address, n: nat)
    requires n <= 128
  {
    forall i :: 0 <= i < n ==> AddressBit(a, i) == AddressBit(b, i)
  }

  /** Two bytes with the same bits are the same, and so are two addresses. */
  lemma ByteExt(x: bv8, y: bv8)
    requires forall k :: 0 <= k < 8 ==> Bit(x, k) == Bit(y, k)
    ensures x == y
  {
    assert Bit(x, 0) == Bit(y, 0) && Bit(x, 1) == Bit(y, 1) && Bit(x, 2) == Bit(y, 2) && Bit(x, 3) == Bit(y, 3);
    assert Bit(x, 4) == Bit(y, 4) && Bit(x, 5) == Bit(y, 5) && Bit(x, 6) == Bit(y, 6) && Bit(x, 7) == Bit(y, 7);
  }

  lemma AddressExt(a: Address, b: Address)
    requires Agree(a, b, 128)
    ensures a == b
  {
    forall i | 0 <= i < 16 ensures a[i] == b[i] {
      forall k | 0 <= k < 8 ensures Bit(a[i], k) == Bit(b[i], k) {
        assert AddressBit(a, 8 * i + k) == AddressBit(b, 8 * i + k);
      }
      ByteExt(a[i], b[i]);
    }
  }

  // ---- Words as loaded on a little-endian host ----

  /** The bytes of a word in memory order. */
  function Bytes(w: bv64): (bs: seq<bv8>)
    ensures |bs| == 8
  {
    [(w & 0xFF) as bv8, ((w >> 8) & 0xFF) as bv8, ((w >> 16) & 0xFF) as bv8, ((w >> 24) & 0xFF) as bv8,
     ((w >> 32) & 0xFF) as bv8, ((w >> 40) & 0xFF) as bv8, ((w >> 48) & 0xFF) as bv8, ((w >> 56) & 0xFF) as bv8]
  }

  /** name.v6.as_u64[i] */
  method Load(a: Address, i: nat) returns (w: bv64)
    requires i < 2
    ensures Bytes(w) == a[8 * i..8 * i + 8]
  {
    var b := a[8 * i..8 * i + 8];
    w := (b[0] as bv64) | ((b[1] as bv64) << 8) | ((b[2] as bv64) << 16) | ((b[3] as bv64) << 24)
       | ((b[4] as bv64) << 32) | ((b[5] as bv64) << 40) | ((b[6] as bv64) << 48) | ((b[7] as bv64) << 56);
  }

  lemma XorFirst(x: bv64, y: bv64)
    ensures Bytes(x ^ y)[0] == Bytes(x)[0] ^ Bytes(y)[0]
    ensures Bytes(x ^ y)[1] == Bytes(x)[1] ^ Bytes(y)[1]
  {}

  lemma XorSecond(x: bv64, y: bv64)
    ensures Bytes(x ^ y)[2] == Bytes(x)[2] ^ Bytes(y)[2]
    ensures Bytes(x ^ y)[3] == Bytes(x)[3] ^ Bytes(y)[3]
  {}

  lemma XorThird(x: bv64, y: bv64)
    ensures Bytes(x ^ y)[4] == Bytes(x)[4] ^ Bytes(y)[4]
    ensures Bytes(x ^ y)[5] == Bytes(x)[5] ^ Bytes(y)[5]
  {}

  lemma XorFourth(x: bv64, y: bv64)
    ensures Bytes(x ^ y)[6] == Bytes(x)[6] ^ Bytes(y)[6]
    ensures Bytes(x ^ y)[7] == Bytes(x)[7] ^ Bytes(y)[7]
  {}

  /** `z` is the bytewise difference of `x` and `y`. */
  ghost predicate IsXor(x: seq<bv8>, y: seq<bv8>, z: seq<bv8>) {
    |x| == |y| == |z| && forall j :: 0 <= j < |z| ==> z[j] == x[j] ^ y[j]
  }

  lemma XorEach(x: seq<bv8>, y: seq<bv8>, z: seq<bv8>)
    requires |x| == |y| == |z| == 8
    requires z[0] == x[0] ^ y[0] && z[1] == x[1] ^ y[1] && z[2] == x[2] ^ y[2] && z[3] == x[3] ^ y[3]
    requires z[4] == x[4] ^ y[4] && z[5] == x[5] ^ y[5] && z[6] == x[6] ^ y[6] && z[7] == x[7] ^ y[7]
    ensures IsXor(x, y, z)
  {
    forall j | 0 <= j < 8 ensures z[j] == x[j] ^ y[j] {
      if j == 0 {} else if j == 1 {} else if j == 2 {} else if j == 3 {}
      else if j == 4 {} else if j == 5 {} else if j == 6 {} else { assert j == 7; }
    }
  }

  lemma XorBytes(x: bv64, y: bv64)
    ensures IsXor(Bytes(x), Bytes(y), Bytes(x ^ y))
  {
    XorFirst(x, y);
    XorSecond(x, y);
    XorThird(x, y);
    XorFourth(x, y);
    XorEach(Bytes(x), Bytes(y), Bytes(x ^ y));
  }

  lemma XorMask(x: bv8, y: bv8, m: bv8)
    ensures ((x ^ y) & m != 0) <==> x & m != y & m
  {}

  lemma OneBit(x: bv8, k: nat)
    requires k < 8
    ensures x & Mask(k) == 0 || x & Mask(k) == Mask(k)
  {}

  lemma XorBit(x: bv8, y: bv8, k: nat)
    requires k < 8
    ensures Bit(x ^ y, k) <==> Bit(x, k) != Bit(y, k)
  {
    XorMask(x, y, Mask(k));
    OneBit(x, k);
    OneBit(y, k);
  }

  /** The bits of the difference of two words are the differences of the address bits. */
  lemma DifferenceBit(a: Address, b: Address, i: nat, z: seq<bv8>, n: nat)
    requires i < 2 && n < 64 && IsXor(a[8 * i..8 * i + 8], b[8 * i..8 * i + 8], z)
    ensures BitIn(z, n) <==> AddressBit(a, 64 * i + n) != AddressBit(b, 64 * i + n)
  {
    XorBit(a[8 * i + n / 8], b[8 * i + n / 8], n % 8);
    assert (64 * i + n) / 8 == 8 * i + n / 8 && (64 * i + n) % 8 == n % 8;
    assert z[n / 8] == a[8 * i..8 * i + 8][n / 8] ^ b[8 * i..8 * i + 8][n / 8];
  }

  // ---- _log2_nbo ----

  /** Bit `n` of bytes in network order. */
  ghost predicate BitIn(bs: seq<bv8>, n: nat)
    requires n < 8 * |bs|
  {
    Bit(bs[n / 8], n % 8)
  }

  /** `r` is the first bit set. */
  ghost predicate First(bs: seq<bv8>, r: nat) {
    r < 8 * |bs| && BitIn(bs, r) && forall n :: 0 <= n < r ==> !BitIn(bs, n)
  }

  ghost predicate Zeros(bs: seq<bv8>) {
    forall j :: 0 <= j < |bs| ==> bs[j] == 0
  }

  lemma FirstAfterZeros(bs: seq<bv8>, s: nat, r: nat)
    requires s <= |bs| && Zeros(bs[..s]) && First(bs[s..], r)
    ensures First(bs, 8 * s + r)
  {
    assert (8 * s + r) / 8 == s + r / 8 && (8 * s + r) % 8 == r % 8;
    forall n | 0 <= n < 8 * s + r ensures !BitIn(bs, n) {
      if n < 8 * s {
        assert bs[..s][n / 8] == 0;
      } else {
        assert !BitIn(bs[s..], n - 8 * s);
        assert (n - 8 * s) / 8 == n / 8 - s && (n - 8 * s) % 8 == n % 8;
      }
    }
  }

  lemma FirstInMore(bs: seq<bv8>, m: nat, r: nat)
    requires m <= |bs| && First(bs[..m], r)
    ensures First(bs, r)
  {
    forall n | 0 <= n < r ensures !BitIn(bs, n) {
      assert !BitIn(bs[..m], n);
    }
  }

  /** Zeros in the first four, two or one bytes: what follows moves to the front. */
  lemma Skip32(w: bv64)
    requires w & 0xFFFFFFFF == 0
    ensures Zeros(Bytes(w)[..4]) && Bytes(w >> 32)[..4] == Bytes(w)[4..]
  {}

  lemma Skip16(w: bv64)
    requires w & 0xFFFF == 0
    ensures Zeros(Bytes(w)[..2]) && Bytes(w >> 16)[..2] == Bytes(w)[2..4]
  {}

  lemma Skip8(w: bv64)
    requires w & 0xFF == 0
    ensures Zeros(Bytes(w)[..1]) && Bytes(w >> 8)[..1] == Bytes(w)[1..2]
  {}

  /** What is left is not zero. */
  lemma Left(w: bv64)
    ensures w != 0 && w & 0xFFFFFFFF == 0 ==> (w >> 32) & 0xFFFFFFFF != 0
    ensures w & 0xFFFFFFFF != 0 && w & 0xFFFF == 0 ==> (w >> 16) & 0xFFFF != 0
    ensures w & 0xFFFF != 0 && w & 0xFF == 0 ==> (w >> 8) & 0xFF != 0
  {}

  /** The first bit after each of the tests. */
  lemma First32(w: bv64, k: nat)
    ensures First(Bytes(w)[..4], k) ==> First(Bytes(w), k)
    ensures w & 0xFFFFFFFF == 0 && First(Bytes(w >> 32)[..4], k) ==> First(Bytes(w), 32 + k)
  {
    if First(Bytes(w)[..4], k) { FirstInMore(Bytes(w), 4, k); }
    if w & 0xFFFFFFFF == 0 && First(Bytes(w >> 32)[..4], k) { FirstAfter32(w, k); }
  }

  lemma FirstAfter32(w: bv64, k: nat)
    requires w & 0xFFFFFFFF == 0 && First(Bytes(w >> 32)[..4], k)
    ensures First(Bytes(w), 32 + k)
  {
    Skip32(w);
    FirstOfHalf(Bytes(w), 4, Bytes(w >> 32)[..4], 32, k);
  }

  lemma First16(w: bv64, k: nat)
    ensures First(Bytes(w)[..2], k) ==> First(Bytes(w)[..4], k)
    ensures w & 0xFFFF == 0 && First(Bytes(w >> 16)[..2], k) ==> First(Bytes(w)[..4], 16 + k)
  {
    if First(Bytes(w)[..2], k) {
      FirstOfFront(Bytes(w), 2, Bytes(w)[..2], 0, k);
    }
    if w & 0xFFFF == 0 && First(Bytes(w >> 16)[..2], k) {
      Skip16(w);
      FirstOfFront(Bytes(w), 2, Bytes(w)[2..4], 16, k);
    }
  }

  lemma First8(w: bv64, k: nat)
    ensures First(Bytes(w)[..1], k) ==> First(Bytes(w)[..2], k)
    ensures w & 0xFF == 0 && First(Bytes(w >> 8)[..1], k) ==> First(Bytes(w)[..2], 8 + k)
  {
    if First(Bytes(w)[..1], k) {
      FirstOfFront(Bytes(w), 1, Bytes(w)[..1], 0, k);
    }
    if w & 0xFF == 0 && First(Bytes(w >> 8)[..1], k) {
      Skip8(w);
      FirstOfFront(Bytes(w), 1, Bytes(w)[1..2], 8, k);
    }
  }

  /** The first bit of `bs` from that of the half that was kept: the front, or the rest after zeros. */
  lemma FirstOfHalf(bs: seq<bv8>, m: nat, kept: seq<bv8>, result: nat, k: nat)
    requires m <= |bs| && First(kept, k)
    requires (result == 0 && kept == bs[..m]) || (result == 8 * m && Zeros(bs[..m]) && kept == bs[m..])
    ensures First(bs, result + k)
  {
    if kept == bs[..m] && result == 0 {
      FirstInMore(bs, m, k);
    } else {
      FirstAfterZeros(bs, m, k);
    }
  }

  lemma FirstOfFront(bs: seq<bv8>, m: nat, kept: seq<bv8>, result: nat, k: nat)
    requires 2 * m <= |bs| && First(kept, k)
    requires (result == 0 && kept == bs[..m]) || (result == 8 * m && Zeros(bs[..m]) && kept == bs[m..2 * m])
    ensures First(bs[..2 * m], result + k)
  {
    assert bs[..2 * m][..m] == bs[..m] && bs[..2 * m][m..] == bs[m..2 * m];
    FirstOfHalf(bs[..2 * m], m, kept, result, k);
  }

  ghost predicate FirstInByte(b: bv8, k: nat) {
    k < 8 && Bit(b, k) && forall i :: 0 <= i < k ==> !Bit(b, i)
  }

  lemma FirstOfOne(w: bv64, k: nat)
    requires FirstInByte((w & 0xFF) as bv8, k)
    ensures First(Bytes(w)[..1], k)
  {
    var b := Bytes(w)[0];
    assert FirstInByte(b, k);
    assert Bytes(w)[..1] == [b];
  }

  /** The lower half of _log2_nbo: the first bit set of the byte that comes first in memory. */
  method FirstOfByte(w: bv64) returns (k: nat)
    requires w & 0xFF != 0
    ensures FirstInByte((w & 0xFF) as bv8, k)
  {
    var val := w;
    k := 0;
    if val & 0xF0 != 0 { val := val >> 4; } else { k := k + 4; }
    if val & 0xC != 0 { val := val >> 2; } else { k := k + 2; }
    if val & 0x2 != 0 { val := val >> 1; } else { k := k + 1; }
  }

  /** The test of 8 bits, and what follows; in the same way those of 16 and 32. */
  method FirstOf16(w: bv64) returns (r: nat)
    requires w & 0xFFFF != 0
    ensures First(Bytes(w)[..2], r)
  {
    var val, result := w, 0;
    if w & 0xFF == 0 {
      val, result := val >> 8, 8;
    }
    Left(w);
    var k := FirstOfByte(val);
    FirstOfOne(val, k);
    First8(w, k);
    r := result + k;
  }

  method FirstOf32(w: bv64) returns (r: nat)
    requires w & 0xFFFFFFFF != 0
    ensures First(Bytes(w)[..4], r)
  {
    var val, result := w, 0;
    if w & 0xFFFF == 0 {
      val, result := val >> 16, 16;
    }
    Left(w);
    var k := FirstOf16(val);
    First16(w, k);
    r := result + k;
  }

  /** _log2_nbo; the bits it ors into the result are distinct, hence the additions. */
  method Log2Nbo(w: bv64) returns (r: nat)
    requires w != 0
    ensures First(Bytes(w), r)
  {
    var val, result := w, 0;
    if w & 0xFFFFFFFF == 0 {
      val, result := val >> 32, 32;
    }
    Left(w);
    var k := FirstOf32(val);
    First32(w, k);
    r := result + k;
  }

  // ---- Truncation ----

  /** The mask of the first `p` bits of a byte. */
  function HighBits(p: nat): bv8
    requires p < 8
  {
    if p == 0 then 0x00 else if p == 1 then 0x80 else if p == 2 then 0xC0 else if p == 3 then 0xE0 else
    if p == 4 then 0xF0 else if p == 5 then 0xF8 else if p == 6 then 0xFC else 0xFE
  }

  lemma HighBitsMask(p: nat, k: nat)
    requires p < 8 && k < 8
    ensures HighBits(p) & Mask(k) == if k < p then Mask(k) else 0
  {}

  lemma AndAssociative(x: bv8, y: bv8, z: bv8)
    ensures (x & y) & z == x & (y & z)
  {}

  lemma KeptBit(b: bv8, p: nat, k: nat)
    requires p < 8 && k < 8
    ensures Bit(b & HighBits(p), k) <==> k < p && Bit(b, k)
  {
    AndAssociative(b, HighBits(p), Mask(k));
    HighBitsMask(p, k);
  }

  /** Byte `i` of an address of which the first `n` bits are kept. */
  function KeptByte(b: bv8, i: nat, n: nat): bv8 {
    if 8 * i + 8 <= n then b else if n <= 8 * i then 0 else b & HighBits(n - 8 * i)
  }

  /** The first `n` bits, the others zero. */
  function Masked(a: Address, n: nat): Address {
    seq(16, i requires 0 <= i < 16 => KeptByte(a[i], i, n))
  }

  lemma MaskedBit(a: Address, n: nat, k: nat)
    requires k < 128
    ensures AddressBit(Masked(a, n), k) <==> k < n && AddressBit(a, k)
  {
    if 8 * (k / 8) < n < 8 * (k / 8) + 8 {
      KeptBit(a[k / 8], n - 8 * (k / 8), k % 8);
    }
  }

  /** Masking decides agreement: the reference for the longest common prefix. */
  lemma MaskedEqual(a: Address, b: Address, n: nat)
    requires n <= 128
    ensures Masked(a, n) == Masked(b, n) <==> Agree(a, b, n)
  {
    if Masked(a, n) == Masked(b, n) {
      forall i | 0 <= i < n ensures AddressBit(a, i) == AddressBit(b, i) {
        MaskedBit(a, n, i);
        MaskedBit(b, n, i);
      }
    } else if Agree(a, b, n) {
      forall i | 0 <= i < 128 ensures AddressBit(Masked(a, n), i) == AddressBit(Masked(b, n), i) {
        MaskedBit(a, n, i);
        MaskedBit(b, n, i);
      }
      AddressExt(Masked(a, n), Masked(b, n));
    }
  }

  lemma MaskedTwice(a: Address, m: nat, n: nat)
    ensures Masked(Masked(a, m), n) == Masked(a, if m < n then m else n)
  {
    var k := if m < n then m else n;
    forall i | 0 <= i < 128 ensures AddressBit(Masked(Masked(a, m), n), i) == AddressBit(Masked(a, k), i) {
      MaskedBit(Masked(a, m), n, i);
      MaskedBit(a, m, i);
      MaskedBit(a, k, i);
    }
    AddressExt(Masked(Masked(a, m), n), Masked(a, k));
  }

  /** hicn_ip_address_is_v4: an address whose padding is zero passes for IPv4. */
  predicate IsV4(a: Address) {
    forall i :: 0 <= i < 12 ==> a[i] == 0
  }

  /** The address bit that a prefix length stands for. */
  function Start(a: Address, len: nat): nat {
    if IsV4(a) then 96 + len else len
  }

  /** A length for which hicn_prefix_clear stays inside the prefix: at the full length it writes the length field. */
  predicate Fits(a: Address, len: nat) {
    Start(a, len) <= 128
  }

  function Truncated(a: Address, len: nat): Address {
    Masked(a, Start(a, len))
  }

  lemma {:induction false} IsV4Bits(a: Address)
    ensures IsV4(a) <==> forall n :: 0 <= n < 96 ==> !AddressBit(a, n)
  {
    if IsV4(a) {
      forall n | 0 <= n < 96 ensures !AddressBit(a, n) {
        assert a[n / 8] == 0;
      }
    } else if forall n :: 0 <= n < 96 ==> !AddressBit(a, n) {
      forall i | 0 <= i < 12 ensures a[i] == 0 {
        forall k | 0 <= k < 8 ensures Bit(a[i], k) == Bit(0, k) {
          assert !AddressBit(a, 8 * i + k);
        }
        ByteExt(a[i], 0);
      }
    }
  }

  /** Truncation never turns an address that is not IPv4 into one whose IPv4 part is not zero. */
  lemma TruncatedToV4(a: Address, m: nat)
    requires !IsV4(a) && IsV4(Masked(a, m))
    ensures m < 96 && Masked(a, m) == Masked(a, 0)
  {
    IsV4Bits(a);
    IsV4Bits(Masked(a, m));
    forall i | 0 <= i < 96 ensures !(i < m && AddressBit(a, i)) {
      MaskedBit(a, m, i);
    }
    forall i | 0 <= i < 128 ensures AddressBit(Masked(a, m), i) == AddressBit(Masked(a, 0), i) {
      MaskedBit(a, m, i);
      MaskedBit(a, 0, i);
    }
    AddressExt(Masked(a, m), Masked(a, 0));
  }

  /**
   Successive truncations compose to the shorter one, for every address and all
   lengths for which both stay inside the address: even when the first one leaves
   an address that passes for IPv4, so that the second counts from bit 96.
   */
  lemma TruncatedTwice(a: Address, m: nat, n: nat)
    requires Fits(a, m) && Fits(Truncated(a, m), n)
    ensures var k := if m < n then m else n;
      Fits(a, k) && Truncated(Truncated(a, m), n) == Truncated(a, k)
  {
    var k := if m < n then m else n;
    var t := Truncated(a, m);
    MaskedTwice(a, Start(a, m), Start(t, n));
    if IsV4(a) {
      assert IsV4(t);
    } else if IsV4(t) {
      TruncatedToV4(a, m);
      MaskedTwice(a, m, k);
      MaskedTwice(a, 0, k);
      MaskedTwice(a, 0, Start(t, n));
    }
  }

  // ---- hicn_prefix_clear and hicn_prefix_truncate ----

  lemma ClearMask(pos: nat)
    requires pos < 8
    ensures var mask: bv16 := 0xFF ^ ((1 << (8 - pos)) - 1); mask < 256 && mask as bv8 == HighBits(pos)
  {
    if pos == 0 {} else if pos == 1 {} else if pos == 2 {} else if pos == 3 {}
    else if pos == 4 {} else if pos == 5 {} else if pos == 6 {} else { assert pos == 7; }
  }

  /** hicn_prefix_t */
  class Object {
    var name: array<bv8>
    var len: nat

    constructor (bytes: Address, length: nat)
      ensures fresh(name) && name[..] == bytes && len == length
    {
      name := new bv8[16](i requires 0 <= i < 16 => bytes[i]);
      len := length;
      new;
      assert name[..] == bytes;
    }

    method V4() returns (b: bool)
      requires name.Length == 16
      ensures b == IsV4(name[..])
    {
      b := true;
      for i := 0 to 12
        invariant b == forall j :: 0 <= j < i ==> name[j] == 0
      {
        if name[i] != 0 { b := false; }
      }
    }

    /** At the full length the byte after the address, which is the length, is masked to zero. */
    method Clear(from: nat)
      requires name.Length == 16 && Fits(name[..], from)
      modifies name, `len
      ensures name[..] == Truncated(old(name[..]), from)
      ensures len == if Start(old(name[..]), from) == 128 then 0 else old(len)
    {
      var offset := from / 8;
      var v4 := V4();
      if v4 { offset := offset + 12; }
      StartAt(name[..], from);
      if offset == 16 {
        MaskedFull(name[..]);
        len := 0;
      } else {
        var kept := KeepFirst(name[offset], from % 8, offset);
        ClearBytes(offset, kept, 8 * offset + from % 8);
      }
    }

    /** The byte under the mask of the source. */
    static method KeepFirst(b: bv8, pos: nat, ghost offset: nat) returns (kept: bv8)
      requires pos < 8
      ensures kept == KeptByte(b, offset, 8 * offset + pos)
    {
      var mask: bv16 := 0xFF ^ ((1 << (8 - pos)) - 1);
      ClearMask(pos);
      KeptHere(b, offset, pos);
      kept := b & (mask as bv8);
    }

    /** One byte replaced by what is kept of it, and the following ones cleared. */
    method ClearBytes(offset: nat, kept: bv8, ghost n: nat)
      requires name.Length == 16 && offset < 16 && 8 * offset <= n < 8 * offset + 8
      requires kept == KeptByte(name[offset], offset, n)
      modifies name
      ensures name[..] == Masked(old(name[..]), n)
    {
      ghost var a := name[..];
      SetBytes(offset, kept);
      MaskedIs(a, name[..], offset, n);
    }

    method SetBytes(offset: nat, kept: bv8)
      requires name.Length == 16 && offset < 16
      modifies name
      ensures name[offset] == kept
      ensures forall j :: 0 <= j < offset ==> name[j] == old(name[j])
      ensures forall j :: offset < j < 16 ==> name[j] == 0
    {
      name[offset] := kept;
      for i := offset + 1 to 16
        invariant forall j :: offset < j < i ==> name[j] == 0
        invariant forall j :: 0 <= j < offset ==> name[j] == old(name[j])
        invariant name[offset] == kept
      {
        name[i] := 0;
      }
    }

    method Truncate(length: nat)
      requires name.Length == 16 && Fits(name[..], length)
      modifies this`len, name
      ensures name == old(name) && name[..] == Truncated(old(name[..]), length) && len == length
    {
      Clear(length);
      len := length;
    }
  }

  lemma StartAt(a: Address, from: nat)
    ensures Start(a, from) == 8 * (from / 8 + if IsV4(a) then 12 else 0) + from % 8
  {
  }

  lemma MaskedFull(a: Address)
    ensures Masked(a, 128) == a
  {
  }

  lemma KeptHere(b: bv8, i: nat, pos: nat)
    requires pos < 8
    ensures KeptByte(b, i, 8 * i + pos) == b & HighBits(pos)
  {
  }

  lemma MaskedIs(a: Address, b: Address, offset: nat, n: nat)
    requires offset < 16 && 8 * offset <= n < 8 * offset + 8 && b[offset] == KeptByte(a[offset], offset, n)
    requires (forall j :: 0 <= j < offset ==> b[j] == a[j]) && forall j :: offset < j < 16 ==> b[j] == 0
    ensures b == Masked(a, n)
  {
  }

  // ---- hicn_prefix_lpm ----

  /** The longest length, up to both, at which the two prefixes have the same first bits. */
  ghost predicate IsLpm(a: Address, aLen: nat, b: Address, bLen: nat, r: nat) {
    && r <= aLen && r <= bLen && r <= 128 && Masked(a, r) == Masked(b, r)
    && forall n: nat :: n <= aLen && n <= bLen && n <= 128 && Masked(a, n) == Masked(b, n) ==> n <= r
  }

  /** One round of the loop: where word `i` of the addresses first differs. */
  method WordLpm(a: Address, b: Address, i: nat) returns (k: nat)
    requires i < 2
    ensures k <= 64 && forall n :: 64 * i <= n < 64 * i + k ==> AddressBit(a, n) == AddressBit(b, n)
    ensures k < 64 ==> AddressBit(a, 64 * i + k) != AddressBit(b, 64 * i + k)
  {
    var x := Load(a, i);
    var y := Load(b, i);
    XorBytes(x, y);
    ghost var z := Bytes(x ^ y);
    forall n | 0 <= n < 64
      ensures BitIn(z, n) <==> AddressBit(a, 64 * i + n) != AddressBit(b, 64 * i + n)
    {
      DifferenceBit(a, b, i, z, n);
    }
    if x ^ y != 0 {
      k := Log2Nbo(x ^ y);
    } else {
      k := 64;
      NoBits(x ^ y);
    }
    forall n | 64 * i <= n < 64 * i + k ensures AddressBit(a, n) == AddressBit(b, n) {
      assert !BitIn(z, n - 64 * i);
      assert 64 * i + (n - 64 * i) == n;
    }
  }

  lemma NoBits(w: bv64)
    requires w == 0
    ensures forall n :: 0 <= n < 64 ==> !BitIn(Bytes(w), n)
  {}

  method Lpm(a: Address, aLen: nat, b: Address, bLen: nat) returns (r: nat)
    ensures IsLpm(a, aLen, b, bLen, r)
  {
    var prefixLen, i := 0, 0;
    while i < 2
      invariant 0 <= i <= 2 && prefixLen == 64 * i && Agree(a, b, prefixLen)
    {
      var k := WordLpm(a, b, i);
      prefixLen := prefixLen + k;
      if k < 64 { break; }
      i := i + 1;
    }
    r := if prefixLen < aLen then prefixLen else aLen;
    r := if r < bLen then r else bLen;
    LpmFromDifference(a, aLen, b, bLen, prefixLen, r);
  }

  lemma LpmFromDifference(a: Address, aLen: nat, b: Address, bLen: nat, common: nat, r: nat)
    requires common <= 128 && Agree(a, b, common)
    requires common < 128 ==> AddressBit(a, common) != AddressBit(b, common)
    requires r <= aLen && r <= bLen && r <= common && r in {aLen, bLen, common}
    ensures IsLpm(a, aLen, b, bLen, r)
  {
    MaskedEqual(a, b, r);
    forall n: nat | n <= aLen && n <= bLen && n <= 128 && Masked(a, n) == Masked(b, n) ensures n <= r {
      MaskedEqual(a, b, n);
    }
  }

  /** IPv6: the lengths at which truncation makes the addresses equal are those up to the result. */
  lemma LpmDecidesTruncation(a: Address, aLen: nat, b: Address, bLen: nat, r: nat, n: nat)
    requires !IsV4(a) && !IsV4(b) && IsLpm(a, aLen, b, bLen, r)
    requires n <= aLen && n <= bLen && n <= 128
    ensures Truncated(a, n) == Truncated(b, n) <==> n <= r
  {
    if n <= r {
      MaskedTwice(a, r, n);
      MaskedTwice(b, r, n);
    }
  }

  /** IPv4: the padding is compared too, so the result does not depend on the addresses. */
  lemma LpmOfV4(a: Address, aLen: nat, b: Address, bLen: nat, r: nat)
    requires IsV4(a) && IsV4(b) && aLen <= 32 && bLen <= 32 && IsLpm(a, aLen, b, bLen, r)
    ensures r == if aLen < bLen then aLen else bLen
    ensures Truncated(a, r) == Truncated(b, r) <==> Agree(a, b, 96 + r)
  {
    var n := if aLen < bLen then aLen else bLen;
    IsV4Bits(a);
    IsV4Bits(b);
    MaskedEqual(a, b, n);
    MaskedEqual(a, b, 96 + r);
  }

  /** 10.0.0.0/8 and 11.0.0.0/8 count as the same prefix. */
  lemma LpmOfV4TooLong()
    ensures var a: Address := seq(12, i => 0) + [10, 0, 0, 0];
      var b: Address := seq(12, i => 0) + [11, 0, 0, 0];
      IsLpm(a, 8, b, 8, 8) && Truncated(a, 8) != Truncated(b, 8)
  {
    var a: Address := seq(12, i => 0) + [10, 0, 0, 0];
    var b: Address := seq(12, i => 0) + [11, 0, 0, 0];
    forall i | 0 <= i < 8 ensures AddressBit(a, i) == AddressBit(b, i) {}
    MaskedEqual(a, b, 8);
    assert IsV4(a) && IsV4(b);
    assert Bit(11, 7) && !Bit(10, 7);
    assert AddressBit(b, 103) && !AddressBit(a, 103);
    MaskedEqual(a, b, 104);
  }
}
