/** The canonical hash engine (Util/Hash.h): two 64-bit lanes fed one byte at a time. */
module CanonicalHash {

  type Byte = bv8

  datatype State = State(lo: bv64, hi: bv64)

  const OFFSET_BASIS: bv64 := 14695981039346656037
  const PRIME: bv64 := 1099511628211

  function HashBegin(domain: bv64): State { State(OFFSET_BASIS ^ domain, PRIME + domain) }

  /** Multiplication modulo 2^64 by the FNV prime. */
  function MulLo(x: bv64): bv64 { x * 1099511628211 }

  /** Multiplication modulo 2^64 by the prime of the high lane. */
  function MulHi(x: bv64): bv64 { x * 14029467366897019727 }

  function StepLo(lo: bv64, b: Byte): bv64 { MulLo(lo ^ (b as bv64)) }

  function StepHi(hi: bv64, b: Byte): bv64 { MulHi(hi ^ ((b as bv64) + 31)) }

  function HashByte(s: State, b: Byte): State { State(StepLo(s.lo, b), StepHi(s.hi, b)) }

  /** The state after a string of bytes. */
  function HashBytes(s: State, data: seq<Byte>): State {
    if data == [] then s else HashByte(HashBytes(s, data[..|data| - 1]), data[|data| - 1])
  }

  method CanonicalHashBytes(state: State, data: seq<Byte>) returns (r: State)
    ensures r == HashBytes(state, data)
  {
    r := state;
    for i := 0 to |data|
      invariant r == HashBytes(state, data[..i])
    {
      assert data[..i + 1][..i] == data[..i];
      r := HashByte(r, data[i]);
    }
    assert data[..|data|] == data;
  }

  // ----- each step is a bijection

  // The multipliers are odd, so each has an inverse modulo 2^64.

  function DivLo(y: bv64): bv64 { y * 14886173955864302971 }

  function DivHi(y: bv64): bv64 { y * 839798700976720815 }

  lemma LoInverse(x: bv64)
    ensures DivLo(x * 1099511628211) == x
  {
  }

  lemma HiInverse(x: bv64)
    ensures DivHi(x * 14029467366897019727) == x
  {
  }

  lemma MulLoInjective(x: bv64, y: bv64)
    requires MulLo(x) == MulLo(y)
    ensures x == y
  {
    LoInverse(x);
    LoInverse(y);
  }

  lemma MulHiInjective(x: bv64, y: bv64)
    requires MulHi(x) == MulHi(y)
    ensures x == y
  {
    HiInverse(x);
    HiInverse(y);
  }

  /** Xor determines either operand from the other. */
  lemma XorByte(x: bv64, y: bv64, b: Byte, c: Byte)
    requires x ^ (b as bv64) == y ^ (c as bv64) && (b == c || x == y)
    ensures x == y && b == c
  {
    assert x == (x ^ (b as bv64)) ^ (b as bv64);
    assert y == (y ^ (c as bv64)) ^ (c as bv64);
  }

  lemma XorByte31(x: bv64, y: bv64, b: Byte, c: Byte)
    requires x ^ ((b as bv64) + 31) == y ^ ((c as bv64) + 31) && (b == c || x == y)
    ensures x == y && b == c
  {
    assert x == (x ^ ((b as bv64) + 31)) ^ ((b as bv64) + 31);
    assert y == (y ^ ((c as bv64) + 31)) ^ ((c as bv64) + 31);
  }

  /** In the low lane, equal results come from equal states (same byte) or equal bytes (same state). */
  lemma StepLoInjective(x: bv64, y: bv64, b: Byte, c: Byte)
    requires StepLo(x, b) == StepLo(y, c) && (b == c || x == y)
    ensures x == y && b == c
  {
    MulLoInjective(x ^ (b as bv64), y ^ (c as bv64));
    XorByte(x, y, b, c);
  }

  /** The same for the high lane. */
  lemma StepHiInjective(x: bv64, y: bv64, b: Byte, c: Byte)
    requires StepHi(x, b) == StepHi(y, c) && (b == c || x == y)
    ensures x == y && b == c
  {
    MulHiInjective(x ^ ((b as bv64) + 31), y ^ ((c as bv64) + 31));
    XorByte31(x, y, b, c);
  }

  /** Different states stay different in that lane, whatever bytes follow. */
  lemma {:induction false} DifferenceSurvives(s: State, t: State, data: seq<Byte>)
    ensures s.lo != t.lo ==> HashBytes(s, data).lo != HashBytes(t, data).lo
    ensures s.hi != t.hi ==> HashBytes(s, data).hi != HashBytes(t, data).hi
  {
    if data != [] {
      var front, b := data[..|data| - 1], data[|data| - 1];
      DifferenceSurvives(s, t, front);
      var x, y := HashBytes(s, front), HashBytes(t, front);
      if StepLo(x.lo, b) == StepLo(y.lo, b) { StepLoInjective(x.lo, y.lo, b, b); }
      if StepHi(x.hi, b) == StepHi(y.hi, b) { StepHiInjective(x.hi, y.hi, b, b); }
    }
  }

  lemma {:induction false} HashConcat(s: State, a: seq<Byte>, b: seq<Byte>)
    ensures HashBytes(s, a + b) == HashBytes(HashBytes(s, a), b)
  {
    if b == [] {
      assert a + b == a;
    } else {
      assert (a + b)[..|a + b| - 1] == a + b[..|b| - 1];
      HashConcat(s, a, b[..|b| - 1]);
    }
  }

  /** Inputs of equal length that differ in exactly one byte never collide, in either lane, from any state. */
  lemma OneByteNeverCollides(s: State, a: seq<Byte>, b: seq<Byte>, i: nat)
    requires |a| == |b| && i < |a| && a[i] != b[i] && a[..i] == b[..i] && a[i + 1..] == b[i + 1..]
    ensures HashBytes(s, a).lo != HashBytes(s, b).lo && HashBytes(s, a).hi != HashBytes(s, b).hi
  {
    var front, rest := a[..i], a[i + 1..];
    var before := HashBytes(s, front);
    assert a == front + [a[i]] + rest && b == front + [b[i]] + rest;
    HashConcat(s, front + [a[i]], rest);
    HashConcat(s, front + [b[i]], rest);
    assert (front + [a[i]])[..i] == front && (front + [b[i]])[..i] == front;
    if StepLo(before.lo, a[i]) == StepLo(before.lo, b[i]) { StepLoInjective(before.lo, before.lo, a[i], b[i]); }
    if StepHi(before.hi, a[i]) == StepHi(before.hi, b[i]) { StepHiInjective(before.hi, before.hi, a[i], b[i]); }
    DifferenceSurvives(HashByte(before, a[i]), HashByte(before, b[i]), rest);
  }

  /** The same bytes under two domains never collide, in either lane. */
  lemma DomainsNeverCollide(d: bv64, e: bv64, data: seq<Byte>)
    requires d != e
    ensures HashBytes(HashBegin(d), data).lo != HashBytes(HashBegin(e), data).lo
    ensures HashBytes(HashBegin(d), data).hi != HashBytes(HashBegin(e), data).hi
  {
    BeginInjective(d, e);
    DifferenceSurvives(HashBegin(d), HashBegin(e), data);
  }

  lemma BeginInjective(d: bv64, e: bv64)
    requires d != e
    ensures HashBegin(d).lo != HashBegin(e).lo && HashBegin(d).hi != HashBegin(e).hi
  {
    assert d == OFFSET_BASIS ^ (OFFSET_BASIS ^ d) && e == OFFSET_BASIS ^ (OFFSET_BASIS ^ e);
    assert d == (PRIME + d) - PRIME && e == (PRIME + e) - PRIME;
  }

  // ----- the low lane is FNV-1a

  /** FNV-1a 64 as in section 2 of draft-eastlake-fnv: xor the next octet in, multiply by the FNV prime. */
  function Fnv1a(hash: bv64, data: seq<Byte>): bv64
    decreases |data|
  {
    if data == [] then hash else Fnv1a(FnvOctet(hash, data[0]), data[1..])
  }

  function FnvOctet(hash: bv64, octet: Byte): bv64 { (hash ^ (octet as bv64)) * 0x100_0000_01b3 }

  lemma {:induction false} FnvSnoc(hash: bv64, data: seq<Byte>, b: Byte)
    ensures Fnv1a(hash, data + [b]) == FnvOctet(Fnv1a(hash, data), b)
    decreases |data|
  {
    if data == [] {
      assert (data + [b])[1..] == [];
    } else {
      assert (data + [b])[1..] == data[1..] + [b];
      FnvSnoc(FnvOctet(hash, data[0]), data[1..], b);
    }
  }

  /** The low lane is FNV-1a 64, with the domain mixed into the offset basis. */
  lemma {:induction false} LowLaneIsFnv1a(domain: bv64, data: seq<Byte>)
    ensures HashBytes(HashBegin(domain), data).lo == Fnv1a(0xcbf2_9ce4_8422_2325 ^ domain, data)
  {
    if data != [] {
      var front, b := data[..|data| - 1], data[|data| - 1];
      LowLaneIsFnv1a(domain, front);
      assert data == front + [b];
      FnvSnoc(0xcbf2_9ce4_8422_2325 ^ domain, front, b);
    }
  }

  // ----- the high lane

  /** The high lane written forwards: the next octet plus 31 is mixed in, then the second prime of XXH64 multiplies. */
  function HighLane(hash: bv64, data: seq<Byte>): bv64
    decreases |data|
  {
    if data == [] then hash else HighLane(HighOctet(hash, data[0]), data[1..])
  }

  function HighOctet(hash: bv64, octet: Byte): bv64 { (hash ^ ((octet as bv64) + 0x1f)) * 0xc2b2_ae3d_27d4_eb4f }

  lemma {:induction false} HighSnoc(hash: bv64, data: seq<Byte>, b: Byte)
    ensures HighLane(hash, data + [b]) == HighOctet(HighLane(hash, data), b)
    decreases |data|
  {
    if data == [] {
      assert (data + [b])[1..] == [];
    } else {
      assert (data + [b])[1..] == data[1..] + [b];
      HighSnoc(HighOctet(hash, data[0]), data[1..], b);
    }
  }

  /** The high lane starts from the FNV prime plus the domain. */
  lemma {:induction false} HighLaneIs(domain: bv64, data: seq<Byte>)
    ensures HashBytes(HashBegin(domain), data).hi == HighLane(0x100_0000_01b3 + domain, data)
  {
    if data != [] {
      var front, b := data[..|data| - 1], data[|data| - 1];
      HighLaneIs(domain, front);
      assert data == front + [b];
      HighSnoc(0x100_0000_01b3 + domain, front, b);
    }
  }

  // ----- fixed-width integers

  function Octet32(v: bv32, shift: bv5): Byte { ((v >> shift) & 0xff) as Byte }

  function Octet64(v: bv64, shift: bv6): Byte { ((v >> shift) & 0xff) as Byte }

  /** The values of the loop variable `shift`. */
  const SHIFTS32: seq<bv5> := [24, 16, 8, 0]
  const SHIFTS64: seq<bv6> := [56, 48, 40, 32, 24, 16, 8, 0]

  function Be16(v: bv16): seq<Byte> { [((v >> 8) & 0xff) as Byte, (v & 0xff) as Byte] }

  function Be32(v: bv32): (r: seq<Byte>)
    ensures |r| == 4
  {
    seq(4, k requires 0 <= k < 4 => Octet32(v, SHIFTS32[k]))
  }

  function Be64(v: bv64): (r: seq<Byte>)
    ensures |r| == 8
  {
    seq(8, k requires 0 <= k < 8 => Octet64(v, SHIFTS64[k]))
  }

  /** The bytes are the digits to base 256, the highest first. */
  lemma BigEndian16(v: bv16)
    ensures Be16(v) == [(v / 0x100) as Byte, (v % 0x100) as Byte]
  {
  }

  /** The highest octet comes first. */
  lemma BigEndian32(v: bv32)
    ensures Be32(v)[0] == (v >> 24) as Byte && Be32(v)[1] == ((v >> 16) & 0xff) as Byte
    ensures Be32(v)[2] == ((v >> 8) & 0xff) as Byte && Be32(v)[3] == (v & 0xff) as Byte
  {
  }

  lemma BigEndian64(v: bv64)
    ensures Be64(v)[0] == (v >> 56) as Byte && Be64(v)[1] == ((v >> 48) & 0xff) as Byte
    ensures Be64(v)[2] == ((v >> 40) & 0xff) as Byte && Be64(v)[3] == ((v >> 32) & 0xff) as Byte
    ensures Be64(v)[4] == ((v >> 24) & 0xff) as Byte && Be64(v)[5] == ((v >> 16) & 0xff) as Byte
    ensures Be64(v)[6] == ((v >> 8) & 0xff) as Byte && Be64(v)[7] == (v & 0xff) as Byte
  {
  }

  /** The byte loop over a 32-bit value hashes its big-endian bytes. */
  method CanonicalHashU32(state: State, value: bv32) returns (r: State)
    ensures r == HashBytes(state, Be32(value))
  {
    r := state;
    ghost var bytes := Be32(value);
    for k := 0 to 4
      invariant r == HashBytes(state, bytes[..k])
    {
      assert bytes[..k + 1][..k] == bytes[..k];
      r := HashByte(r, Octet32(value, SHIFTS32[k]));
    }
    assert bytes[..4] == bytes;
  }

  /** The same for 64 bits. */
  method CanonicalHashU64(state: State, value: bv64) returns (r: State)
    ensures r == HashBytes(state, Be64(value))
  {
    r := state;
    ghost var bytes := Be64(value);
    for k := 0 to 8
      invariant r == HashBytes(state, bytes[..k])
    {
      assert bytes[..k + 1][..k] == bytes[..k];
      r := HashByte(r, Octet64(value, SHIFTS64[k]));
    }
    assert bytes[..8] == bytes;
  }
}
