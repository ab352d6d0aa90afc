/** Canonical Layout Encoding v1 (Model/Compat.h): the bytes it writes, a decoder for them, and the digest over them. */
module LayoutEncoding {
  import opened Options
  import opened CanonicalHash
  import opened InterfaceContract

  datatype Hash128 = Hash128(lo: bv64, hi: bv64)

  datatype LayoutContext = LayoutContext(arch: bv32, os: bv32, abi: bv32, compiler: bv32)

  datatype Field = Field(typeId: Hash128, offset: bv32, flags: bv32)

  /** `field_count` is the count of the field list that comes with the layout. */
  datatype TypeLayout = TypeLayout(size: bv32, align: bv32)

  const LAYOUT_VERSION: bv16 := 1
  const LAYOUT_DOMAIN: bv64 := 0x4C41594F55545631
  const MAGIC: seq<Byte> := [0x41, 0x42, 0x49, 0x58, 0x2D, 0x43, 0x4C, 0x45]

  function LayoutFlags(flags: bv32): bv32 { flags & 0xFFFF0003 }

  /** The pieces the visitor puts before the fields, in order. */
  function HeaderChunks(c: LayoutContext, id: Hash128, l: TypeLayout, count: bv32): seq<seq<Byte>> {
    [MAGIC, Be16(LAYOUT_VERSION), Be32(c.arch), Be32(c.os), Be32(c.abi), Be32(c.compiler),
     Be64(id.lo), Be64(id.hi), Be32(l.size), Be32(l.align), Be32(count)]
  }

  /** The pieces of one field. */
  function FieldChunks(f: Field): seq<seq<Byte>> {
    [Be64(f.typeId.lo), Be64(f.typeId.hi), Be32(f.offset), Be32(LayoutFlags(f.flags))]
  }

  function Flatten(chunks: seq<seq<Byte>>): seq<Byte> {
    if chunks == [] then [] else chunks[0] + Flatten(chunks[1..])
  }

  function FieldBytes(fs: seq<Field>): seq<Byte> {
    if fs == [] then [] else Flatten(FieldChunks(fs[0])) + FieldBytes(fs[1..])
  }

  /** The encoding of a layout whose fields are present. */
  function Encoding(c: LayoutContext, id: Hash128, l: TypeLayout, fs: seq<Field>): seq<Byte>
    requires |fs| < 0x1_0000_0000
  {
    Flatten(HeaderChunks(c, id, l, |fs| as bv32)) + FieldBytes(fs)
  }

  // ----- lengths

  lemma {:induction false} FlattenConcat(a: seq<seq<Byte>>, b: seq<seq<Byte>>)
    ensures Flatten(a + b) == Flatten(a) + Flatten(b)
  {
    if a == [] {
      assert a + b == b;
    } else {
      assert (a + b)[1..] == a[1..] + b;
      FlattenConcat(a[1..], b);
    }
  }

  /** The first chunk and the rest. */
  lemma FlattenFirst(x: seq<Byte>, rest: seq<seq<Byte>>)
    ensures Flatten([x] + rest) == x + Flatten(rest)
  {
    assert ([x] + rest)[1..] == rest;
  }

  lemma FieldChunksBytes(f: Field)
    ensures Flatten(FieldChunks(f))
         == Be64(f.typeId.lo) + Be64(f.typeId.hi) + Be32(f.offset) + Be32(LayoutFlags(f.flags))
  {
    var chunks := FieldChunks(f);
    assert chunks == [chunks[0]] + [chunks[1], chunks[2], chunks[3]];
    FlattenFirst(chunks[0], [chunks[1], chunks[2], chunks[3]]);
    assert [chunks[1], chunks[2], chunks[3]] == [chunks[1]] + [chunks[2], chunks[3]];
    FlattenFirst(chunks[1], [chunks[2], chunks[3]]);
    assert [chunks[2], chunks[3]] == [chunks[2]] + [chunks[3]];
    FlattenFirst(chunks[2], [chunks[3]]);
    assert [chunks[3]] == [chunks[3]] + [];
    FlattenFirst(chunks[3], []);
  }

  lemma {:induction false} FieldBytesLength(fs: seq<Field>)
    ensures |FieldBytes(fs)| == 24 * |fs|
  {
    if fs != [] {
      FieldChunksBytes(fs[0]);
      FieldBytesLength(fs[1..]);
    }
  }

  /** Positions of the header pieces, and of what follows them. */
  const HEADER_AT: seq<nat> := [0, 8, 10, 14, 18, 22, 26, 34, 42, 46, 50, 54]

  lemma HeaderChunkLength(c: LayoutContext, id: Hash128, l: TypeLayout, count: bv32, k: nat)
    requires k < 11
    ensures |HeaderChunks(c, id, l, count)[k]| == HEADER_AT[k + 1] - HEADER_AT[k]
  {
  }

  /** A chunk stands in the flattened list right behind the chunks before it. */
  lemma {:induction false} FlattenPiece(chunks: seq<seq<Byte>>, k: nat)
    requires k < |chunks|
    ensures var p := |Flatten(chunks[..k])|;
      p + |chunks[k]| == |Flatten(chunks[..k + 1])| <= |Flatten(chunks)| &&
        Flatten(chunks)[p..p + |chunks[k]|] == chunks[k]
  {
    var before, rest := chunks[..k], chunks[k + 1..];
    assert chunks == before + ([chunks[k]] + rest);
    FlattenConcat(before, [chunks[k]] + rest);
    FlattenFirst(chunks[k], rest);
    assert chunks[..k + 1] == before + ([chunks[k]] + []);
    FlattenConcat(before, [chunks[k]] + []);
    FlattenFirst(chunks[k], []);
  }

  /** Each header piece stands at its fixed position. */
  lemma {:induction false} HeaderPieces(c: LayoutContext, id: Hash128, l: TypeLayout, count: bv32, k: nat)
    requires k <= 11
    ensures |Flatten(HeaderChunks(c, id, l, count)[..k])| == HEADER_AT[k]
  {
    if k > 0 {
      HeaderPieces(c, id, l, count, k - 1);
      HeaderChunkLength(c, id, l, count, k - 1);
      FlattenPiece(HeaderChunks(c, id, l, count), k - 1);
    }
  }

  /** The length the encoding promises: 54 bytes and 24 more for each field. */
  lemma EncodingLength(c: LayoutContext, id: Hash128, l: TypeLayout, fs: seq<Field>)
    requires |fs| < 0x1_0000_0000
    ensures |Encoding(c, id, l, fs)| == 54 + 24 * |fs|
  {
    var chunks := HeaderChunks(c, id, l, |fs| as bv32);
    HeaderPieces(c, id, l, |fs| as bv32, 11);
    assert chunks[..11] == chunks;
    FieldBytesLength(fs);
  }

  // ----- decoding

  function U32(b: seq<Byte>): bv32
    requires |b| == 4
  {
    ((b[0] as bv32) << 24) | ((b[1] as bv32) << 16) | ((b[2] as bv32) << 8) | (b[3] as bv32)
  }

  function U64(b: seq<Byte>): bv64
    requires |b| == 8
  {
    ((b[0] as bv64) << 56) | ((b[1] as bv64) << 48) | ((b[2] as bv64) << 40) | ((b[3] as bv64) << 32)
    | ((b[4] as bv64) << 24) | ((b[5] as bv64) << 16) | ((b[6] as bv64) << 8) | (b[7] as bv64)
  }

  lemma U32Be32(v: bv32)
    ensures U32(Be32(v)) == v
  {
  }

  lemma U64Be64(v: bv64)
    ensures U64(Be64(v)) == v
  {
  }

  datatype Decoded = Decoded(context: LayoutContext, typeId: Hash128, layout: TypeLayout, fields: seq<Field>)

  function DecodeFields(b: seq<Byte>): seq<Field> {
    if |b| < 24 then []
    else [Field(Hash128(U64(b[..8]), U64(b[8..16])), U32(b[16..20]), U32(b[20..24]))] + DecodeFields(b[24..])
  }

  /** Reads an encoding back. */
  function Decode(b: seq<Byte>): Option<Decoded> {
    if |b| < 54 || (|b| - 54) % 24 != 0 || (|b| - 54) / 24 >= 0x1_0000_0000 then None
    else if b[..8] != MAGIC || b[8..10] != Be16(LAYOUT_VERSION) || U32(b[50..54]) != ((|b| - 54) / 24) as bv32 then None
    else Some(Decoded(
      LayoutContext(U32(b[10..14]), U32(b[14..18]), U32(b[18..22]), U32(b[22..26])),
      Hash128(U64(b[26..34]), U64(b[34..42])),
      TypeLayout(U32(b[42..46]), U32(b[46..50])),
      DecodeFields(b[54..])))
  }

  /** What of the fields enters the encoding. */
  function Masked(fs: seq<Field>): (r: seq<Field>)
    ensures |r| == |fs| && forall i :: 0 <= i < |fs| ==> r[i] == fs[i].(flags := LayoutFlags(fs[i].flags))
  {
    seq(|fs|, i requires 0 <= i < |fs| => fs[i].(flags := LayoutFlags(fs[i].flags)))
  }

  lemma {:induction false} FieldsRoundTrip(fs: seq<Field>)
    ensures DecodeFields(FieldBytes(fs)) == Masked(fs)
  {
    if fs != [] {
      var f, b := fs[0], FieldBytes(fs);
      FieldChunksBytes(f);
      FieldBytesLength(fs);
      FieldPieces(f, b, FieldBytes(fs[1..]));
      FieldsRoundTrip(fs[1..]);
      assert Masked(fs) == [f.(flags := LayoutFlags(f.flags))] + Masked(fs[1..]);
    }
  }

  lemma FieldPieces(f: Field, b: seq<Byte>, rest: seq<Byte>)
    requires b == Be64(f.typeId.lo) + Be64(f.typeId.hi) + Be32(f.offset) + Be32(LayoutFlags(f.flags)) + rest
    ensures |b| >= 24 && b[24..] == rest
    ensures U64(b[..8]) == f.typeId.lo && U64(b[8..16]) == f.typeId.hi && U32(b[16..20]) == f.offset &&
      U32(b[20..24]) == LayoutFlags(f.flags)
  {
    assert b[..8] == Be64(f.typeId.lo) && b[8..16] == Be64(f.typeId.hi);
    assert b[16..20] == Be32(f.offset) && b[20..24] == Be32(LayoutFlags(f.flags));
    U64Be64(f.typeId.lo);
    U64Be64(f.typeId.hi);
    U32Be32(f.offset);
    U32Be32(LayoutFlags(f.flags));
  }

  lemma PieceBeforeTail(chunks: seq<seq<Byte>>, tail: seq<Byte>, k: nat, p: nat, q: nat)
    requires k < |chunks| && p == |Flatten(chunks[..k])| && q == |Flatten(chunks[..k + 1])|
    ensures p <= q <= |Flatten(chunks) + tail| && (Flatten(chunks) + tail)[p..q] == chunks[k]
  {
    FlattenPiece(chunks, k);
    assert (Flatten(chunks) + tail)[p..q] == Flatten(chunks)[p..q];
  }

  /** The `k`-th header piece, read out of the whole encoding. */
  lemma HeaderPiece(c: LayoutContext, id: Hash128, l: TypeLayout, fs: seq<Field>, k: nat)
    requires |fs| < 0x1_0000_0000 && k < 11
    ensures HEADER_AT[k] <= HEADER_AT[k + 1] <= |Encoding(c, id, l, fs)|
    ensures Encoding(c, id, l, fs)[HEADER_AT[k]..HEADER_AT[k + 1]] == HeaderChunks(c, id, l, |fs| as bv32)[k]
  {
    HeaderPieces(c, id, l, |fs| as bv32, k);
    HeaderPieces(c, id, l, |fs| as bv32, k + 1);
    PieceBeforeTail(HeaderChunks(c, id, l, |fs| as bv32), FieldBytes(fs), k, HEADER_AT[k], HEADER_AT[k + 1]);
  }

  /** The context, read back. */
  lemma ContextRoundTrip(c: LayoutContext, id: Hash128, l: TypeLayout, fs: seq<Field>, b: seq<Byte>)
    requires |fs| < 0x1_0000_0000 && b == Encoding(c, id, l, fs) && |b| >= 54
    ensures b[..8] == MAGIC && b[8..10] == Be16(LAYOUT_VERSION)
    ensures U32(b[10..14]) == c.arch && U32(b[14..18]) == c.os && U32(b[18..22]) == c.abi &&
      U32(b[22..26]) == c.compiler
  {
    HeaderPiece(c, id, l, fs, 0);
    HeaderPiece(c, id, l, fs, 1);
    HeaderPiece(c, id, l, fs, 2);
    HeaderPiece(c, id, l, fs, 3);
    HeaderPiece(c, id, l, fs, 4);
    HeaderPiece(c, id, l, fs, 5);
    U32Be32(c.arch);
    U32Be32(c.os);
    U32Be32(c.abi);
    U32Be32(c.compiler);
  }

  /** The type and its dimensions, read back. */
  lemma TypeRoundTrip(c: LayoutContext, id: Hash128, l: TypeLayout, fs: seq<Field>, b: seq<Byte>)
    requires |fs| < 0x1_0000_0000 && b == Encoding(c, id, l, fs) && |b| >= 54
    ensures U64(b[26..34]) == id.lo && U64(b[34..42]) == id.hi
    ensures U32(b[42..46]) == l.size && U32(b[46..50]) == l.align && U32(b[50..54]) == |fs| as bv32
  {
    HeaderPiece(c, id, l, fs, 6);
    HeaderPiece(c, id, l, fs, 7);
    HeaderPiece(c, id, l, fs, 8);
    HeaderPiece(c, id, l, fs, 9);
    HeaderPiece(c, id, l, fs, 10);
    U64Be64(id.lo);
    U64Be64(id.hi);
    U32Be32(l.size);
    U32Be32(l.align);
    U32Be32(|fs| as bv32);
  }

  /** Bytes with the right pieces in the right places decode to what the pieces stand for. */
  lemma DecodePieces(b: seq<Byte>, c: LayoutContext, id: Hash128, l: TypeLayout, fs: seq<Field>)
    requires |fs| < 0x1_0000_0000 && |b| == 54 + 24 * |fs| && b[..8] == MAGIC && b[8..10] == Be16(LAYOUT_VERSION)
    requires U32(b[10..14]) == c.arch && U32(b[14..18]) == c.os && U32(b[18..22]) == c.abi &&
      U32(b[22..26]) == c.compiler
    requires U64(b[26..34]) == id.lo && U64(b[34..42]) == id.hi
    requires U32(b[42..46]) == l.size && U32(b[46..50]) == l.align && U32(b[50..54]) == |fs| as bv32
    ensures Decode(b) == Some(Decoded(c, id, l, DecodeFields(b[54..])))
  {
    assert (|b| - 54) / 24 == |fs|;
  }

  /** What follows the header. */
  lemma FieldsAfterHeader(c: LayoutContext, id: Hash128, l: TypeLayout, fs: seq<Field>, b: seq<Byte>)
    requires |fs| < 0x1_0000_0000 && b == Encoding(c, id, l, fs) && |b| == 54 + 24 * |fs|
    ensures b[54..] == FieldBytes(fs)
  {
    var header := Flatten(HeaderChunks(c, id, l, |fs| as bv32));
    FieldBytesLength(fs);
    SuffixOf(header, FieldBytes(fs), b);
  }

  lemma SuffixOf(a: seq<Byte>, b: seq<Byte>, whole: seq<Byte>)
    requires whole == a + b
    ensures whole[|whole| - |b|..] == b
  {
  }

  /** The encoding of every layout is decodable: context, type, size, alignment and every field with its masked
      flags come back. */
  lemma EncodingRoundTrip(c: LayoutContext, id: Hash128, l: TypeLayout, fs: seq<Field>)
    requires |fs| < 0x1_0000_0000
    ensures Decode(Encoding(c, id, l, fs)) == Some(Decoded(c, id, l, Masked(fs)))
  {
    var b := Encoding(c, id, l, fs);
    EncodingLength(c, id, l, fs);
    ContextRoundTrip(c, id, l, fs, b);
    TypeRoundTrip(c, id, l, fs, b);
    DecodePieces(b, c, id, l, fs);
    FieldsAfterHeader(c, id, l, fs, b);
    FieldsRoundTrip(fs);
  }

  lemma MaskTwice(flags: bv32)
    ensures LayoutFlags(LayoutFlags(flags)) == LayoutFlags(flags)
  {
  }

  lemma {:induction false} MaskedFieldBytes(fs: seq<Field>)
    ensures FieldBytes(Masked(fs)) == FieldBytes(fs)
  {
    if fs != [] {
      MaskTwice(fs[0].flags);
      assert FieldChunks(Masked(fs)[0]) == FieldChunks(fs[0]);
      assert Masked(fs)[1..] == Masked(fs[1..]);
      MaskedFieldBytes(fs[1..]);
    }
  }

  lemma DecodeAt(b: seq<Byte>, d: Decoded, fs: seq<Field>)
    requires |fs| < 0x1_0000_0000 && b == Encoding(d.context, d.typeId, d.layout, fs) && d.fields == Masked(fs)
    ensures Decode(b) == Some(d)
  {
    EncodingRoundTrip(d.context, d.typeId, d.layout, fs);
  }

  lemma SameWhenDecoded(b: seq<Byte>, d: Decoded, d': Decoded)
    requires Decode(b) == Some(d) && Decode(b) == Some(d')
    ensures d == d'
  {
  }

  lemma EqualEncodingsAgree(b: seq<Byte>, d: Decoded, fs: seq<Field>, d': Decoded, fs': seq<Field>)
    requires |fs| < 0x1_0000_0000 && b == Encoding(d.context, d.typeId, d.layout, fs) && d.fields == Masked(fs)
    requires |fs'| < 0x1_0000_0000 && b == Encoding(d'.context, d'.typeId, d'.layout, fs') && d'.fields == Masked(fs')
    ensures d == d'
  {
    DecodeAt(b, d, fs);
    DecodeAt(b, d', fs');
    SameWhenDecoded(b, d, d');
  }

  lemma AgreeingFieldsEncodeEqual(fs: seq<Field>, fs': seq<Field>)
    requires Masked(fs) == Masked(fs')
    ensures |fs| == |fs'| && FieldBytes(fs) == FieldBytes(fs')
  {
    MaskedFieldBytes(fs);
    MaskedFieldBytes(fs');
    assert |fs| == |Masked(fs)| == |fs'|;
  }

  /** Two layouts have the same encoding exactly when they agree on everything but the flag bits outside the mask. */
  lemma EncodingsEqualExactlyWhen(d: Decoded, fs: seq<Field>, d': Decoded, fs': seq<Field>)
    requires |fs| < 0x1_0000_0000 && d.fields == Masked(fs) && |fs'| < 0x1_0000_0000 && d'.fields == Masked(fs')
    ensures Encoding(d.context, d.typeId, d.layout, fs) == Encoding(d'.context, d'.typeId, d'.layout, fs') <==> d == d'
  {
    if Encoding(d.context, d.typeId, d.layout, fs) == Encoding(d'.context, d'.typeId, d'.layout, fs') {
      EqualEncodingsAgree(Encoding(d.context, d.typeId, d.layout, fs), d, fs, d', fs');
    }
    if d == d' {
      AgreeingFieldsEncodeEqual(fs, fs');
      assert HeaderChunks(d.context, d.typeId, d.layout, |fs| as bv32)
          == HeaderChunks(d'.context, d'.typeId, d'.layout, |fs'| as bv32);
    }
  }

  // ----- the exact bytes

  /** The flags that enter the encoding are the upper half and the two lowest bits. */
  lemma FlagsExactly(flags: bv32)
    ensures LayoutFlags(flags) == flags / 0x1_0000 * 0x1_0000 + flags % 4
  {
  }

  /** Every encoding begins with "ABIX-CLE" and version 1. */
  lemma EncodingBegins(c: LayoutContext, id: Hash128, l: TypeLayout, fs: seq<Field>)
    requires |fs| < 0x1_0000_0000
    ensures |Encoding(c, id, l, fs)| >= 10
    ensures Encoding(c, id, l, fs)[..10] == [65, 66, 73, 88, 45, 67, 76, 69, 0, 1]
  {
    EncodingLength(c, id, l, fs);
    HeaderPiece(c, id, l, fs, 0);
    HeaderPiece(c, id, l, fs, 1);
    BigEndian16(1);
    var b := Encoding(c, id, l, fs);
    assert b[..10] == b[0..8] + b[8..10];
  }

  // ----- the two sinks

  class LayoutByteSink {
    const out: array<Byte>
    const capacity: nat
    var size: nat

    ghost predicate Valid()
      reads this
    {
      size <= capacity <= out.Length
    }

    ghost function Written(): seq<Byte>
      reads this, out
      requires Valid()
    {
      out[..size]
    }

    constructor (out: array<Byte>, capacity: nat)
      requires capacity <= out.Length
      ensures Valid() && this.out == out && this.capacity == capacity && size == 0
    {
      this.out, this.capacity, size := out, capacity, 0;
    }

    method Put(b: Byte) returns (ok: bool)
      requires Valid()
      modifies this, out
      ensures Valid() && ok == (old(size) < capacity) && size == (if ok then old(size) + 1 else old(size))
      ensures Written() == if ok then old(Written()) + [b] else old(Written())
      ensures out[size..] == old(out[..])[size..]
    {
      if size >= capacity { return false; }
      out[size] := b;
      size := size + 1;
      return true;
    }

    /** `put_u16`, `put_u32` and `put_u64` on the bytes of the value: stops at the first byte without room. */
    method PutAll(bytes: seq<Byte>) returns (ok: bool)
      requires Valid()
      modifies this, out
      ensures Valid() && ok == (old(size) + |bytes| <= capacity)
      ensures ok ==> Written() == old(Written()) + bytes
      ensures size >= old(size) && out[size..] == old(out[..])[size..]
    {
      ghost var before, all := Written(), out[..];
      var i := 0;
      while i < |bytes|
        invariant Valid() && i <= |bytes| && size == |before| + i && Written() == before + bytes[..i]
        invariant out[size..] == all[size..]
      {
        ok := Put(bytes[i]);
        if !ok { return; }
        i := i + 1;
      }
      return true;
    }

    method PutChunks(chunks: seq<seq<Byte>>) returns (ok: bool)
      requires Valid()
      modifies this, out
      ensures Valid() && ok == (old(size) + |Flatten(chunks)| <= capacity)
      ensures ok ==> Written() == old(Written()) + Flatten(chunks)
      ensures size >= old(size) && out[size..] == old(out[..])[size..]
    {
      ghost var before, all := Written(), out[..];
      var i := 0;
      while i < |chunks|
        invariant Valid() && i <= |chunks| && Written() == before + Flatten(chunks[..i]) && size >= |before|
        invariant out[size..] == all[size..]
      {
        FlattenPiece(chunks, i);
        FlattenNext(chunks, i);
        ghost var mid := out[..];
        ok := PutAll(chunks[i]);
        assert out[size..] == mid[size..] == all[size..];
        if !ok { return; }
        i := i + 1;
      }
      assert chunks[..i] == chunks;
      return true;
    }
  }

  lemma {:induction false} FieldBytesNext(fs: seq<Field>, i: nat)
    requires i < |fs|
    ensures FieldBytes(fs[..i + 1]) == FieldBytes(fs[..i]) + Flatten(FieldChunks(fs[i])) &&
      |Flatten(FieldChunks(fs[i]))| == 24
  {
    FieldBytesConcat(fs[..i], [fs[i]]);
    assert fs[..i + 1] == fs[..i] + [fs[i]];
    assert [fs[i]][1..] == [];
    FieldChunksBytes(fs[i]);
  }

  lemma {:induction false} FieldBytesConcat(a: seq<Field>, b: seq<Field>)
    ensures FieldBytes(a + b) == FieldBytes(a) + FieldBytes(b)
  {
    if a == [] {
      assert a + b == b;
    } else {
      assert (a + b)[1..] == a[1..] + b;
      FieldBytesConcat(a[1..], b);
    }
  }

  lemma HeaderLength(c: LayoutContext, id: Hash128, l: TypeLayout, count: bv32)
    ensures |Flatten(HeaderChunks(c, id, l, count))| == 54
  {
    HeaderPieces(c, id, l, count, 11);
    assert HeaderChunks(c, id, l, count)[..11] == HeaderChunks(c, id, l, count);
  }

  /** `encode_canonical_layout`: the whole encoding, or 0 when it does not fit or the fields are missing. Nothing beyond
      the capacity is touched. */
  method EncodeCanonicalLayout(c: LayoutContext, id: Hash128, l: TypeLayout, fields: Listed<Field>, out: array<Byte>,
      capacity: nat) returns (n: nat)
    requires capacity <= out.Length && fields.Count() < 0x1_0000_0000
    modifies out
    ensures n == if fields.WellFormed() && 54 + 24 * fields.Count() <= capacity then 54 + 24 * fields.Count() else 0
    ensures n != 0 ==> out[..n] == Encoding(c, id, l, fields.Items()) && out[n..] == old(out[n..])
    ensures out[capacity..] == old(out[capacity..])
  {
    HeaderLength(c, id, l, fields.Count() as bv32);
    n := VisitBytes(HeaderChunks(c, id, l, fields.Count() as bv32), fields, out, capacity);
  }

  /** `visit_canonical_layout` into a byte sink. */
  method VisitBytes(header: seq<seq<Byte>>, fields: Listed<Field>, out: array<Byte>, capacity: nat) returns (n: nat)
    requires capacity <= out.Length
    modifies out
    ensures var all := |Flatten(header)| + 24 * fields.Count();
      n == if fields.WellFormed() && all <= capacity then all else 0
    ensures n != 0 ==> out[..n] == Flatten(header) + FieldBytes(fields.Items()) && out[n..] == old(out[n..])
    ensures out[capacity..] == old(out[capacity..])
  {
    ghost var before := out[..];
    var sink := new LayoutByteSink(out, capacity);
    var ok := sink.PutChunks(header);
    if ok && (fields.Count() == 0 || !fields.Null?) {
      ghost var mid := out[..];
      ok := PutFields(sink, fields.Items());
      assert out[sink.size..] == mid[sink.size..] == before[sink.size..];
      FieldBytesLength(fields.Items());
      n := if ok then sink.size else 0;
    } else {
      n := 0;
    }
    TailKept(out[..], before, sink.size, capacity);
  }

  lemma TailKept(after: seq<Byte>, before: seq<Byte>, size: nat, capacity: nat)
    requires size <= capacity <= |after| == |before| && after[size..] == before[size..]
    ensures after[capacity..] == before[capacity..]
  {
    assert after[capacity..] == after[size..][capacity - size..];
  }

  /** The field loop of the visitor. */
  method PutFields(sink: LayoutByteSink, fs: seq<Field>) returns (ok: bool)
    requires sink.Valid()
    modifies sink, sink.out
    ensures sink.Valid() && ok == (old(sink.size) + 24 * |fs| <= sink.capacity)
    ensures ok ==> sink.Written() == old(sink.Written()) + FieldBytes(fs)
    ensures sink.size >= old(sink.size) && sink.out[sink.size..] == old(sink.out[..])[sink.size..]
  {
    ghost var before, all := sink.Written(), sink.out[..];
    var i := 0;
    while i < |fs|
      invariant sink.Valid() && i <= |fs| && sink.size == |before| + 24 * i &&
        sink.Written() == before + FieldBytes(fs[..i])
      invariant sink.out[sink.size..] == all[sink.size..]
    {
      FieldBytesNext(fs, i);
      ghost var mid := sink.out[..];
      ok := sink.PutChunks(FieldChunks(fs[i]));
      assert sink.out[sink.size..] == mid[sink.size..] == all[sink.size..];
      if !ok { return; }
      i := i + 1;
    }
    assert fs[..i] == fs;
    return true;
  }

  /** `canonical_layout_hash`: exactly the hash of the encoded bytes, or the zero hash when the fields are missing. */
  method CanonicalLayoutHash(c: LayoutContext, id: Hash128, l: TypeLayout, fields: Listed<Field>) returns (h: Hash128)
    requires fields.Count() < 0x1_0000_0000
    ensures fields.WellFormed() ==>
      // The domain reads "LAYOUTV1".
      var s := HashBytes(HashBegin(0x4C41_594F_5554_5631), Encoding(c, id, l, fields.Items()));
      h == Hash128(s.lo, s.hi)
    ensures !fields.WellFormed() ==> h == Hash128(0, 0)
  {
    var state;
    state := VisitHash(HashBegin(LAYOUT_DOMAIN), HeaderChunks(c, id, l, fields.Count() as bv32), fields);
    if state.None? { return Hash128(0, 0); }
    h := Hash128(state.value.lo, state.value.hi);
  }

  /** `visit_canonical_layout` into a hash sink. */
  method VisitHash(begin: State, header: seq<seq<Byte>>, fields: Listed<Field>) returns (r: Option<State>)
    ensures fields.WellFormed() ==> r == Some(HashBytes(begin, Flatten(header) + FieldBytes(fields.Items())))
    ensures !fields.WellFormed() ==> r == None
  {
    var state := HashChunkList(begin, header);
    if fields.Count() != 0 && fields.Null? { return None; }
    ghost var mid := state;
    var fs := fields.Items();
    var i := 0;
    while i < |fs|
      invariant i <= |fs| && state == HashBytes(mid, FieldBytes(fs[..i]))
    {
      FieldBytesNext(fs, i);
      HashConcat(mid, FieldBytes(fs[..i]), Flatten(FieldChunks(fs[i])));
      state := HashChunkList(state, FieldChunks(fs[i]));
      i := i + 1;
    }
    assert fs[..i] == fs;
    HashConcat(begin, Flatten(header), FieldBytes(fs));
    r := Some(state);
  }

  /** Puts into the hash sink, one byte after the other. */
  method HashChunkList(state: State, chunks: seq<seq<Byte>>) returns (r: State)
    ensures r == HashBytes(state, Flatten(chunks))
  {
    r := state;
    var i := 0;
    while i < |chunks|
      invariant i <= |chunks| && r == HashBytes(state, Flatten(chunks[..i]))
    {
      FlattenNext(chunks, i);
      HashConcat(state, Flatten(chunks[..i]), chunks[i]);
      r := CanonicalHashBytes(r, chunks[i]);
      i := i + 1;
    }
    assert chunks[..i] == chunks;
  }

  lemma FlattenNext(chunks: seq<seq<Byte>>, k: nat)
    requires k < |chunks|
    ensures Flatten(chunks[..k + 1]) == Flatten(chunks[..k]) + chunks[k]
  {
    assert chunks[..k + 1] == chunks[..k] + ([chunks[k]] + []);
    FlattenConcat(chunks[..k], [chunks[k]] + []);
    FlattenFirst(chunks[k], []);
  }
}
