/** Mapping one layout of a type onto another (Model/Map.h), for plans applied without a converter. */
module MapPlan {
  import opened Options
  import opened InterfaceContract
  import opened TypeModel

  type Byte = bv8

  datatype Opcode = CopyField | ConvertInt | ConvertFloat | DefaultField | RenameField | SkipField | AddDefault
      | CallConverter | UnknownOpcode

  datatype Operation = Operation(opcode: Opcode, from: nat, to: nat, auxiliary: nat)

  /** A layout with the offsets of its fields. */
  datatype Layout = Layout(size: nat, align: nat, fields: Listed<nat>)

  datatype PlanStatus = PlanOk | InvalidPlan | InvalidLayout | InvalidOperation

  predicate ValidLayout(l: Layout) { l.size != 0 && Aligned(l.align) && l.fields.WellFormed() }

  predicate ValidField(index: nat, l: Layout) {
    !l.fields.Null? && index < l.fields.Count() && l.fields.Items()[index] < l.size
  }

  predicate ValidRange(index: nat, l: Layout, bytes: nat) {
    ValidField(index, l) && bytes <= l.size && l.fields.Items()[index] <= l.size - bytes
  }

  predicate Copies(op: Operation) { op.opcode == CopyField || op.opcode == RenameField }

  predicate Clears(op: Operation) { op.opcode == DefaultField || op.opcode == AddDefault }

  /** The operation may run; the converting ones need a converter. */
  predicate OpOk(op: Operation, src: Layout, dst: Layout) {
    if Copies(op) then ValidRange(op.from, src, op.auxiliary) && ValidRange(op.to, dst, op.auxiliary) &&
      op.auxiliary != 0
    else if Clears(op) then ValidRange(op.to, dst, op.auxiliary) && op.auxiliary != 0
    else op.opcode == SkipField && ValidField(op.from, src)
  }

  function FromAt(op: Operation, src: Layout): nat
    requires ValidField(op.from, src)
  {
    src.fields.Items()[op.from]
  }

  function ToAt(op: Operation, dst: Layout): nat
    requires ValidField(op.to, dst)
  {
    dst.fields.Items()[op.to]
  }

  predicate Fits(t: seq<Byte>, s: seq<Byte>, src: Layout, dst: Layout) { src.size <= |s| && dst.size <= |t| }

  /** The target after one operation. */
  function Step(t: seq<Byte>, s: seq<Byte>, op: Operation, src: Layout, dst: Layout): (r: seq<Byte>)
    requires Fits(t, s, src, dst) && OpOk(op, src, dst)
    ensures |r| == |t|
  {
    if Copies(op) then
      var a, b, n := FromAt(op, src), ToAt(op, dst), op.auxiliary;
      t[..b] + s[a..a + n] + t[b + n..]
    else if Clears(op) then
      var b, n := ToAt(op, dst), op.auxiliary;
      t[..b] + seq(n, _ => 0) + t[b + n..]
    else t
  }

  predicate AllOk(ops: seq<Operation>, n: nat, src: Layout, dst: Layout)
    requires n <= |ops|
  {
    forall i :: 0 <= i < n ==> OpOk(ops[i], src, dst)
  }

  /** The target after the first `n` operations, one after the other. */
  function Fold(t: seq<Byte>, s: seq<Byte>, ops: seq<Operation>, n: nat, src: Layout, dst: Layout): (r: seq<Byte>)
    requires n <= |ops| && Fits(t, s, src, dst) && AllOk(ops, n, src, dst)
    ensures |r| == |t|
  {
    if n == 0 then t else Step(Fold(t, s, ops, n - 1, src, dst), s, ops[n - 1], src, dst)
  }

  // ----- what a plan does

  /** The operation writes the byte at `p` of the target. */
  predicate Writes(op: Operation, dst: Layout, p: nat) {
    (Copies(op) || Clears(op)) && ValidField(op.to, dst) && ToAt(op, dst) <= p < ToAt(op, dst) + op.auxiliary
  }

  lemma StepByte(t: seq<Byte>, s: seq<Byte>, op: Operation, src: Layout, dst: Layout, p: nat)
    requires Fits(t, s, src, dst) && OpOk(op, src, dst) && p < |t|
    ensures Step(t, s, op, src, dst)[p] ==
      if !Writes(op, dst, p) then t[p] else if Clears(op) then 0 else s[FromAt(op, src) + p - ToAt(op, dst)]
  {
  }

  /** The layout has a field of that number, and so many bytes from its offset on lie inside the layout. */
  ghost predicate Spans(l: Layout, index: nat, bytes: nat) {
    index < |l.fields.Items()| && l.fields.Items()[index] + bytes <= l.size
  }

  /** Which operations run, opcode by opcode: copies need their bytes on both sides, defaults on the target side, a
      skipped field has to be there, and nothing else runs without a converter. */
  lemma OpOkExactly(op: Operation, src: Layout, dst: Layout)
    ensures OpOk(op, src, dst) <==>
      match op.opcode
      case CopyField => op.auxiliary > 0 && Spans(src, op.from, op.auxiliary) && Spans(dst, op.to, op.auxiliary)
      case RenameField => op.auxiliary > 0 && Spans(src, op.from, op.auxiliary) && Spans(dst, op.to, op.auxiliary)
      case DefaultField => op.auxiliary > 0 && Spans(dst, op.to, op.auxiliary)
      case AddDefault => op.auxiliary > 0 && Spans(dst, op.to, op.auxiliary)
      case SkipField => Spans(src, op.from, 1)
      case _ => false
  {
  }

  /** What one operation makes of every byte of the target. */
  lemma StepExactly(t: seq<Byte>, s: seq<Byte>, op: Operation, src: Layout, dst: Layout, p: nat)
    requires Fits(t, s, src, dst) && OpOk(op, src, dst) && p < |t|
    ensures
      var r := Step(t, s, op, src, dst)[p];
      if op.opcode == SkipField then r == t[p]
      else
        var b := dst.fields.Items()[op.to];
        if p < b || b + op.auxiliary <= p then r == t[p]
        else if op.opcode == DefaultField || op.opcode == AddDefault then r == 0
        else
          var k := src.fields.Items()[op.from] + (p - b);
          k < |s| && r == s[k]
  {
  }

  /** A byte that no operation writes keeps its value. */
  lemma {:induction false} UnwrittenKept(t: seq<Byte>, s: seq<Byte>, ops: seq<Operation>, n: nat, src: Layout,
      dst: Layout, p: nat)
    requires n <= |ops| && Fits(t, s, src, dst) && AllOk(ops, n, src, dst) && p < |t|
    requires forall i :: 0 <= i < n ==> !Writes(ops[i], dst, p)
    ensures Fold(t, s, ops, n, src, dst)[p] == t[p]
  {
    if n > 0 {
      UnwrittenKept(t, s, ops, n - 1, src, dst, p);
      StepByte(Fold(t, s, ops, n - 1, src, dst), s, ops[n - 1], src, dst, p);
    }
  }

  /** The bytes written lie inside the target layout, and those read inside the source layout. */
  lemma WritesInside(op: Operation, src: Layout, dst: Layout, p: nat)
    requires OpOk(op, src, dst) && Writes(op, dst, p)
    ensures p < dst.size && (Copies(op) ==> FromAt(op, src) + p - ToAt(op, dst) < src.size)
  {
  }

  /** The last operation that writes a byte decides it. */
  lemma {:induction false} LastWriterDecides(t: seq<Byte>, s: seq<Byte>, ops: seq<Operation>, n: nat, src: Layout,
      dst: Layout, p: nat, k: nat)
    requires n <= |ops| && Fits(t, s, src, dst) && AllOk(ops, n, src, dst) && p < |t|
    requires k < n && Writes(ops[k], dst, p) && forall i :: k < i < n ==> !Writes(ops[i], dst, p)
    ensures Fold(t, s, ops, n, src, dst)[p] == if Clears(ops[k]) then 0
      else s[FromAt(ops[k], src) + p - ToAt(ops[k], dst)]
  {
    StepByte(Fold(t, s, ops, n - 1, src, dst), s, ops[n - 1], src, dst, p);
    if k < n - 1 { LastWriterDecides(t, s, ops, n - 1, src, dst, p, k); }
  }

  /** A plan of copies whose target ranges do not overlap. */
  ghost predicate CopyPlan(ops: seq<Operation>, src: Layout, dst: Layout) {
    && AllOk(ops, |ops|, src, dst) && (forall i :: 0 <= i < |ops| ==> Copies(ops[i]))
    && (forall i, j, p: nat :: 0 <= i < j < |ops| ==> !(Writes(ops[i], dst, p) && Writes(ops[j], dst, p)))
  }

  /** Such a plan makes every target range equal to its source range. */
  lemma CopiesAreExact(t: seq<Byte>, s: seq<Byte>, ops: seq<Operation>, src: Layout, dst: Layout, k: nat, d: nat)
    requires CopyPlan(ops, src, dst) && Fits(t, s, src, dst) && k < |ops| && d < ops[k].auxiliary
    ensures ToAt(ops[k], dst) + d < |t| && FromAt(ops[k], src) + d < |s|
    ensures Fold(t, s, ops, |ops|, src, dst)[ToAt(ops[k], dst) + d] == s[FromAt(ops[k], src) + d]
  {
    var p := ToAt(ops[k], dst) + d;
    assert OpOk(ops[k], src, dst) && Copies(ops[k]);
    assert Writes(ops[k], dst, p);
    forall i | k < i < |ops|
      ensures !Writes(ops[i], dst, p)
    {
      assert !(Writes(ops[k], dst, p) && Writes(ops[i], dst, p));
    }
    LastWriterDecides(t, s, ops, |ops|, src, dst, p, k);
  }

  /** The plan read backwards: source and target indices change places. */
  function Swapped(ops: seq<Operation>): (r: seq<Operation>)
    ensures |r| == |ops| && forall i :: 0 <= i < |ops| ==> r[i] == ops[i].(from := ops[i].to, to := ops[i].from)
  {
    seq(|ops|, i requires 0 <= i < |ops| => ops[i].(from := ops[i].to, to := ops[i].from))
  }

  lemma SwappedOk(ops: seq<Operation>, src: Layout, dst: Layout)
    requires AllOk(ops, |ops|, src, dst) && forall i :: 0 <= i < |ops| ==> Copies(ops[i])
    ensures AllOk(Swapped(ops), |ops|, dst, src)
  {
    forall i | 0 <= i < |ops| ensures OpOk(Swapped(ops)[i], dst, src) { assert OpOk(ops[i], src, dst); }
  }

  /** The mapped target `m` holds every source range. */
  ghost predicate Carries(m: seq<Byte>, s: seq<Byte>, ops: seq<Operation>, src: Layout, dst: Layout)
    requires Fits(m, s, src, dst) && AllOk(ops, |ops|, src, dst) && forall i :: 0 <= i < |ops| ==> Copies(ops[i])
  {
    forall k, d :: 0 <= k < |ops| && 0 <= d < ops[k].auxiliary ==> CarriesByte(m, s, ops[k], src, dst, d)
  }

  ghost predicate CarriesByte(m: seq<Byte>, s: seq<Byte>, op: Operation, src: Layout, dst: Layout, d: nat)
    requires Fits(m, s, src, dst) && OpOk(op, src, dst) && Copies(op)
  {
    d < op.auxiliary ==> m[ToAt(op, dst) + d] == s[FromAt(op, src) + d]
  }

  /** Copying back a mapped target restores every source byte that the plan read, whatever the buffer held before. */
  lemma {:induction false} BackRestores(u: seq<Byte>, m: seq<Byte>, s: seq<Byte>, ops: seq<Operation>, n: nat,
      src: Layout, dst: Layout, p: nat)
    requires Fits(m, s, src, dst) && Fits(u, m, dst, src) && n <= |ops| && p < |u| && p < |s|
    requires AllOk(ops, |ops|, src, dst) && (forall i :: 0 <= i < |ops| ==> Copies(ops[i])) &&
      Carries(m, s, ops, src, dst)
    requires AllOk(Swapped(ops), n, dst, src)
    ensures (exists k :: 0 <= k < n && Writes(Swapped(ops)[k], src, p)) ==>
      Fold(u, m, Swapped(ops), n, dst, src)[p] == s[p]
  {
    if n > 0 {
      var back := Swapped(ops)[n - 1];
      BackRestores(u, m, s, ops, n - 1, src, dst, p);
      StepByte(Fold(u, m, Swapped(ops), n - 1, dst, src), m, back, dst, src, p);
      if Writes(back, src, p) { BackReads(m, s, ops[n - 1], src, dst, p); }
    }
  }

  /** The byte that the swapped operation writes at `p` is the source's own. */
  lemma BackReads(m: seq<Byte>, s: seq<Byte>, op: Operation, src: Layout, dst: Layout, p: nat)
    requires Fits(m, s, src, dst) && OpOk(op, src, dst) && Copies(op) && p < |s|
    requires FromAt(op, src) <= p < FromAt(op, src) + op.auxiliary
    requires forall d :: 0 <= d < op.auxiliary ==> CarriesByte(m, s, op, src, dst, d)
    ensures m[ToAt(op, dst) + p - FromAt(op, src)] == s[p]
  {
    assert CarriesByte(m, s, op, src, dst, p - FromAt(op, src));
  }

  lemma PlanCarries(t: seq<Byte>, s: seq<Byte>, ops: seq<Operation>, src: Layout, dst: Layout)
    requires CopyPlan(ops, src, dst) && Fits(t, s, src, dst)
    ensures Carries(Fold(t, s, ops, |ops|, src, dst), s, ops, src, dst)
  {
    var m := Fold(t, s, ops, |ops|, src, dst);
    forall i, e | 0 <= i < |ops| && 0 <= e < ops[i].auxiliary ensures CarriesByte(m, s, ops[i], src, dst, e) {
      CopiesAreExact(t, s, ops, src, dst, i, e);
    }
  }

  lemma BackWrites(ops: seq<Operation>, src: Layout, dst: Layout, k: nat, d: nat)
    requires AllOk(ops, |ops|, src, dst) && k < |ops| && Copies(ops[k]) && d < ops[k].auxiliary
    ensures OpOk(ops[k], src, dst) && FromAt(ops[k], src) + d < src.size &&
      Writes(Swapped(ops)[k], src, FromAt(ops[k], src) + d)
  {
  }

  lemma RestoresFrom(u: seq<Byte>, m: seq<Byte>, s: seq<Byte>, ops: seq<Operation>, src: Layout, dst: Layout, k: nat,
      p: nat)
    requires Fits(m, s, src, dst) && Fits(u, m, dst, src) && k < |ops| && p < src.size &&
      Writes(Swapped(ops)[k], src, p)
    requires AllOk(ops, |ops|, src, dst) && (forall i :: 0 <= i < |ops| ==> Copies(ops[i])) &&
      Carries(m, s, ops, src, dst)
    ensures AllOk(Swapped(ops), |ops|, dst, src) && Fold(u, m, Swapped(ops), |ops|, dst, src)[p] == s[p]
  {
    SwappedOk(ops, src, dst);
    BackRestores(u, m, s, ops, |ops|, src, dst, p);
  }

  /** Mapping with a copy plan and mapping back with the swapped plan gives every byte of every source range back. */
  lemma SwappedPlanRestores(t: seq<Byte>, s: seq<Byte>, u: seq<Byte>, ops: seq<Operation>, src: Layout, dst: Layout,
      k: nat, d: nat)
    requires CopyPlan(ops, src, dst) && Fits(t, s, src, dst) && Fits(u, t, dst, src) && k < |ops| &&
      d < ops[k].auxiliary
    ensures AllOk(Swapped(ops), |ops|, dst, src) && OpOk(ops[k], src, dst) && FromAt(ops[k], src) + d < src.size
    ensures Fold(u, Fold(t, s, ops, |ops|, src, dst), Swapped(ops), |ops|, dst,
      src)[FromAt(ops[k], src) + d] == s[FromAt(ops[k], src) + d]
  {
    PlanCarries(t, s, ops, src, dst);
    BackWrites(ops, src, dst, k, d);
    RestoresFrom(u, Fold(t, s, ops, |ops|, src, dst), s, ops, src, dst, k, FromAt(ops[k], src) + d);
  }

  // ----- applying a plan

  /** Empty, badly aligned, or without the fields it claims to have. */
  ghost predicate Malformed(l: Layout) {
    l.size == 0 || !PowerOfTwo(l.align) || Dangling(l.fields)
  }

  lemma ValidLayoutExactly(l: Layout)
    ensures ValidLayout(l) <==> !Malformed(l)
  {
    PowerOfTwoExactly(l.align);
  }

  /** Applies the plan in place. The valid operations before the first invalid one have been carried out, in order; all
      other bytes of the target are as before. */
  method Apply(operations: Option<seq<Operation>>, capacity: nat, src: Layout, dst: Layout, target: array?<Byte>,
      source: array?<Byte>) returns (status: PlanStatus, ghost done: nat)
    requires target != null && source != null ==>
      target != source && src.size <= source.Length && dst.size <= target.Length
    modifies target
    ensures status == InvalidPlan <==>
      operations.None? || |operations.value| > capacity || target == null || source == null
    ensures status == InvalidLayout <==> status != InvalidPlan && (Malformed(src) || Malformed(dst))
    ensures (status == InvalidPlan || status == InvalidLayout) && target != null ==> target[..] == old(target[..])
    ensures status == PlanOk || status == InvalidOperation ==>
      && done <= |operations.value| && AllOk(operations.value, done, src, dst)
      && target[..] == Fold(old(target[..]), source[..], operations.value, done, src, dst)
    ensures status == PlanOk ==> done == |operations.value|
    ensures status == InvalidOperation ==> done < |operations.value| && !OpOk(operations.value[done], src, dst)
  {
    done := 0;
    if operations.None? || |operations.value| > capacity || target == null || source == null { return InvalidPlan, 0; }
    ValidLayoutExactly(src);
    ValidLayoutExactly(dst);
    if !ValidLayout(src) || !ValidLayout(dst) { return InvalidLayout, 0; }
    var ops := operations.value;
    ghost var before := target[..];
    var i := 0;
    while i < |ops|
      invariant i <= |ops| && AllOk(ops, i, src, dst) && target[..] == Fold(before, source[..], ops, i, src, dst)
    {
      var ok := ApplyOne(ops[i], src, dst, target, source);
      if !ok { return InvalidOperation, i; }
      i := i + 1;
    }
    return PlanOk, i;
  }

  /** One turn of the operation loop. */
  method ApplyOne(op: Operation, src: Layout, dst: Layout, target: array<Byte>, source: array<Byte>) returns (ok: bool)
    requires target != source && src.size <= source.Length && dst.size <= target.Length
    modifies target
    ensures ok == OpOk(op, src, dst)
    ensures target[..] == if ok then Step(old(target[..]), source[..], op, src, dst) else old(target[..])
  {
    match op.opcode {
    case CopyField | RenameField =>
      if !ValidRange(op.from, src, op.auxiliary) || !ValidRange(op.to, dst, op.auxiliary) || op.auxiliary == 0 {
        return false;
      }
      MemCopy(target, ToAt(op, dst), source, FromAt(op, src), op.auxiliary);
    case DefaultField | AddDefault =>
      if !ValidRange(op.to, dst, op.auxiliary) || op.auxiliary == 0 { return false; }
      MemZero(target, ToAt(op, dst), op.auxiliary);
    case SkipField =>
      if !ValidField(op.from, src) { return false; }
    case ConvertInt | ConvertFloat | CallConverter | UnknownOpcode =>
      return false;
    }
    return true;
  }

  method MemCopy(target: array<Byte>, to: nat, source: array<Byte>, from: nat, n: nat)
    requires target != source && to + n <= target.Length && from + n <= source.Length
    modifies target
    ensures target[..] == old(target[..])[..to] + source[from..from + n] + old(target[..])[to + n..]
  {
    forall k | 0 <= k < n { target[to + k] := source[from + k]; }
    forall p | 0 <= p < target.Length
      ensures target[p] == (old(target[..])[..to] + source[from..from + n] + old(target[..])[to + n..])[p]
    {
      if to <= p < to + n { assert target[to + (p - to)] == source[from + (p - to)]; }
    }
  }

  method MemZero(target: array<Byte>, to: nat, n: nat)
    requires to + n <= target.Length
    modifies target
    ensures target[..] == old(target[..])[..to] + seq(n, _ => 0) + old(target[..])[to + n..]
  {
    forall k | 0 <= k < n { target[to + k] := 0; }
    forall p | 0 <= p < target.Length
      ensures target[p] == (old(target[..])[..to] + seq(n, _ => 0) + old(target[..])[to + n..])[p]
    {
      if to <= p < to + n { assert target[to + (p - to)] == 0; }
    }
  }
}
