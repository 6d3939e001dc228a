/**
 * The descriptor-driven codec of src/ld_santilizer.c: out_struct, close_output_pbs, gen_pdu,
 * in_struct, sizeof_struct. A bit string is the pair of its length and the number it spells,
 * most significant bit first.
 */
module Descriptors {
  import opened Wrappers
  import opened Common
  import opened BitString

  /** Plain stands for ft_mbz, ft_set and ft_sqn; the others for ft_enum, ft_fix, ft_slen, ft_plen. */
  datatype Kind = Plain | Named(ranges: seq<(nat, nat)>) | Fixed(num: nat) | SduLen | PduLen

  /**
   * One entry of a field list. Pads and strings have a declared size too, which only sizeof_struct
   * reads; Raw carries the number of bits that follow the payload.
   */
  datatype Field =
    | Num(kind: Kind, width: nat)
    | Pad(declared: nat)
    | Check(size: nat)
    | FixedStr(len: nat, declared: nat)
    | DynStr(declared: nat)
    | Raw(tail: nat, declared: nat)

  /** The struct member of a field; a null buffer is Str(None). A Check field carries its checksum. */
  datatype Val = Number(n: nat) | Str(s: Option<seq<byte>>) | Nothing

  predicate Typed(f: Field, v: Val) {
    match f
    case Num(_, _) => v.Number?
    case Check(_) => v.Number?
    case Pad(_) => v.Nothing?
    case _ => v.Str?
  }

  /** The width of a field at bit position pos, and the number its bits spell. */
  function FieldLen(f: Field, v: Val, pos: nat): (r: nat)
    requires Typed(f, v)
  {
    match f
    case Num(_, width) => width
    case Check(size) => size
    case Pad(_) => if pos % 8 == 0 then 0 else 8 - pos % 8
    case _ => if v.s == None then 0 else 8 * |v.s.value|
  }

  function FieldVal(f: Field, v: Val): nat
    requires Typed(f, v)
  {
    match f
    case Num(_, _) => v.n
    case Check(_) => v.n
    case Pad(_) => 0
    case _ => if v.s == None then 0 else BufVal(v.s.value)
  }

  ghost predicate AllTyped(fs: seq<Field>, vs: seq<Val>) {
    |vs| == |fs| && forall i :: 0 <= i < |fs| ==> Typed(fs[i], vs[i])
  }

  /** Field widths are 1 to 32 bits and checksums 8 or 32. */
  ghost predicate WellFormed(fs: seq<Field>) {
    forall i :: 0 <= i < |fs| ==>
      && (fs[i].Num? ==> 1 <= fs[i].width <= 32)
      && (fs[i].Check? ==> fs[i].size == 8 || fs[i].size == 32)
  }

  /** The first i fields as a bit string: length and number. */
  function EncLen(fs: seq<Field>, vs: seq<Val>, i: nat): nat
    requires AllTyped(fs, vs) && i <= |fs|
  {
    if i == 0 then 0 else EncLen(fs, vs, i - 1) + FieldLen(fs[i - 1], vs[i - 1], EncLen(fs, vs, i - 1))
  }

  function EncVal(fs: seq<Field>, vs: seq<Val>, i: nat): nat
    requires AllTyped(fs, vs) && i <= |fs|
  {
    if i == 0 then 0
    else Shl(EncVal(fs, vs, i - 1), LenAt(fs, vs, i - 1)) + FieldVal(fs[i - 1], vs[i - 1])
  }

  function LenAt(fs: seq<Field>, vs: seq<Val>, i: nat): nat
    requires AllTyped(fs, vs) && i < |fs|
  {
    FieldLen(fs[i], vs[i], EncLen(fs, vs, i))
  }

  /** Every numeric member fits its field. */
  ghost predicate InRange(fs: seq<Field>, vs: seq<Val>)
    requires AllTyped(fs, vs)
  {
    forall i :: 0 <= i < |fs| && vs[i].Number? ==> vs[i].n < Pow2(FieldLen(fs[i], vs[i], 0))
  }

  lemma ValFits(fs: seq<Field>, vs: seq<Val>, i: nat)
    requires AllTyped(fs, vs) && InRange(fs, vs) && i < |fs|
    ensures FieldVal(fs[i], vs[i]) < Pow2(LenAt(fs, vs, i))
  {
    if vs[i].Str? && vs[i].s.Some? {
      BufBound(vs[i].s.value);
    }
  }

  // The concatenation, spelt out

  /** The bits of the first i fields: each field's bits after those before it. */
  ghost function Concatenated(fs: seq<Field>, vs: seq<Val>, i: nat): seq<bool>
    requires AllTyped(fs, vs) && i <= |fs|
  {
    if i == 0 then []
    else Concatenated(fs, vs, i - 1) + ToBits(FieldVal(fs[i - 1], vs[i - 1]), LenAt(fs, vs, i - 1))
  }

  /** The number EncVal is the MSB-first concatenation of the field bits, pads being zeros. */
  lemma {:induction false} EncIsConcatenation(fs: seq<Field>, vs: seq<Val>, i: nat)
    requires AllTyped(fs, vs) && InRange(fs, vs) && i <= |fs|
    ensures ToBits(EncVal(fs, vs, i), EncLen(fs, vs, i)) == Concatenated(fs, vs, i)
    ensures i > 0 && fs[i - 1].Pad? ==>
      Concatenated(fs, vs, i) == Concatenated(fs, vs, i - 1) + Zeros(LenAt(fs, vs, i - 1))
    decreases i
  {
    if i > 0 {
      EncIsConcatenation(fs, vs, i - 1);
      ValFits(fs, vs, i - 1);
      ToBitsConcat(EncVal(fs, vs, i - 1), EncLen(fs, vs, i - 1),
                   FieldVal(fs[i - 1], vs[i - 1]), LenAt(fs, vs, i - 1));
      ToBitsZero(LenAt(fs, vs, i - 1));
    }
  }

  // Reading a field of an encoding, and changing one

  lemma {:induction false} EncLenGrows(fs: seq<Field>, vs: seq<Val>, i: nat, j: nat)
    requires AllTyped(fs, vs) && i <= j <= |fs|
    ensures EncLen(fs, vs, i) <= EncLen(fs, vs, j)
    decreases j
  {
    if i < j {
      EncLenGrows(fs, vs, i, j - 1);
    }
  }

  /** The bits of field j in the encoding of the first i fields. */
  lemma {:induction false} EncField(fs: seq<Field>, vs: seq<Val>, j: nat, i: nat)
    requires AllTyped(fs, vs) && InRange(fs, vs) && j < i <= |fs|
    ensures EncLen(fs, vs, j + 1) <= EncLen(fs, vs, i)
    ensures BitsAt(EncVal(fs, vs, i), EncLen(fs, vs, i) - EncLen(fs, vs, j + 1), LenAt(fs, vs, j))
            == FieldVal(fs[j], vs[j])
    decreases i
  {
    EncLenGrows(fs, vs, j + 1, i);
    var x, y, k := EncVal(fs, vs, i - 1), FieldVal(fs[i - 1], vs[i - 1]), LenAt(fs, vs, i - 1);
    ValFits(fs, vs, i - 1);
    if j == i - 1 {
      ShrOfShlAdd(x, y, k);
    } else {
      EncField(fs, vs, j, i - 1);
      var d := EncLen(fs, vs, i - 1) - EncLen(fs, vs, j + 1);
      ShrOfShlAdd(x, y, k);
      ShrShr(Shl(x, k) + y, k, d);
    }
  }

  /** Setting a zero number adds it at its place and moves nothing. */
  lemma {:induction false} EncSet(fs: seq<Field>, vs: seq<Val>, j: nat, n: nat, i: nat)
    requires AllTyped(fs, vs) && j < |fs| && i <= |fs| && vs[j] == Number(0)
    ensures AllTyped(fs, vs[j := Number(n)]) && EncLen(fs, vs[j := Number(n)], i) == EncLen(fs, vs, i)
    ensures i <= j ==> EncVal(fs, vs[j := Number(n)], i) == EncVal(fs, vs, i)
    ensures j < i ==> EncLen(fs, vs, j + 1) <= EncLen(fs, vs, i)
                      && EncVal(fs, vs[j := Number(n)], i)
                         == EncVal(fs, vs, i) + Shl(n, EncLen(fs, vs, i) - EncLen(fs, vs, j + 1))
    decreases i
  {
    var vs' := vs[j := Number(n)];
    if i > 0 {
      EncSet(fs, vs, j, n, i - 1);
      if j < i - 1 {
        var d, k := EncLen(fs, vs, i - 1) - EncLen(fs, vs, j + 1), LenAt(fs, vs, i - 1);
        ShlAdd(EncVal(fs, vs, i - 1), Shl(n, d), k);
        ShlShl(n, d, k);
      }
    }
  }
}

module StructOut {
  import opened Wrappers
  import opened Common
  import opened BitString
  import opened BitStream
  import opened Descriptors
  import Crc

  predicate IsNamed(ranges: seq<(nat, nat)>, n: nat) {
    exists i :: 0 <= i < |ranges| && ranges[i].0 <= n <= ranges[i].1
  }

  /** What the encoder puts in a field: the descriptor's number for a fixed field. */
  function Sent(f: Field, v: Val): Val {
    if f.Num? && f.kind.Fixed? then Number(f.kind.num) else v
  }

  function SentAll(fs: seq<Field>, vs: seq<Val>): (r: seq<Val>)
    requires |vs| == |fs|
    ensures |r| == |fs| && forall i :: 0 <= i < |fs| ==> r[i] == Sent(fs[i], vs[i])
  {
    seq(|fs|, i requires 0 <= i < |fs| => Sent(fs[i], vs[i]))
  }

  /** The fields whose place the encoder remembers. */
  datatype What = Sdu | Pdu | Checksum | Padding

  predicate Is(f: Field, what: What) {
    match what
    case Sdu => f.Num? && f.kind.SduLen?
    case Pdu => f.Num? && f.kind.PduLen?
    case Checksum => f.Check?
    case Padding => f.Pad?
  }

  /** The last such field among the first i. */
  function Last(fs: seq<Field>, what: What, i: nat): (r: Option<nat>)
    requires i <= |fs|
    ensures r.Some? ==> r.value < i && Is(fs[r.value], what)
  {
    if i == 0 then None else if Is(fs[i - 1], what) then Some(i - 1) else Last(fs, what, i - 1)
  }

  /** Byte and shift of a numeric field, as the encoder records them. */
  function Mark(fs: seq<Field>, vs: seq<Val>, j: Option<nat>): Option<(nat, int)>
    requires AllTyped(fs, vs) && (j.Some? ==> j.value < |fs| && (fs[j.value].Num? || fs[j.value].Check?))
  {
    if j == None then None
    else
      var p := EncLen(fs, vs, j.value);
      Some((p / 8, if fs[j.value].Check? then fs[j.value].size else fs[j.value].width - (8 - p % 8)))
  }

  /** The first byte after the last pad. */
  function PayloadStart(fs: seq<Field>, vs: seq<Val>, i: nat): Option<nat>
    requires AllTyped(fs, vs) && i <= |fs|
  {
    var j := Last(fs, Padding, i);
    if j == None then None else Some(EncLen(fs, vs, j.value + 1) / 8)
  }

  function StaticBits(fs: seq<Field>, i: nat): nat
    requires i <= |fs|
  {
    if i == 0 then 0 else StaticBits(fs, i - 1) + Declared(fs[i - 1])
  }

  /** The size a descriptor declares for a field. */
  function Declared(f: Field): nat {
    if f.Num? then f.width else if f.Check? then f.size else f.declared
  }

  /** Without pads and strings the declared size is the size of the encoding. */
  lemma {:induction false} DeclaredIsLength(fs: seq<Field>, vs: seq<Val>, i: nat)
    requires AllTyped(fs, vs) && i <= |fs| && forall k :: 0 <= k < i ==> fs[k].Num? || fs[k].Check?
    ensures StaticBits(fs, i) == EncLen(fs, vs, i)
  {
    if i > 0 { DeclaredIsLength(fs, vs, i - 1); }
  }

  /** sizeof_struct: the declared sizes of all fields, rounded up to bytes. */
  method SizeofStruct(fs: seq<Field>) returns (r: nat)
    ensures 8 * r - 8 < StaticBits(fs, |fs|) <= 8 * r
  {
    var bits := 0;
    for i := 0 to |fs|
      invariant bits == StaticBits(fs, i)
    {
      bits := bits + Declared(fs[i]);
    }
    r := if bits % 8 == 0 then bits / 8 else bits / 8 + 1;
  }

  /** bytes_len picks the member's container, which is never narrower than the field. */
  function Container(width: nat): (r: nat)
    ensures width <= 64 ==> width <= r
  {
    if width <= 8 then 8 else if width <= 16 then 16 else if width <= 32 then 32 else 64
  }

  /** bytes_len(width): the least r with (width - 1) >> r == 0, so width <= 2^r. */
  method BytesLen(width: nat) returns (r: nat)
    requires 1 <= width <= 64
    ensures r <= 6 && (if r <= 3 then 8 else Pow2(r)) == Container(width)
  {
    var n := width - 1;
    r := 0;
    while Shr(n, r) != 0
      invariant r <= 6 && (r == 0 || Pow2(r - 1) <= n)
      decreases 7 - r
    {
      ShrIsZero(n, r);
      assert Pow2(6) == 64;
      r := r + 1;
    }
    ShrIsZero(n, r);
    assert Pow2(0) == 1 && Pow2(1) == 2 && Pow2(2) == 4 && Pow2(3) == 8 && Pow2(4) == 16 && Pow2(5) == 32;
  }

  lemma {:induction false} ShrIsZero(n: nat, r: nat)
    ensures Shr(n, r) == 0 <==> n < Pow2(r)
  {
    if n < Pow2(r) {
      ShrBound(n, r, 0);
    } else {
      ShrNonzero(n, r);
    }
  }

  lemma {:induction false} ShrNonzero(n: nat, r: nat)
    requires n >= Pow2(r)
    ensures Shr(n, r) > 0
    decreases r
  {
    if r > 0 { ShrNonzero(n / 2, r - 1); }
  }

  // The value of the buffer while fields are emitted

  lemma Extends(e: nat, t: nat, k: nat, y: nat)
    ensures Shl(e, t + k) + Shl(y, t) == Shl(Shl(e, k) + y, t)
  {
    ShlAdd(Shl(e, k), y, t);
    ShlShl(e, k, t);
  }

  /** Beyond the fields emitted so far the buffer is zero. */
  lemma RoomIsZero(e: nat, t: nat, k: nat)
    ensures BitsAt(Shl(e, t + k), t, k) == 0
  {
    RangeBelow(0, e, t, k);
    ShrZero(t);
    LowZero(k);
  }

  /** The buffer holds the first i fields and zeros after them. */
  ghost predicate Holds(v: nat, len: nat, fs: seq<Field>, vs: seq<Val>, i: nat)
    requires AllTyped(fs, vs) && i <= |fs|
  {
    EncLen(fs, vs, i) <= 8 * len && v == Shl(EncVal(fs, vs, i), 8 * len - EncLen(fs, vs, i))
  }

  lemma HoldsNext(v: nat, len: nat, fs: seq<Field>, vs: seq<Val>, i: nat)
    requires AllTyped(fs, vs) && i < |fs| && Holds(v, len, fs, vs, i) && EncLen(fs, vs, i + 1) <= 8 * len
    ensures var t := Tail(len, EncLen(fs, vs, i), LenAt(fs, vs, i));
            && BitsAt(v, t, LenAt(fs, vs, i)) == 0
            && Holds(v + Shl(FieldVal(fs[i], vs[i]), t), len, fs, vs, i + 1)
  {
    var t, k := Tail(len, EncLen(fs, vs, i), LenAt(fs, vs, i)), LenAt(fs, vs, i);
    RoomIsZero(EncVal(fs, vs, i), t, k);
    Extends(EncVal(fs, vs, i), t, k, FieldVal(fs[i], vs[i]));
  }

  /** A pad, a placeholder or a null buffer adds nothing. */
  lemma HoldsSkip(v: nat, len: nat, fs: seq<Field>, vs: seq<Val>, i: nat)
    requires AllTyped(fs, vs) && i < |fs| && Holds(v, len, fs, vs, i) && EncLen(fs, vs, i + 1) <= 8 * len
    requires FieldVal(fs[i], vs[i]) == 0
    ensures Holds(v, len, fs, vs, i + 1)
  {
    HoldsNext(v, len, fs, vs, i);
    ShlZero(Tail(len, EncLen(fs, vs, i), LenAt(fs, vs, i)));
  }

  lemma {:induction false} ZeroBuffer(s: seq<byte>)
    requires forall i :: 0 <= i < |s| ==> s[i] == 0
    ensures BufVal(s) == 0
  {
    if s != [] { ZeroBuffer(s[..|s| - 1]); }
  }

  /** How out_struct ends; Overflow marks a field that runs past the buffer, which the source does not check. */
  datatype Emitted = Done | Failed | Overflow

  /** The first field from i on that runs past the buffer or names no enumeration value decides. */
  ghost function EmittedFrom(fs: seq<Field>, vs: seq<Val>, len: nat, i: nat): Emitted
    requires AllTyped(fs, vs) && i <= |fs|
    decreases |fs| - i
  {
    if i == |fs| then Done
    else if EncLen(fs, SentAll(fs, vs), i + 1) > 8 * len then Overflow
    else if fs[i].Num? && fs[i].kind.Named? && !IsNamed(fs[i].kind.ranges, vs[i].n) then Failed
    else EmittedFrom(fs, vs, len, i + 1)
  }

  ghost function EmittedBy(fs: seq<Field>, vs: seq<Val>, len: nat): Emitted
    requires AllTyped(fs, vs)
  {
    if StaticBits(fs, |fs|) > 8 * len then Failed else EmittedFrom(fs, vs, len, 0)
  }

  /** Everything is written exactly when the declared and the real size fit and all enumeration values have names. */
  lemma {:induction false} AllEmitted(fs: seq<Field>, vs: seq<Val>, len: nat, i: nat)
    requires AllTyped(fs, vs) && i <= |fs| && AllNamed(fs, vs, i) && EncLen(fs, SentAll(fs, vs), i) <= 8 * len
    ensures EmittedFrom(fs, vs, len, i) == Done
            <==> AllNamed(fs, vs, |fs|) && EncLen(fs, SentAll(fs, vs), |fs|) <= 8 * len
    decreases |fs| - i
  {
    if i < |fs| {
      EncLenGrows(fs, SentAll(fs, vs), i + 1, |fs|);
      NamedStep(fs, vs, i);
      if EmittedFrom(fs, vs, len, i) == EmittedFrom(fs, vs, len, i + 1) && AllNamed(fs, vs, i + 1)
         && EncLen(fs, SentAll(fs, vs), i + 1) <= 8 * len {
        AllEmitted(fs, vs, len, i + 1);
      }
    }
  }

  /**
   * An output stream over a zeroed buffer. `plen` and `crc` are the places to be filled on closing;
   * `slen` and `start` belong to the sub-stream out_struct opens at the last pad.
   */
  class PbStream {
    const buf: array<byte>
    var cur: nat
    var bitsize: nat
    var plen: Option<(nat, int)>
    var crc: Option<(nat, int)>
    var slen: Option<(nat, int)>
    var start: Option<nat>

    constructor (size: nat)
      ensures fresh(buf) && buf.Length == size
      ensures Fresh()
    {
      buf := new byte[size](_ => 0);
      cur, bitsize, plen, crc, slen, start := 0, 0, None, None, None, None;
      new;
      ZeroBuffer(buf[..]);
    }

    ghost predicate Fresh()
      reads this, buf
    {
      && BufVal(buf[..]) == 0 && cur == 0 && bitsize == 0
      && plen == None && crc == None && slen == None && start == None
    }

    /** The stream stands after the first i fields. */
    ghost predicate At(fs: seq<Field>, vs: seq<Val>, i: nat)
      reads this, buf
    {
      AllTyped(fs, vs) && i <= |fs| && Positioned(fs, vs, i) && Marked(fs, vs, i)
    }

    ghost predicate Positioned(fs: seq<Field>, vs: seq<Val>, i: nat)
      requires AllTyped(fs, vs) && i <= |fs|
      reads this`cur, this`bitsize, buf
    {
      && cur == EncLen(fs, vs, i) / 8 && bitsize % 8 == EncLen(fs, vs, i) % 8
      && Holds(BufVal(buf[..]), buf.Length, fs, vs, i)
    }

    ghost predicate Marked(fs: seq<Field>, vs: seq<Val>, i: nat)
      requires AllTyped(fs, vs) && i <= |fs|
      reads this`plen, this`crc, this`slen, this`start
    {
      && plen == Mark(fs, vs, Last(fs, Pdu, i)) && crc == Mark(fs, vs, Last(fs, Checksum, i))
      && slen == Mark(fs, vs, Last(fs, Sdu, i)) && start == PayloadStart(fs, vs, i)
    }

    /** A numeric field. */
    method EmitNum(n: nat, kind: Kind, width: nat, ghost fs: seq<Field>, ghost vs: seq<Val>, ghost i: nat)
      requires At(fs, vs, i) && i < |fs| && EncLen(fs, vs, i + 1) <= 8 * buf.Length
      requires fs[i] == Num(kind, width) && vs[i] == Number(n) && n < Pow2(width)
      modifies this, buf
      ensures At(fs, vs, i + 1)
    {
      var toShift := width - (8 - bitsize % 8);
      Remember(kind, toShift, fs, vs, i);
      HoldsNext(BufVal(buf[..]), buf.Length, fs, vs, i);
      SamePhase(bitsize, EncLen(fs, vs, i), width);
      cur := AppendBits(buf, cur, toShift, n, EncLen(fs, vs, i), width);
      bitsize := bitsize + width;
    }

    /** The place of a length field is remembered. */
    method Remember(kind: Kind, toShift: int, ghost fs: seq<Field>, ghost vs: seq<Val>, ghost i: nat)
      requires AllTyped(fs, vs) && i < |fs| && Marked(fs, vs, i)
      requires fs[i].Num? && fs[i].kind == kind && Some((cur, toShift)) == Mark(fs, vs, Some(i))
      modifies this`slen, this`plen
      ensures Marked(fs, vs, i + 1)
    {
      if kind.SduLen? {
        slen := Some((cur, toShift));
      } else if kind.PduLen? {
        plen := Some((cur, toShift));
      }
    }

    lemma Starts(fs: seq<Field>, vs: seq<Val>)
      requires Fresh() && AllTyped(fs, vs)
      ensures At(fs, vs, 0)
    {
      ShlZero(8 * buf.Length);
    }

    lemma MarksStay(fs: seq<Field>, vs: seq<Val>, i: nat)
      requires AllTyped(fs, vs) && i < |fs| && Marked(fs, vs, i) && vs[i].Str?
      ensures Marked(fs, vs, i + 1)
    {
    }

    method EmitPad(ghost fs: seq<Field>, ghost vs: seq<Val>, ghost i: nat)
      requires At(fs, vs, i) && i < |fs| && EncLen(fs, vs, i + 1) <= 8 * buf.Length && fs[i].Pad?
      modifies this
      ensures At(fs, vs, i + 1)
    {
      HoldsSkip(BufVal(buf[..]), buf.Length, fs, vs, i);
      if bitsize % 8 != 0 {
        cur := cur + 1;
      }
      bitsize := 0;
      start := Some(cur);
    }

    /** The place of the checksum is skipped and remembered. */
    method EmitCheck(size: nat, ghost fs: seq<Field>, ghost vs: seq<Val>, ghost i: nat)
      requires At(fs, vs, i) && i < |fs| && EncLen(fs, vs, i + 1) <= 8 * buf.Length
      requires fs[i] == Check(size) && size % 8 == 0 && vs[i] == Number(0)
      modifies this
      ensures At(fs, vs, i + 1)
    {
      HoldsSkip(BufVal(buf[..]), buf.Length, fs, vs, i);
      crc := Some((cur, size));
      cur := cur + size / 8;
    }

    method EmitStr(b: Option<seq<byte>>, ghost fs: seq<Field>, ghost vs: seq<Val>, ghost i: nat)
      requires At(fs, vs, i) && i < |fs| && EncLen(fs, vs, i + 1) <= 8 * buf.Length && vs[i] == Str(b)
      modifies this`cur, this`bitsize, buf
      ensures At(fs, vs, i + 1)
    {
      MarksStay(fs, vs, i);
      if b == None {
        HoldsSkip(BufVal(buf[..]), buf.Length, fs, vs, i);
      } else {
        EmitBytes(b.value, fs, vs, i);
      }
    }

    method EmitBytes(b: seq<byte>, ghost fs: seq<Field>, ghost vs: seq<Val>, ghost i: nat)
      requires AllTyped(fs, vs) && i < |fs| && Positioned(fs, vs, i) && EncLen(fs, vs, i + 1) <= 8 * buf.Length
      requires vs[i] == Str(Some(b))
      modifies this`cur, this`bitsize, buf
      ensures Positioned(fs, vs, i + 1)
    {
      HoldsNext(BufVal(buf[..]), buf.Length, fs, vs, i);
      SamePhase(bitsize, EncLen(fs, vs, i), 8 * |b|);
      cur, bitsize := AppendStr(buf, cur, bitsize, b, EncLen(fs, vs, i));
    }

    /** append_bits at a remembered place: fills a length field that was written as zero. */
    method Fill(place: (nat, int), x: nat, ghost fs: seq<Field>, ghost vs: seq<Val>, ghost j: nat)
      requires AllTyped(fs, vs) && InRange(fs, vs) && Holds(BufVal(buf[..]), buf.Length, fs, vs, |fs|)
      requires j < |fs| && fs[j].Num? && vs[j] == Number(0) && x < Pow2(fs[j].width)
      requires Some(place) == Mark(fs, vs, Some(j))
      modifies buf
      ensures AllTyped(fs, vs[j := Number(x)]) && InRange(fs, vs[j := Number(x)])
      ensures Holds(BufVal(buf[..]), buf.Length, fs, vs[j := Number(x)], |fs|)
    {
      FillPlace(BufVal(buf[..]), buf.Length, fs, vs, j, x);
      var _ := AppendBits(buf, place.0, place.1, x, EncLen(fs, vs, j), fs[j].width);
    }

    /** A field of any kind. */
    method EmitField(f: Field, v: Val, ghost fs: seq<Field>, ghost vs: seq<Val>, ghost i: nat)
      requires At(fs, vs, i) && i < |fs| && EncLen(fs, vs, i + 1) <= 8 * buf.Length && fs[i] == f && vs[i] == v
      requires f.Num? ==> v.n < Pow2(f.width)
      requires f.Check? ==> f.size % 8 == 0 && v == Number(0)
      modifies this, buf
      ensures At(fs, vs, i + 1)
    {
      if f.Num? {
        EmitNum(v.n, f.kind, f.width, fs, vs, i);
      } else if f.Pad? {
        EmitPad(fs, vs, i);
      } else if f.Check? {
        EmitCheck(f.size, fs, vs, i);
      } else {
        EmitStr(v.s, fs, vs, i);
      }
    }

    /** The loop of out_struct. */
    method OutFields(fs: seq<Field>, vs: seq<Val>) returns (r: Emitted)
      requires AllTyped(fs, vs) && WellFormed(fs) && InRange(fs, SentAll(fs, vs)) && Blank(fs, vs) && Fresh()
      modifies this, buf
      ensures r == EmittedFrom(fs, vs, buf.Length, 0)
      ensures r == Done ==> At(fs, SentAll(fs, vs), |fs|)
    {
      ghost var sent := SentAll(fs, vs);
      Starts(fs, sent);
      for i := 0 to |fs|
        invariant At(fs, sent, i) && EmittedFrom(fs, vs, buf.Length, i) == EmittedFrom(fs, vs, buf.Length, 0)
      {
        r := OutField(fs, vs, i);
        if r != Done {
          return;
        }
      }
      r := Done;
    }

    /** One round of it. */
    method OutField(fs: seq<Field>, vs: seq<Val>, i: nat) returns (r: Emitted)
      requires AllTyped(fs, vs) && WellFormed(fs) && InRange(fs, SentAll(fs, vs)) && Blank(fs, vs) && i < |fs|
      requires At(fs, SentAll(fs, vs), i)
      modifies this, buf
      ensures r == Done ==> At(fs, SentAll(fs, vs), i + 1)
      ensures EmittedFrom(fs, vs, buf.Length, i) == if r == Done then EmittedFrom(fs, vs, buf.Length, i + 1) else r
    {
      var fits := Fits(fs[i], Sent(fs[i], vs[i]), fs, SentAll(fs, vs), i);
      if !fits {
        return Overflow;
      }
      if fs[i].Num? && fs[i].kind.Named? && !IsNamed(fs[i].kind.ranges, vs[i].n) {
        return Failed;
      }
      ReadyField(fs, vs, i);
      EmitField(fs[i], Sent(fs[i], vs[i]), fs, SentAll(fs, vs), i);
      r := Done;
    }

    /** Whether a field ends inside the buffer; the source does not ask. */
    method Fits(f: Field, v: Val, ghost fs: seq<Field>, ghost vs: seq<Val>, ghost i: nat) returns (ok: bool)
      requires At(fs, vs, i) && i < |fs| && fs[i] == f && vs[i] == v
      ensures ok <==> EncLen(fs, vs, i + 1) <= 8 * buf.Length
    {
      var pos := 8 * cur + bitsize % 8;
      ok := pos + FieldLen(f, v, pos) <= 8 * buf.Length;
    }

    /**
     * out_struct with no sub-stream: writes the fields in order, then fills the sdu length with the
     * bytes from the last pad to the end. It fails when the declared size does not fit or an
     * enumeration value has no name, and then leaves the cursor alone.
     */
    method OutStruct(fs: seq<Field>, vs: seq<Val>) returns (r: Emitted)
      requires AllTyped(fs, vs) && WellFormed(fs) && InRange(fs, SentAll(fs, vs)) && Blank(fs, vs)
      requires SduFits(fs, SentAll(fs, vs))
      requires Fresh()
      modifies this, buf
      ensures r == EmittedBy(fs, vs, buf.Length)
      ensures r == Failed ==> cur == 0
      ensures r == Done ==> Written(fs, SentAll(fs, vs))
    {
      var size := SizeofStruct(fs);
      if buf.Length < size {
        return Failed;
      }
      r := OutFields(fs, vs);
      if r == Failed {
        cur := 0;
      }
      if r != Done {
        return;
      }
      FillSdu(fs, SentAll(fs, vs));
    }

    method FillSdu(ghost fs: seq<Field>, ghost vs: seq<Val>)
      requires At(fs, vs, |fs|) && InRange(fs, vs) && Blank(fs, vs) && SduFits(fs, vs)
      modifies buf
      ensures Written(fs, vs)
    {
      if slen.Some? {
        Fill(slen.value, cur - start.value, fs, vs, Last(fs, Sdu, |fs|).value);
      }
    }

    /** All fields are in place, the sdu length included; pdu length and checksum are still zero. */
    ghost predicate Written(fs: seq<Field>, vs: seq<Val>)
      requires AllTyped(fs, vs) && SduFits(fs, vs)
      reads this, buf
    {
      && cur == EncLen(fs, vs, |fs|) / 8 && EncLen(fs, vs, |fs|) <= 8 * buf.Length
      && AllTyped(fs, WithSdu(fs, vs)) && InRange(fs, WithSdu(fs, vs))
      && Holds(BufVal(buf[..]), buf.Length, fs, WithSdu(fs, vs), |fs|)
      && plen == Mark(fs, vs, Last(fs, Pdu, |fs|)) && crc == Mark(fs, vs, Last(fs, Checksum, |fs|))
    }

    /** close_output_pbs, first part: the pdu length is the number of bytes written. */
    method ClosePdu(ghost fs: seq<Field>, ghost vs: seq<Val>)
      requires AllTyped(fs, vs) && SduFits(fs, vs) && PduFits(fs, vs) && Blank(fs, vs) && Written(fs, vs)
      modifies buf
      ensures AllTyped(fs, WithLengths(fs, vs)) && InRange(fs, WithLengths(fs, vs))
      ensures Holds(BufVal(buf[..]), buf.Length, fs, WithLengths(fs, vs), |fs|)
    {
      if plen.Some? {
        WithSduSame(fs, vs, Last(fs, Pdu, |fs|).value);
        Fill(plen.value, cur, fs, WithSdu(fs, vs), Last(fs, Pdu, |fs|).value);
      }
    }

    method FillCheck(at: nat, size: nat, sum: nat, ghost fs: seq<Field>, ghost vs: seq<Val>, ghost j: nat)
      requires AllTyped(fs, vs) && InRange(fs, vs) && Holds(BufVal(buf[..]), buf.Length, fs, vs, |fs|)
      requires j < |fs| && fs[j] == Check(size) && vs[j] == Number(0) && sum < Pow2(size)
      requires 8 * at == EncLen(fs, vs, j) && size % 8 == 0
      modifies buf
      ensures AllTyped(fs, vs[j := Number(sum)]) && InRange(fs, vs[j := Number(sum)])
      ensures Holds(BufVal(buf[..]), buf.Length, fs, vs[j := Number(sum)], |fs|)
      ensures at <= buf.Length && buf[..at] == old(buf[..at])
    {
      FillPlace(BufVal(buf[..]), buf.Length, fs, vs, j, sum);
      StoreCheck(buf, at, size, sum);
    }

    /** close_output_pbs, last part: the checksum of the bytes before its place, most significant byte first. */
    method CloseCheck(ghost fs: seq<Field>, ghost vs: seq<Val>)
      requires AllTyped(fs, vs) && InRange(fs, vs) && WellFormed(fs) && Holds(BufVal(buf[..]), buf.Length, fs, vs, |fs|)
      requires crc == Mark(fs, vs, Last(fs, Checksum, |fs|)) && CheckAligned(fs, vs) && Blank1(fs, vs, Checksum)
      modifies buf
      ensures AllTyped(fs, WithCheck(fs, vs, buf[..])) && InRange(fs, WithCheck(fs, vs, buf[..]))
      ensures Holds(BufVal(buf[..]), buf.Length, fs, WithCheck(fs, vs, buf[..]), |fs|)
    {
      if crc.Some? {
        ghost var j, s := Last(fs, Checksum, |fs|).value, buf[..];
        var (at, size) := crc.value;
        MarkOfCheck(fs, vs, j);
        EncLenGrows(fs, vs, j, |fs|);
        var sum := Sum(size, buf[..at]);
        FillCheck(at, size, sum, fs, vs, j);
        assert buf[..][..at] == buf[..at] == s[..at];
        assert WithCheck(fs, vs, buf[..]) == vs[j := Number(sum)];
      }
    }
  }

  /** Runs the checksum loops on a byte sequence. */
  method Sum(size: nat, s: seq<byte>) returns (sum: nat)
    requires size == 8 || size == 32
    ensures sum == CheckSum(size, s) && sum < Pow2(size)
  {
    if size == 8 {
      sum := Sum8(s);
      ByteRange();
    } else {
      sum := Sum32(s);
      WordRange();
    }
  }

  method Sum8(s: seq<byte>) returns (sum: nat)
    ensures sum == CheckSum8(s) && sum < 256
  {
    var c := Crc.Crc8(ToBv(s));
    sum := c as nat;
  }

  method Sum32(s: seq<byte>) returns (sum: nat)
    ensures sum == CheckSum32(s) && sum < 0x1_0000_0000
  {
    var c := Crc.Crc32(ToBv(s));
    sum := c as nat;
  }

  lemma WordRange()
    ensures Pow2(32) == 0x1_0000_0000
  {
    Pow2Octet(0);
    Pow2Octet(8);
    Pow2Octet(16);
    Pow2Octet(24);
  }

  function ToBv(s: seq<byte>): seq<bv8> {
    seq(|s|, i requires 0 <= i < |s| => s[i] as bv8)
  }

  function CheckSum8(s: seq<byte>): nat {
    Crc.Slow8(0, ToBv(s)) as nat
  }

  function CheckSum32(s: seq<byte>): nat {
    (Crc.Slow32(0, ToBv(s)) ^ 0xFFFFFFFF) as nat
  }

  /** The checksum of a byte sequence, as a number. */
  function CheckSum(size: nat, s: seq<byte>): nat {
    if size == 8 then CheckSum8(s) else CheckSum32(s)
  }

  /** Stores a number of `size` bits, most significant byte first, over zero bytes. */
  method StoreCheck(a: array<byte>, at: nat, size: nat, sum: nat)
    requires size % 8 == 0 && 8 * at + size <= 8 * a.Length && sum < Pow2(size)
    requires BitsAt(BufVal(a[..]), Tail(a.Length, 8 * at, size), size) == 0
    modifies a
    ensures BufVal(a[..]) == old(BufVal(a[..])) + Shl(sum, Tail(a.Length, 8 * at, size))
    ensures a[..at] == old(a[..at])
  {
    ghost var v0, t := BufVal(a[..]), Tail(a.Length, 8 * at, size);
    BitStream.WrittenNone(sum, size);
    ShlZero(t);
    for p := 0 to size / 8
      invariant BufVal(a[..]) == v0 + Shl(BitStream.Written(sum, size - 8 * p), t)
      invariant a[..at] == old(a[..at])
    {
      StoreByte(a, at + p, Low(Shr(sum, size - 8 * p - 8), Octet()), v0, sum, t, size, size - 8 * p);
    }
  }

  method StoreByte(a: array<byte>, c: nat, b: nat, ghost v0: nat, ghost sum: nat, ghost t: nat, ghost w: nat,
                   ghost r: nat)
    requires 8 <= r <= w && c < a.Length && t + (r - 8) == 8 * (a.Length - 1 - c) && BitsAt(v0, t, w) == 0
    requires BufVal(a[..]) == v0 + Shl(BitStream.Written(sum, r), t) && b == Low(Shr(sum, r - 8), Octet())
    modifies a
    ensures BufVal(a[..]) == v0 + Shl(BitStream.Written(sum, r - 8), t)
    ensures a[..c] == old(a[..c])
  {
    ghost var s := a[..];
    ByteAdds(s, c, b, v0, sum, t, w, r);
    a[c] := b;
    assert a[..] == s[c := s[c] + b];
  }

  lemma ByteAdds(s: seq<byte>, c: nat, b: nat, v0: nat, sum: nat, t: nat, w: nat, r: nat)
    requires 8 <= r <= w && c < |s| && t + (r - 8) == 8 * (|s| - 1 - c) && BitsAt(v0, t, w) == 0
    requires BufVal(s) == v0 + Shl(BitStream.Written(sum, r), t) && b == Low(Shr(sum, r - 8), Octet())
    ensures s[c] + b == b < 256 && BufVal(s[c := s[c] + b]) == v0 + Shl(BitStream.Written(sum, r - 8), t)
  {
    ZeroByte(s, c, v0, sum, t, w, r);
    ByteRange();
    WrittenMore(sum, r, Octet(), t);
    BufStore(s, c, b);
  }

  lemma ZeroByte(s: seq<byte>, c: nat, v0: nat, sum: nat, t: nat, w: nat, r: nat)
    requires 8 <= r <= w && c < |s| && t + (r - 8) == 8 * (|s| - 1 - c) && BitsAt(v0, t, w) == 0
    requires BufVal(s) == v0 + Shl(BitStream.Written(sum, r), t)
    ensures s[c] == 0
  {
    GapStays(v0, sum, t, w, r, Octet());
    ByteOf(s, c);
  }

  lemma {:induction false} MarkOfCheck(fs: seq<Field>, vs: seq<Val>, j: nat)
    requires AllTyped(fs, vs) && WellFormed(fs) && CheckAligned(fs, vs) && j < |fs| && fs[j].Check?
    ensures var m := Mark(fs, vs, Some(j)).value;
            8 * m.0 == EncLen(fs, vs, j) && m.1 == fs[j].size && fs[j].size % 8 == 0
  {
    WholeBytes(EncLen(fs, vs, j));
    CheckSizes(fs[j].size);
  }

  lemma CheckSizes(size: nat)
    requires size == 8 || size == 32
    ensures size % 8 == 0 && 8 * (size / 8) == size
  {
  }

  lemma WholeBytes(x: nat)
    requires x % 8 == 0
    ensures 8 * (x / 8) == x
  {
  }

  lemma SamePhase(a: nat, b: nat, w: nat)
    requires a % 8 == b % 8
    ensures (a + w) % 8 == (b + w) % 8
  {
  }

  lemma NamedStep(fs: seq<Field>, vs: seq<Val>, i: nat)
    requires AllTyped(fs, vs) && i < |fs| && AllNamed(fs, vs, i)
    ensures AllNamed(fs, vs, i + 1) <==>
            (fs[i].Num? && fs[i].kind.Named? ==> IsNamed(fs[i].kind.ranges, vs[i].n))
    ensures !AllNamed(fs, vs, i + 1) ==> !AllNamed(fs, vs, |fs|)
  {
  }

  lemma ReadyField(fs: seq<Field>, vs: seq<Val>, i: nat)
    requires AllTyped(fs, vs) && WellFormed(fs) && InRange(fs, SentAll(fs, vs)) && Blank(fs, vs) && i < |fs|
    ensures var f, v := fs[i], SentAll(fs, vs)[i];
            (f.Num? ==> v.n < Pow2(f.width)) && (f.Check? ==> f.size % 8 == 0 && v == Number(0))
  {
  }

  lemma {:induction false} ShiftedRange(e: nat, a: nat, b: nat, w: nat)
    ensures BitsAt(Shl(e, a), a + b, w) == BitsAt(e, b, w)
  {
    ShrShr(Shl(e, a), a, b);
    ShrOfShlAdd(e, 0, a);
  }

  /** A zero number's place is zero in the buffer, and adding there sets the number. */
  lemma FillPlace(v: nat, len: nat, fs: seq<Field>, vs: seq<Val>, j: nat, x: nat)
    requires AllTyped(fs, vs) && InRange(fs, vs) && Holds(v, len, fs, vs, |fs|)
    requires j < |fs| && vs[j] == Number(0) && x < Pow2(LenAt(fs, vs, j)) && (fs[j].Num? || fs[j].Check?)
    ensures EncLen(fs, vs, j + 1) <= 8 * len
    ensures BitsAt(v, Tail(len, EncLen(fs, vs, j), LenAt(fs, vs, j)), LenAt(fs, vs, j)) == 0
    ensures AllTyped(fs, vs[j := Number(x)]) && InRange(fs, vs[j := Number(x)])
    ensures Holds(v + Shl(x, Tail(len, EncLen(fs, vs, j), LenAt(fs, vs, j))), len, fs, vs[j := Number(x)], |fs|)
  {
    var n := |fs|;
    EncField(fs, vs, j, n);
    var a, b := 8 * len - EncLen(fs, vs, n), EncLen(fs, vs, n) - EncLen(fs, vs, j + 1);
    ShiftedRange(EncVal(fs, vs, n), a, b, LenAt(fs, vs, j));
    EncSet(fs, vs, j, x, n);
    ShlAdd(EncVal(fs, vs, n), Shl(x, b), a);
    ShlShl(x, b, a);
  }

  ghost predicate AllNamed(fs: seq<Field>, vs: seq<Val>, i: nat)
    requires AllTyped(fs, vs) && i <= |fs|
  {
    forall k :: 0 <= k < i && fs[k].Num? && fs[k].kind.Named? ==> IsNamed(fs[k].kind.ranges, vs[k].n)
  }

  /** Checksums and length fields enter as zero. */
  ghost predicate Blank(fs: seq<Field>, vs: seq<Val>)
    requires AllTyped(fs, vs)
  {
    forall i :: 0 <= i < |fs| && (Is(fs[i], Checksum) || Is(fs[i], Sdu) || Is(fs[i], Pdu)) ==> vs[i] == Number(0)
  }

  /** The bytes from the last pad to the end. */
  function SduLength(fs: seq<Field>, vs: seq<Val>): int
    requires AllTyped(fs, vs)
  {
    var start := PayloadStart(fs, vs, |fs|);
    if start == None then 0 else EncLen(fs, vs, |fs|) / 8 - start.value
  }

  /** The bits of fields i to n - 1 without pads: strings count their bytes, numbers and checksums their width. */
  ghost function Occupied(fs: seq<Field>, vs: seq<Val>, i: nat, n: nat): nat
    requires AllTyped(fs, vs) && n <= |fs|
    decreases n
  {
    if n <= i then 0
    else
      Occupied(fs, vs, i, n - 1) +
      match fs[n - 1]
      case Num(_, width) => width
      case Check(size) => size
      case Pad(_) => 0
      case _ => if vs[n - 1].s == None then 0 else 8 * |vs[n - 1].s.value|
  }

  lemma {:induction false} NoPadsBehind(fs: seq<Field>, vs: seq<Val>, i: nat, n: nat)
    requires AllTyped(fs, vs) && i <= n <= |fs| && forall k :: i <= k < n ==> !fs[k].Pad?
    ensures EncLen(fs, vs, n) == EncLen(fs, vs, i) + Occupied(fs, vs, i, n)
    decreases n
  {
    if i < n { NoPadsBehind(fs, vs, i, n - 1); }
  }

  lemma {:induction false} LastIsLast(fs: seq<Field>, what: What, n: nat)
    requires n <= |fs|
    ensures var r := Last(fs, what, n); forall k :: (if r == None then 0 else r.value + 1) <= k < n ==> !Is(fs[k], what)
    decreases n
  {
    if n > 0 && !Is(fs[n - 1], what) { LastIsLast(fs, what, n - 1); }
  }

  /** The sdu length is the number of whole bytes in the fields behind the last pad. */
  lemma {:induction false} SduIsPayload(fs: seq<Field>, vs: seq<Val>, j: nat)
    requires AllTyped(fs, vs) && Last(fs, Padding, |fs|) == Some(j)
    ensures SduLength(fs, vs) == Occupied(fs, vs, j + 1, |fs|) / 8
  {
    LastIsLast(fs, Padding, |fs|);
    NoPadsBehind(fs, vs, j + 1, |fs|);
    PadEndsByte(EncLen(fs, vs, j));
    WholeBefore(EncLen(fs, vs, j + 1), Occupied(fs, vs, j + 1, |fs|));
  }

  lemma PadEndsByte(p: nat)
    ensures (if p % 8 == 0 then p else p + (8 - p % 8)) % 8 == 0
  {
  }

  lemma WholeBefore(x: nat, y: nat)
    requires x % 8 == 0
    ensures (x + y) / 8 - x / 8 == y / 8
  {
  }

  /** A descriptor with an sdu length has a pad, and the length fits its field. */
  ghost predicate SduFits(fs: seq<Field>, vs: seq<Val>)
    requires AllTyped(fs, vs)
  {
    var j := Last(fs, Sdu, |fs|);
    j.Some? ==> Last(fs, Padding, |fs|).Some? && 0 <= SduLength(fs, vs) < Pow2(fs[j.value].width)
  }

  /** The values with the sdu length in place. */
  ghost function WithSdu(fs: seq<Field>, vs: seq<Val>): (r: seq<Val>)
    requires AllTyped(fs, vs) && SduFits(fs, vs)
    ensures |r| == |vs|
  {
    var j := Last(fs, Sdu, |fs|);
    if j == None then vs else vs[j.value := Number(SduLength(fs, vs))]
  }

  ghost predicate Blank1(fs: seq<Field>, vs: seq<Val>, what: What)
    requires AllTyped(fs, vs)
  {
    forall i :: 0 <= i < |fs| && Is(fs[i], what) && !what.Padding? ==> vs[i] == Number(0)
  }

  /** The pdu length fits its field. */
  ghost predicate PduFits(fs: seq<Field>, vs: seq<Val>)
    requires AllTyped(fs, vs)
  {
    var j := Last(fs, Pdu, |fs|);
    j.Some? ==> EncLen(fs, vs, |fs|) / 8 < Pow2(fs[j.value].width)
  }

  /** The values with both lengths in place. */
  ghost function WithLengths(fs: seq<Field>, vs: seq<Val>): (r: seq<Val>)
    requires AllTyped(fs, vs) && SduFits(fs, vs)
    ensures |r| == |vs|
  {
    var j := Last(fs, Pdu, |fs|);
    if j == None then WithSdu(fs, vs) else WithSdu(fs, vs)[j.value := Number(EncLen(fs, vs, |fs|) / 8)]
  }

  /** A checksum field starts on a byte boundary. */
  ghost predicate CheckAligned(fs: seq<Field>, vs: seq<Val>)
    requires AllTyped(fs, vs)
  {
    forall i :: 0 <= i < |fs| && fs[i].Check? ==> EncLen(fs, vs, i) % 8 == 0
  }

  /** The values with the checksum of the bytes s before its place. */
  ghost function WithCheck(fs: seq<Field>, vs: seq<Val>, s: seq<byte>): (r: seq<Val>)
    requires AllTyped(fs, vs)
    ensures |r| == |vs|
  {
    var j := Last(fs, Checksum, |fs|);
    if j == None || EncLen(fs, vs, j.value) > 8 * |s| then vs
    else vs[j.value := Number(CheckSum(fs[j.value].size, s[..EncLen(fs, vs, j.value) / 8]))]
  }

  /** Setting the sdu length moves nothing, and leaves other numbers alone. */
  lemma WithSduSame(fs: seq<Field>, vs: seq<Val>, j: nat)
    requires AllTyped(fs, vs) && SduFits(fs, vs) && Blank(fs, vs) && j < |fs| && Is(fs[j], Pdu)
    ensures AllTyped(fs, WithSdu(fs, vs)) && WithSdu(fs, vs)[j] == vs[j]
    ensures Mark(fs, WithSdu(fs, vs), Some(j)) == Mark(fs, vs, Some(j))
  {
    var k := Last(fs, Sdu, |fs|);
    if k.Some? {
      EncSet(fs, vs, k.value, SduLength(fs, vs), j);
    }
  }
}

module StructIn {
  import opened Wrappers
  import opened Common
  import opened BitString
  import opened BitStream
  import opened Descriptors
  import opened StructOut

  /** The size of the scratch array strings are read into (MAX_INPUT_BUFFER_SIZE). */
  const SCRATCH: nat := 8192

  /** Overrun marks a read or a scratch write past its array, which the source does not check. */
  datatype Parsed = Accepted(vals: seq<Val>, pos: nat) | Rejected | Overrun

  datatype Step = Next(pos: nat, pdu: nat, val: Val) | Stop(parsed: Parsed)

  /** The k bytes at bit position pos. */
  ghost function BytesAt(s: seq<byte>, pos: nat, k: nat): (r: seq<byte>)
    requires pos + 8 * k <= 8 * |s|
    ensures |r| == k && BufVal(r) == BitsAt(BufVal(s), Tail(|s|, pos, 8 * k), 8 * k)
    decreases k
  {
    if k == 0 then []
    else
      var r := BytesAt(s, pos, k - 1);
      var t := Tail(|s|, pos, 8 * k);
      ByteRange();
      BufPush(r, BitsAt(BufVal(s), t, Octet()), BufVal(s), t);
      r + [BitsAt(BufVal(s), t, Octet())]
  }

  ghost function TakeStr(s: seq<byte>, pos: nat, k: int, pdu: nat): Step {
    if k < 0 || k > SCRATCH || pos + 8 * k > 8 * |s| then Stop(Overrun)
    else Next(pos + 8 * k, pdu, Str(Some(BytesAt(s, pos, k))))
  }

  /** A numeric field: checks use the promoted number, the member keeps its container's low bits. */
  ghost function TakeNum(kind: Kind, width: nat, s: seq<byte>, pos: nat, pdu: nat): Step {
    if pos + width > 8 * |s| then Stop(Overrun)
    else
      var raw := Promoted(BitsAt(BufVal(s), Tail(|s|, pos, width), width), width);
      if kind.Named? && !IsNamed(kind.ranges, raw) then Stop(Rejected)
      else if kind.Fixed? && raw != kind.num then Stop(Rejected)
      else Next(pos + width, if kind.PduLen? then raw else pdu, Number(Low(raw, Container(width))))
  }

  /** A checksum is compared with that of the bytes before the cursor. */
  ghost function TakeCheck(size: nat, s: seq<byte>, pos: nat, pdu: nat): Step
    requires size == 8 || size == 32
  {
    var c := pos / 8;
    if c + size / 8 > |s| then Stop(Overrun)
    else if CheckSum(size, s[..c]) != BufVal(s[c..c + size / 8]) then Stop(Rejected)
    else Next(pos + size, pdu, Number(BufVal(s[c..c + size / 8])))
  }

  /** What in_struct does with one field; `hint` is the room of the buffer supplied for a DynStr. */
  ghost function StepOf(f: Field, s: seq<byte>, hint: Option<nat>, pos: nat, pdu: nat): Step
    requires f.Check? ==> f.size == 8 || f.size == 32
  {
    match f
    case Num(kind, width) => TakeNum(kind, width, s, pos, pdu)
    case Pad(_) => Next(if pos % 8 == 0 then pos else pos + (8 - pos % 8), pdu, Nothing)
    case Check(size) => TakeCheck(size, s, pos, pdu)
    case FixedStr(len, _) => TakeStr(s, pos, len, pdu)
    case DynStr(_) => if hint == None then Next(pos, pdu, Str(None)) else TakeStr(s, pos, hint.value, pdu)
    case Raw(tail, _) => TakeStr(s, pos, pdu - pos / 8 - tail / 8, pdu)
  }

  ghost function ParseFrom(fs: seq<Field>, s: seq<byte>, hints: seq<Option<nat>>, i: nat, pos: nat, pdu: nat,
                           vals: seq<Val>): Parsed
    requires WellFormed(fs) && i <= |fs| == |hints|
    decreases |fs| - i
  {
    if i == |fs| then Accepted(vals, pos)
    else
      match StepOf(fs[i], s, hints[i], pos, pdu)
      case Stop(parsed) => parsed
      case Next(pos', pdu', val) => ParseFrom(fs, s, hints, i + 1, pos', pdu', vals + [val])
  }

  /** The reading of a whole message. */
  ghost function Parse(fs: seq<Field>, s: seq<byte>, hints: seq<Option<nat>>): Parsed
    requires WellFormed(fs) && |fs| == |hints|
  {
    if StaticBits(fs, |fs|) > 8 * |s| then Rejected else ParseFrom(fs, s, hints, 0, 0, 0, [])
  }

  /** Cursor and phase after w more bits. */
  lemma Advance(cur: nat, bitSize: nat, pos: nat, w: nat)
    requires pos == 8 * cur + bitSize % 8
    ensures cur == pos / 8 && bitSize % 8 == pos % 8
    ensures pos + w == 8 * ((pos + w) / 8) + (bitSize + w) % 8
  {
    SamePhase(bitSize, pos, w);
  }

  lemma Landed(pos: nat, w: nat, cur: nat, bitSize: nat, bitSize0: nat)
    requires bitSize0 % 8 == pos % 8 && cur == (pos + w) / 8 && bitSize == bitSize0 + w
    ensures pos + w == 8 * cur + bitSize % 8
  {
    SamePhase(bitSize0, pos, w);
  }

  /** The member type chosen by bytes_len. */
  method ContainerOf(width: nat) returns (bits: nat)
    requires 1 <= width <= 64
    ensures bits == Container(width)
  {
    var r := BytesLen(width);
    bits := if r <= 3 then 8 else Pow2(r);
  }

  /** One round of in_struct. */
  method InNum(kind: Kind, width: nat, s: seq<byte>, cur0: nat, bitSize0: nat, pdu: nat, ghost pos: nat)
    returns (st: Step, cur: nat, bitSize: nat)
    requires 1 <= width <= 32 && pos == 8 * cur0 + bitSize0 % 8
    ensures st == TakeNum(kind, width, s, pos, pdu)
    ensures st.Next? ==> st.pos == 8 * cur + bitSize % 8
  {
    Advance(cur0, bitSize0, pos, width);
    var pre := bitSize0 % 8;
    cur, bitSize := cur0, bitSize0;
    if 8 * cur + pre + width > 8 * |s| {
      return Stop(Overrun), cur, bitSize;
    }
    var n;
    n, cur := DetachBits(s, cur, width + pre - 8, pre, pos, width);
    var container := ContainerOf(width);
    bitSize := bitSize + width;
    Landed(pos, width, cur, bitSize, bitSize0);
    if kind.Named? && !IsNamed(kind.ranges, n) {
      return Stop(Rejected), cur, bitSize;
    }
    if kind.Fixed? && n != kind.num {
      return Stop(Rejected), cur, bitSize;
    }
    st := Next(8 * cur0 + pre + width, if kind.PduLen? then n else pdu, Number(Low(n, container)));
  }

  method InStr(s: seq<byte>, cur0: nat, bitSize0: nat, k: int, pdu: nat, ghost pos: nat)
    returns (st: Step, cur: nat, bitSize: nat)
    requires pos == 8 * cur0 + bitSize0 % 8
    ensures st == TakeStr(s, pos, k, pdu)
    ensures st.Next? ==> st.pos == 8 * cur + bitSize % 8
  {
    var pre := bitSize0 % 8;
    cur, bitSize := cur0, bitSize0;
    AddOctets(pre, cur);
    if k < 0 || k > SCRATCH || 8 * cur + pre + 8 * k > 8 * |s| {
      return Stop(Overrun), cur, bitSize;
    }
    var dst;
    SamePhase(bitSize, pos, 8 * k);
    dst, cur, bitSize := DetachStr(s, cur, bitSize, k, pos);
    BufInjective(dst, BytesAt(s, pos, k));
    st := Next(8 * cur0 + pre + 8 * k, pdu, Str(Some(dst)));
  }

  method InCheck(size: nat, s: seq<byte>, cur0: nat, bitSize: nat, pdu: nat, ghost pos: nat)
    returns (st: Step, cur: nat)
    requires (size == 8 || size == 32) && pos == 8 * cur0 + bitSize % 8
    ensures st == TakeCheck(size, s, pos, pdu)
    ensures st.Next? ==> st.pos == 8 * cur + bitSize % 8
  {
    cur := cur0;
    CursorOf(pos, cur, bitSize % 8);
    var k := size / 8;
    WholeBytes(size);
    if cur + k > |s| {
      return Stop(Overrun), cur;
    }
    var sum := Sum(size, s[..cur]);
    var read := ReadNumber(s[cur..cur + k]);
    cur := cur + k;
    if sum != read {
      return Stop(Rejected), cur;
    }
    st := Next(8 * cur0 + bitSize % 8 + size, pdu, Number(read));
  }

  lemma CursorOf(pos: nat, cur: nat, pre: nat)
    requires pos == 8 * cur + pre && pre < 8
    ensures pos / 8 == cur
  {
  }

  /** The received checksum, byte by byte. */
  method ReadNumber(s: seq<byte>) returns (n: nat)
    ensures n == BufVal(s)
  {
    n := 0;
    ShlZero(8 * |s|);
    for p := 0 to |s|
      invariant n == Shl(BufVal(s[..p]), 8 * (|s| - p))
    {
      StrStep(s, p, 8 * (|s| - p - 1));
      n := n + Shl(s[p], 8 * (|s| - p - 1));
    }
    assert s[..|s|] == s;
  }

  method InPad(cur0: nat, bitSize0: nat, pdu: nat, ghost pos: nat) returns (st: Step, cur: nat, bitSize: nat)
    requires cur0 == pos / 8 && bitSize0 % 8 == pos % 8
    ensures st == Next(if pos % 8 == 0 then pos else pos + (8 - pos % 8), pdu, Nothing)
    ensures st.pos == 8 * cur + bitSize % 8
  {
    cur, bitSize := cur0, bitSize0;
    if bitSize % 8 != 0 {
      cur, bitSize := cur + 1, 0;
    }
    st := Next(8 * cur + bitSize % 8, pdu, Nothing);
  }

  method InField(f: Field, s: seq<byte>, hint: Option<nat>, cur0: nat, bitSize0: nat, pdu: nat, ghost pos: nat)
    returns (st: Step, cur: nat, bitSize: nat)
    requires (f.Num? ==> 1 <= f.width <= 32) && (f.Check? ==> f.size == 8 || f.size == 32)
    requires pos == 8 * cur0 + bitSize0 % 8
    ensures st == StepOf(f, s, hint, pos, pdu)
    ensures st.Next? ==> st.pos == 8 * cur + bitSize % 8
  {
    Advance(cur0, bitSize0, pos, 0);
    cur, bitSize := cur0, bitSize0;
    match f {
      case Num(kind, width) => st, cur, bitSize := InNum(kind, width, s, cur, bitSize, pdu, pos);
      case Pad(_) => st, cur, bitSize := InPad(cur, bitSize, pdu, pos);
      case Check(size) => st, cur := InCheck(size, s, cur, bitSize, pdu, pos);
      case FixedStr(len, _) => st, cur, bitSize := InStr(s, cur, bitSize, len, pdu, pos);
      case DynStr(_) =>
        if hint == None {
          st := Next(8 * cur + bitSize % 8, pdu, Str(None));
        } else {
          st, cur, bitSize := InStr(s, cur, bitSize, hint.value, pdu, pos);
        }
      case Raw(tail, _) => st, cur, bitSize := InStr(s, cur, bitSize, pdu - cur - tail / 8, pdu, pos);
    }
  }

  /** in_struct with no sub-stream: reads the fields in order. */
  method InStruct(fs: seq<Field>, s: seq<byte>, hints: seq<Option<nat>>) returns (r: Parsed)
    requires WellFormed(fs) && |hints| == |fs|
    ensures r == Parse(fs, s, hints)
  {
    var size := SizeofStruct(fs);
    if |s| < size {
      return Rejected;
    }
    var cur: nat, bitSize: nat, pdu: nat, vals, pos: nat := 0, 0, 0, [], 0;
    for i := 0 to |fs|
      invariant pos == 8 * cur + bitSize % 8
      invariant ParseFrom(fs, s, hints, i, pos, pdu, vals) == ParseFrom(fs, s, hints, 0, 0, 0, [])
    {
      var st;
      st, cur, bitSize := InField(fs[i], s, hints[i], cur, bitSize, pdu, pos);
      if st.Stop? {
        return st.parsed;
      }
      pos, pdu, vals := st.pos, st.pdu, vals + [st.val];
    }
    r := Accepted(vals, pos);
  }
}

module PduRoundTrip {
  import opened Wrappers
  import opened Common
  import opened BitString
  import opened BitStream
  import opened Descriptors
  import opened StructOut
  import opened StructIn

  // Reading back an encoding

  /** The pdu length in_struct knows when it reaches field i. */
  ghost function PduBefore(fs: seq<Field>, vs: seq<Val>, i: nat): nat
    requires AllTyped(fs, vs) && i <= |fs|
  {
    if i == 0 then 0
    else if Is(fs[i - 1], Pdu) then Promoted(vs[i - 1].n, fs[i - 1].width)
    else PduBefore(fs, vs, i - 1)
  }

  /** Field i of the message s passes its checks and has the length the reader expects. */
  ghost predicate FieldOk(fs: seq<Field>, vs: seq<Val>, hints: seq<Option<nat>>, s: seq<byte>, i: nat)
    requires AllTyped(fs, vs) && i < |fs| == |hints|
  {
    var v := vs[i];
    match fs[i]
    case Num(kind, width) =>
      && (kind.Named? ==> IsNamed(kind.ranges, Promoted(v.n, width)))
      && (kind.Fixed? ==> Promoted(v.n, width) == kind.num)
    case Pad(_) => true
    case Check(size) =>
      && EncLen(fs, vs, i) % 8 == 0 && EncLen(fs, vs, i) <= 8 * |s|
      && v.n == CheckSum(size, s[..EncLen(fs, vs, i) / 8])
    case FixedStr(len, _) => v.s.Some? && |v.s.value| == len <= SCRATCH
    case DynStr(_) => if hints[i] == None then v.s == None else v.s.Some? && |v.s.value| == hints[i].value <= SCRATCH
    case Raw(tail, _) =>
      v.s.Some? && |v.s.value| <= SCRATCH
      && PduBefore(fs, vs, i) == EncLen(fs, vs, i) / 8 + |v.s.value| + tail / 8
  }

  /** Field i lies within s and its bits there spell its value. */
  ghost predicate Shown(fs: seq<Field>, vs: seq<Val>, s: seq<byte>, i: nat)
    requires AllTyped(fs, vs) && i < |fs|
  {
    var p, k := EncLen(fs, vs, i), LenAt(fs, vs, i);
    p + k <= 8 * |s| && BitsAt(BufVal(s), Tail(|s|, p, k), k) == FieldVal(fs[i], vs[i])
  }

  lemma StoredWord(n: nat)
    requires n < Pow2(WordBits())
    ensures Low(n + SIGN, WordBits()) == n
  {
    SignIsShifted();
    LowAddAbove(n, Ones(), WordBits());
    LowSmall(n, WordBits());
  }

  /** Storing a promoted number in its container gives the number back. */
  lemma {:induction false} StoredBack(n: nat, width: nat)
    requires n < Pow2(width) && 1 <= width <= 32
    ensures Low(Promoted(n, width), Container(width)) == n
  {
    var c := Container(width);
    if width == WordBits() && n >= HALF {
      StoredWord(n);
    } else {
      Pow2Monotone(width, c);
      LowSmall(n, c);
    }
  }

  /** A byte-aligned range as a slice. */
  lemma {:induction false} SliceVal(s: seq<byte>, c: nat, k: nat)
    requires c + k <= |s|
    ensures BufVal(s[c..c + k]) == BitsAt(BufVal(s), Tail(|s|, 8 * c, 8 * k), 8 * k)
  {
    var a, b, d := s[..c], s[c..c + k], s[c + k..];
    assert s == (a + b) + d;
    PrefixVal(a + b, d);
    SuffixVal(a, b);
    assert Tail(|s|, 8 * c, 8 * k) == 8 * |d|;
  }

  lemma {:induction false} SuffixVal(a: seq<byte>, b: seq<byte>)
    ensures Low(BufVal(a + b), 8 * |b|) == BufVal(b)
  {
    BufConcat(a, b);
    BufBound(b);
    ShrOfShlAdd(BufVal(a), BufVal(b), 8 * |b|);
  }

  lemma {:induction false} PrefixVal(a: seq<byte>, d: seq<byte>)
    ensures Shr(BufVal(a + d), 8 * |d|) == BufVal(a)
  {
    BufConcat(a, d);
    BufBound(d);
    ShrOfShlAdd(BufVal(a), BufVal(d), 8 * |d|);
  }

  /** A buffer that holds the encoding, with or without room behind it, shows every field. */
  lemma {:induction false} HeldIsShown(fs: seq<Field>, vs: seq<Val>, s: seq<byte>, i: nat)
    requires AllTyped(fs, vs) && InRange(fs, vs) && Holds(BufVal(s), |s|, fs, vs, |fs|) && i < |fs|
    ensures Shown(fs, vs, s, i)
  {
    var n := |fs|;
    EncField(fs, vs, i, n);
    var a, b := 8 * |s| - EncLen(fs, vs, n), EncLen(fs, vs, n) - EncLen(fs, vs, i + 1);
    ShiftedRange(EncVal(fs, vs, n), a, b, LenAt(fs, vs, i));
  }

  /** So does a message that lost its last d bits, as far as the fields lie before them. */
  lemma {:induction false} CutIsShown(fs: seq<Field>, vs: seq<Val>, s: seq<byte>, d: nat, i: nat)
    requires AllTyped(fs, vs) && InRange(fs, vs) && i < |fs| && EncLen(fs, vs, i + 1) <= 8 * |s|
    requires EncLen(fs, vs, |fs|) == 8 * |s| + d && BufVal(s) == Shr(EncVal(fs, vs, |fs|), d)
    ensures Shown(fs, vs, s, i)
  {
    EncField(fs, vs, i, |fs|);
    ShrShr(EncVal(fs, vs, |fs|), d, 8 * |s| - EncLen(fs, vs, i + 1));
  }

  ghost predicate ShownOk(fs: seq<Field>, vs: seq<Val>, hints: seq<Option<nat>>, s: seq<byte>, i: nat) {
    && AllTyped(fs, vs) && InRange(fs, vs) && WellFormed(fs) && i < |fs| == |hints|
    && Shown(fs, vs, s, i) && FieldOk(fs, vs, hints, s, i)
  }

  lemma StepNum(fs: seq<Field>, vs: seq<Val>, hints: seq<Option<nat>>, s: seq<byte>, i: nat)
    requires ShownOk(fs, vs, hints, s, i) && fs[i].Num?
    ensures StepOf(fs[i], s, hints[i], EncLen(fs, vs, i), PduBefore(fs, vs, i))
            == Next(EncLen(fs, vs, i + 1), PduBefore(fs, vs, i + 1), vs[i])
  {
    ValFits(fs, vs, i);
    StoredBack(vs[i].n, fs[i].width);
  }

  lemma {:induction false} StepCheck(fs: seq<Field>, vs: seq<Val>, hints: seq<Option<nat>>, s: seq<byte>, i: nat)
    requires ShownOk(fs, vs, hints, s, i) && fs[i].Check?
    ensures StepOf(fs[i], s, hints[i], EncLen(fs, vs, i), PduBefore(fs, vs, i))
            == Next(EncLen(fs, vs, i + 1), PduBefore(fs, vs, i + 1), vs[i])
  {
    var pos, size := EncLen(fs, vs, i), fs[i].size;
    var c, k := pos / 8, size / 8;
    CheckSizes(size);
    WholeBytes(pos);
    SliceVal(s, c, k);
    CheckTaken(size, s, c, k, vs[i].n, PduBefore(fs, vs, i));
    AfterCheck(fs, vs, i);
  }

  lemma AfterCheck(fs: seq<Field>, vs: seq<Val>, i: nat)
    requires AllTyped(fs, vs) && i < |fs| && fs[i].Check?
    ensures EncLen(fs, vs, i + 1) == EncLen(fs, vs, i) + fs[i].size && PduBefore(fs, vs, i + 1) == PduBefore(fs, vs, i)
  {
  }

  lemma CheckTaken(size: nat, s: seq<byte>, c: nat, k: nat, n: nat, pdu: nat)
    requires (size == 8 || size == 32) && size == 8 * k && c + k <= |s|
    requires BufVal(s[c..c + k]) == n == CheckSum(size, s[..c])
    ensures TakeCheck(size, s, 8 * c, pdu) == Next(8 * c + size, pdu, Number(n))
  {
    EighthOf(size, k);
    EighthOf(8 * c, c);
  }

  lemma EighthOf(x: nat, k: nat)
    requires x == 8 * k
    ensures x / 8 == k
  {
  }

  lemma {:induction false} StrTaken(s: seq<byte>, pos: nat, b: seq<byte>, pdu: nat)
    requires pos + 8 * |b| <= 8 * |s| && |b| <= SCRATCH
    requires BitsAt(BufVal(s), Tail(|s|, pos, 8 * |b|), 8 * |b|) == BufVal(b)
    ensures TakeStr(s, pos, |b|, pdu) == Next(pos + 8 * |b|, pdu, Str(Some(b)))
  {
    BufInjective(BytesAt(s, pos, |b|), b);
  }

  lemma StepStr(fs: seq<Field>, vs: seq<Val>, hints: seq<Option<nat>>, s: seq<byte>, i: nat)
    requires ShownOk(fs, vs, hints, s, i) && vs[i].Str?
    ensures StepOf(fs[i], s, hints[i], EncLen(fs, vs, i), PduBefore(fs, vs, i))
            == Next(EncLen(fs, vs, i + 1), PduBefore(fs, vs, i + 1), vs[i])
  {
    if vs[i].s.Some? {
      var b := vs[i].s.value;
        StrTaken(s, EncLen(fs, vs, i), b, PduBefore(fs, vs, i));
    }
  }

  /** Reading goes field by field as long as the fields are there and pass their checks. */
  lemma {:induction false} ParsePrefix(fs: seq<Field>, vs: seq<Val>, hints: seq<Option<nat>>, s: seq<byte>, i: nat)
    requires AllTyped(fs, vs) && WellFormed(fs) && i <= |fs| == |hints|
    requires forall j :: 0 <= j < i ==> ShownOk(fs, vs, hints, s, j)
    ensures ParseFrom(fs, s, hints, 0, 0, 0, []) == ParsedTo(fs, vs, hints, s, i)
    decreases i
  {
    if i == 0 {
      assert vs[..i] == [];
    } else {
      ParsePrefix(fs, vs, hints, s, i - 1);
      ParseNext(fs, vs, hints, s, i - 1);
    }
  }

  /** The reading from field i on, with the fields before it read as vs. */
  ghost function ParsedTo(fs: seq<Field>, vs: seq<Val>, hints: seq<Option<nat>>, s: seq<byte>, i: nat): Parsed
    requires AllTyped(fs, vs) && WellFormed(fs) && i <= |fs| == |hints|
  {
    ParseFrom(fs, s, hints, i, EncLen(fs, vs, i), PduBefore(fs, vs, i), vs[..i])
  }

  /**
   * Reading a buffer that holds an encoding whose fields pass their checks returns its values, with
   * the cursor at the end of the encoding.
   */
  lemma {:induction false} ParseEncoded(fs: seq<Field>, vs: seq<Val>, hints: seq<Option<nat>>, s: seq<byte>)
    requires AllTyped(fs, vs) && InRange(fs, vs) && WellFormed(fs) && |fs| == |hints|
    requires Holds(BufVal(s), |s|, fs, vs, |fs|)
    requires forall j :: 0 <= j < |fs| ==> FieldOk(fs, vs, hints, s, j)
    ensures ParseFrom(fs, s, hints, 0, 0, 0, []) == Accepted(vs, EncLen(fs, vs, |fs|))
  {
    forall j | 0 <= j < |fs| ensures ShownOk(fs, vs, hints, s, j) {
      HeldIsShown(fs, vs, s, j);
    }
    ParsePrefix(fs, vs, hints, s, |fs|);
    assert vs[..|fs|] == vs;
  }

  lemma {:induction false} ParseNext(fs: seq<Field>, vs: seq<Val>, hints: seq<Option<nat>>, s: seq<byte>, i: nat)
    requires ShownOk(fs, vs, hints, s, i)
    ensures ParsedTo(fs, vs, hints, s, i) == ParsedTo(fs, vs, hints, s, i + 1)
  {
    StepAny(fs, vs, hints, s, i);
    PushNext(vs, i);
    ParseStep(fs, s, hints, i, EncLen(fs, vs, i), PduBefore(fs, vs, i), vs[..i],
              EncLen(fs, vs, i + 1), PduBefore(fs, vs, i + 1), vs[i]);
  }

  lemma PushNext(vs: seq<Val>, i: nat)
    requires i < |vs|
    ensures vs[..i] + [vs[i]] == vs[..i + 1]
  {
  }

  lemma ParseStep(fs: seq<Field>, s: seq<byte>, hints: seq<Option<nat>>, i: nat, pos: nat, pdu: nat, vals: seq<Val>,
                  pos': nat, pdu': nat, val: Val)
    requires WellFormed(fs) && i < |fs| == |hints| && StepOf(fs[i], s, hints[i], pos, pdu) == Next(pos', pdu', val)
    ensures ParseFrom(fs, s, hints, i, pos, pdu, vals) == ParseFrom(fs, s, hints, i + 1, pos', pdu', vals + [val])
  {
  }

  lemma StepAny(fs: seq<Field>, vs: seq<Val>, hints: seq<Option<nat>>, s: seq<byte>, i: nat)
    requires ShownOk(fs, vs, hints, s, i)
    ensures StepOf(fs[i], s, hints[i], EncLen(fs, vs, i), PduBefore(fs, vs, i))
            == Next(EncLen(fs, vs, i + 1), PduBefore(fs, vs, i + 1), vs[i])
  {
    if fs[i].Num? {
      StepNum(fs, vs, hints, s, i);
    } else if fs[i].Check? {
      StepCheck(fs, vs, hints, s, i);
    } else if vs[i].Str? {
      StepStr(fs, vs, hints, s, i);
    }
  }

  /** in_struct accepts the encoding exactly when the message has the declared size. */
  lemma RoundTrip(fs: seq<Field>, vs: seq<Val>, hints: seq<Option<nat>>, s: seq<byte>)
    requires AllTyped(fs, vs) && InRange(fs, vs) && WellFormed(fs) && |fs| == |hints|
    requires Holds(BufVal(s), |s|, fs, vs, |fs|)
    requires forall j :: 0 <= j < |fs| ==> FieldOk(fs, vs, hints, s, j)
    ensures Parse(fs, s, hints)
            == if StaticBits(fs, |fs|) <= 8 * |s| then Accepted(vs, EncLen(fs, vs, |fs|)) else Rejected
  {
    ParseEncoded(fs, vs, hints, s);
  }

  /** The field in which a message of c bytes ends, when it is shorter than the encoding. */
  lemma {:induction false} Crossing(fs: seq<Field>, vs: seq<Val>, c: nat, n: nat) returns (i: nat)
    requires AllTyped(fs, vs) && n <= |fs| && EncLen(fs, vs, n) > 8 * c
    ensures i < n && EncLen(fs, vs, i) <= 8 * c < EncLen(fs, vs, i + 1)
    decreases n
  {
    if EncLen(fs, vs, n - 1) <= 8 * c {
      i := n - 1;
    } else {
      i := Crossing(fs, vs, c, n - 1);
    }
  }

  /** A field cut by the end of the message is read past it. */
  lemma {:induction false} StepPastEnd(fs: seq<Field>, vs: seq<Val>, hints: seq<Option<nat>>, s: seq<byte>, i: nat)
    requires AllTyped(fs, vs) && WellFormed(fs) && i < |fs| == |hints| && FieldOk(fs, vs, hints, s, i)
    requires EncLen(fs, vs, i) <= 8 * |s| < EncLen(fs, vs, i + 1) < 8 * |s| + 8
    ensures StepOf(fs[i], s, hints[i], EncLen(fs, vs, i), PduBefore(fs, vs, i)) == Stop(Overrun)
  {
    EndsOnByte(fs, vs, i);
  }

  /** Pads and aligned checksums end on a byte boundary. */
  lemma {:induction false} EndsOnByte(fs: seq<Field>, vs: seq<Val>, i: nat)
    requires AllTyped(fs, vs) && WellFormed(fs) && i < |fs|
    ensures fs[i].Pad? || (fs[i].Check? && EncLen(fs, vs, i) % 8 == 0) ==> EncLen(fs, vs, i + 1) % 8 == 0
  {
  }

  /** A message that ends within a byte of its encoding is not accepted: the reader runs past its end. */
  lemma {:induction false} CutRunsOver(fs: seq<Field>, vs: seq<Val>, hints: seq<Option<nat>>, s: seq<byte>, d: nat)
    requires AllTyped(fs, vs) && InRange(fs, vs) && WellFormed(fs) && |fs| == |hints| && 0 < d < 8
    requires EncLen(fs, vs, |fs|) == 8 * |s| + d && BufVal(s) == Shr(EncVal(fs, vs, |fs|), d)
    requires forall j :: 0 <= j < |fs| ==> FieldOk(fs, vs, hints, s, j)
    ensures Parse(fs, s, hints) == if StaticBits(fs, |fs|) <= 8 * |s| then Overrun else Rejected
  {
    var i := Crossing(fs, vs, |s|, |fs|);
    forall j | 0 <= j < i ensures ShownOk(fs, vs, hints, s, j) {
      EncLenGrows(fs, vs, j + 1, i);
      CutIsShown(fs, vs, s, d, j);
    }
    ParsePrefix(fs, vs, hints, s, i);
    EncLenGrows(fs, vs, i + 1, |fs|);
    StepPastEnd(fs, vs, hints, s, i);
  }

  /** out_struct followed by in_struct on the buffer it filled, whatever its size and alignment. */
  method WriteAndRead(fs: seq<Field>, vs: seq<Val>, hints: seq<Option<nat>>, room: nat)
    returns (out: Emitted, s: seq<byte>, r: Parsed)
    requires AllTyped(fs, vs) && WellFormed(fs) && InRange(fs, SentAll(fs, vs)) && Blank(fs, vs) && |hints| == |fs|
    requires SduFits(fs, SentAll(fs, vs))
    ensures out == EmittedBy(fs, vs, room) && |s| == room && r == Parse(fs, s, hints)
    ensures out == Done ==>
      var ws := WithSdu(fs, SentAll(fs, vs));
      && AllTyped(fs, ws)
      && ((forall j :: 0 <= j < |fs| ==> FieldOk(fs, ws, hints, s, j)) ==> r == Accepted(ws, EncLen(fs, ws, |fs|)))
  {
    var pbs := new PbStream(room);
    out := pbs.OutStruct(fs, vs);
    s := pbs.buf[..];
    r := InStruct(fs, s, hints);
    ghost var ws := WithSdu(fs, SentAll(fs, vs));
    if out == Done && forall j :: 0 <= j < |fs| ==> FieldOk(fs, ws, hints, s, j) {
      RoundTrip(fs, ws, hints, s);
    }
  }

  // Fixed fields of 32 bits

  /** A fixed field accepts its own number exactly when it has fewer than 32 bits or the number is below 2^31. */
  lemma {:induction false} FixedAcceptsItself(num: nat, width: nat, s: seq<byte>, pos: nat, pdu: nat)
    requires 1 <= width <= 32 && num < Pow2(width) && pos + width <= 8 * |s|
    requires BitsAt(BufVal(s), Tail(|s|, pos, width), width) == num
    ensures TakeNum(Fixed(num), width, s, pos, pdu).Next? <==> width < 32 || num < HALF
  {
  }

  /** With 32 bits and a number of at least 2^31, no message is ever accepted. */
  lemma FixedRejectsAll(num: nat, s: seq<byte>, pos: nat, pdu: nat)
    requires HALF <= num < Pow2(32)
    ensures TakeNum(Fixed(num), 32, s, pos, pdu).Stop?
  {
    WordRange();
  }

  /** A descriptor with such a field accepts no message at all. */
  lemma {:induction false} FixedNeverAccepted(fs: seq<Field>, s: seq<byte>, hints: seq<Option<nat>>, i: nat, num: nat)
    requires WellFormed(fs) && |fs| == |hints| && i < |fs| && fs[i] == Num(Fixed(num), WordBits())
    requires HALF <= num < Pow2(WordBits())
    ensures !Parse(fs, s, hints).Accepted?
  {
    FixedStops(fs, s, hints, i, num, 0, 0, 0, []);
  }

  lemma {:induction false} FixedStops(fs: seq<Field>, s: seq<byte>, hints: seq<Option<nat>>, i: nat, num: nat,
                                      j: nat, pos: nat, pdu: nat, vals: seq<Val>)
    requires WellFormed(fs) && |fs| == |hints| && j <= i < |fs| && fs[i] == Num(Fixed(num), WordBits())
    requires HALF <= num < Pow2(WordBits())
    ensures !ParseFrom(fs, s, hints, j, pos, pdu, vals).Accepted?
    decreases i - j
  {
    if j == i {
      FixedRejectsAll(num, s, pos, pdu);
    } else if StepOf(fs[j], s, hints[j], pos, pdu).Next? {
      var st := StepOf(fs[j], s, hints[j], pos, pdu);
      FixedStops(fs, s, hints, i, num, j + 1, st.pos, st.pdu, vals + [st.val]);
    }
  }

  /** An enumeration accepts a number on input exactly when the promoted number has a name. */
  lemma NamedAccepts(ranges: seq<(nat, nat)>, n: nat, width: nat, s: seq<byte>, pos: nat, pdu: nat)
    requires pos + width <= 8 * |s| && BitsAt(BufVal(s), Tail(|s|, pos, width), width) == n
    ensures TakeNum(Named(ranges), width, s, pos, pdu).Next? <==> IsNamed(ranges, Promoted(n, width))
  {
  }

  /** With names for 32-bit numbers only, it accepts what it sends under the condition of a fixed field. */
  lemma NamedAcceptsItself(ranges: seq<(nat, nat)>, n: nat, width: nat, s: seq<byte>, pos: nat, pdu: nat)
    requires 1 <= width <= 32 && n < Pow2(width) && IsNamed(ranges, n)
    requires pos + width <= 8 * |s| && BitsAt(BufVal(s), Tail(|s|, pos, width), width) == n
    requires forall i :: 0 <= i < |ranges| ==> ranges[i].1 < Pow2(WordBits())
    ensures TakeNum(Named(ranges), width, s, pos, pdu).Next? <==> width < 32 || n < HALF
  {
    WordRange();
  }

  // gen_pdu

  /** The stack buffer of gen_pdu. */
  const PDU_ROOM: nat := 4096

  /**
   * What gen_pdu needs of its caller: members of the right kind and range, lengths and checksums
   * blank, lengths that fit their fields, aligned checksums.
   */
  ghost predicate Sendable(fs: seq<Field>, vs: seq<Val>) {
    && AllTyped(fs, vs) && WellFormed(fs) && InRange(fs, SentAll(fs, vs)) && Blank(fs, vs)
    && SduFits(fs, SentAll(fs, vs)) && PduFits(fs, SentAll(fs, vs)) && CheckAligned(fs, SentAll(fs, vs))
  }

  /** The values a message s carries: lengths and checksum filled in. */
  ghost function Completed(fs: seq<Field>, vs: seq<Val>, s: seq<byte>): (r: seq<Val>)
    requires AllTyped(fs, vs) && SduFits(fs, vs) && AllTyped(fs, WithLengths(fs, vs))
    ensures |r| == |vs|
  {
    WithCheck(fs, WithLengths(fs, vs), s)
  }

  /** Filling in the lengths moves no field and touches no other member. */
  lemma {:induction false} LengthsSame(fs: seq<Field>, vs: seq<Val>, i: nat)
    requires AllTyped(fs, vs) && SduFits(fs, vs) && Blank(fs, vs) && i <= |fs|
    ensures AllTyped(fs, WithLengths(fs, vs)) && EncLen(fs, WithLengths(fs, vs), i) == EncLen(fs, vs, i)
    ensures i < |fs| && !Is(fs[i], Sdu) && !Is(fs[i], Pdu) ==> WithLengths(fs, vs)[i] == vs[i]
  {
    var j, k := Last(fs, Sdu, |fs|), Last(fs, Pdu, |fs|);
    if j.Some? {
      EncSet(fs, vs, j.value, SduLength(fs, vs), i);
    }
    if k.Some? {
      EncSet(fs, WithSdu(fs, vs), k.value, EncLen(fs, vs, |fs|) / 8, i);
    }
  }

  lemma BlankSent(fs: seq<Field>, vs: seq<Val>)
    requires AllTyped(fs, vs) && Blank(fs, vs)
    ensures AllTyped(fs, SentAll(fs, vs)) && Blank(fs, SentAll(fs, vs))
  {
  }

  lemma {:induction false} CloseReady(fs: seq<Field>, vs: seq<Val>)
    requires AllTyped(fs, vs) && SduFits(fs, vs) && Blank(fs, vs) && CheckAligned(fs, vs)
    ensures AllTyped(fs, WithLengths(fs, vs))
    ensures CheckAligned(fs, WithLengths(fs, vs)) && Blank1(fs, WithLengths(fs, vs), Checksum)
    ensures Mark(fs, WithLengths(fs, vs), Last(fs, Checksum, |fs|)) == Mark(fs, vs, Last(fs, Checksum, |fs|))
  {
    forall i | 0 <= i < |fs|
      ensures AllTyped(fs, WithLengths(fs, vs)) && EncLen(fs, WithLengths(fs, vs), i) == EncLen(fs, vs, i)
      ensures fs[i].Check? ==> WithLengths(fs, vs)[i] == vs[i]
    {
      LengthsSame(fs, vs, i);
    }
    LengthsSame(fs, vs, |fs|);
  }

  /** The bytes up to the cursor spell the encoding, less the bits of an unfinished last byte. */
  lemma {:induction false} CutAtCursor(s: seq<byte>, e: nat, l: nat)
    requires l <= 8 * |s| && BufVal(s) == Shl(e, 8 * |s| - l)
    ensures BufVal(s[..l / 8]) == Shr(e, l % 8)
  {
    var c := l / 8;
    assert s == s[..c] + s[c..];
    PrefixVal(s[..c], s[c..]);
    assert 8 * |s[c..]| == (8 * |s| - l) + l % 8;
    ShrShr(Shl(e, 8 * |s| - l), 8 * |s| - l, l % 8);
    ShrOfShlAdd(e, 0, 8 * |s| - l);
  }

  /** The checksum covers bytes before the cursor, so the cut does not change it. */
  lemma {:induction false} CheckOfPrefix(fs: seq<Field>, vs: seq<Val>, s: seq<byte>)
    requires AllTyped(fs, vs) && WellFormed(fs) && EncLen(fs, vs, |fs|) <= 8 * |s|
    ensures WithCheck(fs, vs, s) == WithCheck(fs, vs, s[..EncLen(fs, vs, |fs|) / 8])
  {
    var j := Last(fs, Checksum, |fs|);
    if j.Some? {
      EncLenGrows(fs, vs, j.value + 1, |fs|);
      var p, c := EncLen(fs, vs, j.value), EncLen(fs, vs, |fs|) / 8;
      assert p + 8 <= EncLen(fs, vs, |fs|);
      assert s[..c][..p / 8] == s[..p / 8];
    }
  }

  /**
   * gen_pdu: the bytes of the message spell the field bits with lengths and checksum filled in, but for
   * the bits of an unfinished last byte. It yields an empty message when out_struct fails; nothing is said
   * of the message once a field has run past the buffer.
   */
  method GenPdu(fs: seq<Field>, vs: seq<Val>) returns (r: Emitted, pdu: seq<byte>)
    requires Sendable(fs, vs)
    ensures r == EmittedBy(fs, vs, PDU_ROOM)
    ensures r == Failed ==> pdu == []
    ensures r == Done ==> PduOf(fs, SentAll(fs, vs), pdu)
  {
    var pbs := new PbStream(PDU_ROOM);
    r := pbs.OutStruct(fs, vs);
    if r != Done {
      return r, [];
    }
    ghost var sent := SentAll(fs, vs);
    BlankSent(fs, vs);
    pbs.ClosePdu(fs, sent);
    ghost var ws := WithLengths(fs, sent);
    CloseReady(fs, sent);
    pbs.CloseCheck(fs, ws);
    pdu := pbs.buf[..pbs.cur];
    PduCut(fs, sent, pbs.buf[..], pdu);
  }

  ghost predicate PduOf(fs: seq<Field>, vs: seq<Val>, pdu: seq<byte>)
    requires AllTyped(fs, vs) && SduFits(fs, vs) && AllTyped(fs, WithLengths(fs, vs))
  {
    var final, n := Completed(fs, vs, pdu), |fs|;
    && AllTyped(fs, final) && InRange(fs, final) && EncLen(fs, final, n) == EncLen(fs, vs, n)
    && |pdu| == EncLen(fs, vs, n) / 8 <= PDU_ROOM && BufVal(pdu) == Shr(EncVal(fs, final, n), EncLen(fs, vs, n) % 8)
  }

  lemma {:induction false} PduCut(fs: seq<Field>, vs: seq<Val>, s: seq<byte>, pdu: seq<byte>)
    requires AllTyped(fs, vs) && SduFits(fs, vs) && Blank(fs, vs) && WellFormed(fs)
    requires AllTyped(fs, WithLengths(fs, vs))
    requires AllTyped(fs, WithCheck(fs, WithLengths(fs, vs), s)) && InRange(fs, WithCheck(fs, WithLengths(fs, vs), s))
    requires Holds(BufVal(s), |s|, fs, WithCheck(fs, WithLengths(fs, vs), s), |fs|)
    requires Blank1(fs, WithLengths(fs, vs), Checksum)
    requires EncLen(fs, vs, |fs|) <= 8 * |s| <= 8 * PDU_ROOM && pdu == s[..EncLen(fs, vs, |fs|) / 8]
    ensures PduOf(fs, vs, pdu)
  {
    var ws, n := WithLengths(fs, vs), |fs|;
    LengthsSame(fs, vs, n);
    CheckOfPrefix(fs, ws, s);
    CheckMovesNothing(fs, ws, s);
    CutAtCursor(s, EncVal(fs, WithCheck(fs, ws, s), n), EncLen(fs, vs, n));
  }

  lemma {:induction false} CheckMovesNothing(fs: seq<Field>, vs: seq<Val>, s: seq<byte>)
    requires AllTyped(fs, vs) && Blank1(fs, vs, Checksum)
    ensures AllTyped(fs, WithCheck(fs, vs, s))
    ensures forall i :: 0 <= i <= |fs| ==> EncLen(fs, WithCheck(fs, vs, s), i) == EncLen(fs, vs, i)
  {
    var j := Last(fs, Checksum, |fs|);
    if j.Some? && EncLen(fs, vs, j.value) <= 8 * |s| {
      var x := CheckSum(fs[j.value].size, s[..EncLen(fs, vs, j.value) / 8]);
      forall i | 0 <= i <= |fs| ensures AllTyped(fs, vs[j.value := Number(x)])
                                && EncLen(fs, vs[j.value := Number(x)], i) == EncLen(fs, vs, i)
      {
        EncSet(fs, vs, j.value, x, i);
      }
    }
  }

  // Sending and receiving

  /**
   * What the reader needs of the descriptor and its caller: one checksum, a payload that starts on a
   * byte after the pdu length with the declared number of bytes behind it, and buffers of the right
   * size. Fixed numbers and enumerations survive promotion.
   */
  ghost predicate Receivable(fs: seq<Field>, vs: seq<Val>, hints: seq<Option<nat>>)
    requires AllTyped(fs, vs)
  {
    && |hints| == |fs|
    && forall i :: 0 <= i < |fs| ==> ReceivableField(fs, vs, hints, i)
  }

  ghost predicate ReceivableField(fs: seq<Field>, vs: seq<Val>, hints: seq<Option<nat>>, i: nat)
    requires AllTyped(fs, vs) && i < |fs| == |hints|
  {
    var v, n := vs[i], |fs|;
    match fs[i]
    case Num(kind, width) =>
      && (kind.Named? ==> IsNamed(kind.ranges, Promoted(v.n, width)))
      && (kind.Fixed? ==> v.n == kind.num && (width < 32 || kind.num < HALF))
    case Pad(_) => true
    case Check(_) => Last(fs, Checksum, n) == Some(i)
    case FixedStr(len, _) => v.s.Some? && |v.s.value| == len <= SCRATCH
    case DynStr(_) => if hints[i] == None then v.s == None else v.s.Some? && |v.s.value| == hints[i].value <= SCRATCH
    case Raw(tail, _) =>
      && v.s.Some? && |v.s.value| <= SCRATCH && EncLen(fs, vs, i) % 8 == 0
      && Last(fs, Pdu, i).Some? && Last(fs, Pdu, i) == Last(fs, Pdu, n)
      && tail / 8 == (EncLen(fs, vs, n) - EncLen(fs, vs, i + 1)) / 8
  }

  lemma {:induction false} PduBeforeIs(fs: seq<Field>, vs: seq<Val>, i: nat)
    requires AllTyped(fs, vs) && i <= |fs| && Last(fs, Pdu, i).Some?
    ensures var j := Last(fs, Pdu, i).value; PduBefore(fs, vs, i) == Promoted(vs[j].n, fs[j].width)
    decreases i
  {
    if !Is(fs[i - 1], Pdu) {
      PduBeforeIs(fs, vs, i - 1);
    }
  }

  /** The member of field i in the completed values. */
  lemma {:induction false} CompletedMember(fs: seq<Field>, vs: seq<Val>, s: seq<byte>, i: nat)
    requires AllTyped(fs, vs) && SduFits(fs, vs) && Blank(fs, vs) && i < |fs|
    ensures AllTyped(fs, WithLengths(fs, vs))
    ensures var final := Completed(fs, vs, s);
            && (!Is(fs[i], Sdu) && !Is(fs[i], Pdu) && !fs[i].Check? ==> final[i] == vs[i])
            && (Last(fs, Pdu, |fs|) == Some(i) ==> final[i] == Number(EncLen(fs, vs, |fs|) / 8))
            && (Last(fs, Sdu, |fs|) == Some(i) ==> final[i] == Number(SduLength(fs, vs)))
            && (Last(fs, Checksum, |fs|) == Some(i) && EncLen(fs, vs, i) <= 8 * |s| ==>
                  final[i] == Number(CheckSum(fs[i].size, s[..EncLen(fs, vs, i) / 8])))
  {
    LengthsSame(fs, vs, i);
  }

  lemma RawFits(l: nat, p: nat, q: nat, b: nat, tail: nat)
    requires p % 8 == 0 && q == p + 8 * b && q <= l && tail / 8 == (l - q) / 8
    ensures l / 8 == p / 8 + b + tail / 8
  {
  }

  lemma {:induction false} CompletedOk(fs: seq<Field>, vs: seq<Val>, hints: seq<Option<nat>>, s: seq<byte>, i: nat)
    requires AllTyped(fs, vs) && SduFits(fs, vs) && Blank(fs, vs) && WellFormed(fs) && i < |fs|
    requires CheckAligned(fs, vs) && Receivable(fs, vs, hints)
    requires AllTyped(fs, WithLengths(fs, vs)) && PduOf(fs, vs, s)
    ensures FieldOk(fs, Completed(fs, vs, s), hints, s, i)
  {
    assert ReceivableField(fs, vs, hints, i);
    CompletedMember(fs, vs, s, i);
    CompletedPlace(fs, vs, s, i);
    if fs[i].Raw? {
      CompletedRaw(fs, vs, hints, s, i);
    } else if fs[i].Check? {
      CheckWithin(fs, vs, i, |s|);
    }
  }

  lemma {:induction false} CompletedPlace(fs: seq<Field>, vs: seq<Val>, s: seq<byte>, i: nat)
    requires AllTyped(fs, vs) && SduFits(fs, vs) && Blank(fs, vs) && CheckAligned(fs, vs) && i < |fs|
    ensures AllTyped(fs, WithLengths(fs, vs)) && AllTyped(fs, Completed(fs, vs, s))
    ensures EncLen(fs, Completed(fs, vs, s), i) == EncLen(fs, vs, i)
  {
    CloseReady(fs, vs);
    CheckMovesNothing(fs, WithLengths(fs, vs), s);
    LengthsSame(fs, vs, i);
  }

  lemma {:induction false} CheckWithin(fs: seq<Field>, vs: seq<Val>, i: nat, len: nat)
    requires AllTyped(fs, vs) && CheckAligned(fs, vs) && i < |fs| && fs[i].Check? && len == EncLen(fs, vs, |fs|) / 8
    ensures EncLen(fs, vs, i) % 8 == 0 && EncLen(fs, vs, i) <= 8 * len
  {
    EncLenGrows(fs, vs, i, |fs|);
    WithinWhole(EncLen(fs, vs, i), EncLen(fs, vs, |fs|));
  }

  lemma WithinWhole(x: nat, y: nat)
    requires x % 8 == 0 && x <= y
    ensures x <= 8 * (y / 8)
  {
  }

  /** The pdu length leaves the reader the length of the payload. */
  lemma {:induction false} CompletedRaw(fs: seq<Field>, vs: seq<Val>, hints: seq<Option<nat>>, s: seq<byte>, i: nat)
    requires AllTyped(fs, vs) && SduFits(fs, vs) && Blank(fs, vs) && i < |fs| == |hints| && fs[i].Raw?
    requires ReceivableField(fs, vs, hints, i) && AllTyped(fs, WithLengths(fs, vs)) && PduOf(fs, vs, s)
    ensures PduBefore(fs, Completed(fs, vs, s), i) == EncLen(fs, vs, i) / 8 + |vs[i].s.value| + fs[i].tail / 8
  {
    var n, j := |fs|, Last(fs, Pdu, i).value;
    PduBeforeIs(fs, Completed(fs, vs, s), i);
    CompletedMember(fs, vs, s, j);
    EncLenGrows(fs, vs, i + 1, n);
    RawFits(EncLen(fs, vs, n), EncLen(fs, vs, i), EncLen(fs, vs, i + 1), |vs[i].s.value|, fs[i].tail);
  }

  /**
   * gen_pdu followed by in_struct. If the fields fill whole bytes and these are as many as the descriptor
   * declares, the checks pass, every member comes back, the length fields hold the true lengths, and
   * the cursor ends at the end. Otherwise the message is not accepted.
   */
  method SendAndReceive(fs: seq<Field>, vs: seq<Val>, hints: seq<Option<nat>>)
    returns (out: Emitted, pdu: seq<byte>, r: Parsed)
    requires Sendable(fs, vs) && Receivable(fs, SentAll(fs, vs), hints)
    ensures out == EmittedBy(fs, vs, PDU_ROOM)
    ensures out == Done ==> PduOf(fs, SentAll(fs, vs), pdu) && r == Received(fs, SentAll(fs, vs), pdu)
    ensures out == Done ==>
      (r.Accepted? <==> EncLen(fs, SentAll(fs, vs), |fs|) % 8 == 0 && StaticBits(fs, |fs|) <= 8 * |pdu|)
  {
    out, pdu := GenPdu(fs, vs);
    r := InStruct(fs, pdu, hints);
    if out == Done {
      BlankSent(fs, vs);
      PduRoundTrips(fs, SentAll(fs, vs), hints, pdu);
    }
  }

  /** What in_struct makes of a message of gen_pdu. */
  ghost function Received(fs: seq<Field>, vs: seq<Val>, s: seq<byte>): Parsed
    requires AllTyped(fs, vs) && SduFits(fs, vs) && AllTyped(fs, WithLengths(fs, vs))
  {
    if StaticBits(fs, |fs|) > 8 * |s| then Rejected
    else if EncLen(fs, vs, |fs|) % 8 == 0 then Accepted(Completed(fs, vs, s), 8 * |s|)
    else Overrun
  }

  lemma {:induction false} PduRoundTrips(fs: seq<Field>, vs: seq<Val>, hints: seq<Option<nat>>, s: seq<byte>)
    requires AllTyped(fs, vs) && SduFits(fs, vs) && Blank(fs, vs) && WellFormed(fs)
    requires CheckAligned(fs, vs) && Receivable(fs, vs, hints)
    requires AllTyped(fs, WithLengths(fs, vs)) && PduOf(fs, vs, s)
    ensures Parse(fs, s, hints) == Received(fs, vs, s)
  {
    var final, l := Completed(fs, vs, s), EncLen(fs, vs, |fs|);
    forall j | 0 <= j < |fs| ensures FieldOk(fs, final, hints, s, j) {
      CompletedOk(fs, vs, hints, s, j);
    }
    if l % 8 == 0 {
      RoundTrip(fs, final, hints, s);
    } else {
      CutRunsOver(fs, final, hints, s, l % 8);
    }
  }

  /** A descriptor of one 4-bit field: the message is empty and the receiver rejects it. */
  method FourBits() returns (pdu: seq<byte>, r: Parsed)
    ensures pdu == [] && r == Rejected
  {
    var fs, vs := [Num(Plain, 4)], [Number(5)];
    var out;
    out, pdu, r := SendAndReceive(fs, vs, [None]);
  }

  /** Four bits and a string of one byte, which does not count as declared size: the reader runs past the end. */
  method CutString() returns (pdu: seq<byte>, r: Parsed)
    ensures |pdu| == 1 && r == Overrun
  {
    var fs, vs := [Num(Plain, 4), FixedStr(1, 0)], [Number(5), Str(Some([7]))];
    assert Pow2(4) == 16;
    assert EncLen(fs, vs, 1) == 4 && EncLen(fs, vs, 2) == 12 && SentAll(fs, vs) == vs;
    var out;
    out, pdu, r := SendAndReceive(fs, vs, [None, None]);
  }
}
