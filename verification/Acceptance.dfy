/**
 * What the acceptance of a message by in_struct proves about the message, whoever made it, and what a checksum is
 * good for: a message of gen_pdu with a few bytes altered is not accepted, unless a length field was altered and the
 * reader looks for the checksum at another place.
 */
module Acceptance {
  import opened Wrappers
  import opened Common
  import opened BitString
  import opened BitStream
  import opened Descriptors
  import opened StructOut
  import opened StructIn
  import opened PduRoundTrip
  import Crc

  /**
   * Field i of the message s bears out member i: its bits stand where the fields before it end, a checksum is that
   * of the bytes before it, fixed and named fields pass their tests on the promoted number, and strings have the
   * length the descriptor, the caller or the pdu length gives them. The bits of a pad do not matter.
   */
  ghost predicate BorneOut(fs: seq<Field>, vs: seq<Val>, hints: seq<Option<nat>>, s: seq<byte>, i: nat)
    requires AllTyped(fs, vs) && WellFormed(fs) && i < |fs| == |hints|
  {
    var v, p := vs[i], EncLen(fs, vs, i);
    match fs[i]
    case Num(kind, width) =>
      && Shown(fs, vs, s, i)
      && (kind.Named? ==> IsNamed(kind.ranges, Promoted(v.n, width)))
      && (kind.Fixed? ==> Promoted(v.n, width) == kind.num)
    case Pad(_) => true
    case Check(size) =>
      var c, k := p / 8, size / 8;
      c + k <= |s| && v.n == BufVal(s[c..c + k]) == CheckSum(size, s[..c])
    case FixedStr(len, _) => v.s.Some? && |v.s.value| == len <= SCRATCH && Shown(fs, vs, s, i)
    case DynStr(_) =>
      if hints[i] == None then v.s == None
      else v.s.Some? && |v.s.value| == hints[i].value <= SCRATCH && Shown(fs, vs, s, i)
    case Raw(tail, _) =>
      && v.s.Some? && |v.s.value| <= SCRATCH && Shown(fs, vs, s, i)
      && PduBefore(fs, vs, i) == p / 8 + |v.s.value| + tail / 8
  }

  ghost predicate AllBorneOut(fs: seq<Field>, vs: seq<Val>, hints: seq<Option<nat>>, s: seq<byte>, n: nat)
    requires AllTyped(fs, vs) && WellFormed(fs) && n <= |fs| == |hints|
  {
    forall i :: 0 <= i < n ==> BorneOut(fs, vs, hints, s, i)
  }

  ghost function StepAt(fs: seq<Field>, vs: seq<Val>, hints: seq<Option<nat>>, s: seq<byte>, i: nat): Step
    requires AllTyped(fs, vs) && WellFormed(fs) && i < |fs| == |hints|
  {
    StepOf(fs[i], s, hints[i], EncLen(fs, vs, i), PduBefore(fs, vs, i))
  }

  /** The reader takes member i from field i exactly if the field bears it out, and goes on behind the field. */
  ghost predicate TakesExactly(fs: seq<Field>, vs: seq<Val>, hints: seq<Option<nat>>, s: seq<byte>, i: nat)
    requires AllTyped(fs, vs) && WellFormed(fs) && i < |fs| == |hints|
  {
    var st := StepAt(fs, vs, hints, s, i);
    && (st.Next? && st.val == vs[i] <==> BorneOut(fs, vs, hints, s, i))
    && (BorneOut(fs, vs, hints, s, i) ==> st == Next(EncLen(fs, vs, i + 1), PduBefore(fs, vs, i + 1), vs[i]))
  }

  lemma {:induction false} NumExactly(fs: seq<Field>, vs: seq<Val>, hints: seq<Option<nat>>, s: seq<byte>, i: nat)
    requires AllTyped(fs, vs) && WellFormed(fs) && i < |fs| == |hints| && fs[i].Num?
    ensures TakesExactly(fs, vs, hints, s, i)
  {
    var p, width := EncLen(fs, vs, i), fs[i].width;
    if p + width <= 8 * |s| {
      var n := BitsAt(BufVal(s), Tail(|s|, p, width), width);
      StoredBack(n, width);
    }
  }

  lemma {:induction false} CheckExactly(fs: seq<Field>, vs: seq<Val>, hints: seq<Option<nat>>, s: seq<byte>, i: nat)
    requires AllTyped(fs, vs) && WellFormed(fs) && i < |fs| == |hints| && fs[i].Check?
    ensures TakesExactly(fs, vs, hints, s, i)
  {
    CheckTakes(fs[i].size, s, EncLen(fs, vs, i), PduBefore(fs, vs, i), vs[i]);
    AfterCheck(fs, vs, i);
  }

  lemma CheckTakes(size: nat, s: seq<byte>, p: nat, pdu: nat, v: Val)
    requires v.Number? && (size == 8 || size == 32)
    ensures var st, c, k := TakeCheck(size, s, p, pdu), p / 8, size / 8;
      && (st.Next? && st.val == v <==> c + k <= |s| && v.n == BufVal(s[c..c + k]) == CheckSum(size, s[..c]))
      && (st.Next? ==> st.pos == p + size && st.pdu == pdu)
  {
  }

  /** A string of k bytes is taken exactly if the k bytes are there and spell it. */
  lemma {:induction false} StrExactly(s: seq<byte>, p: nat, k: int, pdu: nat, v: Val)
    requires v.Str?
    ensures var st := TakeStr(s, p, k, pdu);
      (st.Next? && st.val == v <==>
       && v.s.Some? && |v.s.value| == k <= SCRATCH && p + 8 * k <= 8 * |s|
       && BitsAt(BufVal(s), Tail(|s|, p, 8 * k), 8 * k) == BufVal(v.s.value))
    ensures var st := TakeStr(s, p, k, pdu); st.Next? ==> k >= 0 && st.pos == p + 8 * k && st.pdu == pdu
  {
    if v.s.Some? && |v.s.value| == k <= SCRATCH && p + 8 * k <= 8 * |s| {
      if BufVal(BytesAt(s, p, k)) == BufVal(v.s.value) { BufInjective(BytesAt(s, p, k), v.s.value); }
    }
  }

  lemma {:induction false} StringExactly(fs: seq<Field>, vs: seq<Val>, hints: seq<Option<nat>>, s: seq<byte>, i: nat)
    requires AllTyped(fs, vs) && WellFormed(fs) && i < |fs| == |hints| && vs[i].Str?
    ensures TakesExactly(fs, vs, hints, s, i)
  {
    var p, pdu := EncLen(fs, vs, i), PduBefore(fs, vs, i);
    match fs[i]
    case FixedStr(len, _) => StrExactly(s, p, len, pdu, vs[i]);
    case DynStr(_) => if hints[i].Some? { StrExactly(s, p, hints[i].value, pdu, vs[i]); }
    case Raw(tail, _) => StrExactly(s, p, pdu - p / 8 - tail / 8, pdu, vs[i]);
    case _ =>
  }

  lemma {:induction false} FieldExactly(fs: seq<Field>, vs: seq<Val>, hints: seq<Option<nat>>, s: seq<byte>, i: nat)
    requires AllTyped(fs, vs) && WellFormed(fs) && i < |fs| == |hints|
    ensures TakesExactly(fs, vs, hints, s, i)
  {
    match fs[i]
    case Num(_, _) => NumExactly(fs, vs, hints, s, i);
    case Check(_) => CheckExactly(fs, vs, hints, s, i);
    case Pad(_) =>
    case _ => StringExactly(fs, vs, hints, s, i);
  }

  /** The members read so far stay, and each is of its field's type. */
  lemma {:induction false} ReadTyped(fs: seq<Field>, s: seq<byte>, hints: seq<Option<nat>>, i: nat, pos: nat, pdu: nat,
                                     vals: seq<Val>)
    requires WellFormed(fs) && i == |vals| <= |fs| == |hints| && ParseFrom(fs, s, hints, i, pos, pdu, vals).Accepted?
    ensures var res := ParseFrom(fs, s, hints, i, pos, pdu, vals).vals;
      |res| == |fs| && vals <= res && forall k :: i <= k < |fs| ==> Typed(fs[k], res[k])
    decreases |fs| - i
  {
    if i < |fs| {
      var st := StepOf(fs[i], s, hints[i], pos, pdu);
      StepTyped(fs[i], s, hints[i], pos, pdu);
      var more, n := vals + [st.val], i + 1;
      ParseStep(fs, s, hints, i, pos, pdu, vals, st.pos, st.pdu, st.val);
      ReadTyped(fs, s, hints, n, st.pos, st.pdu, more);
      assert more[i] == st.val && vals <= more;
    }
  }

  lemma {:induction false} StepTyped(f: Field, s: seq<byte>, hint: Option<nat>, pos: nat, pdu: nat)
    requires f.Check? ==> f.size == 8 || f.size == 32
    ensures var st := StepOf(f, s, hint, pos, pdu); if st.Next? then Typed(f, st.val) else !st.parsed.Accepted?
  {
  }

  lemma {:induction false} ReadsFromStart(fs: seq<Field>, vs: seq<Val>, hints: seq<Option<nat>>, s: seq<byte>)
    requires AllTyped(fs, vs) && WellFormed(fs) && |fs| == |hints|
    ensures ParsedTo(fs, vs, hints, s, 0) == ParseFrom(fs, s, hints, 0, 0, 0, [])
  {
    assert vs[..0] == [];
  }

  /** Every field from i on of an accepted message bears out its member. */
  lemma {:induction false} AcceptedBorneOut(fs: seq<Field>, vs: seq<Val>, hints: seq<Option<nat>>, s: seq<byte>,
                                            end: nat, i: nat)
    requires AllTyped(fs, vs) && WellFormed(fs) && i <= |fs| == |hints|
    requires ParsedTo(fs, vs, hints, s, i) == Accepted(vs, end) && AllBorneOut(fs, vs, hints, s, i)
    ensures end == EncLen(fs, vs, |fs|) && AllBorneOut(fs, vs, hints, s, |fs|)
    decreases |fs| - i
  {
    if i < |fs| {
      var next := i + 1;
      NextBorneOut(fs, vs, hints, s, end, i, next);
      OneMoreBorneOut(fs, vs, hints, s, i);
      AcceptedBorneOut(fs, vs, hints, s, end, next);
    }
  }

  lemma OneMoreBorneOut(fs: seq<Field>, vs: seq<Val>, hints: seq<Option<nat>>, s: seq<byte>, i: nat)
    requires AllTyped(fs, vs) && WellFormed(fs) && i < |fs| == |hints|
    ensures AllBorneOut(fs, vs, hints, s, i) && BorneOut(fs, vs, hints, s, i) <==> AllBorneOut(fs, vs, hints, s, i + 1)
  {
  }

  lemma {:induction false} NextBorneOut(fs: seq<Field>, vs: seq<Val>, hints: seq<Option<nat>>, s: seq<byte>, end: nat,
                                        i: nat, next: nat)
    requires AllTyped(fs, vs) && WellFormed(fs) && i < |fs| == |hints| && next == i + 1
    requires ParsedTo(fs, vs, hints, s, i) == Accepted(vs, end)
    ensures ParsedTo(fs, vs, hints, s, next) == Accepted(vs, end) && BorneOut(fs, vs, hints, s, i)
  {
    var st := StepAt(fs, vs, hints, s, i);
    ValueRead(fs, vs, hints, s, end, i, EncLen(fs, vs, i), PduBefore(fs, vs, i), st);
    FieldExactly(fs, vs, hints, s, i);
    PushNext(vs, i);
  }

  lemma {:induction false} ValueRead(fs: seq<Field>, vs: seq<Val>, hints: seq<Option<nat>>, s: seq<byte>, end: nat,
                                     i: nat, pos: nat, pdu: nat, st: Step)
    requires |vs| == |fs| && WellFormed(fs) && i < |fs| == |hints| && st == StepOf(fs[i], s, hints[i], pos, pdu)
    requires ParseFrom(fs, s, hints, i, pos, pdu, vs[..i]) == Accepted(vs, end)
    ensures st.Next? && st.val == vs[i]
    ensures ParseFrom(fs, s, hints, i + 1, st.pos, st.pdu, vs[..i] + [st.val]) == Accepted(vs, end)
  {
    StepTyped(fs[i], s, hints[i], pos, pdu);
    var vals := vs[..i] + [st.val];
    ReadTyped(fs, s, hints, i + 1, st.pos, st.pdu, vals);
    assert vals[i] == vs[i];
  }

  /** Members all of whose fields bear them out are what the reader returns. */
  lemma {:induction false} BorneOutAccepted(fs: seq<Field>, vs: seq<Val>, hints: seq<Option<nat>>, s: seq<byte>, i: nat)
    requires AllTyped(fs, vs) && WellFormed(fs) && i <= |fs| == |hints|
    requires AllBorneOut(fs, vs, hints, s, i)
    ensures ParseFrom(fs, s, hints, 0, 0, 0, []) == ParsedTo(fs, vs, hints, s, i)
  {
    if i == 0 {
      ReadsFromStart(fs, vs, hints, s);
    } else {
      OneMoreBorneOut(fs, vs, hints, s, i - 1);
      BorneOutAccepted(fs, vs, hints, s, i - 1);
      FieldExactly(fs, vs, hints, s, i - 1);
      PushNext(vs, i - 1);
    }
  }

  /** in_struct accepts a message with these members exactly if it has the declared size and bears them out. */
  lemma {:induction false} AcceptsExactly(fs: seq<Field>, vs: seq<Val>, hints: seq<Option<nat>>, s: seq<byte>, end: nat)
    requires WellFormed(fs) && |fs| == |hints|
    ensures Parse(fs, s, hints) == Accepted(vs, end) <==>
      && StaticBits(fs, |fs|) <= 8 * |s| && AllTyped(fs, vs) && end == EncLen(fs, vs, |fs|)
      && AllBorneOut(fs, vs, hints, s, |fs|)
  {
    if Parse(fs, s, hints) == Accepted(vs, end) {
      ReadTyped(fs, s, hints, 0, 0, 0, []);
      ReadsFromStart(fs, vs, hints, s);
      AcceptedBorneOut(fs, vs, hints, s, end, 0);
    } else if AllTyped(fs, vs) && AllBorneOut(fs, vs, hints, s, |fs|) {
      BorneOutAccepted(fs, vs, hints, s, |fs|);
      assert vs[..|fs|] == vs;
    }
  }
}

/** Altered messages. */
module Corruption {
  import opened Wrappers
  import opened Common
  import opened BitString
  import opened BitStream
  import opened Descriptors
  import opened StructOut
  import opened StructIn
  import opened PduRoundTrip
  import opened Acceptance
  import Crc

  // The checksum

  lemma ToBvJoins(a: seq<byte>, b: seq<byte>)
    ensures ToBv(a + b) == ToBv(a) + ToBv(b)
  {
  }

  lemma ByteOfBv(x: int)
    requires 0 <= x < 256
    ensures (x as bv8) as int == x
  {
    if x < 16 {} else if x < 32 {} else if x < 64 {} else if x < 128 {} else {}
  }

  lemma {:induction false} ToBvInjective(a: seq<byte>, b: seq<byte>)
    requires |a| == |b| && ToBv(a) == ToBv(b)
    ensures a == b
  {
    forall i | 0 <= i < |a| ensures a[i] == b[i] {
      assert ToBv(a)[i] == ToBv(b)[i];
      ByteOfBv(a[i]);
      ByteOfBv(b[i]);
    }
  }

  /** The two sequences differ, and at most in the n bytes from q on. */
  ghost predicate AlteredIn(s: seq<byte>, t: seq<byte>, q: nat, n: nat) {
    |s| == |t| && q + n <= |s| && s != t && s[..q] == t[..q] && s[q + n..] == t[q + n..]
  }

  /** A checksum notices a change within as many bytes as it has itself. */
  lemma {:induction false} SumChanges(size: nat, s: seq<byte>, t: seq<byte>, q: nat)
    requires (size == 8 || size == 32) && AlteredIn(s, t, q, size / 8)
    ensures CheckSum(size, s) != CheckSum(size, t)
  {
    var n := size / 8;
    var a, x, y, b := s[..q], s[q..q + n], t[q..q + n], s[q + n..];
    ThreeParts(s, q, n);
    ThreeParts(t, q, n);
    if ToBv(x) == ToBv(y) { ToBvInjective(x, y); }
    if size == 8 {
      Sum8Changes(ToBv(a), ToBv(x), ToBv(y), ToBv(b));
    } else {
      Crc.FourBytesDetected(ToBv(a), ToBv(x), ToBv(y), ToBv(b));
      SameSum32(s, t, Complemented(s), Complemented(t));
    }
  }

  lemma {:induction false} ThreeParts(s: seq<byte>, q: nat, n: nat)
    requires q + n <= |s|
    ensures s == s[..q] + s[q..q + n] + s[q + n..]
    ensures ToBv(s) == ToBv(s[..q]) + ToBv(s[q..q + n]) + ToBv(s[q + n..])
  {
    ToBvJoins(s[..q] + s[q..q + n], s[q + n..]);
    ToBvJoins(s[..q], s[q..q + n]);
  }

  /** The register that a 32-bit checksum is read from. */
  function Complemented(s: seq<byte>): bv32 {
    Crc.Slow32(0, ToBv(s)) ^ 0xFFFFFFFF
  }

  lemma {:induction false} SameSum32(s: seq<byte>, t: seq<byte>, x: bv32, y: bv32)
    requires x == Complemented(s) && y == Complemented(t)
    ensures CheckSum32(s) == CheckSum32(t) ==> x == y
  {
    SumIsNumber(s, x);
    SumIsNumber(t, y);
    if NumberOf(x) == NumberOf(y) { SameWord(x, y, NumberOf(x)); }
  }

  lemma {:induction false} SumIsNumber(s: seq<byte>, x: bv32)
    requires x == Complemented(s)
    ensures CheckSum32(s) == NumberOf(x)
  {
  }

  lemma SameWord(x: bv32, y: bv32, n: nat)
    requires NumberOf(x) == n == NumberOf(y)
    ensures x == y
  {
    WordBack(x);
    WordBack(y);
  }

  function NumberOf(x: bv32): (n: nat)
    ensures n < 0x1_0000_0000
  {
    x as nat
  }

  function WordOf(n: nat): bv32
    requires n < 0x1_0000_0000
  {
    n as bv32
  }

  lemma WordBack(x: bv32)
    ensures WordOf(NumberOf(x)) == x
  {
  }

  lemma {:induction false} Sum8Changes(a: seq<bv8>, x: seq<bv8>, y: seq<bv8>, b: seq<bv8>)
    requires |x| == |y| == 1 && x != y
    ensures Crc.Slow8(0, a + x + b) as nat != Crc.Slow8(0, a + y + b) as nat
  {
    assert x == [x[0]] && y == [y[0]];
    Crc.OneByteDetected(a, x[0], y[0], b);
  }

  // Where the reader looks for it

  /** The pdu length fields among the first j hold in t what they hold in vs. */
  ghost predicate SameLengths(fs: seq<Field>, vs: seq<Val>, t: seq<byte>, j: nat)
    requires AllTyped(fs, vs) && j <= |fs|
  {
    forall m :: 0 <= m < j && Is(fs[m], Pdu) ==> Shown(fs, vs, t, m)
  }

  /** With the same length fields, fields stand at the same places in both messages. */
  lemma {:induction false} SamePlaces(fs: seq<Field>, vs: seq<Val>, ws: seq<Val>, hints: seq<Option<nat>>, s: seq<byte>,
                                      t: seq<byte>, i: nat)
    requires AllTyped(fs, vs) && AllTyped(fs, ws) && WellFormed(fs) && i <= |fs| == |hints| && |s| == |t|
    requires AllBorneOut(fs, vs, hints, s, i) && AllBorneOut(fs, ws, hints, t, i) && SameLengths(fs, vs, t, i)
    ensures EncLen(fs, ws, i) == EncLen(fs, vs, i) && PduBefore(fs, ws, i) == PduBefore(fs, vs, i)
  {
    if i > 0 {
      OneMoreBorneOut(fs, vs, hints, s, i - 1);
      OneMoreBorneOut(fs, ws, hints, t, i - 1);
      SamePlaces(fs, vs, ws, hints, s, t, i - 1);
      SamePlace(fs, vs, ws, hints, s, t, i - 1);
    }
  }

  lemma {:induction false} SamePlace(fs: seq<Field>, vs: seq<Val>, ws: seq<Val>, hints: seq<Option<nat>>, s: seq<byte>,
                                     t: seq<byte>, i: nat)
    requires AllTyped(fs, vs) && AllTyped(fs, ws) && WellFormed(fs) && i < |fs| == |hints|
    requires BorneOut(fs, vs, hints, s, i) && BorneOut(fs, ws, hints, t, i)
    requires Is(fs[i], Pdu) ==> Shown(fs, vs, t, i)
    requires EncLen(fs, ws, i) == EncLen(fs, vs, i) && PduBefore(fs, ws, i) == PduBefore(fs, vs, i)
    ensures LenAt(fs, ws, i) == LenAt(fs, vs, i) && PduBefore(fs, ws, i + 1) == PduBefore(fs, vs, i + 1)
  {
  }

  /** The checksum of an altered message is at its old place and wrong. */
  lemma {:induction false} SumIsWrong(fs: seq<Field>, vs: seq<Val>, ws: seq<Val>, hints: seq<Option<nat>>, s: seq<byte>,
                                      t: seq<byte>, j: nat, q: nat)
    requires AllTyped(fs, vs) && AllTyped(fs, ws) && WellFormed(fs) && j < |fs| == |hints| && fs[j].Check?
    requires AlteredIn(s, t, q, fs[j].size / 8) && q + fs[j].size / 8 <= EncLen(fs, vs, j) / 8
    requires EncLen(fs, ws, j) == EncLen(fs, vs, j) && BorneOut(fs, vs, hints, s, j)
    ensures !BorneOut(fs, ws, hints, t, j)
  {
    var c, size := EncLen(fs, vs, j) / 8, fs[j].size;
    Summed(fs, vs, hints, s, j, c, size / 8);
    if BorneOut(fs, ws, hints, t, j) {
      Summed(fs, ws, hints, t, j, c, size / 8);
      NotBothSummed(s, t, q, size, c, size / 8);
    }
  }

  /** The checksum at byte c of a message is that of the bytes before it. */
  ghost predicate SumAt(s: seq<byte>, size: nat, c: nat, k: nat) {
    c + k <= |s| && BufVal(s[c..c + k]) == CheckSum(size, s[..c])
  }

  lemma {:induction false} Summed(fs: seq<Field>, vs: seq<Val>, hints: seq<Option<nat>>, s: seq<byte>, j: nat, c: nat,
                                  k: nat)
    requires AllTyped(fs, vs) && WellFormed(fs) && j < |fs| == |hints| && fs[j].Check?
    requires BorneOut(fs, vs, hints, s, j) && c == EncLen(fs, vs, j) / 8 && k == fs[j].size / 8
    ensures SumAt(s, fs[j].size, c, k)
  {
  }

  lemma {:induction false} NotBothSummed(s: seq<byte>, t: seq<byte>, q: nat, size: nat, c: nat, k: nat)
    requires (size == 8 || size == 32) && k == size / 8 && AlteredIn(s, t, q, k) && q + k <= c
    requires SumAt(s, size, c, k)
    ensures !SumAt(t, size, c, k)
  {
    SameBehind(s, t, q, k, c, k);
    ChangesBefore(size, s, t, q, c);
    NotBoth(s, t, size, c, k, CheckSum(size, s[..c]), CheckSum(size, t[..c]));
  }

  lemma NotBoth(s: seq<byte>, t: seq<byte>, size: nat, c: nat, k: nat, a: nat, b: nat)
    requires SumAt(s, size, c, k) && c + k <= |t| && s[c..c + k] == t[c..c + k]
    requires a == CheckSum(size, s[..c]) && b == CheckSum(size, t[..c]) && a != b
    ensures !SumAt(t, size, c, k)
  {
  }

  lemma {:induction false} ChangesBefore(size: nat, s: seq<byte>, t: seq<byte>, q: nat, c: nat)
    requires (size == 8 || size == 32) && AlteredIn(s, t, q, size / 8) && q + size / 8 <= c <= |s|
    ensures CheckSum(size, s[..c]) != CheckSum(size, t[..c])
  {
    AlteredBefore(s, t, q, size / 8, c);
    SumChanges(size, s[..c], t[..c], q);
  }

  lemma AlteredBefore(s: seq<byte>, t: seq<byte>, q: nat, n: nat, c: nat)
    requires AlteredIn(s, t, q, n) && q + n <= c <= |s|
    ensures AlteredIn(s[..c], t[..c], q, n)
  {
    Parts(s, q, q + n, c);
    Parts(t, q, q + n, c);
  }

  lemma Parts(s: seq<byte>, q: nat, m: nat, c: nat)
    requires q <= m <= c <= |s|
    ensures s[..c][..q] == s[..q] && s[..c][m..] == s[m..][..c - m] && s == s[..c] + s[m..][c - m..]
  {
    assert s[m..][c - m..] == s[c..];
  }

  lemma SameBehind(s: seq<byte>, t: seq<byte>, q: nat, n: nat, c: nat, k: nat)
    requires AlteredIn(s, t, q, n) && q + n <= c && c + k <= |s|
    ensures s[c..c + k] == t[c..c + k]
  {
    Behind(s, q + n, c, k);
    Behind(t, q + n, c, k);
  }

  lemma Behind(s: seq<byte>, m: nat, c: nat, k: nat)
    requires m <= c && c + k <= |s|
    ensures s[c..c + k] == s[m..][c - m..c - m + k]
  {
  }

  /**
   * A message whose fields up to a checksum bear out their members, altered before the checksum within as many
   * bytes as the checksum has, is not accepted as long as the pdu length fields before the checksum are as they were.
   */
  lemma {:induction false} AlteredNotAccepted(fs: seq<Field>, vs: seq<Val>, hints: seq<Option<nat>>, s: seq<byte>,
                                              t: seq<byte>, j: nat, q: nat)
    requires AllTyped(fs, vs) && WellFormed(fs) && j < |fs| == |hints| && fs[j].Check?
    requires AllBorneOut(fs, vs, hints, s, j + 1) && SameLengths(fs, vs, t, j)
    requires AlteredIn(s, t, q, fs[j].size / 8) && q + fs[j].size / 8 <= EncLen(fs, vs, j) / 8
    ensures !Parse(fs, t, hints).Accepted?
  {
    var r := Parse(fs, t, hints);
    if r.Accepted? {
      AcceptsExactly(fs, r.vals, hints, t, r.pos);
      assert AllBorneOut(fs, vs, hints, s, j) && AllBorneOut(fs, r.vals, hints, t, j);
      assert BorneOut(fs, vs, hints, s, j) && BorneOut(fs, r.vals, hints, t, j);
      SamePlaces(fs, vs, r.vals, hints, s, t, j);
      SumIsWrong(fs, vs, r.vals, hints, s, t, j, q);
    }
  }

  /** The fields of a message of gen_pdu bear out its members as far as they lie within it. */
  lemma {:induction false} PduBorneOut(fs: seq<Field>, vs: seq<Val>, hints: seq<Option<nat>>, s: seq<byte>, i: nat)
    requires AllTyped(fs, vs) && SduFits(fs, vs) && Blank(fs, vs) && WellFormed(fs) && i < |fs|
    requires CheckAligned(fs, vs) && Receivable(fs, vs, hints)
    requires AllTyped(fs, WithLengths(fs, vs)) && PduOf(fs, vs, s) && EncLen(fs, vs, i + 1) <= 8 * |s|
    ensures BorneOut(fs, Completed(fs, vs, s), hints, s, i)
    ensures EncLen(fs, Completed(fs, vs, s), i) == EncLen(fs, vs, i)
  {
    var final, l := Completed(fs, vs, s), EncLen(fs, vs, |fs|);
    CompletedOk(fs, vs, hints, s, i);
    CloseReady(fs, vs);
    CheckMovesNothing(fs, WithLengths(fs, vs), s);
    LengthsSame(fs, vs, i);
    LengthsSame(fs, vs, i + 1);
    assert l == 8 * |s| + l % 8;
    CutIsShown(fs, final, s, l % 8, i);
    StepAny(fs, final, hints, s, i);
    FieldExactly(fs, final, hints, s, i);
  }

  /** So a message of gen_pdu altered like that is not accepted by a receiver the message is meant for. */
  lemma {:induction false} AlteredPduNotAccepted(fs: seq<Field>, vs: seq<Val>, hints: seq<Option<nat>>, s: seq<byte>,
                                                 t: seq<byte>, j: nat, q: nat)
    requires AllTyped(fs, vs) && SduFits(fs, vs) && Blank(fs, vs) && WellFormed(fs) && j < |fs| && fs[j].Check?
    requires CheckAligned(fs, vs) && Receivable(fs, vs, hints)
    requires AllTyped(fs, WithLengths(fs, vs)) && PduOf(fs, vs, s) && SameLengths(fs, Completed(fs, vs, s), t, j)
    requires AlteredIn(s, t, q, fs[j].size / 8) && q + fs[j].size / 8 <= EncLen(fs, vs, j) / 8
    ensures !Parse(fs, t, hints).Accepted?
  {
    PduBorneOutTo(fs, vs, hints, s, j);
    AlteredNotAccepted(fs, Completed(fs, vs, s), hints, s, t, j, q);
  }

  lemma {:induction false} PduBorneOutTo(fs: seq<Field>, vs: seq<Val>, hints: seq<Option<nat>>, s: seq<byte>, j: nat)
    requires AllTyped(fs, vs) && SduFits(fs, vs) && Blank(fs, vs) && WellFormed(fs) && j < |fs| && fs[j].Check?
    requires CheckAligned(fs, vs) && Receivable(fs, vs, hints)
    requires AllTyped(fs, WithLengths(fs, vs)) && PduOf(fs, vs, s)
    ensures AllBorneOut(fs, Completed(fs, vs, s), hints, s, j + 1)
    ensures EncLen(fs, Completed(fs, vs, s), j) == EncLen(fs, vs, j)
  {
    EncLenGrows(fs, vs, j + 1, |fs|);
    CheckEndsWithin(EncLen(fs, vs, j), fs[j].size, EncLen(fs, vs, |fs|), |s|);
    PduBorneOut(fs, vs, hints, s, j);
    FirstBorneOut(fs, vs, Completed(fs, vs, s), hints, s, j + 1);
  }

  lemma {:induction false} FirstBorneOut(fs: seq<Field>, vs: seq<Val>, final: seq<Val>, hints: seq<Option<nat>>,
                                         s: seq<byte>, n: nat)
    requires AllTyped(fs, vs) && SduFits(fs, vs) && Blank(fs, vs) && WellFormed(fs) && n <= |fs|
    requires CheckAligned(fs, vs) && Receivable(fs, vs, hints) && AllTyped(fs, final)
    requires AllTyped(fs, WithLengths(fs, vs)) && PduOf(fs, vs, s) && EncLen(fs, vs, n) <= 8 * |s|
    requires final == Completed(fs, vs, s)
    ensures AllBorneOut(fs, final, hints, s, n)
  {
    forall i | 0 <= i < n ensures BorneOut(fs, final, hints, s, i) {
      OneBorneOut(fs, vs, final, hints, s, n, i);
    }
  }

  lemma {:induction false} OneBorneOut(fs: seq<Field>, vs: seq<Val>, final: seq<Val>, hints: seq<Option<nat>>,
                                       s: seq<byte>, n: nat, i: nat)
    requires AllTyped(fs, vs) && SduFits(fs, vs) && Blank(fs, vs) && WellFormed(fs) && i < n <= |fs|
    requires CheckAligned(fs, vs) && Receivable(fs, vs, hints) && AllTyped(fs, final)
    requires AllTyped(fs, WithLengths(fs, vs)) && PduOf(fs, vs, s) && EncLen(fs, vs, n) <= 8 * |s|
    requires final == Completed(fs, vs, s)
    ensures BorneOut(fs, final, hints, s, i)
  {
    EncLenGrows(fs, vs, i + 1, n);
    PduBorneOut(fs, vs, hints, s, i);
  }

  lemma CheckEndsWithin(p: nat, size: nat, l: nat, len: nat)
    requires p % 8 == 0 && (size == 8 || size == 32) && p + size <= l && len == l / 8
    ensures p + size <= 8 * len
  {
  }

  // With the length altered as well

  /** A length, a payload and a checksum of one byte. */
  function Framed(): seq<Field> { [Num(PduLen, 8), Raw(8, 0), Check(8)] }

  function Packet(c: byte): seq<Val> { [Number(0), Str(Some([0, 0, c])), Number(0)] }

  lemma {:induction false} Places(vs: seq<Val>)
    requires |vs| == 3 && vs[0].Number? && vs[1].Str? && vs[1].s.Some? && vs[2].Number?
    ensures AllTyped(Framed(), vs) && SentAll(Framed(), vs) == vs && WellFormed(Framed())
    ensures EncLen(Framed(), vs, 1) == 8 && EncLen(Framed(), vs, 2) == 8 + 8 * |vs[1].s.value|
    ensures EncLen(Framed(), vs, 3) == 16 + 8 * |vs[1].s.value| && StaticBits(Framed(), 3) == 16
    ensures Last(Framed(), Pdu, 1) == Some(0) == Last(Framed(), Pdu, 3) && Last(Framed(), Sdu, 3) == None
    ensures Last(Framed(), Checksum, 3) == Some(2) && PduBefore(Framed(), vs, 1) == Promoted(vs[0].n, 8)
  {
    assert Last(Framed(), Pdu, 0) == None && Last(Framed(), Pdu, 2) == Some(0);
    assert StaticBits(Framed(), 1) == 8 && StaticBits(Framed(), 2) == 8;
  }

  lemma {:induction false} PacketSendable(c: byte)
    ensures Sendable(Framed(), Packet(c)) && SentAll(Framed(), Packet(c)) == Packet(c)
    ensures Receivable(Framed(), Packet(c), NoHints())
    ensures EmittedBy(Framed(), Packet(c), PDU_ROOM) == Done
  {
    Places(Packet(c));
    ByteRange();
    assert EncLen(Framed(), Packet(c), 0) == 0;
    AllEmitted(Framed(), Packet(c), PDU_ROOM, 0);
  }

  /** The payload as it stands in the message. */
  lemma {:induction false} PayloadStands(vs: seq<Val>, s: seq<byte>, b: seq<byte>)
    requires |vs| == 3 && vs[0].Number? && vs[1] == Str(Some(b)) && vs[2].Number? && |s| >= 1 + |b|
    ensures AllTyped(Framed(), vs) && (Shown(Framed(), vs, s, 1) <==> s[1..1 + |b|] == b)
  {
    Places(vs);
    SliceVal(s, 1, |b|);
    if BufVal(s[1..1 + |b|]) == BufVal(b) { BufInjective(s[1..1 + |b|], b); }
  }

  lemma {:induction false} LengthStands(vs: seq<Val>, s: seq<byte>)
    requires |vs| == 3 && vs[0].Number? && vs[1].Str? && vs[1].s.Some? && vs[2].Number? && |s| >= 1
    ensures AllTyped(Framed(), vs) && (Shown(Framed(), vs, s, 0) <==> s[0] == vs[0].n)
  {
    Places(vs);
    SliceVal(s, 0, 1);
    OneByte(s[0]);
    assert s[0..1] == [s[0]];
  }

  lemma {:induction false} OneByte(b: byte)
    ensures BufVal([b]) == b
  {
    ShlZero(8);
  }

  function Shorter(c: byte): seq<Val> { [Number(4), Str(Some([0, 0])), Number(c)] }

  function NoHints(): seq<Option<nat>> { [None, None, None] }

  lemma FirstFour(t: seq<byte>, b: byte, c: byte)
    requires |t| == 5
    ensures t[..4] == [b, 0, 0, c] <==> t[0] == b && t[1..4] == [0, 0, c]
    ensures t[..4] == [b, 0, 0, c] ==> t[3] == c && t[1..3] == [0, 0] && t[..3] == [b, 0, 0]
  {
    assert t[..4] == [t[0], t[1], t[2], t[3]] && t[1..4] == [t[1], t[2], t[3]];
  }

  lemma {:induction false} ShorterBorneOut(t: seq<byte>, c: byte)
    requires |t| == 5 && t[..4] == [4, 0, 0, c]
    ensures AllTyped(Framed(), Shorter(c)) && WellFormed(Framed())
    ensures BorneOut(Framed(), Shorter(c), NoHints(), t, 0) && BorneOut(Framed(), Shorter(c), NoHints(), t, 1)
  {
    Places(Shorter(c));
    FirstFour(t, 4, c);
    LengthStands(Shorter(c), t);
    PayloadStands(Shorter(c), t, [0, 0]);
  }

  lemma {:induction false} CheckStands(vs: seq<Val>, t: seq<byte>, k: nat)
    requires |vs| == 3 && vs[0].Number? && vs[1].Str? && vs[1].s.Some? && vs[2].Number?
    requires k == 1 + |vs[1].s.value| && k < |t| && vs[2].n == t[k] == CheckSum(8, t[..k])
    ensures AllTyped(Framed(), vs) && WellFormed(Framed()) && BorneOut(Framed(), vs, NoHints(), t, 2)
  {
    Places(vs);
    OneByte(t[k]);
    assert t[k..k + 1] == [t[k]];
    EighthOf(EncLen(Framed(), vs, 2), k);
  }

  /** A message whose bytes 0 to 3 are 4, 0, 0 and the checksum of these. */
  lemma {:induction false} ShorterAccepted(t: seq<byte>, c: byte)
    requires |t| == 5 && t[..4] == [4, 0, 0, c] && c == CheckSum(8, [4, 0, 0])
    ensures WellFormed(Framed()) && Parse(Framed(), t, NoHints()) == Accepted(Shorter(c), 32)
  {
    Places(Shorter(c));
    ShorterBorneOut(t, c);
    FirstFour(t, 4, c);
    CheckStands(Shorter(c), t, 3);
    AllThree(Shorter(c), t);
    AcceptsExactly(Framed(), Shorter(c), NoHints(), t, 32);
  }

  lemma {:induction false} AllThree(vs: seq<Val>, t: seq<byte>)
    requires AllTyped(Framed(), vs) && WellFormed(Framed())
    requires BorneOut(Framed(), vs, NoHints(), t, 0) && BorneOut(Framed(), vs, NoHints(), t, 1)
    requires BorneOut(Framed(), vs, NoHints(), t, 2)
    ensures AllBorneOut(Framed(), vs, NoHints(), t, 3)
  {
    OneMoreBorneOut(Framed(), vs, NoHints(), t, 0);
    OneMoreBorneOut(Framed(), vs, NoHints(), t, 1);
    OneMoreBorneOut(Framed(), vs, NoHints(), t, 2);
  }

  /** The message gen_pdu makes of the packet. */
  ghost predicate IsPdu(c: byte, s: seq<byte>) {
    && Sendable(Framed(), Packet(c)) && SentAll(Framed(), Packet(c)) == Packet(c)
    && AllTyped(Framed(), WithLengths(Framed(), Packet(c))) && PduOf(Framed(), Packet(c), s)
  }

  method MakePdu(c: byte) returns (s: seq<byte>)
    ensures IsPdu(c, s)
  {
    PacketSendable(c);
    var out;
    out, s := GenPdu(Framed(), Packet(c));
  }

  /**
   * With the length altered the checksum need not help: of a message of five bytes with one byte altered before its
   * checksum the receiver takes the first four for the whole.
   */
  method LengthAltered() returns (c: byte, s: seq<byte>, t: seq<byte>, r: Parsed)
    ensures IsPdu(c, s) && |s| == 5 && AlteredIn(s, t, 0, 1)
    ensures WellFormed(Framed()) && r == Parse(Framed(), t, NoHints()) && r.Accepted?
  {
    c := Sum8([4, 0, 0]);
    s := MakePdu(c);
    PacketIs(c, s);
    t := s[0 := 4];
    Replaced(s, 4, c);
    ShorterAccepted(t, c);
    r := InStruct(Framed(), t, NoHints());
  }

  lemma Replaced(s: seq<byte>, b: byte, c: byte)
    requires |s| == 5 && s[..4] == [5, 0, 0, c] && b != 5
    ensures s[0 := b][..4] == [b, 0, 0, c] && AlteredIn(s, s[0 := b], 0, 1)
  {
    var t := s[0 := b];
    assert s[0] == s[..4][0] && t[..4] == s[..4][0 := b] && t[1..] == s[1..] && t[..0] == s[..0];
    assert t[0] != s[0];
  }

  lemma {:induction false} PacketIs(c: byte, s: seq<byte>)
    requires IsPdu(c, s)
    ensures |s| == 5 && s[..4] == [5, 0, 0, c]
  {
    var fs, vs, hints: seq<Option<nat>> := Framed(), Packet(c), NoHints();
    Places(vs);
    PacketSendable(c);
    PduBorneOut(fs, vs, hints, s, 0);
    PduBorneOut(fs, vs, hints, s, 1);
    var final := Completed(fs, vs, s);
    CompletedMember(fs, vs, s, 0);
    CompletedMember(fs, vs, s, 1);
    LengthStands(final, s);
    PayloadStands(final, s, [0, 0, c]);
    FirstFour(s, 5, c);
  }
}
