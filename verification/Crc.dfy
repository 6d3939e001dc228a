/** Shift registers in general. */
module Registers {

  /** n steps of a register. */
  function Iterate<T>(step: T -> T, x: T, n: nat): T
    decreases n
  {
    if n == 0 then x else Iterate(step, step(x), n - 1)
  }

  /** In one step the register turns a doubled difference that fits back into the difference. */
  ghost predicate Halves<T(!new)>(step: T -> T, xor: (T, T) -> T, dbl: T -> T, fits: T -> bool) {
    forall y: T, v: T :: fits(v) ==> step(xor(y, dbl(v))) == xor(step(y), v)
  }

  lemma {:induction false} IterateLast<T>(step: T -> T, x: T, n: nat)
    ensures Iterate(step, x, n + 1) == step(Iterate(step, x, n))
    decreases n
  {
    if n > 0 {
      IterateLast(step, step(x), n - 1);
    }
  }

  /** A difference doubled n times comes out undoubled after n steps. */
  lemma {:induction false} ShiftsOut<T(!new)>(step: T -> T, xor: (T, T) -> T, dbl: T -> T, fits: T -> bool,
                                              x: T, h: T, n: nat)
    requires Halves(step, xor, dbl, fits) && forall k: nat :: k < n ==> fits(Iterate(dbl, h, k))
    ensures Iterate(step, xor(x, Iterate(dbl, h, n)), n) == xor(Iterate(step, x, n), h)
    decreases n
  {
    if n > 0 {
      IterateLast(dbl, h, n - 1);
      ShiftsOut(step, xor, dbl, fits, step(x), h, n - 1);
    }
  }

  lemma {:induction false} IterateEight<T>(step: T -> T, x: T, n: nat)
    requires n == 8
    ensures Iterate(step, x, n) == step(step(step(step(step(step(step(step(x))))))))
  {
    assert Iterate(step, x, 8) == Iterate(step, step(step(x)), 6);
    assert Iterate(step, step(step(x)), 6) == Iterate(step, step(step(step(step(x)))), 4);
  }

  /** An injective step makes n steps injective. */
  lemma {:induction false} IterateInjective<T(!new)>(step: T -> T, x: T, y: T, n: nat)
    requires forall a: T, b: T :: step(a) == step(b) ==> a == b
    requires Iterate(step, x, n) == Iterate(step, y, n)
    ensures x == y
    decreases n
  {
    if n > 0 {
      IterateInjective(step, step(x), step(y), n - 1);
    }
  }
}

/** The checksum loops of src/ld_crc.c, against bit-by-bit division, and what they detect. */
module Crc {
  import opened CrcTables
  import opened Registers

  function Bits(): nat { 8 }

  function Xor(a: bv32, b: bv32): bv32 { a ^ b }

  function Double(v: bv32): bv32 { v << 1 }

  predicate Fits(v: bv32) { v <= 0x7FFFFFFF }

  lemma StepHalf(y: bv32, v: bv32)
    requires Fits(v)
    ensures Step32(Xor(y, Double(v))) == Xor(Step32(y), v)
  {
    var d := Double(v);
    var u := Xor(y, d);
    var w := Step32(y);
    StepShifted(y, v, u, w);
  }

  lemma StepShifted(x: bv32, h: bv32, u: bv32, w: bv32)
    requires h <= 0x7FFFFFFF && u == x ^ (h << 1) && w == Step32(x)
    ensures Step32(u) == Xor(w, h)
  {
    HalfShifted(x, h, u);
    StepOfHalf(x, u, h, x & 1 != 0, x >> 1, u >> 1);
  }

  /** What a step makes of the low bit and the other bits. */
  function Feedback(odd: bool, a: bv32): bv32 { if odd then a ^ 0xFA567D89 else a }

  lemma StepIsFeedback(c: bv32, odd: bool, a: bv32)
    requires odd == (c & 1 != 0) && a == c >> 1
    ensures Step32(c) == Feedback(odd, a)
  {
  }

  lemma FeedbackXor(odd: bool, a: bv32, h: bv32)
    ensures Feedback(odd, Xor(a, h)) == Xor(Feedback(odd, a), h)
  {
    FeedbackSwaps(odd, a, h, Xor(a, h), Feedback(odd, Xor(a, h)));
  }

  lemma FeedbackSwaps(odd: bool, a: bv32, h: bv32, b: bv32, c: bv32)
    requires b == a ^ h && c == Feedback(odd, b)
    ensures c == Feedback(odd, a) ^ h
  {
    if odd { XorSwaps(a, h, b); }
  }

  lemma XorSwaps(a: bv32, h: bv32, b: bv32)
    requires b == a ^ h
    ensures b ^ 0xFA567D89 == (a ^ 0xFA567D89) ^ h
  {
  }

  lemma LowBitStays(x: bv32, h: bv32)
    requires h <= 0x7FFFFFFF
    ensures (x ^ (h << 1)) & 1 == x & 1 && (x ^ (h << 1)) >> 1 == (x >> 1) ^ h
  {
  }

  lemma HalfShifted(x: bv32, h: bv32, u: bv32)
    requires h <= 0x7FFFFFFF && u == x ^ (h << 1)
    ensures u & 1 == x & 1 && u >> 1 == Xor(x >> 1, h)
  {
    LowBitStays(x, h);
  }

  lemma StepOfHalf(x: bv32, u: bv32, h: bv32, odd: bool, a: bv32, b: bv32)
    requires odd == (x & 1 != 0) == (u & 1 != 0) && a == x >> 1 && b == u >> 1 == Xor(a, h)
    ensures Step32(u) == Xor(Step32(x), h)
  {
    StepIsFeedback(x, odd, a);
    StepIsFeedback(u, odd, b);
    FeedbackXor(odd, a, h);
  }

  lemma StepHalves()
    ensures Halves(Step32, Xor, Double, Fits)
  {
    forall y: bv32, v: bv32 | Fits(v) ensures Step32(Xor(y, Double(v))) == Xor(Step32(y), v) {
      StepHalf(y, v);
    }
  }

  lemma {:induction false} DoubleByte(h: bv32)
    requires h <= 0xFFFFFF
    ensures Iterate(Double, h, Bits()) == h << 8
    ensures forall k: nat :: k < Bits() ==> Fits(Iterate(Double, h, k))
  {
    assert Iterate(Double, h, 0) == h;
    DoubleOnce(h, 0);
    DoubleOnce(h, 1);
    DoubleOnce(h, 2);
    DoubleOnce(h, 3);
    DoubleOnce(h, 4);
    DoubleOnce(h, 5);
    DoubleOnce(h, 6);
    DoubleOnce(h, 7);
  }

  lemma DoubleOnce(h: bv32, k: nat)
    ensures Iterate(Double, h, k + 1) == Iterate(Double, h, k) << 1
  {
    IterateLast(Double, h, k);
  }

  /** The upper bytes of the register pass through eight rounds by shifting down. */
  lemma {:induction false} DivideUpper(x: bv32, h: bv32, u: bv32, y: bv32)
    requires h <= 0xFFFFFF && u == h << 8 && y == Xor(x, u)
    ensures Iterate(Step32, y, Bits()) == Xor(Iterate(Step32, x, Bits()), h)
  {
    StepHalves();
    DoubleByte(h);
    ShiftsOut(Step32, Xor, Double, Fits, x, h, Bits());
  }

  // The checksums

  /** Bit-by-bit CRC-8 of a message, from a given register. */
  function Slow8(crc: bv8, msg: seq<bv8>): bv8
    decreases |msg|
  {
    if msg == [] then crc else Slow8(Iterate(Step8, crc ^ msg[0], Bits()), msg[1..])
  }

  /** Bit-by-bit CRC-32 of a message, before the final complement. */
  function Slow32(crc: bv32, msg: seq<bv8>): bv32
    decreases |msg|
  {
    if msg == [] then crc else Slow32(Byte32(crc, msg[0]), msg[1..])
  }

  /** One byte of the bit-by-bit CRC-32. */
  function Byte32(crc: bv32, b: bv8): bv32 {
    Iterate(Step32, Xor(crc, b as bv32), Bits())
  }

  method Lookup8(i: bv8) returns (v: bv8)
    ensures v == Iterate(Step8, i, Bits())
  {
    Crc8TableIsRounds(i);
    IterateEight(Step8, i, Bits());
    v := Crc8Table(i);
  }

  method Lookup32(i: bv32) returns (v: bv32)
    requires i <= 0xFF
    ensures v == Iterate(Step32, i, Bits())
  {
    Crc32TableIsRounds(i);
    IterateEight(Step32, i, Bits());
    v := Crc32Table(i);
  }

  lemma SplitLow(crc: bv32, b: bv32, x: bv32)
    requires b <= 0xFF && x == Xor(crc, b)
    ensures crc >> 8 <= 0xFFFFFF && x == Xor(x & 0xFF, (crc >> 8) << 8)
  {
  }

  /** Only the low byte of the register needs dividing, which is what the table holds. */
  lemma DivideByte(crc: bv32, b: bv8)
    ensures Byte32(crc, b) == Xor(Iterate(Step32, Xor(crc, b as bv32) & 0xFF, Bits()), crc >> 8)
  {
    var x := Xor(crc, b as bv32);
    var lo, hi := x & 0xFF, crc >> 8;
    SplitLow(crc, b as bv32, x);
    DivideUpper(lo, hi, hi << 8, x);
  }

  /** cal_crc_8bits: one table lookup per byte computes the bit-by-bit division. */
  method Crc8(msg: seq<bv8>) returns (crc: bv8)
    ensures crc == Slow8(0, msg)
  {
    crc := 0;
    for i := 0 to |msg|
      invariant Slow8(crc, msg[i..]) == Slow8(0, msg)
    {
      crc := crc ^ msg[i];
      crc := Lookup8(crc);
      assert msg[i..][1..] == msg[i + 1..];
    }
  }

  /** The loop body of cal_crc_32bits. */
  method Next32(crc: bv32, b: bv8) returns (r: bv32)
    ensures r == Byte32(crc, b)
  {
    DivideByte(crc, b);
    var entry := Lookup32(Xor(crc, b as bv32) & 0xFF);
    r := Xor(entry, crc >> 8);
  }

  /** cal_crc_32bits: the table form of the reflected division, complemented at the end. */
  method Crc32(msg: seq<bv8>) returns (crc: bv32)
    ensures crc == Slow32(0, msg) ^ 0xFFFFFFFF
  {
    crc := 0;
    for i := 0 to |msg|
      invariant Slow32(crc, msg[i..]) == Slow32(0, msg)
    {
      crc := Next32(crc, msg[i]);
      assert msg[i..][1..] == msg[i + 1..];
    }
    crc := crc ^ 0xFFFFFFFF;
  }

  // What the checksums detect

  lemma Step8Injective(a: bv8, b: bv8)
    requires Step8(a) == Step8(b)
    ensures a == b
  {
  }

  lemma Step32Injective(a: bv32, b: bv32)
    requires Step32(a) == Step32(b)
    ensures a == b
  {
  }

  lemma {:induction false} Byte8Injective(x: bv8, y: bv8)
    requires Iterate(Step8, x, Bits()) == Iterate(Step8, y, Bits())
    ensures x == y
  {
    forall a: bv8, b: bv8 | Step8(a) == Step8(b) ensures a == b { Step8Injective(a, b); }
    IterateInjective(Step8, x, y, Bits());
  }

  lemma {:induction false} Divide32Injective(x: bv32, y: bv32)
    requires Iterate(Step32, x, Bits()) == Iterate(Step32, y, Bits())
    ensures x == y
  {
    forall a: bv32, b: bv32 | Step32(a) == Step32(b) ensures a == b { Step32Injective(a, b); }
    IterateInjective(Step32, x, y, Bits());
  }

  lemma {:induction false} Slow8Appends(crc: bv8, a: seq<bv8>, b: seq<bv8>)
    ensures Slow8(crc, a + b) == Slow8(Slow8(crc, a), b)
    decreases |a|
  {
    if a == [] {
      assert a + b == b;
    } else {
      assert (a + b)[1..] == a[1..] + b;
      Slow8Appends(Iterate(Step8, crc ^ a[0], Bits()), a[1..], b);
    }
  }

  lemma {:induction false} Slow32Appends(crc: bv32, a: seq<bv8>, b: seq<bv8>)
    ensures Slow32(crc, a + b) == Slow32(Slow32(crc, a), b)
    decreases |a|
  {
    if a == [] {
      assert a + b == b;
    } else {
      assert (a + b)[1..] == a[1..] + b;
      Slow32Appends(Byte32(crc, a[0]), a[1..], b);
    }
  }

  lemma XorCancels8(a: bv8, b: bv8, c: bv8)
    ensures (a ^ c == b ^ c ==> a == b) && (c ^ a == c ^ b ==> a == b)
  {
  }

  lemma XorCancels32(a: bv32, b: bv32, c: bv32)
    ensures (Xor(a, c) == Xor(b, c) ==> a == b) && (Xor(c, a) == Xor(c, b) ==> a == b)
  {
  }

  /** Registers that differ stay different over the same bytes. */
  lemma {:induction false} Slow8Differs(c: bv8, d: bv8, msg: seq<bv8>)
    requires c != d
    ensures Slow8(c, msg) != Slow8(d, msg)
    decreases |msg|
  {
    if msg != [] {
      var x, y := c ^ msg[0], d ^ msg[0];
      XorCancels8(c, d, msg[0]);
      if Iterate(Step8, x, Bits()) == Iterate(Step8, y, Bits()) { Byte8Injective(x, y); }
      Slow8Differs(Iterate(Step8, x, Bits()), Iterate(Step8, y, Bits()), msg[1..]);
    }
  }

  lemma Byte32Differs(c: bv32, d: bv32, b: bv8)
    requires c != d
    ensures Byte32(c, b) != Byte32(d, b)
  {
    var x, y := Xor(c, b as bv32), Xor(d, b as bv32);
    XorCancels32(c, d, b as bv32);
    if Iterate(Step32, x, Bits()) == Iterate(Step32, y, Bits()) { Divide32Injective(x, y); }
  }

  lemma {:induction false} Slow32Differs(c: bv32, d: bv32, msg: seq<bv8>)
    requires c != d
    ensures Slow32(c, msg) != Slow32(d, msg)
    decreases |msg|
  {
    if msg != [] {
      Byte32Differs(c, d, msg[0]);
      Slow32Differs(Byte32(c, msg[0]), Byte32(d, msg[0]), msg[1..]);
    }
  }

  /** Messages that differ in exactly one byte have different CRC-8s. */
  /** The last bit of a byte alone leaves the CRC-8 polynomial, the first the reflected CRC-32 one, complemented. */
  method KnownSums() returns (a: bv8, b: bv32, c: bv32)
    ensures a == 0x97 && b == 0xFFFFFFFF && c == 0xFFFFFFFF ^ 0xFA567D89
  {
    a := Crc8([1]);
    b := Crc32([]);
    c := Crc32([0x80]);
    OneBit();
  }

  lemma {:induction false} OneBit()
    ensures Slow8(0, [1]) == 0x97 && Slow32(0, [0x80]) == 0xFA567D89
  {
    IterateEight(Step8, 1, Bits());
    Slow8One(0, 1);
    Crc8TableIsRounds(1);
    IterateEight(Step32, 0x80, Bits());
    Crc32TableIsRounds(0x80);
    assert Byte32(0, 0x80) == Iterate(Step32, 0x80, Bits());
    assert [0x80][1..] == [] && Slow32(Byte32(0, 0x80), []) == Byte32(0, 0x80);
  }

  lemma {:induction false} OneByteDetected(before: seq<bv8>, x: bv8, y: bv8, after: seq<bv8>)
    requires x != y
    ensures Slow8(0, before + [x] + after) != Slow8(0, before + [y] + after)
  {
    Slow8Appends(0, before + [x], after);
    Slow8Appends(0, before + [y], after);
    Slow8Appends(0, before, [x]);
    Slow8Appends(0, before, [y]);
    var c := Slow8(0, before);
    XorCancels8(x, y, c);
    if Iterate(Step8, c ^ x, Bits()) == Iterate(Step8, c ^ y, Bits()) { Byte8Injective(c ^ x, c ^ y); }
    Slow8One(c, x);
    Slow8One(c, y);
    Slow8Differs(Slow8(c, [x]), Slow8(c, [y]), after);
  }

  lemma {:induction false} Slow8One(c: bv8, x: bv8)
    ensures Slow8(c, [x]) == Iterate(Step8, c ^ x, Bits())
  {
    assert [x][1..] == [];
  }

  /** w holds the bytes bs, first byte lowest, and nothing above them. */
  ghost predicate IsWord(bs: seq<bv8>, w: bv32)
    decreases |bs|
  {
    if bs == [] then w == 0 else w & 0xFF == bs[0] as bv32 && IsWord(bs[1..], w >> 8)
  }

  lemma JoinLow(w: bv32, x: bv32, h: bv32)
    requires x <= 0xFF && w == x ^ (h << 8)
    ensures w & 0xFF == x
  {
  }

  lemma JoinHigh(w: bv32, x: bv32, h: bv32)
    requires x <= 0xFF && h <= 0xFFFFFF && w == x ^ (h << 8)
    ensures w >> 8 == h
  {
  }

  lemma ThreeBytes(h: bv32)
    requires ((h >> 8) >> 8) >> 8 == 0
    ensures h <= 0xFFFFFF
  {
  }

  lemma {:induction false} ShortWord(bs: seq<bv8>, h: bv32)
    requires |bs| <= 3 && IsWord(bs, h)
    ensures ((h >> 8) >> 8) >> 8 == 0
  {
    if |bs| == 0 {
    } else if |bs| == 1 {
      assert IsWord(bs[1..], h >> 8) && bs[1..] == [];
    } else if |bs| == 2 {
      var cs := bs[1..];
      assert IsWord(cs, h >> 8) && IsWord(cs[1..], (h >> 8) >> 8) && cs[1..] == [];
    } else {
      var cs := bs[1..];
      var ds := cs[1..];
      assert IsWord(cs, h >> 8) && IsWord(ds, (h >> 8) >> 8);
      assert IsWord(ds[1..], ((h >> 8) >> 8) >> 8) && ds[1..] == [];
    }
  }

  lemma {:induction false} Joined(bs: seq<bv8>, x: bv32, h: bv32, w: bv32)
    requires bs != [] && x == bs[0] as bv32 && IsWord(bs[1..], h) && w & 0xFF == x && w >> 8 == h
    ensures IsWord(bs, w)
  {
  }

  /** Up to four bytes fit in a word. */
  lemma {:induction false} MakeWord(bs: seq<bv8>) returns (w: bv32)
    requires |bs| <= 4
    ensures IsWord(bs, w)
    decreases |bs|
  {
    if bs == [] {
      w := 0;
    } else {
      var x := bs[0] as bv32;
      var h := MakeWord(bs[1..]);
      ShortWord(bs[1..], h);
      ThreeBytes(h);
      w := x ^ (h << 8);
      JoinLow(w, x, h);
      JoinHigh(w, x, h);
      Joined(bs, x, h, w);
    }
  }

  lemma SameByte(a: bv8, b: bv8, w: bv32)
    requires w == a as bv32 && w == b as bv32
    ensures a == b
  {
  }

  lemma {:induction false} WordInjective(xs: seq<bv8>, ys: seq<bv8>, w: bv32)
    requires |xs| == |ys| && IsWord(xs, w) && IsWord(ys, w)
    ensures xs == ys
    decreases |xs|
  {
    if xs != [] {
      SameByte(xs[0], ys[0], w & 0xFF);
      WordInjective(xs[1..], ys[1..], w >> 8);
      assert xs == [xs[0]] + xs[1..] && ys == [ys[0]] + ys[1..];
    }
  }

  /** Eight rounds, n times. */
  function Bytes32(x: bv32, n: nat): bv32
    decreases n
  {
    if n == 0 then x else Bytes32(Iterate(Step32, x, Bits()), n - 1)
  }

  lemma HighFits(w: bv32)
    ensures w >> 8 <= 0xFFFFFF
  {
  }

  lemma SplitWord(c: bv32, w: bv32)
    ensures c ^ w == (c ^ (w & 0xFF)) ^ ((w >> 8) << 8)
  {
  }

  lemma {:induction false} DivideWord(c: bv32, w: bv32, x: bv32)
    requires x == Xor(c, w)
    ensures Iterate(Step32, x, Bits()) == Xor(Iterate(Step32, Xor(c, w & 0xFF), Bits()), w >> 8)
  {
    var lo, hi := w & 0xFF, w >> 8;
    HighFits(w);
    SplitWord(c, w);
    DivideUpper(Xor(c, lo), hi, hi << 8, x);
  }

  /** Feeding the bytes one by one is dividing the register with the whole word added. */
  lemma {:induction false} BytesAtOnce(c: bv32, bs: seq<bv8>, w: bv32, x: bv32)
    requires IsWord(bs, w) && x == Xor(c, w)
    ensures Slow32(c, bs) == Bytes32(x, |bs|)
    decreases |bs|
  {
    if bs == [] {
      assert x == c;
    } else {
      DivideWord(c, w, x);
      BytesAtOnce(Byte32(c, bs[0]), bs[1..], w >> 8, Iterate(Step32, x, Bits()));
    }
  }

  lemma {:induction false} Bytes32Differs(x: bv32, y: bv32, n: nat)
    requires x != y
    ensures Bytes32(x, n) != Bytes32(y, n)
    decreases n
  {
    if n > 0 {
      if Iterate(Step32, x, Bits()) == Iterate(Step32, y, Bits()) { Divide32Injective(x, y); }
      Bytes32Differs(Iterate(Step32, x, Bits()), Iterate(Step32, y, Bits()), n - 1);
    }
  }

  lemma {:induction false} WindowDiffers(c: bv32, xs: seq<bv8>, ys: seq<bv8>)
    requires |xs| == |ys| <= 4 && xs != ys
    ensures Slow32(c, xs) != Slow32(c, ys)
  {
    var v := MakeWord(xs);
    var w := MakeWord(ys);
    if v == w { WordInjective(xs, ys, v); }
    XorCancels32(v, w, c);
    BytesAtOnce(c, xs, v, Xor(c, v));
    BytesAtOnce(c, ys, w, Xor(c, w));
    Bytes32Differs(Xor(c, v), Xor(c, w), |xs|);
  }

  /** Messages that differ only inside at most four consecutive bytes have different CRC-32s. */
  lemma {:induction false} FourBytesDetected(before: seq<bv8>, xs: seq<bv8>, ys: seq<bv8>, after: seq<bv8>)
    requires |xs| == |ys| <= 4 && xs != ys
    ensures Slow32(0, before + xs + after) ^ 0xFFFFFFFF != Slow32(0, before + ys + after) ^ 0xFFFFFFFF
  {
    Slow32Appends(0, before + xs, after);
    Slow32Appends(0, before + ys, after);
    Slow32Appends(0, before, xs);
    Slow32Appends(0, before, ys);
    var c := Slow32(0, before);
    WindowDiffers(c, xs, ys);
    Slow32Differs(Slow32(c, xs), Slow32(c, ys), after);
    XorCancels32(Slow32(0, before + xs + after), Slow32(0, before + ys + after), 0xFFFFFFFF);
  }
}
