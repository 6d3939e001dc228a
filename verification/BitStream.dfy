/** The bit-level primitives of src/ld_santilizer.c: append_bits, detach_bits, append_str, detach_str. */
module BitStream {
  import opened Common
  import opened BitString

  // Writing

  /** A number whose k bits above the l lowest are zero, cut around that gap. */
  lemma {:induction false} CutAtGap(b: nat, k: nat, l: nat)
    requires BitsAt(b, l, k) == 0
    ensures b == Shl(Shr(b, k + l), k + l) + Low(b, l)
  {
    var d := Shr(b, l);
    SplitAt(b, l);
    SplitAt(d, k);
    ShrShr(b, l, k);
    ShlShl(Shr(d, k), k, l);
  }

  /** Oring k bits into a gap of zero bits of a byte adds them. */
  lemma {:induction false} OrIntoByte(b: byte, u: nat, pre: nat, k: nat, l: nat)
    requires pre + k + l == 8 && u < Pow2(k) && BitsAt(b, l, k) == 0
    ensures Or(b, Shl(u, l)) == b + Shl(u, l) < 256
  {
    var hi, lo := Shr(b, k + l), Low(b, l);
    CutAtGap(b, k, l);
    OrFills(hi, lo, u, k, l);
    ByteRange();
    ShrBound(b, k + l, pre);
    ThreePartsFit(hi, pre, u, k, lo, l);
  }

  lemma ThreePartsFit(hi: nat, pre: nat, u: nat, k: nat, lo: nat, l: nat)
    requires hi < Pow2(pre) && u < Pow2(k) && lo < Pow2(l)
    ensures Shl(hi, k + l) + lo + Shl(u, l) < Pow2(pre + k + l)
  {
    Below(hi, pre, u, k);
    ShlAdd(Shl(hi, k), u, l);
    ShlShl(hi, k, l);
    Below(Shl(hi, k) + u, pre + k, lo, l);
  }

  /** Oring k bits into a gap of zero bits of byte c adds them to the buffer's number. */
  lemma OrIntoBuffer(s: seq<byte>, c: nat, u: nat, pre: nat, k: nat, l: nat)
    requires c < |s| && pre + k + l == 8 && u < Pow2(k)
    requires BitsAt(BufVal(s), 8 * (|s| - 1 - c) + l, k) == 0
    ensures var b := Or(s[c], Shl(u, l));
            b < 256 && BufVal(s[c := b]) == BufVal(s) + Shl(u, 8 * (|s| - 1 - c) + l)
  {
    var m := 8 * (|s| - 1 - c);
    BitsOfByte(s, c, l, k);
    OrIntoByte(s[c], u, pre, k, l);
    BufStore(s, c, Shl(u, l));
    ShlShl(u, l, m);
  }

  /** The part of an n written so far when r bits remain. */
  ghost function Written(n: nat, r: nat): nat {
    Shl(Shr(n, r), r)
  }

  lemma WrittenStep(n: nat, r: nat, k: nat)
    requires k <= r
    ensures Written(n, r - k) == Written(n, r) + Shl(Low(Shr(n, r - k), k), r - k)
  {
    var d := Shr(n, r - k);
    ShrShr(n, r - k, k);
    SplitAt(d, k);
    ShlAdd(Shl(Shr(n, r), k), Low(d, k), r - k);
    ShlShl(Shr(n, r), k, r - k);
  }

  lemma {:induction false} WrittenNone(n: nat, w: nat)
    requires n < Pow2(w)
    ensures Written(n, w) == 0
  {
    ShrBound(n, w, 0);
    ShlZero(w);
  }

  /** The byte append_bits ors in, when the field still reaches the end of the current byte. */
  lemma WholeChunk(n: nat, w: nat, r: nat, pre: nat)
    requires n < Pow2(w) && r <= w && pre < 8 && (pre == 0 || r == w) && r + pre >= 8
    ensures Low(Shr(n, r + pre - 8), Octet()) == Low(Shr(n, r + pre - 8), 8 - pre)
  {
    if pre > 0 { FirstChunk(Shr(n, w + pre - 8), n, w, pre); }
  }

  lemma FirstChunk(d: nat, n: nat, w: nat, pre: nat)
    requires n < Pow2(w) && 0 < pre < 8 && w + pre >= 8 && d == Shr(n, w + pre - 8)
    ensures Low(d, Octet()) == Low(d, 8 - pre)
  {
    ShrBound(n, w + pre - 8, 8 - pre);
    SmallBoth(d, 8 - pre);
  }

  lemma SmallBoth(d: nat, k: nat)
    requires k <= 8 && d < Pow2(k)
    ensures Low(d, Octet()) == d == Low(d, k)
  {
    Pow2Monotone(k, Octet());
    LowSmall(d, Octet());
    LowSmall(d, k);
  }

  /** The byte append_bits ors in, when the field ends inside the current byte. */
  lemma PartChunk(n: nat, w: nat, r: nat, pre: nat)
    requires n < Pow2(w) && r <= w && pre < 8 && (pre == 0 || r == w) && r + pre < 8
    ensures Low(Shl(n, 8 - r - pre), Octet()) == Shl(Low(n, r), 8 - r - pre)
  {
    var l := 8 - r - pre;
    if pre == 0 {
      LowShl(n, r, l);
    } else {
      SmallShl(n, r, l);
    }
  }

  lemma SmallShl(n: nat, r: nat, l: nat)
    requires n < Pow2(r) && r + l <= 8
    ensures Low(Shl(n, l), Octet()) == Shl(Low(n, r), l)
  {
    LowSmall(n, r);
    ShlBound(n, r, l);
    SmallBoth(Shl(n, l), r + l);
  }

  /**
   * Bit position p of a buffer of len bytes, counted from the end: the place of the last bit of
   * a field of w bits that starts at p.
   */
  function Tail(len: nat, p: nat, w: nat): int {
    8 * len - p - w
  }

  /** One round of append_bits: the next k bits of n go to byte cur. */
  method StoreChunk(a: array<byte>, cur: nat, v: nat, ghost v0: nat, ghost n: nat, ghost p: nat, ghost w: nat,
                    ghost r: nat, ghost k: nat)
    requires k <= r <= w && p + w <= 8 * a.Length && cur == (p + w - r) / 8 && cur < a.Length
    requires (p + w - r) % 8 + k <= 8 && (k == r || (p + w - r) % 8 + k == 8)
    requires BitsAt(v0, Tail(a.Length, p, w), w) == 0
    requires BufVal(a[..]) == v0 + Shl(Written(n, r), Tail(a.Length, p, w))
    requires v == Shl(Low(Shr(n, r - k), k), 8 - (p + w - r) % 8 - k)
    modifies a
    ensures BufVal(a[..]) == v0 + Shl(Written(n, r - k), Tail(a.Length, p, w))
  {
    ghost var s, u := a[..], Low(Shr(n, r - k), k);
    ghost var pre, t := (p + w - r) % 8, Tail(a.Length, p, w);
    ghost var l := 8 - pre - k;
    GapStays(v0, n, t, w, r, k);
    assert 8 * (a.Length - 1 - cur) + l == t + (r - k);
    OrIntoBuffer(s, cur, u, pre, k, l);
    a[cur] := Or(a[cur], v);
    assert a[..] == s[cur := Or(s[cur], v)];
    WrittenMore(n, r, k, t);
  }

  lemma WrittenMore(n: nat, r: nat, k: nat, t: nat)
    requires k <= r
    ensures Shl(Written(n, r - k), t) == Shl(Written(n, r), t) + Shl(Low(Shr(n, r - k), k), t + (r - k))
  {
    var u := Low(Shr(n, r - k), k);
    WrittenStep(n, r, k);
    ShlAdd(Written(n, r), Shl(u, r - k), t);
    ShlShl(u, r - k, t);
  }

  /** What has been written lies above the bits still to come, which are still zero. */
  lemma {:induction false} GapStays(v0: nat, n: nat, t: nat, w: nat, r: nat, k: nat)
    requires k <= r <= w && BitsAt(v0, t, w) == 0
    ensures BitsAt(v0 + Shl(Written(n, r), t), t + (r - k), k) == 0
  {
    var d := r - k;
    ShlShl(Shr(n, r), r, t);
    RangeBelow(v0, Shr(n, r), t, r);
    SubRange(v0, t, w, 0, r);
    LowZero(r);
    SubRange(v0 + Shl(Written(n, r), t), t, r, d, k);
    ShrZero(d);
    LowZero(k);
  }

  lemma {:induction false} LowZero(k: nat)
    ensures Low(0, k) == 0
  {
    if k > 0 { LowZero(k - 1); }
  }

  lemma {:induction false} ShrZero(k: nat)
    ensures Shr(0, k) == 0
  {
    if k > 0 { ShrZero(k - 1); }
  }

  lemma NextByte(x: nat)
    ensures (x + (8 - x % 8)) / 8 == x / 8 + 1 && (x + (8 - x % 8)) % 8 == 0
  {
  }

  lemma SameByte(x: nat, k: nat)
    requires x % 8 + k < 8
    ensures (x + k) / 8 == x / 8
  {
  }

  /**
   * append_bits: writes the w bits of n at bit position p, most significant first, where the
   * buffer holds zeros; nothing else changes. The cursor ends at the byte of the next bit.
   */
  method AppendBits(a: array<byte>, cur0: nat, toShift0: int, n: nat, ghost p: nat, ghost w: nat) returns (cur: nat)
    requires p + w <= 8 * a.Length && n < Pow2(w) && BitsAt(BufVal(a[..]), Tail(a.Length, p, w), w) == 0
    requires cur0 == p / 8 && toShift0 == w - (8 - p % 8)
    modifies a
    ensures BufVal(a[..]) == old(BufVal(a[..])) + Shl(n, Tail(a.Length, p, w))
    ensures cur == (p + w) / 8
  {
    var toShift := toShift0;
    cur := cur0;
    ghost var x: nat, r: nat, done, v0 := p, w, false, BufVal(a[..]);
    WrittenNone(n, w);
    ShlZero(Tail(a.Length, p, w));
    while toShift > -8
      invariant r <= w && x == p + w - r && BufVal(a[..]) == v0 + Shl(Written(n, r), Tail(a.Length, p, w))
      invariant cur == x / 8 && (r == w || done || x % 8 == 0)
      invariant if done then r == 0 && toShift <= -8 else toShift == r - 8 + x % 8
      decreases toShift + 8
    {
      if toShift >= 0 {
        StoreWhole(a, cur, toShift, v0, n, p, w, r, x);
        NextByte(x);
        cur := cur + 1;
        r := r - (8 - x % 8);
        x := x + (8 - x % 8);
      } else {
        StorePart(a, cur, -toShift, v0, n, p, w, r, x);
        SameByte(x, r);
        x, r, done := x + r, 0, true;
      }
      toShift := toShift - 8;
    }
  }

  /** A round that fills the current byte; the field continues at bit x. */
  method StoreWhole(a: array<byte>, cur: nat, toShift: nat, ghost v0: nat, n: nat, ghost p: nat, ghost w: nat,
                    ghost r: nat, ghost x: nat)
    requires r <= w && x == p + w - r && p + w <= 8 * a.Length && n < Pow2(w) && cur == x / 8
    requires (r == w || x % 8 == 0) && toShift == r - 8 + x % 8
    requires BitsAt(v0, Tail(a.Length, p, w), w) == 0 && BufVal(a[..]) == v0 + Shl(Written(n, r), Tail(a.Length, p, w))
    modifies a
    ensures r >= 8 - x % 8 && BufVal(a[..]) == v0 + Shl(Written(n, r - (8 - x % 8)), Tail(a.Length, p, w))
  {
    WholeChunk(n, w, r, x % 8);
    StoreChunk(a, cur, Low(Shr(n, toShift), Octet()), v0, n, p, w, r, 8 - x % 8);
  }

  /** The round in which the field ends inside the current byte. */
  method StorePart(a: array<byte>, cur: nat, up: nat, ghost v0: nat, n: nat, ghost p: nat, ghost w: nat, ghost r: nat,
                   ghost x: nat)
    requires r <= w && x == p + w - r && p + w <= 8 * a.Length && n < Pow2(w) && cur == x / 8
    requires (r == w || x % 8 == 0) && up == 8 - r - x % 8 && 0 < up < 8
    requires BitsAt(v0, Tail(a.Length, p, w), w) == 0 && BufVal(a[..]) == v0 + Shl(Written(n, r), Tail(a.Length, p, w))
    modifies a
    ensures BufVal(a[..]) == v0 + Shl(Written(n, 0), Tail(a.Length, p, w))
  {
    PartChunk(n, w, r, x % 8);
    StoreChunk(a, cur, Low(Shl(n, up), Octet()), v0, n, p, w, r, r);
  }

  // Reading

  const HALF: nat := 0x8000_0000
  const SIGN: nat := 0xFFFF_FFFF_0000_0000

  /**
   * The byte shifted left is an int: from 2^31 on it is negative, and widening it to 64 bits
   * copies the sign into the upper half.
   */
  function Widened(x: nat): nat {
    if x < HALF then x else x + SIGN
  }

  /** What detach_bits makes of a field of w <= 32 bits with value v. */
  function Promoted(v: nat, w: nat): nat {
    if w == 32 && v >= HALF then v + SIGN else v
  }

  /** The value of the bits read so far when r remain. */
  ghost function ReadSoFar(v: nat, w: nat, r: nat): nat {
    Written(v, r) + if w == 32 && r < w && v >= HALF then SIGN else 0
  }

  lemma HalfIsPower()
    ensures HALF == Pow2(31)
  {
    Pow2Octet(0);
    Pow2Octet(8);
    Pow2Octet(16);
    Pow2Octet(24);
    assert Pow2(32) == 2 * Pow2(31);
  }

  lemma {:induction false} OrZeroLeft(x: nat)
    ensures Or(0, x) == x
  {
    if x > 0 { OrZeroLeft(x / 2); }
  }

  /** The first bits read already decide whether the value reaches 2^31. */
  lemma FirstBitsDecide(v: nat, r: nat)
    requires r <= 31
    ensures Written(v, r) >= HALF <==> v >= HALF
  {
    HalfIsPower();
    SplitAt(v, r);
    if Written(v, r) < HALF {
      if Shr(v, r) < Pow2(31 - r) {
        Below(Shr(v, r), 31 - r, Low(v, r), r);
      } else {
        ShlGrows(Pow2(31 - r), Shr(v, r), r);
        ShlPow2(31 - r, r);
      }
    }
  }

  lemma {:induction false} ShlGrows(x: nat, y: nat, k: nat)
    requires x <= y
    ensures Shl(x, k) <= Shl(y, k)
  {
    if k > 0 { ShlGrows(x, y, k - 1); }
  }

  lemma {:induction false} ShlPow2(m: nat, k: nat)
    ensures Shl(Pow2(m), k) == Pow2(m + k)
  {
    if k > 0 { ShlPow2(m, k - 1); }
  }

  /** The first round of detach_bits. */
  lemma FirstRound(v: nat, w: nat, k: nat)
    requires v < Pow2(w) && 0 < k <= w <= 32
    ensures Or(0, Widened(Shl(Low(Shr(v, w - k), k), w - k))) == ReadSoFar(v, w, w - k)
  {
    var x := Shl(Low(Shr(v, w - k), k), w - k);
    WrittenStep(v, w, k);
    WrittenNone(v, w);
    assert x == Written(v, w - k);
    SplitAt(v, w - k);
    HalfIsPower();
    if w < 32 {
      Pow2Monotone(w, 31);
    } else {
      FirstBitsDecide(v, w - k);
    }
    OrZeroLeft(Widened(x));
  }

  function Ones(): nat { 0xFFFF_FFFF }

  function WordBits(): nat { 32 }

  lemma SignIsShifted()
    ensures Shl(Ones(), WordBits()) == SIGN
  {
    ShlOctet(Ones(), 0);
    ShlOctet(Ones(), 8);
    ShlOctet(Ones(), 16);
    ShlOctet(Ones(), 24);
  }

  /** Every later round. */
  lemma LaterRound(v: nat, w: nat, r: nat, k: nat)
    requires v < Pow2(w) && k <= r < w <= 32
    ensures Or(ReadSoFar(v, w, r), Widened(Shl(Low(Shr(v, r - k), k), r - k))) == ReadSoFar(v, w, r - k)
  {
    var x := Shl(Low(Shr(v, r - k), k), r - k);
    NextBits(v, r, k, x);
    if w == 32 && v >= HALF {
      OrUnderSign(Shr(v, r), x, r);
    } else {
      OrAdds(Shr(v, r), x, r);
    }
  }

  /** The next k bits at their place lie below the sign and follow what was read. */
  lemma NextBits(v: nat, r: nat, k: nat, x: nat)
    requires k <= r <= 31 && x == Shl(Low(Shr(v, r - k), k), r - k)
    ensures x < Pow2(r) && Widened(x) == x && Written(v, r - k) == Written(v, r) + x
  {
    ShlBound(Low(Shr(v, r - k), k), k, r - k);
    Pow2Monotone(r, 31);
    HalfIsPower();
    WrittenStep(v, r, k);
  }

  lemma OrUnderSign(d: nat, x: nat, r: nat)
    requires r <= 32 && x < Pow2(r)
    ensures Or(Shl(d, r) + SIGN, x) == Shl(d, r) + SIGN + x
  {
    var sign := Shl(Ones(), WordBits() - r);
    ShlShl(Ones(), WordBits() - r, r);
    SignIsShifted();
    ShlAdd(d, sign, r);
    OrAdds(d + sign, x, r);
  }

  /** The bits of byte c that belong to the field. */
  lemma ChunkOfByte(s: seq<byte>, c: nat, p: nat, w: nat, r: nat, pre: nat, k: nat)
    requires k <= r <= w && p + w <= 8 * |s| && c < |s| && 8 * c + pre == p + w - r
    requires pre + k <= 8 && (k == r || pre + k == 8)
    ensures Shr(Low(s[c], 8 - pre), 8 - pre - k) == Low(Shr(BitsAt(BufVal(s), Tail(|s|, p, w), w), r - k), k)
  {
    var t, l := Tail(|s|, p, w), 8 - pre - k;
    ShrLow(s[c], 8 - pre, l);
    assert 8 * (|s| - 1 - c) + l == t + (r - k);
    BitsOfByte(s, c, l, k);
    SubRange(BufVal(s), t, w, r - k, k);
  }

  lemma {:induction false} BitsOfByte(s: seq<byte>, c: nat, l: nat, k: nat)
    requires c < |s| && l + k <= 8
    ensures BitsAt(BufVal(s), 8 * (|s| - 1 - c) + l, k) == BitsAt(s[c], l, k)
  {
    ByteOf(s, c);
    SubRange(BufVal(s), 8 * (|s| - 1 - c), Octet(), l, k);
  }

  /**
   * detach_bits: reads the w <= 32 bits at bit position p, most significant first. A 32-bit value
   * of at least 2^31 comes back sign-extended.
   */
  method DetachBits(s: seq<byte>, cur0: nat, toShift0: int, preUnavail: nat, ghost p: nat, ghost w: nat)
    returns (n: nat, cur: nat)
    requires p + w <= 8 * |s| && 0 < w <= 32
    requires cur0 == p / 8 && preUnavail == p % 8 && toShift0 == w + p % 8 - 8
    ensures n == Promoted(BitsAt(BufVal(s), Tail(|s|, p, w), w), w)
    ensures cur == (p + w) / 8
  {
    ghost var v := BitsAt(BufVal(s), Tail(|s|, p, w), w);
    var toShift, pre := toShift0, preUnavail;
    n, cur := 0, cur0;
    ghost var x: nat, r: nat, done := p, w, false;
    WrittenNone(v, w);
    while toShift > -8
      invariant r <= w && x == p + w - r && n == ReadSoFar(v, w, r) && cur == x / 8
      invariant if done then r == 0 && toShift <= -8 else toShift == r - 8 + x % 8 && pre == x % 8
      invariant r == w || done || x % 8 == 0
      decreases toShift + 8
    {
      n := OrChunk(s, cur, pre, toShift, n, p, w, r, x);
      if toShift >= 0 {
        NextByte(x);
        cur := cur + 1;
        r, x := r - (8 - pre), x + (8 - pre);
      } else {
        SameByte(x, r);
        r, x, done := 0, x + r, true;
      }
      pre := 0;
      toShift := toShift - 8;
    }
  }

  /** One round: what byte cur has of the field is shifted to its place and ored in. */
  method OrChunk(s: seq<byte>, cur: nat, pre: nat, toShift: int, n: nat, ghost p: nat, ghost w: nat, ghost r: nat,
                 ghost x: nat)
    returns (m: nat)
    requires 0 < w <= 32 && r <= w && p + w <= 8 * |s| && x == p + w - r && cur == x / 8 && pre == x % 8
    requires (r == w || x % 8 == 0) && toShift == r - 8 + pre && toShift > -8
    requires n == ReadSoFar(BitsAt(BufVal(s), Tail(|s|, p, w), w), w, r)
    ensures m == ReadSoFar(BitsAt(BufVal(s), Tail(|s|, p, w), w), w, if toShift >= 0 then r - (8 - pre) else 0)
  {
    var specific := if pre != 0 then Low(s[cur], 8 - pre) else s[cur];
    LowByte(s[cur]);
    if toShift >= 0 {
      NextChunk(s, cur, p, w, r, x, 8 - pre, n);
      m := Or(n, Widened(Shl(specific, toShift)));
    } else {
      NextChunk(s, cur, p, w, r, x, r, n);
      m := Or(n, Widened(Shr(specific, -toShift)));
    }
  }

  /** The k bits of byte c that come next, ored in at their place. */
  lemma {:induction false} NextChunk(s: seq<byte>, c: nat, p: nat, w: nat, r: nat, x: nat, k: nat, n: nat)
    requires 0 < w <= 32 && k <= r <= w && p + w <= 8 * |s| && x == p + w - r && c == x / 8 && c < |s|
    requires x % 8 + k <= 8 && (k == r || x % 8 + k == 8) && (r < w || k > 0)
    requires n == ReadSoFar(BitsAt(BufVal(s), Tail(|s|, p, w), w), w, r)
    ensures var chunk := Shr(Low(s[c], 8 - x % 8), 8 - x % 8 - k);
      Or(n, Widened(Shl(chunk, r - k))) == ReadSoFar(BitsAt(BufVal(s), Tail(|s|, p, w), w), w, r - k)
  {
    ChunkOfByte(s, c, p, w, r, x % 8, k);
    OrRound(BitsAt(BufVal(s), Tail(|s|, p, w), w), w, r, k, n);
  }

  lemma {:induction false} OrRound(v: nat, w: nat, r: nat, k: nat, n: nat)
    requires 0 < w <= 32 && k <= r <= w && (r < w || k > 0) && v < Pow2(w) && n == ReadSoFar(v, w, r)
    ensures Or(n, Widened(Shl(Low(Shr(v, r - k), k), r - k))) == ReadSoFar(v, w, r - k)
  {
    if r == w {
      WrittenNone(v, w);
      FirstRound(v, w, k);
    } else {
      LaterRound(v, w, r, k);
    }
  }

  lemma {:induction false} LowByte(b: byte)
    ensures Low(b, 8) == b
  {
    ByteRange();
    LowSmall(b, Octet());
  }

  // Strings

  lemma AddOctets(x: nat, i: nat)
    ensures (x + 8 * i) % 8 == x % 8 && (x + 8 * i) / 8 == x / 8 + i
  {
  }

  /** Byte i of a string starts at the same bit of its byte as the string. */
  lemma SamePlace(p: nat, bits: nat, i: nat)
    requires bits % 8 == p % 8
    ensures (bits + 8 * i) % 8 == (p + 8 * i) % 8 == p % 8
    ensures (p + 8 * i) / 8 == p / 8 + i && (p + 8 * i + 8) / 8 == p / 8 + i + 1
  {
    AddOctets(p, i);
    AddOctets(bits, i);
    AddOctets(p, i + 1);
  }

  lemma {:induction false} StrStep(src: seq<byte>, i: nat, t: nat)
    requires i < |src|
    ensures Shl(BufVal(src[..i + 1]), t) == Shl(BufVal(src[..i]), t + 8) + Shl(src[i], t)
  {
    assert src[..i + 1][..i] == src[..i];
    ShlOctet(BufVal(src[..i]), 0);
    ShlAdd(Shl(BufVal(src[..i]), Octet()), src[i], t);
    ShlShl(BufVal(src[..i]), Octet(), t);
  }

  /** append_str: the bytes of src at bit position p, whatever its alignment. */
  method AppendStr(a: array<byte>, cur0: nat, bitSize0: nat, src: seq<byte>, ghost p: nat)
    returns (cur: nat, bitSize: nat)
    requires p + 8 * |src| <= 8 * a.Length && cur0 == p / 8 && bitSize0 % 8 == p % 8
    requires BitsAt(BufVal(a[..]), Tail(a.Length, p, 8 * |src|), 8 * |src|) == 0
    modifies a
    ensures BufVal(a[..]) == old(BufVal(a[..])) + Shl(BufVal(src), Tail(a.Length, p, 8 * |src|))
    ensures cur == (p + 8 * |src|) / 8 && bitSize == bitSize0 + 8 * |src|
  {
    cur, bitSize := cur0, bitSize0;
    ghost var v0, len := BufVal(a[..]), a.Length;
    assert src[..0] == [];
    ShlZero(Tail(len, p, 0));
    for i := 0 to |src|
      invariant cur == p / 8 + i && bitSize == bitSize0 + 8 * i
      invariant BufVal(a[..]) == v0 + Shl(BufVal(src[..i]), Tail(len, p, 8 * i))
    {
      SamePlace(p, bitSize0, i);
      cur := AppendByte(a, cur, bitSize % 8, src, i, v0, p);
      bitSize := bitSize + 8;
    }
    assert src[..|src|] == src;
    AddOctets(p, |src|);
  }

  /** One byte of it. */
  method AppendByte(a: array<byte>, cur0: nat, phase: nat, src: seq<byte>, i: nat, ghost v0: nat, ghost p: nat)
    returns (cur: nat)
    requires i < |src| && p + 8 * |src| <= 8 * a.Length && cur0 == (p + 8 * i) / 8 && phase == (p + 8 * i) % 8
    requires BitsAt(v0, Tail(a.Length, p, 8 * |src|), 8 * |src|) == 0
    requires BufVal(a[..]) == v0 + Shl(BufVal(src[..i]), Tail(a.Length, p, 8 * i))
    modifies a
    ensures BufVal(a[..]) == v0 + Shl(BufVal(src[..i + 1]), Tail(a.Length, p, 8 * (i + 1)))
    ensures cur == (p + 8 * i + 8) / 8
  {
    StrGap(v0, src, i, a.Length, p);
    StrStep(src, i, Tail(a.Length, p + 8 * i, Octet()));
    ByteRange();
    cur := AppendBits(a, cur0, phase, src[i], p + 8 * i, Octet());
  }

  /** The place of byte i is still zero after the bytes before it were written. */
  lemma StrGap(v0: nat, src: seq<byte>, i: nat, len: nat, p: nat)
    requires i < |src| && p + 8 * |src| <= 8 * len && BitsAt(v0, Tail(len, p, 8 * |src|), 8 * |src|) == 0
    ensures BitsAt(v0 + Shl(BufVal(src[..i]), Tail(len, p, 8 * i)), Tail(len, p + 8 * i, Octet()), Octet()) == 0
  {
    RangeBelow(v0, BufVal(src[..i]), Tail(len, p + 8 * i, Octet()), Octet());
    ZeroInside(v0, Tail(len, p, 8 * |src|), 8 * |src|, 8 * (|src| - i - 1), Octet());
  }

  lemma ZeroInside(v: nat, t: nat, w: nat, d: nat, k: nat)
    requires BitsAt(v, t, w) == 0 && d + k <= w
    ensures BitsAt(v, t + d, k) == 0
  {
    SubRange(v, t, w, d, k);
    ShrZero(d);
    LowZero(k);
  }

  /** A range is its upper part shifted plus its lower part. */
  lemma RangeSplits(v: nat, t: nat, a: nat, b: nat)
    ensures BitsAt(v, t, a + b) == Shl(BitsAt(v, t + b, a), b) + BitsAt(v, t, b)
  {
    var x := BitsAt(v, t, a + b);
    SplitAt(x, b);
    SubRange(v, t, a + b, b, a);
    SubRange(v, t, a + b, 0, b);
    ShrBound(x, b, a);
    LowSmall(Shr(x, b), a);
  }

  lemma {:induction false} BufPush(dst: seq<byte>, n: byte, v: nat, t: nat)
    requires BufVal(dst) == BitsAt(v, t + 8, 8 * |dst|) && n == BitsAt(v, t, Octet())
    ensures BufVal(dst + [n]) == BitsAt(v, t, 8 * (|dst| + 1))
  {
    assert (dst + [n])[..|dst|] == dst;
    ShlOctet(BufVal(dst), 0);
    RangeSplits(v, t, 8 * |dst|, Octet());
  }

  /** detach_str: size bytes at bit position p, whatever its alignment. */
  method DetachStr(s: seq<byte>, cur0: nat, bitSize0: nat, size: nat, ghost p: nat)
    returns (dst: seq<byte>, cur: nat, bitSize: nat)
    requires p + 8 * size <= 8 * |s| && cur0 == p / 8 && bitSize0 % 8 == p % 8
    ensures |dst| == size && BufVal(dst) == BitsAt(BufVal(s), Tail(|s|, p, 8 * size), 8 * size)
    ensures cur == (p + 8 * size) / 8 && bitSize == bitSize0 + 8 * size
  {
    dst, cur, bitSize := [], cur0, bitSize0;
    for i := 0 to size
      invariant |dst| == i && BufVal(dst) == BitsAt(BufVal(s), Tail(|s|, p, 8 * i), 8 * i)
      invariant cur == p / 8 + i && bitSize == bitSize0 + 8 * i
    {
      ghost var t := Tail(|s|, p + 8 * i, Octet());
      var pre := bitSize % 8;
      SamePlace(p, bitSize0, i);
      assert t == Tail(|s|, p, 8 * (i + 1)) && t + 8 == Tail(|s|, p, 8 * i);
      var n;
      n, cur := DetachBits(s, cur, pre, pre, p + 8 * i, Octet());
      ByteRange();
      BufPush(dst, n, BufVal(s), t);
      dst := dst + [n];
      bitSize := bitSize + 8;
    }
  }
}
