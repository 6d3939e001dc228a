/**
 * Numbers and byte buffers as bit strings, most significant bit first. The C operators are given
 * by their bit-by-bit recursions: Shr is >>, Shl is <<, Low keeps the low bits (a mask), Or is |.
 */
module BitString {
  import opened Common

  /** Bits per byte. */
  function Octet(): nat { 8 }

  function Pow2(n: nat): (r: nat)
    ensures r > 0
  {
    if n == 0 then 1 else 2 * Pow2(n - 1)
  }

  function Shr(n: nat, k: nat): nat
    decreases k
  {
    if k == 0 then n else Shr(n / 2, k - 1)
  }

  function Shl(n: nat, k: nat): nat
    decreases k
  {
    if k == 0 then n else 2 * Shl(n, k - 1)
  }

  function Low(n: nat, k: nat): (r: nat)
    ensures r < Pow2(k)
    decreases k
  {
    if k == 0 then 0 else 2 * Low(n / 2, k - 1) + n % 2
  }

  function Or(x: nat, y: nat): nat
    decreases x + y
  {
    if x == 0 && y == 0 then 0
    else 2 * Or(x / 2, y / 2) + if x % 2 == 1 || y % 2 == 1 then 1 else 0
  }

  /** The w low bits of n. */
  function ToBits(n: nat, w: nat): (b: seq<bool>)
    ensures |b| == w
    decreases w
  {
    if w == 0 then [] else ToBits(n / 2, w - 1) + [n % 2 == 1]
  }

  function Zeros(w: nat): (b: seq<bool>)
    ensures |b| == w
  {
    seq(w, _ => false)
  }

  /** A byte buffer as the number its bits spell. */
  function BufVal(s: seq<byte>): nat {
    if s == [] then 0 else 256 * BufVal(s[..|s| - 1]) + s[|s| - 1]
  }

  // Shifts and masks

  lemma {:induction false} Pow2Monotone(a: nat, b: nat)
    requires a <= b
    ensures Pow2(a) <= Pow2(b)
    decreases b
  {
    if a < b {
      Pow2Monotone(a, b - 1);
    }
  }

  lemma {:induction false} ShrShr(n: nat, a: nat, k: nat)
    ensures Shr(n, a + k) == Shr(Shr(n, a), k)
    decreases a
  {
    if a > 0 {
      ShrShr(n / 2, a - 1, k);
    }
  }

  lemma {:induction false} ShrBound(n: nat, a: nat, k: nat)
    requires n < Pow2(a + k)
    ensures Shr(n, a) < Pow2(k)
    decreases a
  {
    if a > 0 {
      ShrBound(n / 2, a - 1, k);
    }
  }

  lemma {:induction false} LowSmall(n: nat, k: nat)
    requires n < Pow2(k)
    ensures Low(n, k) == n
    decreases k
  {
    if k > 0 {
      LowSmall(n / 2, k - 1);
    }
  }

  lemma {:induction false} ShlBound(n: nat, r: nat, l: nat)
    requires n < Pow2(r)
    ensures Shl(n, l) < Pow2(r + l)
    decreases l
  {
    if l > 0 {
      ShlBound(n, r, l - 1);
    }
  }

  lemma {:induction false} LowShl(n: nat, r: nat, l: nat)
    ensures Low(Shl(n, l), r + l) == Shl(Low(n, r), l)
    decreases l
  {
    if l > 0 {
      LowShl(n, r, l - 1);
      assert Shl(n, l) / 2 == Shl(n, l - 1);
    }
  }

  /** A number is its high part shifted back plus its low part. */
  lemma {:induction false} SplitAt(d: nat, k: nat)
    ensures d == Shl(Shr(d, k), k) + Low(d, k)
    decreases k
  {
    if k > 0 {
      SplitAt(d / 2, k - 1);
    }
  }

  lemma {:induction false} ShlAdd(x: nat, y: nat, k: nat)
    ensures Shl(x + y, k) == Shl(x, k) + Shl(y, k)
    decreases k
  {
    if k > 0 {
      ShlAdd(x, y, k - 1);
    }
  }

  lemma {:induction false} ShlShl(x: nat, a: nat, b: nat)
    ensures Shl(x, a + b) == Shl(Shl(x, a), b)
    decreases b
  {
    if b > 0 {
      ShlShl(x, a, b - 1);
    }
  }

  lemma {:induction false} Below(x: nat, m: nat, y: nat, k: nat)
    requires x < Pow2(m) && y < Pow2(k)
    ensures Shl(x, k) + y < Pow2(m + k)
    decreases k
  {
    if k > 0 {
      Below(x, m, y / 2, k - 1);
    }
  }

  lemma {:induction false} ShlZero(k: nat)
    ensures Shl(0, k) == 0
  {
    if k > 0 { ShlZero(k - 1); }
  }

  // Or

  lemma {:induction false} OrZero(x: nat)
    ensures Or(x, 0) == x
  {
    if x > 0 {
      OrZero(x / 2);
    }
  }

  lemma {:induction false} OrAdds(hi: nat, u: nat, k: nat)
    requires u < Pow2(k)
    ensures Or(Shl(hi, k), u) == Shl(hi, k) + u
    decreases k
  {
    if k == 0 {
      OrZero(hi);
    } else {
      OrAdds(hi, u / 2, k - 1);
      OrDouble(Shl(hi, k - 1), 0, u / 2, u % 2);
    }
  }

  lemma OrDouble(x: nat, a: nat, y: nat, b: nat)
    requires a < 2 && b < 2
    ensures Or(2 * x + a, 2 * y + b) == 2 * Or(x, y) + if a == 1 || b == 1 then 1 else 0
  {
    assert (2 * x + a) / 2 == x && (2 * y + b) / 2 == y;
  }

  /** Or adds where the second operand fills a gap of zero bits in the first. */
  lemma {:induction false} OrFills(hi: nat, lo: nat, u: nat, k: nat, l: nat)
    requires lo < Pow2(l) && u < Pow2(k)
    ensures Or(Shl(hi, k + l) + lo, Shl(u, l)) == Shl(hi, k + l) + lo + Shl(u, l)
    decreases l
  {
    if l == 0 {
      OrAdds(hi, u, k);
    } else {
      OrFills(hi, lo / 2, u, k, l - 1);
      OrDouble(Shl(hi, k + l - 1) + lo / 2, lo % 2, Shl(u, l - 1), 0);
    }
  }

  // Bit strings

  lemma {:induction false} ToBitsConcat(x: nat, m: nat, y: nat, k: nat)
    requires y < Pow2(k)
    ensures ToBits(Shl(x, k) + y, m + k) == ToBits(x, m) + ToBits(y, k)
    decreases k
  {
    if k > 0 {
      ToBitsConcat(x, m, y / 2, k - 1);
      assert (Shl(x, k) + y) / 2 == Shl(x, k - 1) + y / 2;
    }
  }

  lemma {:induction false} ToBitsZero(w: nat)
    ensures ToBits(0, w) == Zeros(w)
  {
    if w > 0 {
      ToBitsZero(w - 1);
      assert Zeros(w - 1) + [false] == Zeros(w);
    }
  }

  // Bit ranges of a number

  lemma {:induction false} ShrLow(x: nat, m: nat, l: nat)
    requires l <= m
    ensures Shr(Low(x, m), l) == Low(Shr(x, l), m - l)
    decreases l
  {
    if l > 0 {
      ShrLow(x / 2, m - 1, l - 1);
      assert Low(x, m) / 2 == Low(x / 2, m - 1);
    }
  }

  lemma {:induction false} LowLow(x: nat, a: nat, b: nat)
    requires a <= b
    ensures Low(Low(x, b), a) == Low(x, a)
    decreases a
  {
    if a > 0 {
      LowLow(x / 2, a - 1, b - 1);
      assert Low(x, b) / 2 == Low(x / 2, b - 1) && Low(x, b) % 2 == x % 2;
    }
  }

  /** The w bits of v above its t lowest. */
  function BitsAt(v: nat, t: nat, w: nat): nat {
    Low(Shr(v, t), w)
  }

  /** A bit range inside a bit range. */
  lemma SubRange(v: nat, t: nat, w: nat, d: nat, k: nat)
    requires d + k <= w
    ensures BitsAt(v, t + d, k) == BitsAt(BitsAt(v, t, w), d, k)
  {
    ShrShr(v, t, d);
    ShrLow(Shr(v, t), w, d);
    LowLow(Shr(v, t + d), k, w - d);
  }

  lemma {:induction false} ShrOfShlAdd(x: nat, y: nat, k: nat)
    requires y < Pow2(k)
    ensures Shr(Shl(x, k) + y, k) == x && Low(Shl(x, k) + y, k) == y
    decreases k
  {
    if k > 0 {
      ShrOfShlAdd(x, y / 2, k - 1);
      assert (Shl(x, k) + y) / 2 == Shl(x, k - 1) + y / 2;
    }
  }

  /** Adding above a range leaves the range. */
  lemma {:induction false} LowAddAbove(v: nat, x: nat, k: nat)
    ensures Low(v + Shl(x, k), k) == Low(v, k)
    decreases k
  {
    if k > 0 {
      LowAddAbove(v / 2, x, k - 1);
      assert (v + Shl(x, k)) / 2 == v / 2 + Shl(x, k - 1);
    }
  }

  lemma {:induction false} ShrAdd(v: nat, x: nat, t: nat)
    ensures Shr(v + Shl(x, t), t) == Shr(v, t) + x
    decreases t
  {
    if t > 0 {
      ShrAdd(v / 2, x, t - 1);
      assert (v + Shl(x, t)) / 2 == v / 2 + Shl(x, t - 1);
    }
  }

  lemma RangeBelow(v: nat, x: nat, t: nat, w: nat)
    ensures BitsAt(v + Shl(x, t + w), t, w) == BitsAt(v, t, w)
  {
    ShlShl(x, w, t);
    ShrAdd(v, Shl(x, w), t);
    LowAddAbove(Shr(v, t), x, w);
  }

  // Buffers

  lemma ByteRange()
    ensures Pow2(Octet()) == 256
  {
    assert Pow2(8) == 256;
  }

  lemma ShlOctet(x: nat, m: nat)
    ensures Shl(x, m + 8) == 256 * Shl(x, m)
  {
    ShlShl(x, m, Octet());
    assert Shl(Shl(x, m), 8) == 256 * Shl(x, m);
  }

  lemma ShrOctet(x: nat, b: byte, m: nat)
    ensures Shr(256 * x + b, 8 + m) == Shr(x, m)
  {
    ShlOctet(x, 0);
    ByteRange();
    ShrOfShlAdd(x, b, Octet());
    ShrShr(256 * x + b, Octet(), m);
  }

  lemma {:induction false} BufBound(s: seq<byte>)
    ensures BufVal(s) < Pow2(8 * |s|)
  {
    if s != [] {
      BufBound(s[..|s| - 1]);
      Pow2Octet(8 * (|s| - 1));
    }
  }

  lemma Pow2Octet(m: nat)
    ensures Pow2(m + 8) == 256 * Pow2(m)
  {
    assert Pow2(m + 8) == 4 * Pow2(m + 6) && Pow2(m + 6) == 4 * Pow2(m + 4);
    assert Pow2(m + 4) == 4 * Pow2(m + 2) && Pow2(m + 2) == 4 * Pow2(m);
  }

  lemma {:induction false} BufConcat(a: seq<byte>, b: seq<byte>)
    ensures BufVal(a + b) == Shl(BufVal(a), 8 * |b|) + BufVal(b)
    decreases |b|
  {
    if b == [] {
      assert a + b == a;
    } else {
      assert (a + b)[..|a + b| - 1] == a + b[..|b| - 1];
      BufConcat(a, b[..|b| - 1]);
      ShlOctet(BufVal(a), 8 * (|b| - 1));
    }
  }

  /** Adding to one byte. */
  lemma {:induction false} BufStore(s: seq<byte>, c: nat, d: nat)
    requires c < |s| && s[c] + d < 256
    ensures BufVal(s[c := s[c] + d]) == BufVal(s) + Shl(d, 8 * (|s| - 1 - c))
    decreases |s|
  {
    var n := |s| - 1;
    if c == n {
      assert s[c := s[c] + d][..n] == s[..n];
    } else {
      assert s[c := s[c] + d][..n] == s[..n][c := s[..n][c] + d];
      BufStore(s[..n], c, d);
      ShlOctet(d, 8 * (n - 1 - c));
    }
  }

  lemma {:induction false} ByteOf(s: seq<byte>, c: nat)
    requires c < |s|
    ensures BitsAt(BufVal(s), 8 * (|s| - 1 - c), Octet()) == s[c]
    decreases |s|
  {
    var n := |s| - 1;
    if c == n {
      ByteRange();
      ShlOctet(BufVal(s[..n]), 0);
      ShrOfShlAdd(BufVal(s[..n]), s[n], Octet());
    } else {
      ByteOf(s[..n], c);
      ShrOctet(BufVal(s[..n]), s[n], 8 * (n - 1 - c));
    }
  }

  lemma {:induction false} BufInjective(s: seq<byte>, t: seq<byte>)
    requires |s| == |t| && BufVal(s) == BufVal(t)
    ensures s == t
    decreases |s|
  {
    if s != [] {
      var n := |s| - 1;
      BufInjective(s[..n], t[..n]);
      assert s == s[..n] + [s[n]] && t == t[..n] + [t[n]];
    }
  }
}
