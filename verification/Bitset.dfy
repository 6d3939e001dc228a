/** The multi-byte shift of src/ld_bitset.c. */
module Bitset {
  import opened Arithmetic
  import opened Common
  import opened BitString

  /** A byte array as a little-endian number. */
  function LittleEndian(s: seq<byte>): nat {
    if s == [] then 0 else s[0] + 256 * LittleEndian(s[1..])
  }

  function Reversed(s: seq<byte>): (r: seq<byte>)
    ensures |r| == |s| && forall i :: 0 <= i < |s| ==> r[i] == s[|s| - 1 - i]
  {
    if s == [] then [] else Reversed(s[1..]) + [s[0]]
  }

  lemma {:induction false} ReversedIsLittleEndian(s: seq<byte>)
    ensures BufVal(Reversed(s)) == LittleEndian(s)
  {
    if s != [] {
      ReversedIsLittleEndian(s[1..]);
      assert Reversed(s)[..|s| - 1] == Reversed(s[1..]);
    }
  }

  lemma {:induction false} ReversedTwice(s: seq<byte>)
    ensures Reversed(Reversed(s)) == s
  {
  }

  lemma {:induction false} ShrLast(n: nat, k: nat)
    ensures Shr(n, k + 1) == Shr(n, k) / 2
    decreases k
  {
    if k > 0 {
      ShrLast(n / 2, k - 1);
    }
  }

  lemma {:induction false} ShlIsProduct(x: nat, k: nat)
    ensures Shl(x, k) == Pow2(k) * x
    decreases k
  {
    if k > 0 {
      ShlIsProduct(x, k - 1);
      assert (2 * Pow2(k - 1)) * x == 2 * (Pow2(k - 1) * x);
    }
  }

  /** Shifting right by k bits is dividing by 2^k, rounded down. */
  lemma {:induction false} ShrIsDivision(n: nat, k: nat)
    ensures Shr(n, k) == n / Pow2(k)
  {
    SplitAt(n, k);
    ShlIsProduct(Shr(n, k), k);
    DivModUnique(n, Pow2(k), Shr(n, k), Low(n, k));
  }

  method SwitchEndian(src: array<byte>, len: nat, dst: array<byte>)
    requires len <= src.Length && len <= dst.Length && src != dst
    modifies dst
    ensures dst[..len] == Reversed(src[..len]) && dst[len..] == old(dst[len..])
  {
    for i := 0 to len
      invariant forall k :: 0 <= k < i ==> dst[k] == src[len - 1 - k]
      invariant dst[len..] == old(dst[len..])
    {
      dst[i] := src[len - 1 - i];
    }
  }

  /** One pass of the inner loop, most significant byte first: the carry moves down byte by byte. */
  method ShiftOnce(a: array<byte>)
    modifies a
    ensures BufVal(a[..]) == old(BufVal(a[..])) / 2
  {
    var toAdd := 0;
    ghost var s := a[..];
    for j := 0 to a.Length
      invariant toAdd == 0 || toAdd == 128
      invariant a[j..] == s[j..]
      invariant 2 * BufVal(a[..j]) + toAdd / 128 == BufVal(s[..j])
    {
      assert a[j] == a[j..][0] == s[j];
      assert s[..j + 1][..j] == s[..j];
      ghost var before := a[..j];
      var lastBit := (a[j] % 2) * 128;
      a[j] := a[j] / 2 + toAdd;
      assert a[..j + 1] == before + [a[j]] && a[..j + 1][..j] == before;
      assert a[j + 1..] == s[j + 1..];
      toAdd := lastBit;
    }
    assert a[..a.Length] == a[..] && s[..a.Length] == s;
  }

  /**
   * bit_rightshift: dst becomes the source's little-endian value shifted right by toShift bits,
   * in as many bytes.
   */
  method BitRightShift(src: array?<byte>, srcLen: nat, dst: array?<byte>, toShift: nat) returns (ok: bool)
    requires src != null ==> srcLen <= src.Length
    requires dst != null ==> srcLen <= dst.Length
    modifies dst
    ensures ok <==> src != null && dst != null && srcLen != 0
    ensures ok ==> LittleEndian(dst[..srcLen]) == old(LittleEndian(src[..srcLen])) / Pow2(toShift)
    ensures dst != null ==> dst[srcLen..] == old(dst[srcLen..])
    ensures !ok && dst != null ==> dst[..] == old(dst[..])
  {
    if src == null || dst == null || srcLen == 0 {
      return false;
    }
    if toShift == 0 {
      forall i | 0 <= i < srcLen {
        dst[i] := src[i];
      }
      assert dst[..srcLen] == old(src[..srcLen]);
      assert Pow2(0) == 1;
      return true;
    }
    ghost var v := LittleEndian(src[..srcLen]);
    var small := new byte[srcLen](_ => 0);
    SwitchEndian(src, srcLen, small);
    ReversedIsLittleEndian(src[..srcLen]);
    assert small[..] == small[..srcLen];
    for i := 0 to toShift
      invariant fresh(small) && BufVal(small[..]) == Shr(v, i)
      invariant dst[..] == old(dst[..])
    {
      ShrLast(v, i);
      ShiftOnce(small);
    }
    SwitchEndian(small, srcLen, dst);
    assert small[..srcLen] == small[..];
    ReversedTwice(small[..]);
    ReversedIsLittleEndian(dst[..srcLen]);
    ShrIsDivision(v, toShift);
    ok := true;
  }
}
