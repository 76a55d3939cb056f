/**
 PCR selection bitmaps (TPM 2.0 Part 2, section 10.6: bit i % 8 of byte i / 8
 selects PCR i) and the comparison in pcr_digest, which strips trailing zero
 bytes because the TPM and the verifier may use different lengths.
 */
module Bitmaps {
  import opened ByteStrings

  predicate Bit(x: nat, k: nat)
    decreases k
  {
    if k == 0 then x % 2 == 1 else Bit(x / 2, k - 1)
  }

  /** x | (1 << k) */
  function SetBit(x: nat, k: nat): nat
    decreases k
  {
    if k == 0 then (if x % 2 == 1 then x else x + 1) else 2 * SetBit(x / 2, k - 1) + x % 2
  }

  function Pow2(k: nat): (p: nat)
    ensures 1 <= p
  {
    if k == 0 then 1 else 2 * Pow2(k - 1)
  }

  lemma {:induction false} SetBitSetsOne(x: nat, k: nat, j: nat)
    ensures Bit(SetBit(x, k), j) <==> j == k || Bit(x, j)
    decreases k
  {
    if k > 0 {
      var y := SetBit(x, k);
      assert y / 2 == SetBit(x / 2, k - 1) && y % 2 == x % 2;
      if j > 0 { SetBitSetsOne(x / 2, k - 1, j - 1); }
    } else {
      var y := SetBit(x, 0);
      assert y / 2 == x / 2;
    }
  }

  /** Bit k has the weight 2^k. */
  lemma {:induction false} SetBitAddsWeight(x: nat, k: nat)
    ensures SetBit(x, k) == if Bit(x, k) then x else x + Pow2(k)
    decreases k
  {
    if k > 0 { SetBitAddsWeight(x / 2, k - 1); }
  }

  lemma {:induction false} SetBitBound(x: nat, k: nat, n: nat)
    requires x < Pow2(n) && k < n
    ensures SetBit(x, k) < Pow2(n)
    decreases k
  {
    assert Pow2(n) == 2 * Pow2(n - 1) && x / 2 < Pow2(n - 1);
    if k > 0 { SetBitBound(x / 2, k - 1, n - 1); }
  }

  lemma {:induction false} SameBitsSameNumber(x: nat, y: nat, n: nat)
    requires x < Pow2(n) && y < Pow2(n)
    requires forall k: nat :: k < n ==> Bit(x, k) == Bit(y, k)
    ensures x == y
    decreases n
  {
    if n > 0 {
      forall k: nat | k < n - 1 ensures Bit(x / 2, k) == Bit(y / 2, k) {
        assert Bit(x, k + 1) == Bit(y, k + 1);
      }
      SameBitsSameNumber(x / 2, y / 2, n - 1);
      assert Bit(x, 0) == Bit(y, 0);
    }
  }

  lemma {:induction false} ZeroHasNoBits(k: nat)
    ensures !Bit(0, k)
    decreases k
  {
    if k > 0 { ZeroHasNoBits(k - 1); }
  }

  lemma Pow2Of8()
    ensures Pow2(8) == 256
  {
    assert Pow2(3) == 8;
    assert Pow2(6) == 8 * Pow2(3);
    assert Pow2(8) == 4 * Pow2(6);
  }

  predicate BitAt(b: Bytes, i: nat) {
    i < 8 * |b| && Bit(b[i / 8], i % 8)
  }

  /** The PCRs a bitmap selects. */
  function Bits(b: Bytes): set<nat> {
    set i: nat | i < 8 * |b| && BitAt(b, i)
  }

  function Rstrip(b: Bytes): (r: Bytes)
    ensures r <= b
    ensures r != [] ==> r[|r| - 1] != 0
    ensures forall i :: |r| <= i < |b| ==> b[i] == 0
  {
    if b != [] && b[|b| - 1] == 0 then Rstrip(b[..|b| - 1]) else b
  }

  lemma RstripKeepsBits(b: Bytes)
    ensures Bits(Rstrip(b)) == Bits(b)
  {
    var r := Rstrip(b);
    forall i: nat ensures BitAt(r, i) == BitAt(b, i) {
      if 8 * |r| <= i < 8 * |b| {
        assert b[i / 8] == 0;
        ZeroHasNoBits(i % 8);
      }
    }
  }

  lemma NonzeroHasBit(x: byte) returns (k: nat)
    requires x != 0
    ensures k < 8 && Bit(x, k)
  {
    Pow2Of8();
    if forall k: nat :: k < 8 ==> !Bit(x, k) {
      forall k: nat | k < 8 ensures Bit(x, k) == Bit(0, k) { ZeroHasNoBits(k); }
      SameBitsSameNumber(x, 0, 8);
      assert false;
    }
    k :| k < 8 && Bit(x, k);
  }

  lemma NotShorter(a: Bytes, b: Bytes)
    requires a != [] ==> a[|a| - 1] != 0
    requires Bits(a) == Bits(b)
    ensures |a| <= |b|
  {
    if a != [] {
      var k := NonzeroHasBit(a[|a| - 1]);
      var i := 8 * (|a| - 1) + k;
      assert BitAt(a, i);
      assert i in Bits(b);
    }
  }

  lemma SameBitsSameByte(a: Bytes, b: Bytes, n: nat)
    requires Bits(a) == Bits(b) && n < |a| && n < |b|
    ensures a[n] == b[n]
  {
    Pow2Of8();
    forall k: nat | k < 8 ensures Bit(a[n], k) == Bit(b[n], k) {
      var i := 8 * n + k;
      assert i / 8 == n && i % 8 == k;
      assert BitAt(a, i) <==> i in Bits(a);
      assert BitAt(b, i) <==> i in Bits(b);
    }
    SameBitsSameNumber(a[n], b[n], 8);
  }

  /** For bitmaps of any lengths the stripped comparison is equality of the selected sets. */
  lemma StrippedEqualIffSameBits(a: Bytes, b: Bytes)
    ensures Rstrip(a) == Rstrip(b) <==> Bits(a) == Bits(b)
  {
    RstripKeepsBits(a);
    RstripKeepsBits(b);
    if Bits(a) == Bits(b) {
      var r, s := Rstrip(a), Rstrip(b);
      NotShorter(r, s);
      NotShorter(s, r);
      forall n: nat | n < |r| ensures r[n] == s[n] { SameBitsSameByte(r, s, n); }
    }
  }

  function Max(pcrs: seq<nat>): (m: nat)
    requires pcrs != []
    ensures m in pcrs && forall i :: 0 <= i < |pcrs| ==> pcrs[i] <= m
  {
    var last := pcrs[|pcrs| - 1];
    if |pcrs| == 1 then last
    else
      var m := Max(pcrs[..|pcrs| - 1]);
      if last >= m then last else m
  }

  predicate Below(pcrs: seq<nat>, bound: nat) {
    forall i :: 0 <= i < |pcrs| ==> pcrs[i] < bound
  }

  function ByteWithBit(x: byte, k: nat): (y: byte)
    requires k < 8
  {
    Pow2Of8();
    SetBitBound(x, k, 8);
    SetBit(x, k)
  }

  /** The bitmap of `size` bytes with exactly the given bits set. */
  function Mask(pcrs: seq<nat>, size: nat): (m: Bytes)
    requires Below(pcrs, 8 * size)
    ensures |m| == size
  {
    if pcrs == [] then Zeros(size)
    else
      var p := pcrs[|pcrs| - 1];
      var m := Mask(pcrs[..|pcrs| - 1], size);
      m[p / 8 := ByteWithBit(m[p / 8], p % 8)]
  }

  lemma {:induction false} MaskBitAt(pcrs: seq<nat>, size: nat, i: nat)
    requires Below(pcrs, 8 * size)
    ensures BitAt(Mask(pcrs, size), i) <==> i in pcrs
  {
    if pcrs == [] {
      if i < 8 * size { ZeroHasNoBits(i % 8); }
    } else {
      var p, front := pcrs[|pcrs| - 1], pcrs[..|pcrs| - 1];
      assert pcrs == front + [p];
      MaskBitAt(front, size, i);
      if i / 8 == p / 8 {
        SetBitSetsOne(Mask(front, size)[p / 8], p % 8, i % 8);
        assert i % 8 == p % 8 ==> i == p;
      }
    }
  }

  function WantedMask(pcrs: seq<nat>): Bytes
    requires pcrs != []
  {
    Mask(pcrs, Max(pcrs) / 8 + 1)
  }

  lemma WantedMaskSelects(pcrs: seq<nat>)
    requires pcrs != []
    ensures Bits(WantedMask(pcrs)) == set p | p in pcrs
  {
    forall i: nat ensures BitAt(WantedMask(pcrs), i) <==> i in pcrs {
      MaskBitAt(pcrs, Max(pcrs) / 8 + 1, i);
    }
  }

  /** The buffer `want` that pcr_digest fills. */
  method BuildWanted(pcrs: seq<nat>) returns (want: Bytes)
    requires pcrs != []
    ensures want == WantedMask(pcrs)
  {
    var size := Max(pcrs) / 8 + 1;
    var buffer := new byte[size](_ => 0);
    var n := 0;
    while n < |pcrs|
      invariant 0 <= n <= |pcrs|
      invariant buffer[..] == Mask(pcrs[..n], size)
    {
      var i := pcrs[n];
      buffer[i / 8] := ByteWithBit(buffer[i / 8], i % 8);
      n := n + 1;
      assert pcrs[..n][..n - 1] == pcrs[..n - 1];
    }
    assert pcrs[..n] == pcrs;
    want := buffer[..];
  }
}
