/** The numbers that machine words stand for, and how an integer is squeezed into fewer bits: clamped when it's written,
    its sign extended when it's read. */
module Words {
  import opened BitArray

  /** Two's complement. */
  function ToInt(bits: seq<bool>): int
    requires bits != []
  {
    ToNat(bits[..|bits| - 1]) - (if bits[|bits| - 1] then Pow2(|bits| - 1) else 0)
  }

  function Min(a: nat, b: nat): nat {
    if a < b then a else b
  }

  lemma {:induction false} Pow2Grows(a: nat, b: nat)
    requires a <= b
    ensures Pow2(a) <= Pow2(b)
    decreases b
  {
    if a < b { Pow2Grows(a, b - 1); }
  }

  /** Zeros above change nothing. */
  lemma {:induction false} HighZeros(bits: seq<bool>, n: nat)
    requires n <= |bits| && forall i :: n <= i < |bits| ==> !bits[i]
    ensures ToNat(bits) == ToNat(bits[..n])
    decreases |bits|
  {
    if n < |bits| {
      var rest := bits[..|bits| - 1];
      HighZeros(rest, n);
      assert rest[..n] == bits[..n];
    } else {
      assert bits[..n] == bits;
    }
  }

  /** A bit that is set counts, and one that isn't is missing. */
  lemma {:induction false} BitCounts(bits: seq<bool>, i: nat)
    requires i < |bits|
    ensures bits[i] ==> ToNat(bits) >= Pow2(i)
    ensures !bits[i] ==> ToNat(bits) <= Pow2(|bits|) - 1 - Pow2(i)
    decreases |bits|
  {
    var last := |bits| - 1;
    ToNatFits(bits[..last]);
    if i < last { BitCounts(bits[..last], i); }
  }

  // ----------------------------------------------------------------------------------------------------- Unsigned

  predicate FitsUnsigned(w: Word, n: nat) {
    forall i :: n <= i < 64 ==> !w[i]
  }

  /** add_uint_bits: what is written of an unsigned integer, and returned. */
  function ClampUnsigned(w: Word, n: nat): (r: Word)
    ensures FitsUnsigned(r, n)
  {
    if FitsUnsigned(w, n) then w else LowMask(64, n)
  }

  /** It's the smaller of the value and the largest one that fits. */
  lemma ClampUnsignedIsMin(w: Word, n: nat)
    requires n <= 64
    ensures ToNat(ClampUnsigned(w, n)) == Min(ToNat(w), Pow2(n) - 1)
  {
    if FitsUnsigned(w, n) {
      HighZeros(w, n);
      ToNatFits(w[..n]);
    } else {
      var i :| n <= i < 64 && w[i];
      BitCounts(w, i);
      Pow2Grows(n, i);
      MaskIsArithmetic(64, n);
    }
  }

  /** A word with the bits of a read. */
  function FromBits(bits: seq<bool>): (w: Word)
    requires |bits| <= 64
    ensures forall i :: 0 <= i < 64 ==> w[i] == (i < |bits| && bits[i])
  {
    bits + seq(64 - |bits|, i => false)
  }

  lemma UnsignedRoundTrip(w: Word, n: nat)
    requires n <= 64
    ensures FromBits(ClampUnsigned(w, n)[..n]) == ClampUnsigned(w, n)
  {}

  // ------------------------------------------------------------------------------------------------------- Signed

  predicate FitsSigned(w: Word, n: nat)
    requires 1 <= n <= 64
  {
    forall i :: n - 1 <= i < 64 ==> w[i] == w[63]
  }

  function Largest(n: nat): (w: Word)
    requires 1 <= n <= 64
    ensures forall i :: 0 <= i < 64 ==> w[i] == (i < n - 1)
  {
    seq(64, i requires 0 <= i < 64 => i < n - 1)
  }

  function Smallest(n: nat): (w: Word)
    requires 1 <= n <= 64
    ensures forall i :: 0 <= i < 64 ==> w[i] == (i >= n - 1)
  {
    seq(64, i requires 0 <= i < 64 => i >= n - 1)
  }

  /** add_int_bits: what is written of a signed integer, and returned. */
  function ClampSigned(w: Word, n: nat): (r: Word)
    requires 1 <= n <= 64
    ensures FitsSigned(r, n)
  {
    if FitsSigned(w, n) then w else if w[63] then Smallest(n) else Largest(n)
  }

  /** read_int_bits: the sign bit fills the bits above. */
  function SignExtend(bits: seq<bool>): (w: Word)
    requires 1 <= |bits| <= 64
    ensures forall i :: 0 <= i < 64 ==> w[i] == if i < |bits| then bits[i] else bits[|bits| - 1]
  {
    seq(64, i requires 0 <= i < 64 => if i < |bits| then bits[i] else bits[|bits| - 1])
  }

  lemma SignedRoundTrip(w: Word, n: nat)
    requires 1 <= n <= 64
    ensures SignExtend(ClampSigned(w, n)[..n]) == ClampSigned(w, n)
  {}

  /** Repeating the sign bit changes nothing. */
  lemma {:induction false} SignRepeats(bits: seq<bool>, n: nat)
    requires 1 <= n <= |bits| && forall i :: n - 1 <= i < |bits| ==> bits[i] == bits[|bits| - 1]
    ensures ToInt(bits) == ToInt(bits[..n])
    decreases |bits|
  {
    if n < |bits| {
      var rest := bits[..|bits| - 1];
      SignRepeats(rest, n);
      assert rest[..n] == bits[..n];
      assert bits[..|bits| - 1] == rest && rest[..|rest| - 1] == bits[..|bits| - 2];
    } else {
      assert bits[..n] == bits;
    }
  }

  /** The extended value is the value. */
  lemma ExtensionIsValue(bits: seq<bool>)
    requires 1 <= |bits| <= 64
    ensures ToInt(SignExtend(bits)) == ToInt(bits)
  {
    SignRepeats(SignExtend(bits), |bits|);
    assert SignExtend(bits)[..|bits|] == bits;
  }

  lemma OutOfRange(w: Word, n: nat)
    requires 1 <= n <= 64 && !FitsSigned(w, n)
    ensures if w[63] then ToInt(w) < 0 - Pow2(n - 1) else ToInt(w) > Pow2(n - 1) - 1
  {
    var i :| n - 1 <= i < 64 && w[i] != w[63];
    BitCounts(w[..63], i);
    Pow2Grows(n - 1, i);
  }

  lemma InSignedRange(w: Word, n: nat)
    requires 1 <= n <= 64 && FitsSigned(w, n)
    ensures 0 - Pow2(n - 1) <= ToInt(w) <= Pow2(n - 1) - 1
  {
    SignRepeats(w, n);
    ToNatFits(w[..n][..n - 1]);
  }

  lemma Extremes(n: nat)
    requires 1 <= n <= 64
    ensures ToInt(Largest(n)) == Pow2(n - 1) - 1 && ToInt(Smallest(n)) == 0 - Pow2(n - 1)
  {
    var large, small := Largest(n), Smallest(n);
    SignRepeats(large, n);
    SignRepeats(small, n);
    assert large[..n][..n - 1] == LowMask(n - 1, n - 1);
    MaskIsArithmetic(n - 1, n - 1);
    HighZeros(small[..n][..n - 1], 0);
  }

  /** It's the value, or the end of the range on its side. */
  lemma ClampSignedIsClamp(w: Word, n: nat)
    requires 1 <= n <= 64
    ensures ToInt(ClampSigned(w, n)) ==
      if ToInt(w) < 0 - Pow2(n - 1) then 0 - Pow2(n - 1)
      else if ToInt(w) > Pow2(n - 1) - 1 then Pow2(n - 1) - 1
      else ToInt(w)
  {
    if FitsSigned(w, n) {
      InSignedRange(w, n);
    } else {
      OutOfRange(w, n);
      Extremes(n);
    }
  }
}
