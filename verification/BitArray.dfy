/** The bits of a message, eight to a byte, the least significant ones first. A read or a write uses one 64-bit window
    where the array has it, and otherwise goes through the bytes. */
module BitArray {
  /** Machine words, as their bits from the least significant one. */
  type Word = w: seq<bool> | |w| == 64 witness seq(64, i => false)
  type Byte = b: seq<bool> | |b| == 8 witness seq(8, i => false)

  function Zero(): (w: Word)
    ensures forall i :: 0 <= i < 64 ==> !w[i]
  {
    seq(64, i => false)
  }

  function And(a: seq<bool>, b: seq<bool>): (r: seq<bool>)
    requires |a| == |b|
    ensures |r| == |a| && forall i :: 0 <= i < |r| ==> r[i] == (a[i] && b[i])
  {
    seq(|a|, i requires 0 <= i < |a| => a[i] && b[i])
  }

  function Or(a: seq<bool>, b: seq<bool>): (r: seq<bool>)
    requires |a| == |b|
    ensures |r| == |a| && forall i :: 0 <= i < |r| ==> r[i] == (a[i] || b[i])
  {
    seq(|a|, i requires 0 <= i < |a| => a[i] || b[i])
  }

  function Not(a: seq<bool>): (r: seq<bool>)
    ensures |r| == |a| && forall i :: 0 <= i < |r| ==> r[i] == !a[i]
  {
    seq(|a|, i requires 0 <= i < |a| => !a[i])
  }

  /** Shifts: to the most significant bits, and to the least significant ones. */
  function Shl(a: seq<bool>, n: nat): (r: seq<bool>)
    ensures |r| == |a| && forall i :: 0 <= i < |r| ==> r[i] == (i >= n && a[i - n])
  {
    seq(|a|, i requires 0 <= i < |a| => i >= n && a[i - n])
  }

  function Shr(a: seq<bool>, n: nat): (r: seq<bool>)
    ensures |r| == |a| && forall i :: 0 <= i < |r| ==> r[i] == (i + n < |a| && a[i + n])
  {
    seq(|a|, i requires 0 <= i < |a| => i + n < |a| && a[i + n])
  }

  /** A word with the `n` least significant bits set: low_bits_mask, and the masks of bytes. */
  function LowMask(width: nat, n: nat): (r: seq<bool>)
    ensures |r| == width && forall i :: 0 <= i < width ==> r[i] == (i < n)
  {
    seq(width, i requires 0 <= i < width => i < n)
  }

  function LowByte(a: seq<bool>): (r: Byte)
    requires |a| >= 8
  {
    a[..8]
  }

  function Widen(b: Byte): (w: Word)
    ensures forall i :: 0 <= i < 64 ==> w[i] == (i < 8 && b[i])
  {
    b + seq(56, i => false)
  }

  // ------------------------------------------------------------------------------------------------------- Values

  function Pow2(n: nat): (r: nat)
    ensures r > 0
    decreases n
  {
    if n == 0 then 1 else 2 * Pow2(n - 1)
  }

  /** The number that bits stand for. */
  function ToNat(bits: seq<bool>): (v: nat)
    decreases |bits|
  {
    if bits == [] then 0 else (if bits[|bits| - 1] then Pow2(|bits| - 1) else 0) + ToNat(bits[..|bits| - 1])
  }

  lemma {:induction false} ToNatFits(bits: seq<bool>)
    ensures ToNat(bits) < Pow2(|bits|)
    decreases |bits|
  {
    if bits != [] { ToNatFits(bits[..|bits| - 1]); }
  }

  /** The mask is what the arithmetic makes of it: one bit shifted, less one. */
  lemma {:induction false} MaskIsArithmetic(width: nat, n: nat)
    requires n <= width
    ensures ToNat(LowMask(width, n)) == Pow2(n) - 1
    decreases width
  {
    if width > 0 {
      var mask := LowMask(width, n);
      if n == width {
        assert mask[..width - 1] == LowMask(width - 1, n - 1);
        MaskIsArithmetic(width - 1, n - 1);
      } else {
        assert mask[..width - 1] == LowMask(width - 1, n);
        MaskIsArithmetic(width - 1, n);
      }
    }
  }

  /** Two words of one width stand for the same number only if they are the same. */
  lemma {:induction false} ToNatIsInjective(a: seq<bool>, b: seq<bool>)
    requires |a| == |b| && ToNat(a) == ToNat(b)
    ensures a == b
    decreases |a|
  {
    if a != [] {
      var last := |a| - 1;
      ToNatFits(a[..last]);
      ToNatFits(b[..last]);
      ToNatIsInjective(a[..last], b[..last]);
      assert a == a[..last] + [a[last]] && b == b[..last] + [b[last]];
    }
  }

  // -------------------------------------------------------------------------------------------------------- Bits

  function SizeInBits(bytes: seq<Byte>): nat {
    |bytes| * 8
  }

  predicate BitAt(bytes: seq<Byte>, k: nat)
    requires k < SizeInBits(bytes)
  {
    bytes[k / 8][k % 8]
  }

  /** All the bits of an array. */
  function Bits(bytes: seq<Byte>): (r: seq<bool>)
    ensures |r| == SizeInBits(bytes) && forall k :: 0 <= k < |r| ==> r[k] == BitAt(bytes, k)
  {
    seq(SizeInBits(bytes), k requires 0 <= k < SizeInBits(bytes) => BitAt(bytes, k))
  }

  lemma {:induction false} BitsAreTheBytes(a: seq<Byte>, b: seq<Byte>)
    requires Bits(a) == Bits(b)
    ensures a == b
  {
    assert |Bits(a)| == |a| * 8 && |Bits(b)| == |b| * 8;
    forall i | 0 <= i < |a| ensures a[i] == b[i] {
      forall j | 0 <= j < 8 ensures a[i][j] == b[i][j] {
        assert (8 * i + j) / 8 == i && (8 * i + j) % 8 == j;
        assert Bits(a)[8 * i + j] == BitAt(a, 8 * i + j);
        assert Bits(b)[8 * i + j] == BitAt(b, 8 * i + j);
      }
    }
  }

  /** Whether `n` bits from an offset on are a read or a write the array takes. */
  predicate InRange(bytes: seq<Byte>, offset: int, n: int) {
    0 <= offset && 1 <= n <= 64 && offset + n <= SizeInBits(bytes)
  }

  /** `after` is `before` with the low `n` bits of `value` from `offset` on, and no other bit changed. */
  ghost predicate Stored(before: seq<bool>, after: seq<bool>, offset: nat, value: Word, n: nat)
    requires offset + n <= |before| && n <= 64
  {
    after == before[..offset] + value[..n] + before[offset + n..]
  }

  /** fits_window. */
  predicate FitsWindow(bytes: seq<Byte>, offset: int, n: int) {
    offset >= 0 && n > 0 && offset % 8 + n <= 64 && offset / 8 + 8 <= |bytes|
  }

  /** The fast path takes nothing that the slow one refuses. */
  lemma WindowIsInRange(bytes: seq<Byte>, offset: int, n: int)
    requires FitsWindow(bytes, offset, n)
    ensures InRange(bytes, offset, n)
  {}

  // ----------------------------------------------------------------------------------------------------- The array

  class TickBitArray {
    var bytes: seq<Byte>

    constructor (sizeInBits: nat)
      ensures |bytes| == sizeInBits / 8 + (if sizeInBits % 8 != 0 then 1 else 0)
      ensures forall k :: 0 <= k < SizeInBits(bytes) ==> !BitAt(bytes, k)
    {
      bytes := seq(sizeInBits / 8 + (if sizeInBits % 8 != 0 then 1 else 0), i => seq(8, j => false));
    }

    /** Reads the 64-bit window at a byte. */
    method LoadLe64(at: nat) returns (value: Word)
      requires at + 8 <= |bytes|
      ensures forall k :: 0 <= k < 64 ==> value[k] == BitAt(bytes, 8 * at + k)
    {
      value := Zero();
      var i := 0;
      while i < 8
        invariant 0 <= i <= 8
        invariant forall k :: 0 <= k < 64 ==> value[k] == (k < 8 * i && BitAt(bytes, 8 * at + k))
      {
        ghost var before := value;
        value := Or(value, Shl(Widen(bytes[at + i]), 8 * i));
        forall k | 0 <= k < 64 ensures value[k] == (k < 8 * (i + 1) && BitAt(bytes, 8 * at + k)) {
          WindowBit(at, i, k);
        }
        i := i + 1;
      }
    }

    /** Writes the 64-bit window at a byte. */
    method StoreLe64(at: nat, value: Word)
      requires at + 8 <= |bytes|
      modifies this
      ensures |bytes| == old(|bytes|)
      ensures forall k :: 0 <= k < SizeInBits(bytes) ==> BitAt(bytes, k) == WindowBitOf(old(bytes), value, at, k)
    {
      var i := 0;
      while i < 8
        invariant 0 <= i <= 8 && |bytes| == old(|bytes|)
        invariant forall b :: 0 <= b < |bytes| ==>
                    bytes[b] == if at <= b < at + i then value[8 * (b - at)..8 * (b - at) + 8] else old(bytes)[b]
      {
        var byte := LowByte(Shr(value, 8 * i));
        assert byte == value[8 * i..8 * i + 8];
        bytes := bytes[at + i := byte];
        i := i + 1;
      }
    }

    /** store_bits. */
    method StoreBits(offset: int, value: Word, n: int) returns (ok: bool)
      modifies this
      ensures ok <==> InRange(old(bytes), offset, n)
      ensures ok ==> Stored(Bits(old(bytes)), Bits(bytes), offset, value, n)
      ensures !ok ==> bytes == old(bytes)
    {
      if FitsWindow(bytes, offset, n) {
        WindowIsInRange(bytes, offset, n);
        StoreWindow(offset, value, n);
        ok := true;
      } else {
        ok := StoreBitsSlow(offset, value, n);
      }
    }

    method StoreWindow(offset: nat, value: Word, n: nat)
      requires FitsWindow(bytes, offset, n) && InRange(bytes, offset, n)
      modifies this
      ensures Stored(Bits(old(bytes)), Bits(bytes), offset, value, n)
    {
      var shift, at := offset % 8, offset / 8;
      var mask := Shl(LowMask(64, n), shift);
      var window := LoadLe64(at);
      var merged := Or(And(window, Not(mask)), And(Shl(value, shift), mask));
      StoreLe64(at, merged);
      MergedBits(window, value, shift, n);
      WindowStored(old(bytes), bytes, window, merged, value, at, shift, n);
      assert 8 * at + shift == offset;
    }

    /** store_bits_slow: one byte at a time, for any range. */
    method StoreBitsSlow(offset: int, value: Word, n: int) returns (ok: bool)
      modifies this
      ensures ok <==> InRange(old(bytes), offset, n)
      ensures ok ==> Stored(Bits(old(bytes)), Bits(bytes), offset, value, n)
      ensures !ok ==> bytes == old(bytes)
    {
      if offset < 0 || n <= 0 || n > 64 || offset > SizeInBits(bytes) - n {
        return false;
      }
      var bits, bitOffset, rest := n, offset, value;
      while bits > 0
        invariant 0 <= bits <= n && bitOffset == offset + n - bits && |bytes| == old(|bytes|)
        invariant forall i :: 0 <= i < bits ==> rest[i] == value[n - bits + i]
        invariant forall k :: 0 <= k < SizeInBits(bytes) ==>
                    BitAt(bytes, k) == if offset <= k < bitOffset then value[k - offset] else old(BitAt(bytes, k))
      {
        var jump := bitOffset % 8;
        var count := if bits < 8 - jump then bits else 8 - jump;
        StoreInByte(bitOffset, rest, count);
        bits, bitOffset, rest := bits - count, bitOffset + count, Shr(rest, count);
      }
      return true;
    }

    /** The bits of one byte that are written. */
    method StoreInByte(bitOffset: nat, value: Word, count: nat)
      requires bitOffset < SizeInBits(bytes) && 1 <= count <= 8 - bitOffset % 8
      modifies this
      ensures |bytes| == old(|bytes|)
      ensures forall k :: 0 <= k < SizeInBits(bytes) ==>
                BitAt(bytes, k) ==
                  if bitOffset <= k < bitOffset + count then value[k - bitOffset] else old(BitAt(bytes, k))
    {
      var jump, at := bitOffset % 8, bitOffset / 8;
      var mask := Shl(LowMask(8, count), jump);
      var byteValue := And(Shl(LowByte(value), jump), mask);
      bytes := bytes[at := Or(And(bytes[at], Not(mask)), byteValue)];
    }

    /** read_bits. */
    method ReadBits(offset: int, n: int) returns (ok: bool, out: Word)
      ensures ok <==> InRange(bytes, offset, n)
      ensures ok ==> forall i :: 0 <= i < 64 ==> out[i] == (i < n && BitAt(bytes, offset + i))
    {
      if FitsWindow(bytes, offset, n) {
        WindowIsInRange(bytes, offset, n);
        var window := LoadLe64(offset / 8);
        ok, out := true, And(Shr(window, offset % 8), LowMask(64, n));
      } else {
        ok, out := ReadBitsSlow(offset, n);
      }
    }

    method ReadBitsSlow(offset: int, n: int) returns (ok: bool, out: Word)
      ensures ok <==> InRange(bytes, offset, n)
      ensures ok ==> forall i :: 0 <= i < 64 ==> out[i] == (i < n && BitAt(bytes, offset + i))
    {
      out := Zero();
      if offset < 0 || n <= 0 || n > 64 || offset > SizeInBits(bytes) - n {
        return false, out;
      }
      var bits, bitOffset, shift := n, offset, 0;
      while bits > 0
        invariant 0 <= bits <= n && bitOffset == offset + n - bits && shift == n - bits
        invariant forall i :: 0 <= i < 64 ==> out[i] == (i < shift && BitAt(bytes, offset + i))
      {
        var jump := bitOffset % 8;
        var count := if bits < 8 - jump then bits else 8 - jump;
        var byteValue := And(Shr(bytes[bitOffset / 8], jump), LowMask(8, count));
        ghost var before := out;
        out := Or(out, Shl(Widen(byteValue), shift));
        forall i | 0 <= i < 64 ensures out[i] == (i < shift + count && BitAt(bytes, offset + i)) {
          if shift <= i < shift + count {
            assert (bitOffset + (i - shift)) / 8 == bitOffset / 8
              && (bitOffset + (i - shift)) % 8 == jump + (i - shift);
          }
        }
        bits, bitOffset, shift := bits - count, bitOffset + count, shift + count;
      }
      return true, out;
    }

    /** resize_in_bits: up to whole bytes; the bits that are kept stay. */
    method ResizeInBits(count: int) returns (ok: bool)
      modifies this
      ensures ok <==> count >= 0
      ensures !ok ==> bytes == old(bytes)
      ensures ok ==> |bytes| == count / 8 + (if count % 8 != 0 then 1 else 0)
      ensures ok ==> forall b :: 0 <= b < |bytes| && b < old(|bytes|) ==> bytes[b] == old(bytes[b])
    {
      if count < 0 {
        return false;
      }
      var size := count / 8 + (if count % 8 != 0 then 1 else 0);
      bytes := if size <= |bytes| then bytes[..size] else bytes + seq(size - |bytes|, i => seq(8, j => false));
      return true;
    }
  }

  lemma MergedBits(window: Word, value: Word, shift: nat, n: nat)
    requires shift + n <= 64
    ensures var mask := Shl(LowMask(64, n), shift);
      var merged := Or(And(window, Not(mask)), And(Shl(value, shift), mask));
      forall i :: 0 <= i < 64 ==> merged[i] == if shift <= i < shift + n then value[i - shift] else window[i]
  {}

  lemma WindowStored(before: seq<Byte>, after: seq<Byte>, window: Word, merged: Word, value: Word, at: nat, shift: nat,
                     n: nat)
    requires shift + n <= 64 && at + 8 <= |before| && |after| == |before|
    requires forall k :: 0 <= k < 64 ==> window[k] == BitAt(before, 8 * at + k)
    requires forall i :: 0 <= i < 64 ==> merged[i] == if shift <= i < shift + n then value[i - shift] else window[i]
    requires forall k :: 0 <= k < SizeInBits(after) ==> BitAt(after, k) == WindowBitOf(before, merged, at, k)
    ensures Stored(Bits(before), Bits(after), 8 * at + shift, value, n)
  {
    var start, offset := 8 * at, 8 * at + shift;
    forall k | 0 <= k < SizeInBits(before)
      ensures Bits(after)[k] == if offset <= k < offset + n then value[k - offset] else Bits(before)[k]
    {
      assert Bits(before)[k] == BitAt(before, k) && Bits(after)[k] == BitAt(after, k);
      if start <= k < start + 64 {
        assert window[k - start] == BitAt(before, start + (k - start));
      }
    }
  }

  /** A bit of an array with another 64-bit window at a byte. */
  predicate WindowBitOf(before: seq<Byte>, window: Word, at: nat, k: nat)
    requires k < SizeInBits(before)
  {
    if 8 * at <= k < 8 * at + 64 then window[k - 8 * at] else BitAt(before, k)
  }

  lemma WindowBit(at: nat, i: nat, k: nat)
    requires i < 8 && k < 64
    ensures (8 * at + k) / 8 == at + k / 8 && (8 * at + k) % 8 == k % 8
    ensures 8 * i <= k < 8 * i + 8 ==> k / 8 == i && k % 8 == k - 8 * i
  {}

  // ---------------------------------------------------------------------------------------------------- Round trip

  /** What was stored reads back as its low bits. */
  lemma ReadsBack(before: seq<bool>, after: seq<bool>, offset: nat, value: Word, n: nat)
    requires offset + n <= |before| && n <= 64 && Stored(before, after, offset, value, n)
    ensures |after| == |before| && after[offset..offset + n] == value[..n]
  {}

  /** And bits elsewhere read as they did. */
  lemma OthersStay(before: seq<bool>, after: seq<bool>, offset: nat, value: Word, n: nat, from: nat, m: nat)
    requires offset + n <= |before| && n <= 64 && Stored(before, after, offset, value, n)
    requires from + m <= offset || (offset + n <= from && from + m <= |before|)
    ensures |after| == |before| && after[from..from + m] == before[from..from + m]
  {}

  /** The fast path refines the slow one: the two write the same bytes. */
  lemma PathsAgree(before: seq<Byte>, fast: seq<Byte>, slow: seq<Byte>, offset: nat, value: Word, n: nat)
    requires InRange(before, offset, n)
    requires Stored(Bits(before), Bits(fast), offset, value, n) && Stored(Bits(before), Bits(slow), offset, value, n)
    ensures fast == slow
  {
    BitsAreTheBytes(fast, slow);
  }
}
