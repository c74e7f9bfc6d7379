/** The buffer a message is written to and read from: a cursor over bits, with nested buffers on whole bytes. A read
    that isn't inside the data fails the buffer, and it stays failed. */
module DataBuffer {
  import opened BitArray
  import opened Snapshots
  import opened Words

  /** `size`: of the data. `bits`: the storage, at least as long. */
  datatype Buf = Buf(offset: nat, size: nat, reading: bool, failed: bool, bits: seq<bool>)

  const MAX_NESTED_BITS: nat := 65535

  /** Where the next whole byte starts. */
  function NextByte(offset: nat): (r: nat)
    ensures offset <= r < offset + 8 && r % 8 == 0
  {
    (offset + 7) / 8 * 8
  }

  // ----------------------------------------------------------------------------------------------------- The data

  /** What is written: a boolean, integers of `n` bits, a run of bits, a nested buffer. */
  datatype Item =
    | Flag(flag: bool)
    | Unsigned(word: Word, n: nat)
    | Signed(word: Word, n: nat)
    | Run(bits: seq<bool>)
    | Nested(payload: seq<bool>)
  {
    predicate Valid() {
      match this
      case Unsigned(_, n) => 1 <= n <= 64
      case Signed(_, n) => 1 <= n <= 64
      case Nested(payload) => |payload| <= MAX_NESTED_BITS
      case _ => true
    }

    /** What writing it returns, and reading it gives back. */
    function Delivered(): Item
      requires Valid()
    {
      match this
      case Unsigned(word, n) => Unsigned(ClampUnsigned(word, n), n)
      case Signed(word, n) => Signed(ClampSigned(word, n), n)
      case _ => this
    }

    /** Its bits, but for a nested buffer, whose bits start after its length, on a whole byte. */
    function Data(): seq<bool>
      requires Valid()
    {
      match this
      case Flag(flag) => [flag]
      case Unsigned(word, n) => ClampUnsigned(word, n)[..n]
      case Signed(word, n) => ClampSigned(word, n)[..n]
      case Run(bits) => bits
      case Nested(payload) => payload
    }

    function Start(at: nat): nat {
      if Nested? then NextByte(at + 16) else at
    }

    function End(at: nat): (end: nat)
      requires Valid()
      ensures at <= end
    {
      Start(at) + |Data()|
    }
  }

  /** The 16 bits of a length. */
  function Length(n: nat): (r: seq<bool>)
    requires n <= MAX_NESTED_BITS
    ensures |r| == 16 && ToNat(r) == n
  {
    assert Pow2(16) == 65536 by { PowersOfTwo(); }
    BitsOf(n, 16)
  }

  lemma PowersOfTwo()
    ensures Pow2(16) == 65536
  {
    assert Pow2(8) == 256;
    assert Pow2(12) == 4096;
  }

  /** The low `n` bits of a number. */
  function BitsOf(v: nat, n: nat): (r: seq<bool>)
    requires v < Pow2(n)
    ensures |r| == n && ToNat(r) == v
    decreases n, v
  {
    if n == 0 then []
    else
      var high := v >= Pow2(n - 1);
      var low := BitsOf(if high then v - Pow2(n - 1) else v, n - 1);
      assert (low + [high])[..n - 1] == low;
      low + [high]
  }

  /** Whether the bits hold an item at a place. */
  ghost predicate Holds(bits: seq<bool>, at: nat, item: Item)
    requires item.Valid()
  {
    && item.End(at) <= |bits| && bits[item.Start(at)..item.End(at)] == item.Data()
    && (item.Nested? ==> bits[at..at + 16] == Length(|item.payload|))
  }

  /** Whether the bits hold items one after the other. */
  ghost predicate Laid(bits: seq<bool>, at: nat, items: seq<Item>)
    decreases |items|
  {
    items == [] || (
      var before, last := items[..|items| - 1], items[|items| - 1];
      AllValid(items) && Laid(bits, at, before) && Holds(bits, EndOf(at, before), last))
  }

  predicate AllValid(items: seq<Item>) {
    forall i :: 0 <= i < |items| ==> items[i].Valid()
  }

  function EndOf(at: nat, items: seq<Item>): (end: nat)
    requires AllValid(items)
    ensures at <= end
    decreases |items|
  {
    if items == [] then at else items[|items| - 1].End(EndOf(at, items[..|items| - 1]))
  }

  // ------------------------------------------------------------------------------------------------------ Reading

  /** What is read: the kind of an item. */
  datatype Kind = KFlag | KUnsigned(n: nat) | KSigned(n: nat) | KRun(count: nat) | KNested
  {
    predicate Valid() { match this case KUnsigned(n) => 1 <= n <= 64 case KSigned(n) => 1 <= n <= 64 case _ => true }
  }

  function KindOf(item: Item): Kind {
    match item
    case Flag(_) => KFlag
    case Unsigned(_, n) => KUnsigned(n)
    case Signed(_, n) => KSigned(n)
    case Run(bits) => KRun(|bits|)
    case Nested(_) => KNested
  }

  /** check_reading, but for the failure. */
  predicate CanRead(b: Buf, n: nat) {
    b.reading && !b.failed && b.offset + n <= b.size
  }

  function Fail(b: Buf): Buf {
    b.(failed := true)
  }

  /** The next `n` bits; none, and a failure, if they aren't there. */
  function ReadRun(b: Buf, n: nat): (Buf, seq<bool>)
    requires b.size <= |b.bits|
  {
    if CanRead(b, n) then (b.(offset := b.offset + n), b.bits[b.offset..b.offset + n]) else (Fail(b), [])
  }

  function ReadWord(b: Buf, n: nat): (Buf, Word)
    requires b.size <= |b.bits| && n <= 64
  {
    var (b', bits) := ReadRun(b, n);
    (b', FromBits(bits))
  }

  function ReadSigned(b: Buf, n: nat): (Buf, Word)
    requires b.size <= |b.bits| && 1 <= n <= 64
  {
    var (b', bits) := ReadRun(b, n);
    (b', if bits == [] then Zero() else SignExtend(bits))
  }

  /** The length of a nested buffer and the padding after it: where its bits start and how many they are, or none if
      they aren't all there. */
  function ReadLength(b: Buf): (Buf, Option<nat>)
    requires b.size <= |b.bits|
  {
    var (b1, word) := ReadWord(b, 16);
    if b1.failed || NextByte(b1.offset) > b1.size then (Fail(b1), None)
    else
      var b2 := b1.(offset := NextByte(b1.offset));
      if CanRead(b2, ToNat(word)) then (b2, Some(ToNat(word))) else (Fail(b2), None)
  }

  /** read_data_buffer: the payload. */
  function ReadNested(b: Buf): (Buf, seq<bool>)
    requires b.size <= |b.bits|
  {
    var (b', length) := ReadLength(b);
    if length.None? then (b', []) else ReadRun(b', length.value)
  }

  function ReadItem(b: Buf, kind: Kind): (Buf, Item)
    requires b.size <= |b.bits| && kind.Valid()
  {
    match kind
    case KFlag => var (b', word) := ReadWord(b, 1); (b', Flag(word[0]))
    case KUnsigned(n) => var (b', word) := ReadWord(b, n); (b', Unsigned(word, n))
    case KSigned(n) => var (b', word) := ReadSigned(b, n); (b', Signed(word, n))
    case KRun(count) => var (b', bits) := ReadRun(b, count); (b', Run(bits))
    case KNested => var (b', payload) := ReadNested(b); (b', Nested(payload))
  }

  function ReadItems(b: Buf, kinds: seq<Kind>): (Buf, seq<Item>)
    requires b.size <= |b.bits| && forall i :: 0 <= i < |kinds| ==> kinds[i].Valid()
    ensures ReadItems(b, kinds).0 == b.(offset := ReadItems(b, kinds).0.offset, failed := ReadItems(b, kinds).0.failed)
    decreases |kinds|
  {
    if kinds == [] then (b, [])
    else
      var (b', items) := ReadItems(b, kinds[..|kinds| - 1]);
      var (b'', item) := ReadItem(b', kinds[|kinds| - 1]);
      (b'', items + [item])
  }

  function KindsOf(items: seq<Item>): (r: seq<Kind>)
    ensures |r| == |items| && forall i :: 0 <= i < |r| ==> r[i] == KindOf(items[i])
  {
    seq(|items|, i requires 0 <= i < |items| => KindOf(items[i]))
  }

  function AllDelivered(items: seq<Item>): (r: seq<Item>)
    requires AllValid(items)
    ensures |r| == |items|
  {
    seq(|items|, i requires 0 <= i < |items| => items[i].Delivered())
  }

  /** The next bits are `data`, inside the data. */
  ghost predicate IsNext(b: Buf, data: seq<bool>) {
    b.reading && !b.failed && b.offset + |data| <= b.size <= |b.bits| && b.bits[b.offset..b.offset + |data|] == data
  }

  lemma UnsignedReadsBack(b: Buf, word: Word, n: nat)
    requires 1 <= n <= 64 && IsNext(b, ClampUnsigned(word, n)[..n])
    ensures ReadWord(b, n) == (b.(offset := b.offset + n), ClampUnsigned(word, n))
  {
    UnsignedRoundTrip(word, n);
  }

  lemma SignedReadsBack(b: Buf, word: Word, n: nat)
    requires 1 <= n <= 64 && IsNext(b, ClampSigned(word, n)[..n])
    ensures ReadSigned(b, n) == (b.(offset := b.offset + n), ClampSigned(word, n))
  {
    SignedRoundTrip(word, n);
  }

  lemma FlagReadsBack(b: Buf, flag: bool)
    requires IsNext(b, [flag])
    ensures ReadWord(b, 1).0 == b.(offset := b.offset + 1) && ReadWord(b, 1).1[0] == flag
  {
    assert b.bits[b.offset..b.offset + 1][0] == flag;
  }

  lemma LengthReadsBack(b: Buf, n: nat)
    requires n <= MAX_NESTED_BITS && IsNext(b, Length(n)) && NextByte(b.offset + 16) + n <= b.size
    ensures ReadLength(b) == (b.(offset := NextByte(b.offset + 16)), Some(n))
  {
    var (b1, word) := ReadWord(b, 16);
    HighZeros(word, 16);
    assert word[..16] == Length(n);
  }

  lemma NestedReadsBack(b: Buf, payload: seq<bool>)
    requires |payload| <= MAX_NESTED_BITS && IsNext(b, Length(|payload|))
    requires IsNext(b.(offset := NextByte(b.offset + 16)), payload)
    ensures ReadNested(b) == (b.(offset := NextByte(b.offset + 16) + |payload|), payload)
  {
    LengthReadsBack(b, |payload|);
  }

  lemma HeldIsNext(b: Buf, item: Item)
    requires item.Valid() && b.size <= |b.bits| && b.reading && !b.failed
    requires Holds(b.bits, b.offset, item) && item.End(b.offset) <= b.size
    ensures IsNext(b.(offset := item.Start(b.offset)), item.Data())
    ensures item.Nested? ==> IsNext(b, Length(|item.payload|))
    ensures !item.Nested? ==> IsNext(b, item.Data())
  {
    assert !item.Nested? ==> b.(offset := item.Start(b.offset)) == b;
  }

  /** An item that is there reads back as what writing it returned. */
  lemma ReadsBack(b: Buf, item: Item)
    requires item.Valid() && b.size <= |b.bits| && b.reading && !b.failed
    requires Holds(b.bits, b.offset, item) && item.End(b.offset) <= b.size
    ensures ReadItem(b, KindOf(item)) == (b.(offset := item.End(b.offset)), item.Delivered())
  {
    HeldIsNext(b, item);
    NextReadsBack(b, item);
  }

  /** Whether reading gives an item back, and ends after it. */
  ghost predicate GivesBack(b: Buf, item: Item)
    requires item.Valid() && b.size <= |b.bits|
  {
    ReadItem(b, KindOf(item)) == (b.(offset := item.End(b.offset)), item.Delivered())
  }

  lemma NextReadsBack(b: Buf, item: Item)
    requires item.Valid() && IsNext(b.(offset := item.Start(b.offset)), item.Data())
    requires if item.Nested? then IsNext(b, Length(|item.payload|)) else IsNext(b, item.Data())
    ensures GivesBack(b, item)
  {
    match item
    case Flag(flag) => NextFlag(b, flag);
    case Unsigned(word, n) => NextUnsigned(b, word, n);
    case Signed(word, n) => NextSigned(b, word, n);
    case Run(bits) => NextRun(b, bits);
    case Nested(payload) => NextNested(b, payload);
  }

  lemma NextFlag(b: Buf, flag: bool)
    requires IsNext(b, [flag])
    ensures GivesBack(b, Flag(flag))
  {
    FlagReadsBack(b, flag);
  }

  lemma NextUnsigned(b: Buf, word: Word, n: nat)
    requires 1 <= n <= 64 && IsNext(b, ClampUnsigned(word, n)[..n])
    ensures GivesBack(b, Unsigned(word, n))
  {
    UnsignedReadsBack(b, word, n);
  }

  lemma NextSigned(b: Buf, word: Word, n: nat)
    requires 1 <= n <= 64 && IsNext(b, ClampSigned(word, n)[..n])
    ensures GivesBack(b, Signed(word, n))
  {
    SignedReadsBack(b, word, n);
  }

  lemma NextRun(b: Buf, bits: seq<bool>)
    requires IsNext(b, bits)
    ensures GivesBack(b, Run(bits))
  {}

  lemma NextNested(b: Buf, payload: seq<bool>)
    requires |payload| <= MAX_NESTED_BITS && IsNext(b, Length(|payload|))
    requires IsNext(b.(offset := NextByte(b.offset + 16)), payload)
    ensures GivesBack(b, Nested(payload))
  {
    NestedReadsBack(b, payload);
  }

  ghost predicate GiveBack(b: Buf, items: seq<Item>)
    requires AllValid(items) && b.size <= |b.bits|
  {
    ReadItems(b, KindsOf(items)) == (b.(offset := EndOf(b.offset, items)), AllDelivered(items))
  }

  /** Any list of items reads back in order, and the cursor ends where the last one does. */
  lemma {:induction false} AllReadBack(b: Buf, items: seq<Item>)
    requires AllValid(items) && b.size <= |b.bits| && b.reading && !b.failed
    requires Laid(b.bits, b.offset, items) && EndOf(b.offset, items) <= b.size
    ensures GiveBack(b, items)
    decreases |items|
  {
    if items == [] {
      assert KindsOf(items) == [] && AllDelivered(items) == [];
    } else {
      var before, last := items[..|items| - 1], items[|items| - 1];
      AllReadBack(b, before);
      ReadsBack(b.(offset := EndOf(b.offset, before)), last);
      OneMoreGivenBack(b, before, last);
      assert items == before + [last];
    }
  }

  lemma OneMoreGivenBack(b: Buf, items: seq<Item>, item: Item)
    requires AllValid(items) && item.Valid() && b.size <= |b.bits|
    requires GiveBack(b, items) && GivesBack(b.(offset := EndOf(b.offset, items)), item)
    ensures AllValid(items + [item]) && GiveBack(b, items + [item])
  {
    var more := items + [item];
    assert more[..|items|] == items;
    assert KindsOf(more)[..|items|] == KindsOf(items);
    assert AllDelivered(more) == AllDelivered(items) + [item.Delivered()];
  }

  // ------------------------------------------------------------------------------------------------------- Safety

  /** Anything done to a buffer that is read. */
  datatype Op = Read(kind: Kind) | Skip(n: int) | Seek(to: int)

  function Do(b: Buf, op: Op): Buf
    requires b.size <= |b.bits| && (op.Read? ==> op.kind.Valid())
  {
    match op
    case Read(kind) => ReadItem(b, kind).0
    case Skip(n) => if n < 0 || b.offset > b.size - n then Fail(b) else b.(offset := b.offset + n)
    case Seek(to) => if to < 0 || to > b.size then Fail(b) else b.(offset := to)
  }

  function DoAll(b: Buf, ops: seq<Op>): (r: Buf)
    requires b.size <= |b.bits| && forall i :: 0 <= i < |ops| ==> ops[i].Read? ==> ops[i].kind.Valid()
    ensures r == b.(offset := r.offset, failed := r.failed)
    decreases |ops|
  {
    if ops == [] then b else Do(DoAll(b, ops[..|ops| - 1]), ops[|ops| - 1])
  }

  /** Whatever the data, and whatever is read of it: the cursor never passes the data, nothing is written, and a buffer
      that failed stays failed. */
  lemma {:induction false} ReadsAreSafe(b: Buf, ops: seq<Op>)
    requires b.offset <= b.size <= |b.bits| && forall i :: 0 <= i < |ops| ==> ops[i].Read? ==> ops[i].kind.Valid()
    ensures var r := DoAll(b, ops);
      r.offset <= r.size && r.bits == b.bits && r.size == b.size && (b.failed ==> r.failed)
    decreases |ops|
  {
    if ops != [] {
      ReadsAreSafe(b, ops[..|ops| - 1]);
    }
  }

  /** What a failed buffer reads as. */
  function Nothing(kind: Kind): Item {
    match kind
    case KFlag => Flag(false)
    case KUnsigned(n) => Unsigned(Zero(), n)
    case KSigned(n) => Signed(Zero(), n)
    case KRun(_) => Run([])
    case KNested => Nested([])
  }

  /** Once it failed, a buffer reads as nothing, and its cursor stays. */
  lemma FailedReadsNothing(b: Buf, kind: Kind)
    requires b.size <= |b.bits| && kind.Valid() && b.failed
    ensures ReadItem(b, kind) == (b, Nothing(kind))
  {
    assert FromBits([]) == Zero();
  }

  // ------------------------------------------------------------------------------------------------------ Writing

  /** The same bits but for the ones from `lo` to `hi`. */
  ghost predicate SameBut(bits: seq<bool>, bits': seq<bool>, lo: nat, hi: nat) {
    |bits| <= |bits'| && forall k :: 0 <= k < |bits| && !(lo <= k < hi) ==> bits'[k] == bits[k]
  }

  lemma SameButChains(a: seq<bool>, b: seq<bool>, c: seq<bool>, lo: nat, mid: nat, hi: nat)
    requires SameBut(a, b, lo, mid) && SameBut(b, c, mid, hi) && lo <= mid <= hi
    ensures SameBut(a, c, lo, hi)
  {}

  /** Items elsewhere stay. */
  lemma HeldStays(bits: seq<bool>, bits': seq<bool>, at: nat, item: Item, lo: nat, hi: nat)
    requires item.Valid() && Holds(bits, at, item) && SameBut(bits, bits', lo, hi) && (item.End(at) <= lo || hi <= at)
    ensures Holds(bits', at, item)
  {
    assert bits'[item.Start(at)..item.End(at)] == bits[item.Start(at)..item.End(at)];
    if item.Nested? { assert bits'[at..at + 16] == bits[at..at + 16]; }
  }

  /** Writing past the items, or before them (a count that is written once it's known), leaves them as they were. */
  lemma {:induction false} LaidStays(bits: seq<bool>, bits': seq<bool>, at: nat, items: seq<Item>, lo: nat, hi: nat)
    requires AllValid(items) && Laid(bits, at, items) && SameBut(bits, bits', lo, hi)
      && (EndOf(at, items) <= lo || hi <= at)
    ensures Laid(bits', at, items)
    decreases |items|
  {
    if items != [] {
      var before := items[..|items| - 1];
      LaidStays(bits, bits', at, before, lo, hi);
      HeldStays(bits, bits', EndOf(at, before), items[|items| - 1], lo, hi);
    }
  }

  lemma LaidAppends(bits: seq<bool>, at: nat, items: seq<Item>, item: Item)
    requires AllValid(items) && item.Valid() && Laid(bits, at, items) && Holds(bits, EndOf(at, items), item)
    ensures AllValid(items + [item]) && Laid(bits, at, items + [item])
      && EndOf(at, items + [item]) == item.End(EndOf(at, items))
  {
    assert (items + [item])[..|items|] == items;
  }

  /** An item put at the cursor, after items that end there, makes one more; the others are as they were. */
  lemma PutAppends(b: Buf, b': Buf, at: nat, items: seq<Item>, item: Item)
    requires AllValid(items) && item.Valid() && Laid(b.bits, at, items) && EndOf(at, items) == b.offset
    requires Holds(b'.bits, b.offset, item) && SameBut(b.bits, b'.bits, b.offset, item.End(b.offset))
    requires b'.offset == item.End(b.offset)
    ensures AllValid(items + [item]) && Laid(b'.bits, at, items + [item]) && EndOf(at, items + [item]) == b'.offset
  {
    LaidStays(b.bits, b'.bits, at, items, b.offset, item.End(b.offset));
    LaidAppends(b'.bits, at, items, item);
  }

  /** A count written first as 0 and put right once the items after it are there: both read back. */
  lemma PatchedCountReadsBack(b: Buf, b': Buf, at: nat, count: Item, items: seq<Item>)
    requires count.Unsigned? && count.Valid() && AllValid(items) && Laid(b.bits, count.End(at), items)
    requires Holds(b'.bits, at, count) && SameBut(b.bits, b'.bits, at, count.End(at))
    requires b'.offset == at && b'.reading && !b'.failed && b'.size <= |b'.bits|
      && EndOf(count.End(at), items) <= b'.size
    ensures ReadItem(b', KindOf(count)) == (b'.(offset := count.End(at)), count.Delivered())
    ensures GiveBack(b'.(offset := count.End(at)), items)
  {
    LaidStays(b.bits, b'.bits, count.End(at), items, at, count.End(at));
    ReadsBack(b', count);
    AllReadBack(b'.(offset := count.End(at)), items);
  }

  // --------------------------------------------------------------------------------------------------- The object

  /** More bits were written at the cursor. */
  ghost predicate Wrote(b: Buf, b': Buf, data: seq<bool>) {
    && b' == b.(offset := b.offset + |data|, size := Larger(b.size, b.offset + |data|), bits := b'.bits)
    && b'.size <= |b'.bits| && b'.bits[b.offset..b'.offset] == data && SameBut(b.bits, b'.bits, b.offset, b'.offset)
  }

  function Larger(a: nat, b: nat): nat {
    if a < b then b else a
  }

  lemma WroteInTurn(a: Buf, b: Buf, c: Buf, x: seq<bool>, y: seq<bool>)
    requires Wrote(a, b, x) && Wrote(b, c, y)
    ensures Wrote(a, c, x + y)
  {
    SameButChains(a.bits, b.bits, c.bits, a.offset, b.offset, c.offset);
    assert c.bits[a.offset..b.offset] == b.bits[a.offset..b.offset];
    assert c.bits[a.offset..c.offset] == c.bits[a.offset..b.offset] + c.bits[b.offset..c.offset];
  }

  /** What is stored where there is room is written. */
  lemma StoredIsWrote(b: Buf, roomy: Buf, bits: seq<bool>, value: Word, n: nat)
    requires roomy == b.(size := Larger(b.size, b.offset + n), bits := roomy.bits) && SameBut(b.bits, roomy.bits, 0, 0)
    requires 1 <= n <= 64 && b.offset + n <= |roomy.bits| && roomy.size <= |roomy.bits|
    requires Stored(roomy.bits, bits, b.offset, value, n)
    ensures |bits| == |roomy.bits| && Wrote(b, roomy.(offset := b.offset + n, bits := bits), value[..n])
  {
    BitArray.ReadsBack(roomy.bits, bits, b.offset, value, n);
  }

  class TickDataBuffer {
    const buffer: TickBitArray
    var bitOffset: nat
    var bitSize: nat
    var isReading: bool
    var bufferFailed: bool

    constructor ()
      ensures fresh(buffer) && Valid() && V() == Buf(0, 0, false, false, [])
    {
      buffer := new TickBitArray(0);
      bitOffset, bitSize, isReading, bufferFailed := 0, 0, false, false;
    }

    ghost function V(): (b: Buf)
      reads this, buffer
    {
      Buf(bitOffset, bitSize, isReading, bufferFailed, Bits(buffer.bytes))
    }

    /** The storage holds the data. */
    ghost predicate Valid()
      reads this, buffer
    {
      bitSize <= SizeInBits(buffer.bytes)
    }

    method BeginWrite()
      requires Valid()
      modifies this
      ensures Valid() && V() == Buf(0, 0, false, false, old(V()).bits)
    {
      bitSize, bitOffset, isReading, bufferFailed := 0, 0, false, false;
    }

    method BeginRead()
      requires Valid()
      modifies this
      ensures Valid() && V() == old(V()).(offset := 0, reading := true, failed := false)
    {
      bitOffset, isReading, bufferFailed := 0, true, false;
    }

    method SeekTo(to: int)
      requires Valid()
      modifies this
      ensures Valid() && V() == Do(old(V()), Seek(to))
    {
      if to < 0 || to > bitSize {
        bufferFailed := true;
        return;
      }
      bitOffset := to;
    }

    method SkipBits(n: int)
      requires Valid()
      modifies this
      ensures Valid() && V() == Do(old(V()), Skip(n))
    {
      if n < 0 || bitOffset > bitSize - n {
        bufferFailed := true;
        return;
      }
      bitOffset := bitOffset + n;
    }

    /** The part of shrink_to for a buffer without metadata. */
    method ShrinkTo(size: int)
      requires Valid()
      modifies this
      ensures Valid()
      ensures V() == if size < 0 then old(V())
                     else if size > |old(V()).bits| then Fail(old(V()))
                     else old(V()).(size := size)
    {
      if size < 0 {
        return;
      }
      if SizeInBits(buffer.bytes) < size {
        bufferFailed := true;
        return;
      }
      bitSize := size;
    }

    /** make_room_in_bits: the storage grows geometrically, with some bits to spare. */
    method MakeRoom(n: nat)
      requires Valid()
      modifies this, buffer
      ensures Valid() && V() == old(V()).(size := Larger(old(bitSize), bitOffset + n), bits := V().bits)
      ensures bitOffset + n <= |V().bits| && SameBut(old(V()).bits, V().bits, 0, 0)
    {
      var minSize := bitOffset + n;
      if minSize > SizeInBits(buffer.bytes) {
        ghost var before := buffer.bytes;
        var double := SizeInBits(buffer.bytes) * 2;
        var ok := buffer.ResizeInBits(if minSize + 64 < double then double else minSize + 64);
        BitsKept(before, buffer.bytes);
      }
      if minSize > bitSize {
        bitSize := minSize;
      }
    }

    method CheckWriting() returns (ok: bool)
      requires Valid()
      modifies this
      ensures ok == !isReading && Valid() && V() == (if ok then old(V()) else Fail(old(V())))
    {
      ok := !isReading;
      if isReading {
        bufferFailed := true;
      }
    }

    method CheckReading(n: nat) returns (ok: bool)
      requires Valid()
      modifies this
      ensures ok == CanRead(old(V()), n) && Valid() && V() == (if ok then old(V()) else Fail(old(V())))
    {
      ok := isReading && !bufferFailed && bitOffset + n <= bitSize;
      if !ok {
        bufferFailed := true;
      }
    }

    method WriteBits(value: Word, n: nat)
      requires Valid() && 1 <= n <= 64
      modifies this, buffer
      ensures Valid() && Wrote(old(V()), V(), value[..n])
    {
      MakeRoom(n);
      ghost var roomy := V();
      var ok := buffer.StoreBits(bitOffset, value, n);
      bufferFailed := bufferFailed || !ok;
      StoredIsWrote(old(V()), roomy, Bits(buffer.bytes), value, n);
      bitOffset := bitOffset + n;
    }

    method FetchBits(n: nat) returns (value: Word)
      requires Valid() && 1 <= n <= 64 && bitOffset + n <= bitSize
      modifies this
      ensures Valid() && V() == old(V()).(offset := old(bitOffset) + n)
      ensures value == FromBits(old(V()).bits[old(bitOffset)..old(bitOffset) + n])
    {
      var ok;
      ok, value := buffer.ReadBits(bitOffset, n);
      bufferFailed := bufferFailed || !ok;
      bitOffset := bitOffset + n;
    }

    // -------------------------------------------------------------------------------------------------- Items

    /** What a writing method leaves: the item where the cursor was, and nothing else changed; or a failure. */
    ghost predicate Put(before: Buf, item: Item)
      reads this, buffer
    {
      item.Valid() && Valid() &&
      if before.reading then V() == Fail(before)
      else
        && Holds(V().bits, before.offset, item)
        && SameBut(before.bits, V().bits, before.offset, item.End(before.offset))
        && V() == before.(offset := item.End(before.offset), size := Larger(before.size, item.End(before.offset)),
                          bits := V().bits)
    }

    method AddBool(flag: bool)
      requires Valid()
      modifies this, buffer
      ensures Put(old(V()), Flag(flag))
    {
      var ok := CheckWriting();
      if ok {
        WriteBits(if flag then LowMask(64, 1) else Zero(), 1);
        assert V().bits[old(bitOffset)..bitOffset] == [flag];
      }
    }

    method AddUintBits(word: Word, n: nat) returns (value: Word)
      requires Valid() && 1 <= n <= 64
      modifies this, buffer
      ensures Put(old(V()), Unsigned(word, n))
      ensures !old(isReading) ==> Unsigned(value, n) == Unsigned(word, n).Delivered()
    {
      value := word;
      var ok := CheckWriting();
      if ok {
        value := if FitsUnsigned(word, n) then word else LowMask(64, n);
        WriteBits(value, n);
      }
    }

    method AddIntBits(word: Word, n: nat) returns (value: Word)
      requires Valid() && 1 <= n <= 64
      modifies this, buffer
      ensures Put(old(V()), Signed(word, n))
      ensures !old(isReading) ==> Signed(value, n) == Signed(word, n).Delivered()
    {
      value := word;
      var ok := CheckWriting();
      if ok {
        if n < 64 && !FitsSigned(word, n) {
          value := if word[63] then Smallest(n) else Largest(n);
        }
        WriteBits(value, n);
      }
    }

    /** add_bits: the bits of bytes, the last of them maybe in part. */
    method AddBits(data: seq<Byte>, count: nat)
      requires Valid() && count <= SizeInBits(data)
      modifies this, buffer
      ensures Put(old(V()), Run(Bits(data)[..count]))
    {
      var ok := CheckWriting();
      if !ok {
        return;
      }
      MakeRoom(count);
      AppendBits(data, count);
      assert Bits(data)[0..count] == Bits(data)[..count];
    }

    method AppendBits(data: seq<Byte>, count: nat)
      requires Valid() && count <= SizeInBits(data)
      modifies this, buffer
      ensures Valid() && Sliced(old(V()), V(), Bits(data), 0, count)
    {
      ghost var start := V();
      var i, done := 0, 0;
      while done < count
        invariant 0 <= done <= count && (done < count ==> done == 8 * i) && Valid()
        invariant Sliced(start, V(), Bits(data), 0, done)
      {
        var bits := if count - done < 8 then count - done else 8;
        AppendByte(start, data, i, bits);
        done, i := done + bits, i + 1;
      }
    }

    method AppendByte(ghost start: Buf, data: seq<Byte>, i: nat, bits: nat)
      requires Valid() && i < |data| && 1 <= bits <= 8 && Sliced(start, V(), Bits(data), 0, 8 * i)
      modifies this, buffer
      ensures Valid() && Sliced(start, V(), Bits(data), 0, 8 * i + bits)
    {
      ghost var before := V();
      WriteBits(Widen(data[i]), bits);
      ByteOf(data, i, bits, 8 * i);
      SlicedMore(start, before, V(), Bits(data), 0, 8 * i, Widen(data[i]), bits);
    }

    method ReadBool() returns (flag: bool)
      requires Valid()
      modifies this
      ensures Valid() && V() == ReadWord(old(V()), 1).0 && flag == ReadWord(old(V()), 1).1[0]
    {
      var ok := CheckReading(1);
      if !ok {
        return false;
      }
      var word := FetchBits(1);
      flag := word[0];
    }

    method ReadUintBits(n: nat) returns (value: Word)
      requires Valid() && 1 <= n <= 64
      modifies this
      ensures Valid() && (V(), value) == ReadWord(old(V()), n)
    {
      var ok := CheckReading(n);
      if !ok {
        value := Zero();
        assert FromBits([]) == Zero();
        return;
      }
      value := FetchBits(n);
    }

    method ReadIntBits(n: nat) returns (value: Word)
      requires Valid() && 1 <= n <= 64
      modifies this
      ensures Valid() && (V(), value) == ReadSigned(old(V()), n)
    {
      var ok := CheckReading(n);
      if !ok {
        return Zero();
      }
      value := FetchSigned(n);
    }

    method FetchSigned(n: nat) returns (value: Word)
      requires Valid() && 1 <= n <= 64 && bitOffset + n <= bitSize
      modifies this
      ensures Valid() && V() == old(V()).(offset := old(bitOffset) + n)
      ensures value == SignExtend(old(V()).bits[old(bitOffset)..old(bitOffset) + n])
    {
      value := FetchBits(n);
      ghost var bits := old(V()).bits[old(bitOffset)..old(bitOffset) + n];
      ExtendSign(bits);
      assert value[n - 1] == bits[n - 1];
      if n < 64 && value[n - 1] {
        value := Or(value, Not(LowMask(64, n)));
      }
    }

    /** read_bits: whole bytes, the last of them maybe in part. */
    method ReadBytes(count: nat) returns (data: seq<Byte>)
      requires Valid()
      modifies this
      ensures Valid() && V() == ReadRun(old(V()), count).0
      ensures CanRead(old(V()), count) ==>
        count <= SizeInBits(data) && Bits(data)[..count] == ReadRun(old(V()), count).1
      ensures !CanRead(old(V()), count) ==> data == []
    {
      data := [];
      var ok := CheckReading(count);
      if !ok {
        return;
      }
      data := FetchBytes(count);
      assert old(V()).bits[old(bitOffset)..old(bitOffset) + count] == ReadRun(old(V()), count).1;
    }

    method FetchBytes(count: nat) returns (data: seq<Byte>)
      requires Valid() && bitOffset + count <= bitSize
      modifies this
      ensures Valid() && Fetched(old(V()), V(), data, count, count)
    {
      ghost var before := V();
      var done;
      data, done := [], 0;
      NoneFetched(before, count);
      while done < count
        invariant Valid() && Fetched(before, V(), data, done, count)
      {
        var bits := if count - done < 8 then count - done else 8;
        var byte := FetchByte(before, data, done, count, bits);
        data, done := data + [byte], done + bits;
      }
    }

    method FetchByte(ghost before: Buf, ghost data: seq<Byte>, ghost done: nat, ghost count: nat, bits: nat)
      returns (byte: Byte)
      requires Valid() && Fetched(before, V(), data, done, count) && done < count
      requires bits == (if count - done < 8 then count - done else 8)
      modifies this
      ensures Valid() && Fetched(before, V(), data + [byte], done + bits, count)
    {
      ghost var b := V();
      var word := FetchBits(bits);
      FetchedMore(before, b, V(), data, done, count, word, bits);
      byte := LowByte(word);
    }

    /** slice: appends bits of this buffer to another one, 64 at a time. */
    method Slice(destination: TickDataBuffer, offset: int, count: int) returns (ok: bool)
      requires Valid() && destination.Valid() && destination != this && destination.buffer != buffer
      modifies destination, destination.buffer
      ensures ok == (count > 0 && 0 <= offset <= bitSize - count && !old(destination.isReading)) && destination.Valid()
      ensures ok ==> Wrote(old(destination.V()), destination.V(), V().bits[offset..offset + count])
      ensures !ok ==> destination.V() == old(destination.V()) || destination.V() == Fail(old(destination.V()))
    {
      if count <= 0 || offset < 0 || offset > bitSize - count {
        return false;
      }
      ok := destination.CheckWriting();
      if !ok {
        return;
      }
      ghost var before, source := destination.V(), V().bits;
      var done := 0;
      while done < count
        invariant 0 <= done <= count && destination.Valid() && V() == old(V()) && Valid()
        invariant Sliced(before, destination.V(), source, offset, done)
      {
        var bits := if count - done < 64 then count - done else 64;
        var fits, value := buffer.ReadBits(offset + done, bits);
        ghost var so := destination.V();
        destination.WriteBits(value, bits);
        SliceOf(source, buffer.bytes, offset, done, bits, value);
        SlicedMore(before, so, destination.V(), source, offset, done, value, bits);
        done := done + bits;
      }
    }

    /** add_data_buffer: the length of the other buffer, and its bits on a whole byte. */
    method AddDataBuffer(input: TickDataBuffer)
      requires Valid() && input.Valid() && input != this && input.buffer != buffer
      modifies this, buffer
      ensures Valid()
      ensures isReading == old(isReading) && input.V() == old(input.V())
      ensures old(isReading) || input.bitSize > MAX_NESTED_BITS ==> V() == Fail(old(V()))
      ensures !old(isReading) && input.bitSize <= MAX_NESTED_BITS ==>
        Put(old(V()), Nested(input.V().bits[..input.bitSize]))
    {
      var ok := CheckWriting();
      if !ok {
        return;
      }
      var inputBits := input.bitSize;
      if inputBits > MAX_NESTED_BITS {
        bufferFailed := true;
        return;
      }
      ghost var start := V();
      WriteLength(inputBits);
      ghost var measured := V();
      PadToNextByte();
      ghost var padded := V();
      WritePayload(input);
      NestedIsPut(start, measured, padded, V(), input.V().bits[..inputBits]);
    }

    method WritePayload(input: TickDataBuffer)
      requires Valid() && input.Valid() && input != this && input.buffer != buffer && !isReading
      modifies this, buffer
      ensures Valid() && isReading == old(isReading)
      ensures if input.bitSize == 0 then V() == old(V()) else Wrote(old(V()), V(), input.V().bits[..input.bitSize])
    {
      if input.bitSize > 0 {
        var sliced := input.Slice(this, 0, input.bitSize);
        assert input.V().bits[0..input.bitSize] == input.V().bits[..input.bitSize];
      }
    }

    /** make_room_pad_to_next_byte. */
    method PadToNextByte()
      requires Valid()
      modifies this, buffer
      ensures Valid() && Padded(old(V()), V())
    {
      var pad := NextByte(bitOffset) - bitOffset;
      MakeRoom(pad);
      bitOffset := bitOffset + pad;
    }

    method WriteLength(n: nat)
      requires Valid() && n <= MAX_NESTED_BITS
      modifies this, buffer
      ensures Valid() && Wrote(old(V()), V(), Length(n))
    {
      PowersOfTwo();
      WriteBits(FromBits(BitsOf(n, 16)), 16);
    }

    /** read_data_buffer: the nested bits, ready to be read. */
    method ReadDataBuffer(output: TickDataBuffer)
      requires Valid() && output.Valid() && output != this && output.buffer != buffer
      modifies this, output, output.buffer
      ensures Valid() && output.Valid() && V() == ReadNested(old(V())).0
      ensures output.bitOffset == 0 && output.isReading && !output.bufferFailed
      ensures output.V().bits[..output.bitSize] == ReadNested(old(V())).1
    {
      output.BeginWrite();
      var length := TakeLength();
      if length.Some? && length.value > 0 {
        var sliced := Slice(output, bitOffset, length.value);
        bitOffset := bitOffset + length.value;
      }
      output.BeginRead();
    }

    method TakeLength() returns (length: Option<nat>)
      requires Valid()
      modifies this
      ensures Valid() && (V(), length) == ReadLength(old(V()))
      ensures length.Some? ==> CanRead(V(), length.value)
    {
      var word := ReadUintBits(16);
      if bufferFailed || NextByte(bitOffset) > bitSize {
        bufferFailed := true;
        return None;
      }
      bitOffset := NextByte(bitOffset);
      var inputBits := ToNat(word);
      var ok := CheckReading(inputBits);
      length := if ok then Some(inputBits) else None;
    }
  }

  lemma ExtendSign(bits: seq<bool>)
    requires 1 <= |bits| <= 64
    ensures var value := FromBits(bits);
      SignExtend(bits) == if |bits| < 64 && bits[|bits| - 1] then Or(value, Not(LowMask(64, |bits|))) else value
  {}

  /** The first `n` bits of the bytes are the bits from `start` on. */
  ghost predicate AreBytes(data: seq<Byte>, source: seq<bool>, start: nat, n: nat) {
    n <= SizeInBits(data) && start + n <= |source| && Bits(data)[..n] == source[start..start + n]
  }

  /** `done` of `count` bits were read, into whole bytes. */
  ghost predicate Fetched(before: Buf, b: Buf, data: seq<Byte>, done: nat, count: nat) {
    && done <= count && before.offset + count <= before.size <= |before.bits|
    && b == before.(offset := before.offset + done)
    && (done < count ==> done == SizeInBits(data)) && AreBytes(data, before.bits, before.offset, done)
  }

  lemma NoneFetched(b: Buf, count: nat)
    requires b.offset + count <= b.size <= |b.bits|
    ensures Fetched(b, b, [], 0, count)
  {
    assert Bits([])[..0] == b.bits[b.offset..b.offset + 0];
  }

  lemma FetchedMore(before: Buf, b: Buf, b': Buf, data: seq<Byte>, done: nat, count: nat, word: Word, bits: nat)
    requires Fetched(before, b, data, done, count) && done < count
      && bits == (if count - done < 8 then count - done else 8)
    requires b' == b.(offset := b.offset + bits) && word == FromBits(b.bits[b.offset..b.offset + bits])
    ensures Fetched(before, b', data + [LowByte(word)], done + bits, count)
  {
    OneMoreByte(data, LowByte(word), before.bits, before.offset, done, bits);
  }

  lemma OneMoreByte(data: seq<Byte>, byte: Byte, source: seq<bool>, start: nat, done: nat, bits: nat)
    requires done == SizeInBits(data) && 1 <= bits <= 8 && start + done + bits <= |source|
    requires AreBytes(data, source, start, done)
    requires byte == LowByte(FromBits(source[start + done..start + done + bits]))
    ensures AreBytes(data + [byte], source, start, done + bits)
  {
    var all := data + [byte];
    forall k | 0 <= k < done + bits ensures Bits(all)[k] == source[start + k] {
      if k < done {
        assert Bits(all)[k] == BitAt(all, k) && Bits(data)[k] == BitAt(data, k);
        assert Bits(data)[..done][k] == source[start..start + done][k];
      } else {
        assert Bits(all)[k] == BitAt(all, k) && k / 8 == |data| && k % 8 == k - done;
        assert byte[k - done] == source[start + done + (k - done)];
      }
    }
  }

  ghost predicate Sliced(before: Buf, b: Buf, source: seq<bool>, offset: nat, done: nat) {
    offset + done <= |source| && if done == 0 then b == before else Wrote(before, b, source[offset..offset + done])
  }

  lemma SlicedMore(before: Buf, b: Buf, b': Buf, source: seq<bool>, offset: nat, done: nat, value: Word, bits: nat)
    requires Sliced(before, b, source, offset, done) && 1 <= bits <= 64 && offset + done + bits <= |source|
    requires Wrote(b, b', value[..bits])
    requires source[offset..offset + done] + value[..bits] == source[offset..offset + (done + bits)]
    ensures Sliced(before, b', source, offset, done + bits)
  {
    if done > 0 {
      WroteInTurn(before, b, b', source[offset..offset + done], value[..bits]);
    } else {
      assert source[offset..offset] + value[..bits] == value[..bits];
    }
  }

  lemma SliceOf(source: seq<bool>, bytes: seq<Byte>, offset: nat, done: nat, bits: nat, value: Word)
    requires source == Bits(bytes) && offset + done + bits <= |source| && 1 <= bits <= 64
    requires forall i :: 0 <= i < 64 ==> value[i] == (i < bits && BitAt(bytes, offset + done + i))
    ensures source[offset..offset + done] + value[..bits] == source[offset..offset + (done + bits)]
  {
    forall i | 0 <= i < bits ensures source[offset + done + i] == value[i] {
      assert Bits(bytes)[offset + done + i] == BitAt(bytes, offset + done + i);
    }
  }

  /** A length, a padding and a payload make a nested buffer. */
  lemma NestedIsPut(start: Buf, measured: Buf, padded: Buf, end: Buf, payload: seq<bool>)
    requires |payload| <= MAX_NESTED_BITS && Wrote(start, measured, Length(|payload|)) && Padded(measured, padded)
    requires if payload == [] then end == padded else Wrote(padded, end, payload)
    ensures var item := Nested(payload);
      && Holds(end.bits, start.offset, item) && SameBut(start.bits, end.bits, start.offset, item.End(start.offset))
      && end == start.(offset := item.End(start.offset), size := Larger(start.size, item.End(start.offset)),
                       bits := end.bits)
  {
    ThreePieces(start, measured, padded, end, Length(|payload|), NextByte(start.offset + 16), payload);
  }

  lemma ThreePieces(start: Buf, measured: Buf, padded: Buf, end: Buf, length: seq<bool>, padTo: nat, payload: seq<bool>)
    requires |length| == 16 && Wrote(start, measured, length) && measured.offset <= padTo <= |padded.bits|
    requires padded == measured.(offset := padTo, size := Larger(measured.size, padTo), bits := padded.bits)
    requires SameBut(measured.bits, padded.bits, 0, 0) && padded.size <= |padded.bits|
    requires if payload == [] then end == padded else Wrote(padded, end, payload)
    ensures end.offset == padTo + |payload| && end.offset <= |end.bits|
    ensures end.bits[start.offset..start.offset + 16] == length && end.bits[padTo..end.offset] == payload
    ensures SameBut(start.bits, end.bits, start.offset, end.offset)
    ensures end == start.(offset := end.offset, size := Larger(start.size, end.offset), bits := end.bits)
  {
    var mid := start.offset + 16;
    SameButChains(measured.bits, padded.bits, end.bits, mid, padTo, end.offset);
    SameButChains(start.bits, measured.bits, end.bits, start.offset, mid, end.offset);
    assert end.bits[start.offset..mid] == measured.bits[start.offset..mid];
  }

  ghost predicate Padded(b: Buf, b': Buf) {
    && b' == b.(offset := NextByte(b.offset), size := Larger(b.size, NextByte(b.offset)), bits := b'.bits)
    && SameBut(b.bits, b'.bits, 0, 0) && NextByte(b.offset) <= |b'.bits| && b'.size <= |b'.bits|
  }

  lemma BitsKept(before: seq<Byte>, after: seq<Byte>)
    requires |before| <= |after| && forall b :: 0 <= b < |before| ==> after[b] == before[b]
    ensures SameBut(Bits(before), Bits(after), 0, 0)
  {
    forall k | 0 <= k < |Bits(before)| ensures Bits(after)[k] == Bits(before)[k] {
      assert Bits(before)[k] == BitAt(before, k) && Bits(after)[k] == BitAt(after, k);
    }
  }

  lemma ByteOf(data: seq<Byte>, i: nat, bits: nat, done: nat)
    requires i < |data| && 1 <= bits <= 8 && done == 8 * i
    ensures done + bits <= |Bits(data)|
      && Bits(data)[0..done] + Widen(data[i])[..bits] == Bits(data)[0..0 + (done + bits)]
  {
    forall k | 0 <= k < bits ensures Bits(data)[done + k] == data[i][k] {
      assert Bits(data)[done + k] == BitAt(data, 8 * i + k);
      assert (8 * i + k) / 8 == i && (8 * i + k) % 8 == k;
    }
  }
}
