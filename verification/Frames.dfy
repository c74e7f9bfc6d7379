/** Frame indices and serial numbers: 32-bit values that wrap around on the wire, and the unbounded counters they
    stand for. The rest of the project counts frames, terms and versions without bound; the lemmas of this module say
    when the comparisons the engines make on the wrapped values agree with the unbounded ones. */
module Frames {
  const U32: int := 0x1_0000_0000
  const HALF_U32: int := 0x8000_0000
  /** MESH_MAX_SERIAL_JUMP. */
  const MAX_SERIAL_JUMP: int := 0x10_0000
  /** How many serials there are: 0 means "none" and is skipped. */
  const SERIALS: int := U32 - 1

  function Wrap32(x: int): (r: nat)
    ensures r < U32
  {
    x % U32
  }

  /** tick_frame_after: the difference, as a signed 32-bit integer, is positive. */
  predicate FrameAfter(a: nat, b: nat) {
    0 < Wrap32(a - b) < HALF_U32
  }

  /** On frames less than 2^31 apart the wrapped comparison is the order of the unbounded frames. */
  lemma FrameAfterIsOrder(a: nat, b: nat)
    requires -HALF_U32 < a - b < HALF_U32
    ensures FrameAfter(Wrap32(a), Wrap32(b)) <==> b < a
  {
    assert Wrap32(Wrap32(a) - Wrap32(b)) == Wrap32(a - b) by { WrapDifference(a, b); }
    if a < b {
      assert Wrap32(a - b) == a - b + U32;
    }
  }

  lemma WrapDifference(a: nat, b: nat)
    ensures Wrap32(Wrap32(a) - Wrap32(b)) == Wrap32(a - b)
  {
    var qa, qb := a / U32, b / U32;
    assert a - b == Wrap32(a) - Wrap32(b) + (qa - qb) * U32;
    ModPlusMultiple(Wrap32(a) - Wrap32(b), qa - qb, U32);
  }

  lemma ModPlusMultiple(x: int, k: int, m: nat)
    requires 0 < m
    ensures (x + k * m) % m == x % m
  {
    var q, r := x / m, x % m;
    assert x + k * m == (q + k) * m + r;
    ModUnique(x + k * m, q + k, r, m);
  }

  lemma ModUnique(x: int, q: int, r: int, m: nat)
    requires 0 < m && x == q * m + r && 0 <= r < m
    ensures x % m == r && x / m == q
  {
    var q', r' := x / m, x % m;
    assert x == q' * m + r';
    Distribute(q, q', m);
    if q > q' {
      AtLeastOnce(q - q', m);
    } else if q < q' {
      AtLeastOnce(q' - q, m);
      Distribute(q', q, m);
    }
  }

  lemma Distribute(a: int, b: int, m: int)
    ensures (a - b) * m == a * m - b * m
  {}

  lemma AtLeastOnce(k: int, m: nat)
    requires 1 <= k
    ensures k * m >= m
  {}

  /** history_index: the slot of a frame in a ring of `n`, the remainder of the division (see SlotIsRemainder). */
  function Slot(f: nat, n: nat): (slot: nat)
    requires 0 < n
    ensures slot < n
    decreases f
  {
    if f < n then f else Slot(f - n, n)
  }

  lemma {:induction false} SlotIsRemainder(f: nat, n: nat)
    requires 0 < n
    ensures Slot(f, n) == f % n
    decreases f
  {
    if f < n {
      ModUnique(f, 0, f, n);
    } else {
      SlotIsRemainder(f - n, n);
      ModPlusMultiple(f - n, 1, n);
    }
  }

  /** Two frames less than a ring apart have different slots; the frame a ring later has the same one. */
  lemma {:induction false} SlotsOfARing(f: nat, g: nat, n: nat)
    requires 0 < n && f <= g <= f + n
    ensures Slot(f, n) == Slot(g, n) <==> f == g || g == f + n
    decreases f
  {
    if f >= n {
      SlotsOfARing(f - n, g - n, n);
    }
  }

  /** The rings of history are indexed by the wrapped frame. They agree with rings indexed by the unbounded frame for
      every frame exactly when the size of the history divides 2^32. */
  lemma SlotsSurviveWrap(h: nat)
    requires 0 < h <= U32
    ensures (forall f: nat :: Wrap32(f) % h == f % h) <==> U32 % h == 0
  {
    if U32 % h == 0 {
      forall f: nat ensures Wrap32(f) % h == f % h {
        WrapKeepsSlot(f, h);
      }
    } else {
      assert Wrap32(U32) % h != U32 % h;
    }
  }

  lemma WrapKeepsSlot(f: nat, h: nat)
    requires 0 < h && U32 % h == 0
    ensures Wrap32(f) % h == f % h
  {
    var k := U32 / h;
    var n := f / U32;
    assert U32 == k * h;
    assert n * U32 == (n * k) * h;
    ModPlusMultiple(Wrap32(f), n * k, h);
  }

  /** mesh_next_serial: the serial after `value`, skipping "none". */
  function NextSerial(value: nat): (r: nat)
    requires value < U32
    ensures 0 < r < U32
  {
    var next := Wrap32(value + 1);
    if next == 0 then 1 else next
  }

  /** mesh_serial_newer: whether `value` replaces `known`. */
  predicate SerialNewer(value: nat, known: nat) {
    value != 0 && (known == 0 || (var ahead := Wrap32(value - known); ahead != 0 && ahead <= MAX_SERIAL_JUMP))
  }

  /** mesh_serial_apart: whether neither replaces the other. */
  predicate SerialApart(value: nat, known: nat) {
    value != known && !SerialNewer(value, known) && !SerialNewer(known, value)
  }

  /** The serial that stands for the unbounded counter `k`; 0 stands for "none". */
  function Serial(k: nat): (r: nat)
    ensures r < U32
    ensures r == 0 <==> k == 0
  {
    if k == 0 then 0 else NextSerial(Serial(k - 1))
  }

  lemma {:induction false} SerialIsRemainder(k: nat)
    ensures k > 0 ==> Serial(k) == 1 + (k - 1) % SERIALS
  {
    if k > 1 {
      SerialIsRemainder(k - 1);
      NextRemainder(k - 2, (k - 2) / SERIALS, (k - 2) % SERIALS);
    }
  }

  lemma NextRemainder(k: nat, q: nat, r: nat)
    requires k == q * SERIALS + r && r < SERIALS
    ensures (k + 1) % SERIALS == if r + 1 < SERIALS then r + 1 else 0
  {
    if r + 1 < SERIALS {
      ModUnique(k + 1, q, r + 1, SERIALS);
    } else {
      ModUnique(k + 1, q + 1, 0, SERIALS);
    }
  }

  /** How far apart the serials of `a` and, before it, `b` look on the wire: crossing the wrap adds one, because 0 is
      skipped. */
  predicate LookApart(a: nat, b: nat, x: nat, y: nat) {
    var d, back := Wrap32(x - y), Wrap32(y - x);
    && (d == a - b || (a != b && d == a - b + 1))
    && (a != b ==> back == U32 - (a - b) || back == U32 - (a - b) - 1)
  }

  lemma SerialDistance(a: nat, b: nat)
    requires 0 < b <= a < b + HALF_U32
    ensures LookApart(a, b, Serial(a), Serial(b))
  {
    SerialIsRemainder(a);
    SerialIsRemainder(b);
    RemainderDistance(a, b, Serial(a), Serial(b));
  }

  lemma RemainderDistance(a: nat, b: nat, x: nat, y: nat)
    requires 0 < b <= a < b + HALF_U32
    requires x == 1 + (a - 1) % SERIALS && y == 1 + (b - 1) % SERIALS
    ensures LookApart(a, b, x, y)
  {
    var qa, ra := (a - 1) / SERIALS, (a - 1) % SERIALS;
    var qb, rb := (b - 1) / SERIALS, (b - 1) % SERIALS;
    assert a - b == (qa - qb) * SERIALS + (ra - rb);
    if qa == qb {
      ModUnique(a - b, 0, a - b, U32);
      if a != b { ModUnique(b - a, -1, U32 - (a - b), U32); }
    } else {
      assert qa == qb + 1 && x - y == a - b - SERIALS;
      ModUnique(a - b - SERIALS, -1, a - b + 1, U32);
      ModUnique(SERIALS - (a - b), 0, SERIALS - (a - b), U32);
    }
  }

  /** Inside a window one narrower than the largest jump, "newer" on the wire is the order of the counters, and no two
      serials are apart. */
  lemma SerialNewerIsOrder(a: nat, b: nat)
    requires a == 0 || b == 0 || -MAX_SERIAL_JUMP < a - b < MAX_SERIAL_JUMP
    ensures SerialNewer(Serial(a), Serial(b)) <==> b < a
    ensures Serial(a) == Serial(b) <==> a == b
    ensures !SerialApart(Serial(a), Serial(b))
  {
    if a > 0 && b > 0 {
      if b <= a { SerialDistance(a, b); } else { SerialDistance(b, a); }
    }
  }

  /** The window can't be wider: at the largest jump itself a serial is newer if and only if none was skipped in
      between; one that crossed the wrap is refused. */
  lemma SerialWindowIsTight(a: nat, b: nat)
    requires 0 < b && a - b == MAX_SERIAL_JUMP
    ensures SerialNewer(Serial(a), Serial(b)) <==> (a - 1) / SERIALS == (b - 1) / SERIALS
    ensures SerialApart(Serial(a), Serial(b)) <==> (a - 1) / SERIALS != (b - 1) / SERIALS
  {
    SerialIsRemainder(a);
    SerialIsRemainder(b);
    JumpDistance(a, b, Serial(a), Serial(b));
    SerialDistance(a, b);
    OnTheWire(Serial(a), Serial(b), Wrap32(Serial(a) - Serial(b)), Wrap32(Serial(b) - Serial(a)));
  }

  lemma OnTheWire(x: nat, y: nat, ahead: nat, back: nat)
    requires 0 < x && 0 < y && x != y && ahead == Wrap32(x - y) && back == Wrap32(y - x)
    requires 0 < ahead && MAX_SERIAL_JUMP < back
    ensures SerialNewer(x, y) <==> ahead <= MAX_SERIAL_JUMP
    ensures SerialApart(x, y) <==> ahead > MAX_SERIAL_JUMP
  {}

  /** The distance on the wire is one more exactly when the counters have different quotients. */
  lemma JumpDistance(a: nat, b: nat, x: nat, y: nat)
    requires 0 < b && a - b == MAX_SERIAL_JUMP
    requires x == 1 + (a - 1) % SERIALS && y == 1 + (b - 1) % SERIALS
    ensures Wrap32(x - y) == MAX_SERIAL_JUMP + (if (a - 1) / SERIALS == (b - 1) / SERIALS then 0 else 1)
  {
    var qa, ra := (a - 1) / SERIALS, (a - 1) % SERIALS;
    var qb, rb := (b - 1) / SERIALS, (b - 1) % SERIALS;
    assert a - b == (qa - qb) * SERIALS + (ra - rb);
    if qa == qb {
      ModUnique(x - y, 0, x - y, U32);
    } else {
      assert qa == qb + 1;
      ModUnique(x - y, -1, MAX_SERIAL_JUMP + 1, U32);
    }
  }

  /** Both happen: between the first serials, and over the wrap. */
  lemma SerialsCrossTheWrap()
    ensures exists a, b :: 0 < b && a - b == MAX_SERIAL_JUMP && SerialNewer(Serial(a), Serial(b))
    ensures exists a, b :: 0 < b && a - b == MAX_SERIAL_JUMP && SerialApart(Serial(a), Serial(b))
  {
    JumpFrom(1, 0, 0);
    JumpFrom(SERIALS, SERIALS - 1, 1);
  }

  lemma JumpFrom(b: nat, before: nat, q: nat)
    requires b == before + 1 && before < SERIALS
    requires q == (if before + MAX_SERIAL_JUMP < SERIALS then 0 else 1)
    ensures SerialNewer(Serial(b + MAX_SERIAL_JUMP), Serial(b)) <==> q == 0
    ensures SerialApart(Serial(b + MAX_SERIAL_JUMP), Serial(b)) <==> q == 1
  {
    ModUnique(before, 0, before, SERIALS);
    ModUnique(before + MAX_SERIAL_JUMP, q, before + MAX_SERIAL_JUMP - q * SERIALS, SERIALS);
    SerialWindowIsTight(b + MAX_SERIAL_JUMP, b);
  }
}
