/** Bitwise operators on unsigned numbers, digit by binary digit, and what they do to each bit. */
module Bits {
  import opened Hosts

  /** Bit `k` of `b`. */
  predicate BitOf(b: nat, k: nat) {
    if k == 0 then b % 2 == 1 else BitOf(b / 2, k - 1)
  }

  /** `1 << n`. */
  function Shl1(n: nat): (p: nat)
    ensures p > 0
  {
    if n == 0 then 1 else 2 * Shl1(n - 1)
  }

  /** `a | b`. */
  function Or(a: nat, b: nat): nat
    decreases a + b
  {
    if a == 0 && b == 0 then 0
    else 2 * Or(a / 2, b / 2) + if a % 2 == 1 || b % 2 == 1 then 1 else 0
  }

  /** `a & b`. */
  function And(a: nat, b: nat): (r: nat)
    ensures r <= a
  {
    if a == 0 || b == 0 then 0
    else 2 * And(a / 2, b / 2) + if a % 2 == 1 && b % 2 == 1 then 1 else 0
  }

  /** `~b`, kept to a byte. */
  function Not(b: octet): octet {
    255 - b
  }

  lemma ZeroHasNoBits(k: nat)
    ensures !BitOf(0, k)
  {
  }

  lemma {:induction false} OrBits(a: nat, b: nat, k: nat)
    ensures BitOf(Or(a, b), k) <==> BitOf(a, k) || BitOf(b, k)
  {
    if a == 0 && b == 0 {
      ZeroHasNoBits(k);
    } else {
      assert Or(a, b) / 2 == Or(a / 2, b / 2);
      if k > 0 {
        OrBits(a / 2, b / 2, k - 1);
      }
    }
  }

  lemma {:induction false} AndBits(a: nat, b: nat, k: nat)
    ensures BitOf(And(a, b), k) <==> BitOf(a, k) && BitOf(b, k)
  {
    if a == 0 || b == 0 {
      ZeroHasNoBits(k);
    } else {
      assert And(a, b) / 2 == And(a / 2, b / 2);
      if k > 0 {
        AndBits(a / 2, b / 2, k - 1);
      }
    }
  }

  lemma {:induction false} OrBound(a: nat, b: nat, n: nat)
    requires a < Shl1(n) && b < Shl1(n)
    ensures Or(a, b) < Shl1(n)
  {
    if n > 0 && (a != 0 || b != 0) {
      OrBound(a / 2, b / 2, n - 1);
    }
  }

  lemma {:induction false} ShiftedBits(n: nat, k: nat)
    ensures BitOf(Shl1(n), k) <==> k == n
  {
    if n == 0 {
      if k > 0 {
        ZeroHasNoBits(k - 1);
      }
    } else {
      assert Shl1(n) / 2 == Shl1(n - 1);
      if k > 0 {
        ShiftedBits(n - 1, k - 1);
      }
    }
  }

  lemma {:induction false} ComplementBits(b: nat, n: nat, k: nat)
    requires b < Shl1(n) && k < n
    ensures BitOf(Shl1(n) - 1 - b, k) <==> !BitOf(b, k)
  {
    assert Shl1(n) == 2 * Shl1(n - 1);
    var c := Shl1(n) - 1 - b;
    assert c / 2 == Shl1(n - 1) - 1 - b / 2;
    if k > 0 {
      ComplementBits(b / 2, n - 1, k - 1);
    }
  }

  lemma {:induction false} SomeBit(b: nat)
    requires b != 0
    ensures exists k: nat :: BitOf(b, k)
  {
    if b % 2 == 1 {
      assert BitOf(b, 0);
    } else {
      SomeBit(b / 2);
      var k: nat :| BitOf(b / 2, k);
      assert BitOf(b, k + 1);
    }
  }

  lemma Shl1Of8()
    ensures Shl1(8) == 256
  {
    assert Shl1(4) == 16;
    assert Shl1(6) == 64;
  }

  lemma {:induction false} Shl1Monotone(m: nat, n: nat)
    requires m <= n
    ensures Shl1(m) <= Shl1(n)
  {
    if m < n {
      Shl1Monotone(m, n - 1);
    }
  }

  /** `b & (1 << k)` is non-zero exactly when bit `k` is set. */
  lemma MaskTests(b: nat, k: nat)
    ensures And(b, Shl1(k)) != 0 <==> BitOf(b, k)
  {
    AndBits(b, Shl1(k), k);
    ShiftedBits(k, k);
    if And(b, Shl1(k)) != 0 {
      SomeBit(And(b, Shl1(k)));
      var j: nat :| BitOf(And(b, Shl1(k)), j);
      AndBits(b, Shl1(k), j);
      ShiftedBits(k, j);
    } else {
      ZeroHasNoBits(k);
    }
  }

  /** `b | (1 << k)`, a byte again. */
  function SetIn(b: octet, k: nat): (r: octet)
    requires k < 8
    ensures r == Or(b, Shl1(k))
  {
    Shl1Of8();
    Shl1Monotone(k + 1, 8);
    OrBound(b, Shl1(k), 8);
    Or(b, Shl1(k))
  }

  /** `b & ~(1 << k)`. */
  function ClearIn(b: octet, k: nat): (r: octet)
    requires k < 8
  {
    Shl1Of8();
    Shl1Monotone(k + 1, 8);
    And(b, Not(Shl1(k)))
  }

  /** Setting or clearing one bit of a byte changes that bit and no other. */
  lemma OneBitChanges(b: octet, k: nat, j: nat)
    requires k < 8 && j < 8
    ensures BitOf(SetIn(b, k), j) <==> j == k || BitOf(b, j)
    ensures BitOf(ClearIn(b, k), j) <==> j != k && BitOf(b, j)
  {
    Shl1Of8();
    Shl1Monotone(k + 1, 8);
    ShiftedBits(k, j);
    OrBits(b, Shl1(k), j);
    ComplementBits(Shl1(k), 8, j);
    AndBits(b, Not(Shl1(k)), j);
  }

  /** A byte is determined by its bits. */
  lemma {:induction false} BitsDetermine(a: nat, b: nat, n: nat)
    requires a < Shl1(n) && b < Shl1(n)
    requires forall k: nat | k < n :: BitOf(a, k) <==> BitOf(b, k)
    ensures a == b
  {
    if n > 0 {
      assert BitOf(a, 0) <==> BitOf(b, 0);
      forall k: nat | k < n - 1 ensures BitOf(a / 2, k) <==> BitOf(b / 2, k) {
        assert BitOf(a, k + 1) <==> BitOf(b, k + 1);
      }
      BitsDetermine(a / 2, b / 2, n - 1);
    }
  }
}

/** The dynamic pool: one bit per address, packed into bytes, and a counter of the set bits. */
module DynamicPools {
  import opened Hosts
  import opened Bits

  /** Bit `i` of a packed map: bit `i % 8` of byte `i / 8`. */
  predicate BitAt(bits: seq<octet>, i: nat)
    requires i < 8 * |bits|
  {
    BitOf(bits[i / 8], i % 8)
  }

  /** `bits[i / 8] |= 1 << (i % 8)`. */
  function WithBit(bits: seq<octet>, i: nat): (r: seq<octet>)
    requires i < 8 * |bits|
    ensures |r| == |bits|
  {
    bits[i / 8 := SetIn(bits[i / 8], i % 8)]
  }

  /** `bits[i / 8] &= ~(1 << (i % 8))`. */
  function WithoutBit(bits: seq<octet>, i: nat): (r: seq<octet>)
    requires i < 8 * |bits|
    ensures |r| == |bits|
  {
    bits[i / 8 := ClearIn(bits[i / 8], i % 8)]
  }

  /** Writing bit `i` changes that bit of the map and no other. */
  lemma OneBitWritten(bits: seq<octet>, i: nat, j: nat)
    requires i < 8 * |bits| && j < 8 * |bits|
    ensures BitAt(WithBit(bits, i), j) <==> j == i || BitAt(bits, j)
    ensures BitAt(WithoutBit(bits, i), j) <==> j != i && BitAt(bits, j)
  {
    if i / 8 == j / 8 {
      OneBitChanges(bits[i / 8], i % 8, j % 8);
    }
  }

  /** The unused bits of the last byte stay zero. */
  ghost predicate PaddingClear(bits: seq<octet>, capacity: nat) {
    forall i: nat | capacity <= i < 8 * |bits| :: !BitAt(bits, i)
  }

  /** Bitmaps of one length are equal when every bit agrees. */
  lemma BitmapExtensional(a: seq<octet>, b: seq<octet>)
    requires |a| == |b|
    requires forall i: nat | i < 8 * |a| :: BitAt(a, i) <==> BitAt(b, i)
    ensures a == b
  {
    Shl1Of8();
    forall n | 0 <= n < |a| ensures a[n] == b[n] {
      forall k: nat | k < 8 ensures BitOf(a[n], k) <==> BitOf(b[n], k) {
        assert (8 * n + k) / 8 == n && (8 * n + k) % 8 == k;
        assert BitAt(a, 8 * n + k) <==> BitAt(b, 8 * n + k);
      }
      BitsDetermine(a[n], b[n], 8);
    }
  }

  /** `end - start + 1` in 32-bit arithmetic: the whole address space wraps to 0. */
  function CapacityOf(start: u32, end: u32): u32
    requires start <= end
  {
    (end - start + 1) % TWO32
  }

  /** `(cap + 7) / 8` in 32-bit arithmetic: the number of bytes allocated. */
  function BitmapBytes(cap: u32): u32 {
    (cap + 7) % TWO32 / 8
  }

  /** The sizes for which the arithmetic of `dynamic_pool_create` does not wrap. */
  predicate Representable(start: u32, end: u32) {
    end - start + 1 <= TWO32 - 8
  }

  predicate Within(v: int, lo: int, hi: int) {
    lo <= v <= hi
  }

  /** The bitmap holds a byte for every address of the interval exactly when the size is representable. */
  lemma BitmapCoversInterval(start: u32, end: u32)
    requires start <= end
    ensures Representable(start, end)
       <==> forall v: u32 | Within(v, start, end) :: (v - start) / 8 < BitmapBytes(CapacityOf(start, end))
    ensures Representable(start, end) ==>
              && CapacityOf(start, end) == end - start + 1
              && var bits := 8 * BitmapBytes(CapacityOf(start, end));
                 bits - 8 < end - start + 1 <= bits
  {
    var n := end - start + 1;
    if !Representable(start, end) {
      assert BitmapBytes(CapacityOf(start, end)) == 0;
      assert Within(start, start, end) && (start - start) / 8 == 0;
    }
  }

  /** The addresses that the first `n` bits mark as taken, bit `i` standing for `start + i`. */
  ghost function BusyIn(bits: seq<octet>, start: int, n: nat): (busy: set<int>)
    requires n <= 8 * |bits|
    ensures forall v | v in busy :: start <= v < start + n
  {
    if n == 0 then {}
    else BusyIn(bits, start, n - 1) + if BitAt(bits, n - 1) then {start + n - 1} else {}
  }

  lemma {:induction false} InBusy(bits: seq<octet>, start: int, n: nat, i: nat)
    requires i < n <= 8 * |bits|
    ensures start + i in BusyIn(bits, start, n) <==> BitAt(bits, i)
  {
    if i < n - 1 {
      InBusy(bits, start, n - 1, i);
    }
  }

  lemma {:induction false} NothingBusy(bits: seq<octet>, start: int, n: nat)
    requires n <= 8 * |bits|
    requires forall i: nat | i < n :: !BitAt(bits, i)
    ensures BusyIn(bits, start, n) == {}
  {
    if n > 0 {
      NothingBusy(bits, start, n - 1);
    }
  }

  /** What writing bit `i` does to the taken addresses. */
  lemma {:induction false} MarkOne(bits: seq<octet>, i: nat, start: int, n: nat)
    requires i < 8 * |bits| && n <= 8 * |bits|
    ensures BusyIn(WithBit(bits, i), start, n) == BusyIn(bits, start, n) + if i < n then {start + i} else {}
    ensures BusyIn(WithoutBit(bits, i), start, n) == BusyIn(bits, start, n) - {start + i}
  {
    hide BitAt, WithBit, WithoutBit;
    if n > 0 {
      MarkOne(bits, i, start, n - 1);
      OneBitWritten(bits, i, n - 1);
    }
  }

  lemma PaddingStaysClear(bits: seq<octet>, i: nat, capacity: nat)
    requires i < capacity <= 8 * |bits|
    requires PaddingClear(bits, capacity)
    ensures PaddingClear(WithBit(bits, i), capacity) && PaddingClear(WithoutBit(bits, i), capacity)
  {
    forall j: nat | capacity <= j < 8 * |bits|
      ensures !BitAt(WithBit(bits, i), j) && !BitAt(WithoutBit(bits, i), j)
    {
      OneBitWritten(bits, i, j);
    }
  }

  /** The `n` addresses from `lo` on. */
  ghost function Interval(lo: int, n: nat): (s: set<int>)
    ensures forall v :: v in s <==> lo <= v < lo + n
    ensures |s| == n
  {
    if n == 0 then {} else Interval(lo, n - 1) + {lo + n - 1}
  }

  /** Fewer marked addresses than addresses: the scan finds a clear bit. */
  lemma RoomLeft(busy: set<int>, lo: int, n: nat)
    requires forall v | v in busy :: lo <= v < lo + n
    ensures |busy| <= n
    ensures |busy| == n <==> forall v | lo <= v < lo + n :: v in busy
  {
    assert busy <= Interval(lo, n);
    SubsetSize(busy, Interval(lo, n));
    if forall v | lo <= v < lo + n :: v in busy {
      assert busy == Interval(lo, n);
    }
  }

  lemma SubsetSize<T>(a: set<T>, b: set<T>)
    requires a <= b
    ensures |a| <= |b| && (|a| == |b| ==> a == b)
  {
    assert b == a + (b - a);
  }

  class DynamicPool {
    const startH: u32
    const endH: u32
    const capacity: u32
    const bits: array<octet>
    var used: u32

    ghost predicate Valid()
      reads this, bits
    {
      && Shape()
      && used == |Busy()|
    }

    /** The addresses currently marked as taken. */
    ghost function Busy(): set<int>
      requires capacity <= 8 * bits.Length
      reads this, bits
    {
      BusyIn(bits[..], startH, capacity)
    }

    /** `dynamic_pool_create` once its end points have been checked. */
    constructor (s: u32, e: u32)
      requires s <= e
      ensures startH == s && endH == e && fresh(bits)
      ensures Valid() <==> Representable(s, e)
      ensures Valid() ==> Busy() == {}
    {
      startH := s;
      endH := e;
      capacity := CapacityOf(s, e);
      bits := new octet[BitmapBytes(CapacityOf(s, e))](_ => 0);
      used := 0;
      new;
      BitmapCoversInterval(s, e);
      if Representable(s, e) {
        forall i: nat | i < 8 * bits.Length ensures !BitAt(bits[..], i) {
          ZeroHasNoBits(i % 8);
        }
        NothingBusy(bits[..], startH, capacity);
      }
    }

    /** `dynamic_pool_create`: refuses missing or non-IPv4 end points and reversed intervals. */
    static method Create(start: Option<Host>, end: Option<Host>) returns (pool: DynamicPool?)
      ensures pool != null <==>
                && start.Some? && end.Some? && start.value.family == Inet && end.value.family == Inet
                && HostToU32(start.value) <= HostToU32(end.value)
      ensures pool != null ==> fresh(pool) && fresh(pool.bits)
      ensures pool != null ==> pool.startH == HostToU32(start.value) && pool.endH == HostToU32(end.value)
      ensures pool != null ==> (pool.Valid() <==> Representable(pool.startH, pool.endH))
      ensures pool != null && pool.Valid() ==> pool.Busy() == {}
    {
      if start.None? || end.None? || start.value.family != Inet || end.value.family != Inet {
        return null;
      }
      var s, e := HostToU32(start.value), HostToU32(end.value);
      if e < s {
        return null;
      }
      pool := new DynamicPool(s, e);
    }

    /** The shape of the pool, without the counter. */
    ghost predicate Shape()
      reads this, bits
    {
      && startH <= endH
      && capacity == endH - startH + 1
      && 8 * bits.Length - 8 < capacity <= 8 * bits.Length
      && PaddingClear(bits[..], capacity)
    }

    /** `bits[i / 8] |= 1 << (i % 8)`, in place. */
    method SetBit(i: nat)
      requires Shape() && i < capacity
      modifies bits
      ensures Shape() && Busy() == old(Busy()) + {startH + i}
    {
      MarkOne(bits[..], i, startH, capacity);
      PaddingStaysClear(bits[..], i, capacity);
      bits[i / 8] := SetIn(bits[i / 8], i % 8);
      assert bits[..] == WithBit(old(bits[..]), i);
    }

    /** `bits[i / 8] &= ~(1 << (i % 8))`, in place. */
    method ClearBit(i: nat)
      requires Shape() && i < capacity
      modifies bits
      ensures Shape() && Busy() == old(Busy()) - {startH + i}
    {
      MarkOne(bits[..], i, startH, capacity);
      PaddingStaysClear(bits[..], i, capacity);
      bits[i / 8] := ClearIn(bits[i / 8], i % 8);
      assert bits[..] == WithoutBit(old(bits[..]), i);
    }

    /** `bits[i / 8] & (1 << (i % 8))`. */
    method TestBit(i: nat) returns (on: bool)
      requires Shape() && i < capacity
      ensures on <==> startH + i in Busy()
    {
      MaskTests(bits[i / 8], i % 8);
      on := And(bits[i / 8], Shl1(i % 8)) != 0;
      InBusy(bits[..], startH, capacity, i);
    }

    /** The three statements that hand out offset `i`; `start_h + i` does not wrap. */
    method Take(i: nat) returns (ip: Host)
      requires Valid() && i < capacity && startH + i !in Busy()
      modifies this, bits
      ensures Valid() && Busy() == old(Busy()) + {startH + i}
      ensures startH + i < TWO32 && ip == U32ToHost(startH + i)
    {
      hide PaddingClear, BitAt, BusyIn;
      RoomLeft(Busy() + {startH + i}, startH, capacity);
      SetBit(i);
      used := used + 1;
      var a: u32 := (startH + i) % TWO32;
      assert a == startH + i;
      ip := U32ToHost(a);
    }

    /** Hands out the least free address; fails exactly when every address is taken. */
    method Acquire() returns (r: Option<Host>, ghost v: u32)
      requires Valid()
      modifies this, bits
      ensures Valid()
      ensures r.None? <==> forall w | startH <= w <= endH :: w in old(Busy())
      ensures r.None? ==> bits[..] == old(bits[..]) && Busy() == old(Busy())
      ensures r.Some? ==>
                && r.value == U32ToHost(v)
                && r.value == Host(Inet, [v / 0x100_0000, v / 0x1_0000 % 256, v / 0x100 % 256, v % 256])
                && startH <= v <= endH
                && v !in old(Busy())
                && (forall w | startH <= w < v :: w in old(Busy()))
                && Busy() == old(Busy()) + {v}
    {
      hide PaddingClear, BitAt, BusyIn, U32ToHost;
      r, v := None, 0;
      ghost var busy := Busy();
      RoomLeft(busy, startH, capacity);
      if used < capacity {
        var i := 0;
        while i < capacity
          invariant 0 <= i <= capacity
          invariant unchanged(this, bits)
          invariant forall w | startH <= w < startH + i :: w in busy
        {
          var on := TestBit(i);
          if !on {
            var ip := Take(i);
            AddressWrites(Little, startH + i);
            return Some(ip), startH + i;
          }
          i := i + 1;
        }
        assert false;
      }
    }

    /** Clears the bit of an address of the interval; anything else is ignored.  Releasing twice
        does nothing the second time, and the counter never sticks at zero. */
    method Release(ip: Option<Host>)
      requires Valid()
      modifies this, bits
      ensures Valid()
      ensures ip.Some? && ip.value.family == Inet ==> Busy() == old(Busy()) - {HostToU32(ip.value)}
      ensures ip.None? || ip.value.family != Inet || HostToU32(ip.value) !in old(Busy()) ==>
                bits[..] == old(bits[..]) && Busy() == old(Busy())
    {
      hide PaddingClear, BitAt, BusyIn, HostToU32;
      if ip.None? || ip.value.family != Inet {
        return;
      }
      var v := HostToU32(ip.value);
      if v < startH || v > endH {
        assert v !in Busy();
        return;
      }
      var i: u32 := v - startH;
      var on := TestBit(i);
      if on {
        assert v in Busy() && |Busy()| == |Busy() - {v}| + 1;
        ClearBit(i);
        if used > 0 {
          used := used - 1;
        }
      }
    }

    /** The pool contains every host it has handed out, and exactly those IPv4 hosts for which it has a
        bit; releasing any other host changes no byte. */
    method IsInPool(ip: Option<Host>) returns (b: bool)
      ensures Valid() ==> forall v: u32 | v in Busy() && ip == Some(U32ToHost(v)) :: b
      ensures Valid() ==>
                (b <==> ip.Some? && ip.value.family == Inet && HostToU32(ip.value) in Interval(startH, capacity))
      ensures Valid() && !b ==> ip.None? || ip.value.family != Inet || HostToU32(ip.value) !in Busy()
    {
      forall v: u32 ensures HostToU32(U32ToHost(v)) == v {
        U32RoundTrip(v);
      }
      if ip.None? || ip.value.family != Inet {
        return false;
      }
      var v := HostToU32(ip.value);
      return v >= startH && v <= endH;
    }
  }

  /** The taken addresses determine the bitmap byte for byte, because padding bits stay clear. */
  lemma BusyDeterminesBitmap(a: seq<octet>, b: seq<octet>, start: int, capacity: nat)
    requires |a| == |b| && capacity <= 8 * |a|
    requires BusyIn(a, start, capacity) == BusyIn(b, start, capacity)
    requires PaddingClear(a, capacity) && PaddingClear(b, capacity)
    ensures a == b
  {
    forall i: nat | i < 8 * |a| ensures BitAt(a, i) <==> BitAt(b, i) {
      if i < capacity {
        InBusy(a, start, capacity, i);
        InBusy(b, start, capacity, i);
      }
    }
    BitmapExtensional(a, b);
  }
}
