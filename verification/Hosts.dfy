/** Addresses as the plugin sees them: a `host_t` is an address family and the raw address
    octets in network order.  The pool does its arithmetic on 32-bit host-order integers, so
    this module also gives the two conversions and shows that they undo each other. */
module Hosts {
  datatype Option<+T> = None | Some(value: T)

  const TWO32 := 0x1_0000_0000
  const IPV4_LEN: nat := 4

  type u32 = x: int | 0 <= x < 0x1_0000_0000
  type octet = x: int | 0 <= x < 256

  datatype Family = Inet | Inet6 | Unspec

  datatype Host = Host(family: Family, addr: seq<octet>)

  /** The byte order of the machine: `memcpy`, `ntohl` and `htonl` all depend on it. */
  datatype Endian = Little | Big

  /** 256 to the power `n`. */
  function Pow256(n: nat): (p: int)
    ensures p > 0
  {
    if n == 0 then 1 else 256 * Pow256(n - 1)
  }

  /** The number whose base-256 digits are `s`, most significant first. */
  function Number(s: seq<octet>): (v: int)
    ensures 0 <= v < Pow256(|s|)
  {
    if s == [] then 0 else 256 * Number(s[..|s| - 1]) + s[|s| - 1]
  }

  /** The `n` low base-256 digits of `v`, most significant first. */
  function Octets(v: nat, n: nat): (s: seq<octet>)
    ensures |s| == n
  {
    if n == 0 then [] else Octets(v / 256, n - 1) + [v % 256]
  }

  lemma {:induction false} NumberOfOctets(v: nat, n: nat)
    requires v < Pow256(n)
    ensures Number(Octets(v, n)) == v
  {
    if n > 0 {
      NumberOfOctets(v / 256, n - 1);
      assert Octets(v, n)[..n - 1] == Octets(v / 256, n - 1);
    }
  }

  lemma {:induction false} OctetsOfNumber(s: seq<octet>)
    ensures Octets(Number(s), |s|) == s
  {
    if s != [] {
      var front := s[..|s| - 1];
      OctetsOfNumber(front);
      assert Number(s) / 256 == Number(front) && Number(s) % 256 == s[|s| - 1];
    }
  }

  lemma Pow256Of4()
    ensures Pow256(IPV4_LEN) == TWO32
  {
    assert Pow256(2) == 65536;
  }

  function Reversed<T>(s: seq<T>): (r: seq<T>)
    ensures |r| == |s| && forall i | 0 <= i < |s| :: r[i] == s[|s| - 1 - i]
  {
    seq(|s|, i requires 0 <= i < |s| => s[|s| - 1 - i])
  }

  /** `memcpy(&v, p, 4)` into a `uint32_t`. */
  function LoadNative(e: Endian, b: seq<octet>): u32
    requires |b| == IPV4_LEN
  {
    Pow256Of4();
    Number(if e == Big then b else Reversed(b))
  }

  /** The bytes of a `uint32_t` in memory. */
  function StoreNative(e: Endian, v: u32): (b: seq<octet>)
    ensures |b| == IPV4_LEN
  {
    if e == Big then Octets(v, IPV4_LEN) else Reversed(Octets(v, IPV4_LEN))
  }

  /** `ntohl` and `htonl` are the same function: a byte swap on a little-endian machine. */
  function Ntohl(e: Endian, v: u32): u32 {
    Pow256Of4();
    if e == Big then v else Number(Reversed(Octets(v, IPV4_LEN)))
  }

  function HostToU32OnMachine(e: Endian, h: Host): u32 {
    Ntohl(e, if |h.addr| >= IPV4_LEN then LoadNative(e, h.addr[..IPV4_LEN]) else 0)
  }

  function U32ToHostOnMachine(e: Endian, v: u32): Host {
    Host(Inet, StoreNative(e, Ntohl(e, v)))
  }

  /** The value of an address, read as a big-endian number; independent of the machine. */
  function HostToU32(h: Host): u32 {
    Pow256Of4();
    if |h.addr| >= IPV4_LEN then Number(h.addr[..IPV4_LEN]) else 0
  }

  function U32ToHost(v: u32): Host {
    Host(Inet, Octets(v, IPV4_LEN))
  }

  /** On either byte order the C conversions compute the big-endian reading and writing. */
  lemma ByteOrderIsIrrelevant(e: Endian, h: Host, v: u32)
    ensures HostToU32OnMachine(e, h) == HostToU32(h)
    ensures U32ToHostOnMachine(e, v) == U32ToHost(v)
  {
    if e == Little {
      if |h.addr| >= IPV4_LEN {
        SwapUndoesReversal(h.addr[..IPV4_LEN]);
      } else {
        SwapOfZero();
      }
      var swapped := Reversed(Octets(v, IPV4_LEN));
      OctetsOfNumber(swapped);
      assert Reversed(swapped) == Octets(v, IPV4_LEN);
    }
  }

  lemma SwapUndoesReversal(b: seq<octet>)
    requires |b| == IPV4_LEN
    ensures Ntohl(Little, LoadNative(Little, b)) == Number(b)
  {
    var r := Reversed(b);
    OctetsOfNumber(r);
    var v := LoadNative(Little, b);
    assert v == Number(r);
    assert Octets(v, IPV4_LEN) == r;
    assert Reversed(r) == b;
  }

  lemma SwapOfZero()
    ensures Ntohl(Little, 0) == 0
  {
    var z: seq<octet> := [0, 0, 0, 0];
    assert Octets(0, 2) == [0, 0];
    assert Octets(0, 3) == [0, 0, 0];
    assert Octets(0, 4) == z && Reversed(z) == z;
    NumberOfOctets(0, IPV4_LEN);
  }

  lemma FourOctets(a: octet, b: octet, c: octet, d: octet)
    ensures Number([a, b, c, d]) == 0x100_0000 * a + 0x1_0000 * b + 0x100 * c + d
  {
    var s: seq<octet> := [a, b, c, d];
    assert s[..3] == [a, b, c] && s[..3][..2] == [a, b] && s[..2][..1] == [a] && s[..1][..0] == [];
    assert Number([a]) == a;
    assert Number([a, b]) == 256 * Number([a]) + b;
    assert Number([a, b, c]) == 256 * Number([a, b]) + c;
  }

  /** The first octet of an address is the most significant one, on either byte order and whatever comes
      after the first four; an address that is too short reads as 0. */
  lemma AddressReads(e: Endian, f: Family, a: octet, b: octet, c: octet, d: octet, rest: seq<octet>)
    ensures HostToU32(Host(f, [a, b, c, d] + rest)) == 0x100_0000 * a + 0x1_0000 * b + 0x100 * c + d
    ensures HostToU32OnMachine(e, Host(f, [a, b, c, d] + rest)) == 0x100_0000 * a + 0x1_0000 * b + 0x100 * c + d
    ensures |rest| < 4 ==> HostToU32(Host(f, rest)) == 0 && HostToU32OnMachine(e, Host(f, rest)) == 0
  {
    var h := Host(f, [a, b, c, d] + rest);
    assert h.addr[..IPV4_LEN] == [a, b, c, d];
    FourOctets(a, b, c, d);
    ByteOrderIsIrrelevant(e, h, 0);
    ByteOrderIsIrrelevant(e, Host(f, rest), 0);
  }

  /** The other way round. */
  lemma AddressWrites(e: Endian, v: u32)
    ensures U32ToHost(v) == Host(Inet, [v / 0x100_0000, v / 0x1_0000 % 256, v / 0x100 % 256, v % 256])
    ensures U32ToHostOnMachine(e, v) == U32ToHost(v)
  {
    ByteOrderIsIrrelevant(e, U32ToHost(v), v);
    WritesFour(v);
  }

  lemma WritesFour(v: u32)
    ensures Octets(v, IPV4_LEN) == [v / 0x100_0000, v / 0x1_0000 % 256, v / 0x100 % 256, v % 256]
  {
    DivideTwice(v);
    assert Octets(v / 256 / 256 / 256, 1) == [v / 256 / 256 / 256 % 256];
    assert Octets(v / 256 / 256, 2) == Octets(v / 256 / 256 / 256, 1) + [v / 256 / 256 % 256];
    assert Octets(v / 256, 3) == Octets(v / 256 / 256, 2) + [v / 256 % 256];
    assert Octets(v, 4) == Octets(v / 256, 3) + [v % 256];
  }

  lemma DivideTwice(v: u32)
    ensures v / 256 / 256 == v / 0x1_0000 && v / 256 / 256 / 256 == v / 0x100_0000 < 256
  {
  }

  lemma U32RoundTrip(v: u32)
    ensures HostToU32(U32ToHost(v)) == v
  {
    Pow256Of4();
    NumberOfOctets(v, IPV4_LEN);
    assert Octets(v, IPV4_LEN)[..4] == Octets(v, IPV4_LEN);
  }

  /** The two conversions undo each other: on every 32-bit value, and on every four-octet IPv4 host. */
  lemma ConversionsInvert(e: Endian, h: Host, v: u32)
    ensures U32ToHostOnMachine(e, v) == Host(Inet, [v / 0x100_0000, v / 0x1_0000 % 256, v / 0x100 % 256, v % 256])
    ensures HostToU32OnMachine(e, U32ToHostOnMachine(e, v)) == v
    ensures h.family == Inet && |h.addr| == IPV4_LEN ==> U32ToHostOnMachine(e, HostToU32OnMachine(e, h)) == h
  {
    AddressWrites(e, v);
    ByteOrderIsIrrelevant(e, U32ToHost(v), v);
    ByteOrderIsIrrelevant(e, h, HostToU32(h));
    U32RoundTrip(v);
    if h.family == Inet && |h.addr| == IPV4_LEN {
      OctetsOfNumber(h.addr);
      assert h.addr[..IPV4_LEN] == h.addr;
    }
  }

  /** Different numbers are different addresses. */
  lemma U32ToHostInjective(v: u32, w: u32)
    ensures U32ToHost(v) == U32ToHost(w) <==> v == w
  {
    U32RoundTrip(v);
    U32RoundTrip(w);
  }
}
