/** Fixed-width integers, big-endian fields and Go's `net.IP`, as the packets and the lease database use them. */
module Bytes {

  type u8 = x: int | 0 <= x < 0x100
  type u16 = x: int | 0 <= x < 0x1_0000
  type u32 = x: int | 0 <= x < 0x1_0000_0000

  const U32_RANGE := 0x1_0000_0000

  datatype Option<+T> = None | Some(value: T)

  /** `uint32` addition and subtraction wrap around. */
  function AddU32(a: u32, b: u32): u32 { (a + b) % U32_RANGE }

  function SubU32(a: u32, b: u32): u32 { (a - b) % U32_RANGE }

  /** `binary.BigEndian.Uint16` and `PutUint16`. */
  function U16(b: seq<u8>): u16
    requires |b| >= 2
  {
    (b[0] as int) * 0x100 + b[1]
  }

  function PutU16(n: u16): (b: seq<u8>)
    ensures |b| == 2 && U16(b) == n
  {
    [n / 0x100, n % 0x100]
  }

  function U32(b: seq<u8>): u32
    requires |b| >= 4
  {
    U16(b) as int * 0x1_0000 + U16(b[2..])
  }

  function PutU32(n: u32): (b: seq<u8>)
    ensures |b| == 4 && U32(b) == n
  {
    var hi, lo := PutU16(n / 0x1_0000), PutU16(n % 0x1_0000);
    assert (hi + lo)[2..] == lo;
    hi + lo
  }

  /** What is appended comes last, and leaves every slice before it alone. */
  lemma Append(p: seq<u8>, x: seq<u8>)
    ensures (p + x)[|p|..|p| + |x|] == x && (p + x)[..|p|] == p
    ensures forall i, j {:trigger (p + x)[i..j]} | 0 <= i <= j <= |p| :: (p + x)[i..j] == p[i..j]
  {
    forall i, j | 0 <= i <= j <= |p|
      ensures (p + x)[i..j] == p[i..j]
    {
      assert forall k | 0 <= k < j - i :: (p + x)[i..j][k] == p[i + k];
    }
  }

  lemma Assoc(p: seq<u8>, q: seq<u8>, r: seq<u8>)
    ensures p + q + r == p + (q + r)
  {
  }

  /** Cutting `k` bytes off the front of a sequence whose end has been replaced. */
  lemma CutFront(b: seq<u8>, k: nat, e: nat, t: seq<u8>)
    requires k <= e <= |b|
    ensures var p := b[..e] + t;
            |p| >= k && p[..k] == b[..k] && p[k..] == b[k..][..e - k] + t
  {
    assert b[..e][k..] == b[k..][..e - k];
    assert forall i | 0 <= i < k :: (b[..e] + t)[i] == b[i];
  }

  lemma SubSlice(b: seq<u8>, lo: nat, hi: nat, i: nat, j: nat)
    requires lo <= hi <= |b| && i <= j <= hi - lo
    ensures b[lo..hi][i..j] == b[lo + i..lo + j]
  {
    assert forall k | 0 <= k < j - i :: b[lo..hi][i..j][k] == b[lo..hi][i + k] == b[lo + i..lo + j][k];
  }

  lemma U16Slice(b: seq<u8>, i: nat)
    requires i + 2 <= |b|
    ensures U16(b[i..]) == U16(b[i..i + 2])
  {
  }

  lemma U32Slice(b: seq<u8>, i: nat)
    requires i + 4 <= |b|
    ensures U32(b[i..]) == U32(b[i..i + 4])
  {
    assert b[i..][2..][..2] == b[i..i + 4][2..];
  }

  lemma PutU32OfU32(b: seq<u8>)
    requires |b| == 4
    ensures PutU32(U32(b)) == b
  {
    assert U32(b) / 0x1_0000 == U16(b) && U32(b) % 0x1_0000 == U16(b[2..]);
  }

  function Zeros(n: nat): (z: seq<u8>)
    ensures |z| == n && forall i | 0 <= i < n :: z[i] == 0
  {
    seq(n, _ => 0)
  }

  /** A Go `net.IP`: 4 or 16 bytes when it is an address, empty when it is nil. */
  type IP = seq<u8>

  const NIL_IP: IP := []
  const V4_IN_V6_PREFIX: seq<u8> := [0, 0, 0, 0, 0, 0, 0, 0, 0, 0, 0xff, 0xff]

  /** `net.IPv4` builds the 16-byte form. */
  function IPv4(a: u8, b: u8, c: u8, d: u8): IP { V4_IN_V6_PREFIX + [a, b, c, d] }

  const IPV4_ZERO: IP := IPv4(0, 0, 0, 0)
  const IPV4_BCAST: IP := IPv4(255, 255, 255, 255)

  function To4(ip: IP): (v4: IP)
    ensures |v4| == 4 || v4 == NIL_IP
  {
    if |ip| == 4 then ip
    else if |ip| == 16 && ip[..12] == V4_IN_V6_PREFIX then ip[12..]
    else NIL_IP
  }

  predicate Equal(a: IP, b: IP) {
    if |a| == |b| then a == b
    else if |a| == 4 && |b| == 16 then b[..12] == V4_IN_V6_PREFIX && a == b[12..]
    else if |a| == 16 && |b| == 4 then a[..12] == V4_IN_V6_PREFIX && a[12..] == b
    else false
  }

  /** The one canonical representative of an address: its 4-byte form when it has one. */
  function Canonical(ip: IP): IP { if To4(ip) == NIL_IP then ip else To4(ip) }

  lemma EqualIffCanonical(a: IP, b: IP)
    ensures Equal(a, b) <==> Canonical(a) == Canonical(b)
  {
    if |a| == 16 && |b| == 16 && To4(a) != NIL_IP && To4(b) != NIL_IP {
      assert a == a[..12] + a[12..] && b == b[..12] + b[12..];
    }
  }

  /** The 32-bit number of an address that has a 4-byte form. */
  function AsU32(ip: IP): u32
    requires To4(ip) != NIL_IP
  {
    U32(To4(ip))
  }

  /** `Uip.ToV4`: the 16-byte address of a 32-bit number. */
  function ToV4(n: u32): IP {
    var b := PutU32(n);
    IPv4(b[0], b[1], b[2], b[3])
  }

  lemma ToV4IsRightInverse(n: u32)
    ensures To4(ToV4(n)) == PutU32(n) && AsU32(ToV4(n)) == n
  {
    assert ToV4(n) == V4_IN_V6_PREFIX + PutU32(n);
    assert ToV4(n)[..12] == V4_IN_V6_PREFIX && ToV4(n)[12..] == PutU32(n);
  }

  /** Comparing with `Equal` against a database address is comparing 32-bit numbers. */
  lemma EqualToV4(ip: IP, n: u32)
    ensures Equal(ip, ToV4(n)) <==> To4(ip) != NIL_IP && AsU32(ip) == n
  {
    ToV4IsRightInverse(n);
    EqualIffCanonical(ip, ToV4(n));
    if To4(ip) != NIL_IP {
      PutU32OfU32(To4(ip));
    }
  }

  /** The four bytes written for an address; what has no 4-byte form is written as zeros. */
  function Wire4(ip: IP): (w: seq<u8>)
    ensures |w| == 4
  {
    if To4(ip) == NIL_IP then [0, 0, 0, 0] else To4(ip)
  }

  /** The 16-byte form in which a decoder returns the address that `Wire4` writes. */
  function Normal(ip: IP): IP { V4_IN_V6_PREFIX + Wire4(ip) }

  lemma NormalIsEqual(ip: IP)
    ensures To4(Normal(ip)) == Wire4(ip)
    ensures To4(ip) != NIL_IP ==> Equal(Normal(ip), ip)
  {
    assert Normal(ip)[..12] == V4_IN_V6_PREFIX && Normal(ip)[12..] == Wire4(ip);
    EqualIffCanonical(Normal(ip), ip);
  }
}
