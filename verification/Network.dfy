/** The address range of a network: `fromTo`, `toUip` and `Uip.Valid`, with the bit operations they rest on. */
module Network {
  import opened Bytes

  /** Bitwise `&` of two unsigned numbers, and the 32-bit complement `^`. */
  function And(a: nat, b: nat): nat {
    if a == 0 then 0 else (a % 2) * (b % 2) + 2 * And(a / 2, b / 2)
  }

  function Not32(a: u32): u32 { U32_RANGE - 1 - a }

  function Pow2(k: nat): (p: nat)
    ensures p > 0
  {
    if k == 0 then 1 else 2 * Pow2(k - 1)
  }

  lemma {:induction false} AndIsBelow(a: nat, b: nat)
    ensures And(a, b) <= a && And(a, b) <= b
  {
    if a != 0 {
      AndIsBelow(a / 2, b / 2);
      assert (a % 2) * (b % 2) <= a % 2 && (a % 2) * (b % 2) <= b % 2;
    }
  }

  lemma HalfMod(n: nat, q: nat)
    requires q > 0
    ensures n % (2 * q) == 2 * (n / 2 % q) + n % 2
  {
    var h := n / 2;
    assert h == q * (h / q) + h % q;
    assert n == (2 * q) * (h / q) + (2 * (h % q) + n % 2);
    ModUnique(n, 2 * q, h / q, 2 * (h % q) + n % 2);
  }

  lemma ModUnique(n: nat, d: nat, q: nat, r: nat)
    requires d > 0 && r < d && n == d * q + r
    ensures n % d == r
  {
    var e: int := n / d - q;
    assert n == d * (n / d) + n % d;
    assert d * e == r - n % d;
    MultipleIsFar(d, e);
  }

  lemma MultipleIsFar(d: int, e: int)
    requires d > 0
    ensures e >= 1 ==> d * e >= d
    ensures e <= -1 ==> d * e <= -d
  {
    if e >= 1 {
      assert d * e == d + d * (e - 1);
    } else if e <= -1 {
      assert d * e == -d - d * (-e - 1);
    }
  }

  lemma AndDouble(n: nat, m: nat, bit: nat)
    requires bit <= 1
    ensures And(n, 2 * m + bit) == n % 2 * bit + 2 * And(n / 2, m)
  {
    assert (2 * m + bit) / 2 == m && (2 * m + bit) % 2 == bit;
  }

  /** Without the lower `k` bits. */
  function Cleared(n: nat, k: nat): nat { if k == 0 then n else 2 * Cleared(n / 2, k - 1) }

  lemma {:induction false} ClearedValue(n: nat, k: nat)
    ensures Cleared(n, k) == n - n % Pow2(k)
  {
    if k > 0 {
      ClearedValue(n / 2, k - 1);
      HalfMod(n, Pow2(k - 1));
    }
  }

  lemma {:induction false} AndAllBits(n: nat, w: nat)
    requires n < Pow2(w)
    ensures And(n, Pow2(w) - 1) == n
    decreases w
  {
    if w > 0 {
      AndAllBits(n / 2, w - 1);
      AndDouble(n, Pow2(w - 1) - 1, 1);
    }
  }

  lemma {:induction false} AndClears(n: nat, w: nat, k: nat)
    requires k <= w && n < Pow2(w)
    ensures Pow2(k) <= Pow2(w) && And(n, Pow2(w) - Pow2(k)) == Cleared(n, k)
    decreases w
  {
    if k == 0 {
      AndAllBits(n, w);
    } else {
      AndClears(n / 2, w - 1, k - 1);
      AndDouble(n, Pow2(w - 1) - Pow2(k - 1), 0);
    }
  }

  /** Masking with the upper bits clears the lower `k` of the `w` bits of a number. */
  lemma AndUpperBits(n: nat, w: nat, k: nat)
    requires k <= w && n < Pow2(w)
    ensures Pow2(k) <= Pow2(w)
    ensures And(n, Pow2(w) - Pow2(k)) == n - n % Pow2(k)
  {
    AndClears(n, w, k);
    ClearedValue(n, k);
  }

  datatype Range = Range(from: u32, to: u32)

  /** `fromTo`: the network's lowest and highest usable address; one address when there are no host bits. */
  function FromTo(network: IP, netmask: seq<u8>): Option<Range> {
    if To4(network) == NIL_IP || |netmask| != 4 then None
    else
      var nm := U32(netmask);
      var start: u32 := (AndIsBelow(AsU32(network), nm); And(AsU32(network), nm));
      Some(Inner(start, AddU32(start, Not32(nm))))
  }

  /** Without the first and the last address, unless there is only one. */
  function Inner(start: u32, end: u32): Range {
    if start != end then Range(AddU32(start, 1), SubU32(end, 1)) else Range(start, end)
  }

  lemma InnerNeverWraps(start: u32, nm: u32)
    requires start <= nm
    ensures var r := Inner(start, AddU32(start, Not32(nm)));
            && start + Not32(nm) < U32_RANGE
            && (nm == U32_RANGE - 1 ==> r.from == r.to == start)
            && (nm != U32_RANGE - 1 ==> r.from == start + 1 && r.to == start + Not32(nm) - 1)
  {
    assert AddU32(start, Not32(nm)) == start + Not32(nm);
  }

  /** None of the `uint32` operations wraps around, whatever the mask. */
  lemma FromToNeverWraps(network: IP, netmask: seq<u8>)
    requires FromTo(network, netmask).Some?
    ensures var r, nm := FromTo(network, netmask).value, U32(netmask);
            var start := And(AsU32(network), nm);
            && start + Not32(nm) < U32_RANGE
            && (nm == U32_RANGE - 1 ==> r.from == r.to == start)
            && (nm != U32_RANGE - 1 ==> r.from == start + 1 && r.to == start + Not32(nm) - 1)
  {
    var nm := U32(netmask);
    AndIsBelow(AsU32(network), nm);
    InnerNeverWraps(And(AsU32(network), nm), nm);
  }

  /** The mask with `k` host bits. */
  function HostMask(k: nat): (nm: u32)
    requires k <= 32
  {
    Pow2Of32();
    AndUpperBits(0, 32, k);
    U32_RANGE - Pow2(k)
  }

  lemma Pow2Of32()
    ensures Pow2(32) == U32_RANGE
  {
    assert Pow2(8) == 0x100;
    assert Pow2(16) == 0x1_0000;
    assert Pow2(24) == 0x100_0000;
  }

  /** `toUip`: the number of an address in the managed range. */
  function ToUip(r: Range, ip: IP): Option<u32> {
    if To4(ip) == NIL_IP then None
    else if AsU32(ip) < r.from || AsU32(ip) > r.to then None
    else Some(AsU32(ip))
  }

  /**
   Which addresses a network with `k` host bits manages: all but the first and the last for two or more
   host bits, the single address for none, and no address at all for one.
   */
  lemma ManagedAddresses(network: IP, k: nat, x: u32)
    requires To4(network) != NIL_IP && k <= 32
    ensures var n, r := AsU32(network), FromTo(network, PutU32(HostMask(k)));
            var base := n - n % Pow2(k);
            && r.Some?
            && ToUip(r.value, ToV4(x)) == (if Manages(base, k, x) then Some(x) else None)
  {
    FromToNeverWraps(network, PutU32(HostMask(k)));
    HostBitsCleared(AsU32(network), k);
    MaskOfOne(k);
    RangeManages(FromTo(network, PutU32(HostMask(k))).value, And(AsU32(network), HostMask(k)), k, x);
  }

  lemma HostBitsCleared(n: u32, k: nat)
    requires k <= 32
    ensures And(n, HostMask(k)) == n - n % Pow2(k)
  {
    Pow2Of32();
    AndUpperBits(n, 32, k);
  }

  lemma RangeManages(r: Range, base: int, k: nat, x: u32)
    requires if k == 0 then r.from == r.to == base else r.from == base + 1 && r.to == base + Pow2(k) - 2
    ensures ToUip(r, ToV4(x)) == if Manages(base, k, x) then Some(x) else None
  {
    ToV4IsRightInverse(x);
  }

  lemma MaskOfOne(k: nat)
    requires k <= 32
    ensures HostMask(k) == U32_RANGE - 1 <==> k == 0
  {
    if k >= 1 {
      assert Pow2(k) == 2 * Pow2(k - 1);
    }
  }

  predicate Manages(base: int, k: nat, x: u32) {
    if k == 0 then x == base else base < x < base + Pow2(k) - 1
  }

  /** Every IPv6 address, and every IPv4 one outside the range, is refused; the others are recovered. */
  lemma ToUipIsExact(r: Range, ip: IP, n: u32)
    ensures ToUip(r, ip) == Some(n) <==> Equal(ip, ToV4(n)) && r.from <= n <= r.to
  {
    EqualToV4(ip, n);
  }

  /** `Uip.Valid`. */
  predicate ValidHost(n: u32) { n % 0x100 != 0 && n % 0x100 != 0xff }
}
