/** The Internet checksum over IPv4 headers and UDP segments. */
module Checksum {
  import opened Bytes

  /** The sum of the big-endian 16-bit words; an odd last byte is the upper half of a word. */
  function WordSum(b: seq<u8>): nat {
    if |b| == 0 then 0
    else if |b| == 1 then (b[0] as int) * 0x100
    else U16(b[..2]) + WordSum(b[2..])
  }

  /** The carry fold: `acc = (acc >> 16) + uint32(uint16(acc))` until the sum fits 16 bits. */
  function Fold(x: nat): (r: u16)
    decreases x
  {
    if x > 0xffff then Fold(x / 0x1_0000 + x % 0x1_0000) else x
  }

  function Complement(x: u16): u16 { 0xffff - x }

  /** What `ipv4csum` computes; its accumulator is a `uint32`. */
  function Csum(b: seq<u8>, acc: u32): u16 { Complement(Fold((acc + WordSum(b)) % U32_RANGE)) }

  method Ipv4Csum(b: seq<u8>, start: u32) returns (r: u16)
    ensures r == Csum(b, start)
  {
    var acc := AddWords(b, start);
    ghost var sum := acc;
    while acc > 0xffff
      invariant Fold(acc) == Fold(sum)
    {
      acc := acc / 0x1_0000 + acc % 0x1_0000;
    }
    r := Complement(acc);
  }

  /** The summing loop of `ipv4csum`. */
  method AddWords(b: seq<u8>, start: u32) returns (acc: u32)
    ensures acc == Wrap(start + WordSum(b))
  {
    acc := start;
    var length := |b| - 1;
    var i := 0;
    while i < length
      invariant 0 <= i <= |b| && i % 2 == 0
      invariant acc == Wrap(start + WordSum(b[..i]))
    {
      WordSumOneMore(b, i);
      acc := AddByte(acc, (b[i] as int) * 0x100, start + WordSum(b[..i]));
      acc := AddByte(acc, b[i + 1], start + WordSum(b[..i]) + (b[i] as int) * 0x100);
      i := i + 2;
    }
    if |b| % 2 == 1 {
      WordSumLastByte(b);
      acc := AddByte(acc, (b[length] as int) * 0x100, start + WordSum(b[..length]));
    } else {
      assert b[..i] == b;
    }
  }

  /** One `+=` of a `uint32`, where the accumulator stands for an unbounded sum. */
  function AddByte(acc: u32, x: u32, ghost sum: nat): (r: u32)
    requires acc == Wrap(sum)
    ensures r == Wrap(sum + x)
  {
    WrapOnce(sum, x);
    AddU32(acc, x)
  }

  function Wrap(sum: nat): u32 { sum % U32_RANGE }

  /** Wrapping around after each addition is wrapping around once. */
  lemma WrapOnce(a: nat, x: u32)
    ensures (a % U32_RANGE + x) % U32_RANGE == (a + x) % U32_RANGE
  {
  }

  lemma WordSumLastByte(b: seq<u8>)
    requires |b| % 2 == 1
    ensures WordSum(b) == WordSum(b[..|b| - 1]) + (b[|b| - 1] as int) * 0x100
  {
    assert b == b[..|b| - 1] + b[|b| - 1..];
    WordSumAppend(b[..|b| - 1], b[|b| - 1..]);
  }

  lemma {:induction false} WordSumAppend(a: seq<u8>, b: seq<u8>)
    requires |a| % 2 == 0
    ensures WordSum(a + b) == WordSum(a) + WordSum(b)
    decreases |a|
  {
    if |a| == 0 {
      assert a + b == b;
    } else {
      assert (a + b)[..2] == a[..2] && (a + b)[2..] == a[2..] + b;
      WordSumAppend(a[2..], b);
    }
  }

  lemma WordSumOneMore(b: seq<u8>, i: nat)
    requires i % 2 == 0 && i + 2 <= |b|
    ensures WordSum(b[..i + 2]) == WordSum(b[..i]) + (b[i] as int) * 0x100 + b[i + 1]
  {
    assert b[..i + 2] == b[..i] + b[i..i + 2];
    WordSumAppend(b[..i], b[i..i + 2]);
    assert b[i..i + 2][..2] == b[i..i + 2] && b[i..i + 2][2..] == [];
  }

  lemma {:induction false} WordSumBound(b: seq<u8>)
    ensures WordSum(b) <= 0xffff * ((|b| + 1) / 2)
    decreases |b|
  {
    if |b| >= 2 {
      WordSumBound(b[2..]);
    }
  }

  /** For every packet that IPv4 can carry, odd lengths included, the accumulator never overflows. */
  lemma NoOverflow(b: seq<u8>, acc: u32)
    requires |b| <= 0xffff && acc <= 0x10_0000
    ensures acc + WordSum(b) < U32_RANGE && (acc + WordSum(b)) % U32_RANGE == acc + WordSum(b)
    ensures Csum(b, acc) == Complement(Fold(acc + WordSum(b)))
  {
    WordSumBound(b);
  }

  /** The fold is arithmetic modulo 65535, and turns nothing but zero into zero. */
  lemma {:induction false} FoldValue(x: nat)
    ensures Fold(x) == if x == 0 then 0 else if x % 0xffff == 0 then 0xffff else x % 0xffff
    decreases x
  {
    if x > 0xffff {
      var y := x / 0x1_0000 + x % 0x1_0000;
      assert x - y == 0xffff * (x / 0x1_0000);
      FoldValue(y);
      assert y % 0xffff == x % 0xffff by {
        assert x == y + 0xffff * (x / 0x1_0000);
        ModShift(y, x / 0x1_0000);
      }
    }
  }

  lemma {:induction false} ModShift(y: nat, k: nat)
    ensures (y + 0xffff * k) % 0xffff == y % 0xffff
    decreases k
  {
    if k > 0 {
      ModShift(y, k - 1);
      assert y + 0xffff * k == (y + 0xffff * (k - 1)) + 0xffff;
    }
  }

  /** Adding the complement of a folded sum brings the total to all ones. */
  lemma ChecksumCompletes(sum: nat)
    ensures sum > 0 ==> Fold(sum + Complement(Fold(sum))) == 0xffff
  {
    var x := sum + Complement(Fold(sum));
    FoldValue(sum);
    FoldValue(x);
    if sum > 0 && sum % 0xffff != 0 {
      assert x == 0 + 0xffff * (sum / 0xffff + 1);
      ModShift(0, sum / 0xffff + 1);
    }
  }

  /** Replacing a zero word by a checksum adds it to the sum. */
  lemma WordSumPatch(b: seq<u8>, i: nat, c: u16)
    requires i % 2 == 0 && i + 2 <= |b| && b[i] == b[i + 1] == 0
    ensures WordSum(Patch(b, i, c)) == WordSum(b) + c
  {
    assert b == b[..i] + [0, 0] + b[i + 2..];
    WordSumSplit(b[..i], 0, 0, b[i + 2..]);
    WordSumSplit(b[..i], c / 0x100, c % 0x100, b[i + 2..]);
  }

  lemma WordSumSplit(a: seq<u8>, x: u8, y: u8, r: seq<u8>)
    requires |a| % 2 == 0
    ensures WordSum(a + [x, y] + r) == WordSum(a) + (x as int) * 0x100 + y + WordSum(r)
  {
    assert a + [x, y] + r == a + ([x, y] + r);
    WordSumAppend(a, [x, y] + r);
    assert ([x, y] + r)[2..] == r;
  }

  /** `binary.BigEndian.PutUint16(b[i:], c)`. */
  function Patch(b: seq<u8>, i: nat, c: u16): (r: seq<u8>)
    requires i + 2 <= |b|
    ensures |r| == |b|
  {
    b[..i] + PutU16(c) + b[i + 2..]
  }

  lemma PatchElsewhere(b: seq<u8>, k: nat, c: u16, i: nat)
    requires k + 2 <= |b| && i < |b| && i != k && i != k + 1
    ensures Patch(b, k, c)[i] == b[i]
  {
  }

  /** The pseudo header: protocol, source and destination address. */
  function PseudoHeader(b: seq<u8>): u32
    requires |b| >= 20
  {
    PseudoSum(b[9], b[12..20])
  }

  function PseudoSum(protocol: u8, a: seq<u8>): (s: u32)
    requires |a| == 8
    ensures protocol <= s <= 0x8_0000
  {
    protocol as int
    + ((a[0] as int) + (a[2] as int)) * 0x100 + ((a[1] as int) + (a[3] as int))
    + ((a[4] as int) + (a[6] as int)) * 0x100 + ((a[5] as int) + (a[7] as int))
  }

  /** What `udp4csum` starts from: the pseudo header and the length of the segment. */
  function SegmentStart(b: seq<u8>, hlen: nat): u32
    requires 20 <= hlen <= |b|
  {
    var length := Wrap(|b| - hlen);
    Wrap(PseudoHeader(b) + length % 0x1_0000 + length / 0x1_0000)
  }

  function HeaderLength(b: seq<u8>): nat
    requires |b| >= 1
  {
    b[0] as int % 16 * 4
  }

  /** The bytes after `setV4Checksum`, and whether it succeeded. */
  function Checksummed(b: seq<u8>): (r: (seq<u8>, bool))
    ensures |r.0| == |b|
  {
    if |b| < 1 || b[0] as int / 16 != 4 then (b, false)
    else
      var ihl := HeaderLength(b);
      if ihl < 20 || |b| < ihl then (b, false)
      else
        var h := Patch(b, 10, Csum(b[..ihl], 0));
        if h[9] == 0x11 && |h| >= ihl + 8 then (Patch(h, ihl + 6, Csum(h[ihl..], SegmentStart(h, ihl))), true)
        else (h, false)
  }

  method SetV4Checksum(b: array<u8>) returns (ok: bool)
    modifies b
    ensures (b[..], ok) == Checksummed(old(b[..]))
  {
    if b.Length < 1 || b[0] as int / 16 != 4 {
      return false;
    }
    var ihl := b[0] as int % 16 * 4;
    if ihl < 20 || b.Length < ihl {
      return false;
    }
    var c := Ipv4Csum(b[..ihl], 0);
    PutU16At(b, 10, c);
    assert old(b[..])[..ihl] == old(b[..ihl]);
    if b[9] == 0x11 && b.Length >= ihl + 8 {
      var c' := Ipv4Csum(b[ihl..], SegmentStart(b[..], ihl));
      PutU16At(b, ihl + 6, c');
      return true;
    }
    return false;
  }

  method PutU16At(b: array<u8>, i: nat, c: u16)
    requires i + 2 <= b.Length
    modifies b
    ensures b[..] == Patch(old(b[..]), i, c)
  {
    b[i] := c / 0x100;
    b[i + 1] := c % 0x100;
  }

  /** A receiver sums up the header. */
  predicate HeaderVerifies(b: seq<u8>, hlen: nat)
    requires hlen <= |b|
  {
    Fold(WordSum(b[..hlen])) == 0xffff
  }

  /** And the segment behind its pseudo header: source and destination, a zero, the protocol, and the length (RFC 768). */
  predicate SegmentVerifies(b: seq<u8>, hlen: nat)
    requires 20 <= hlen <= |b| < hlen + 0x1_0000
  {
    Fold(WordSum(b[12..20] + [0, b[9]] + PutU16(|b| - hlen) + b[hlen..])) == 0xffff
  }

  lemma WordSumSix(a: seq<u8>, x: u8, y: u8, z: u8, w: u8)
    requires |a| == 8
    ensures WordSum(a + [x, y] + [z, w]) == WordSum(a) + (x as int) * 0x100 + y + (z as int) * 0x100 + w
  {
    WordSumAppend(a + [x, y], [z, w]);
    WordSumAppend(a, [x, y]);
    assert [x, y][2..] == [] && [z, w][2..] == [];
  }

  lemma PseudoSumIs(protocol: u8, a: seq<u8>)
    requires |a| == 8
    ensures PseudoSum(protocol, a) == protocol as int + WordSum(a)
  {
    WordSumFour(a[..4]);
    WordSumFour(a[4..]);
    assert a == a[..4] + a[4..];
    WordSumAppend(a[..4], a[4..]);
  }

  lemma WordSumFour(a: seq<u8>)
    requires |a| == 4
    ensures WordSum(a) == ((a[0] as int) + (a[2] as int)) * 0x100 + ((a[1] as int) + (a[3] as int))
  {
    assert a == [] + [a[0], a[1]] + [a[2], a[3]] && [a[2], a[3]] == [] + [a[2], a[3]] + [];
    WordSumSplit([], a[0], a[1], [a[2], a[3]]);
    WordSumSplit([], a[2], a[3], []);
  }

  /** What the code starts from is the sum of the pseudo header. */
  lemma StartIs(b: seq<u8>, hlen: nat)
    requires 20 <= hlen <= |b| <= 0xffff
    ensures SegmentStart(b, hlen) == WordSum(b[12..20]) + b[9] + (|b| - hlen) <= 0x10_0000
  {
    PseudoSumIs(b[9], b[12..20]);
  }

  lemma PseudoHeaderSum(a: seq<u8>, protocol: u8, n: u16, s: seq<u8>)
    requires |a| == 8
    ensures WordSum(a + [0, protocol] + PutU16(n) + s) == WordSum(a) + protocol + n + WordSum(s)
  {
    WordSumSix(a, 0, protocol, n / 0x100, n % 0x100);
    assert PutU16(n) == [n / 0x100, n % 0x100];
    WordSumAppend(a + [0, protocol] + PutU16(n), s);
  }

  lemma StartIsPseudoHeader(b: seq<u8>, hlen: nat)
    requires 20 <= hlen <= |b| <= 0xffff
    ensures SegmentStart(b, hlen) + WordSum(b[hlen..]) == WordSum(b[12..20] + [0, b[9]] + PutU16(|b| - hlen) + b[hlen..])
    ensures SegmentStart(b, hlen) <= 0x10_0000
  {
    StartIs(b, hlen);
    PseudoHeaderSum(b[12..20], b[9], |b| - hlen, b[hlen..]);
  }

  /** A packet of this header length, with room for the two checksums, which are zero. */
  predicate Blank(b: seq<u8>, hlen: nat) {
    && hlen >= 20 && hlen + 8 <= |b| <= 0xffff
    && b[0] as int / 16 == 4 && b[0] as int % 16 * 4 == hlen && b[9] == 17
    && b[10] == b[11] == 0 && b[hlen + 6] == b[hlen + 7] == 0
  }

  /**
   `setV4Checksum` makes both sums come out when the two checksum fields are zero before it, for every header
   length, and touches no other bytes.
   */
  lemma ChecksumsVerify(b: seq<u8>, hlen: nat)
    requires Blank(b, hlen)
    ensures var (r, ok) := Checksummed(b);
            && ok && |r| == |b|
            && Fold(WordSum(r[..hlen])) == 0xffff
            && Fold(WordSum(r[12..20] + [0, r[9]] + PutU16(|r| - hlen) + r[hlen..])) == 0xffff
            && forall i | 0 <= i < |b| && i !in {10, 11, hlen + 6, hlen + 7} :: r[i] == b[i]
  {
    var c := Csum(b[..hlen], 0);
    var h := Patch(b, 10, c);
    HeaderChecksum(b, hlen);
    PatchedTwice(b, hlen, c, Csum(h[hlen..], SegmentStart(h, hlen)));
    SegmentChecksum(h, hlen);
  }

  lemma PatchedTwice(b: seq<u8>, hlen: nat, c: u16, e: u16)
    requires Blank(b, hlen)
    ensures var h := Patch(b, 10, c);
            && h[0] == b[0] && h[9] == b[9] && h[hlen + 6] == h[hlen + 7] == 0
            && Patch(h, hlen + 6, e)[..hlen] == h[..hlen]
            && forall i | 0 <= i < |b| && i !in {10, 11, hlen + 6, hlen + 7} :: Patch(h, hlen + 6, e)[i] == b[i]
  {
  }

  lemma SegmentChecksum(h: seq<u8>, hlen: nat)
    requires 20 <= hlen && hlen + 8 <= |h| <= 0xffff && h[9] == 17 && h[hlen + 6] == h[hlen + 7] == 0
    ensures SegmentVerifies(Patch(h, hlen + 6, Csum(h[hlen..], SegmentStart(h, hlen))), hlen)
  {
    var r := Patch(h, hlen + 6, Csum(h[hlen..], SegmentStart(h, hlen)));
    SamePseudoHeader(h, hlen, Csum(h[hlen..], SegmentStart(h, hlen)));
    StartIs(h, hlen);
    StartIs(r, hlen);
    StartIsPseudoHeader(r, hlen);
    SegmentCompletes(h[hlen..], SegmentStart(h, hlen));
  }

  lemma SamePseudoHeader(h: seq<u8>, hlen: nat, c: u16)
    requires 20 <= hlen && hlen + 8 <= |h|
    ensures var r := Patch(h, hlen + 6, c); r[hlen..] == Patch(h[hlen..], 6, c) && r[9] == h[9] && r[12..20] == h[12..20]
  {
  }

  lemma SegmentCompletes(s: seq<u8>, start: u32)
    requires 8 <= |s| <= 0xffff && s[6] == s[7] == 0 && 0 < start <= 0x10_0000
    ensures Fold(start + WordSum(Patch(s, 6, Csum(s, start)))) == 0xffff
  {
    WordSumPatch(s, 6, Csum(s, start));
    NoOverflow(s, start);
    ChecksumCompletes(start + WordSum(s));
  }

  lemma HeaderChecksum(b: seq<u8>, hlen: nat)
    requires 20 <= hlen <= |b| <= 0xffff && b[0] > 0 && b[10] == b[11] == 0
    ensures HeaderVerifies(Patch(b, 10, Csum(b[..hlen], 0)), hlen)
  {
    var c := Csum(b[..hlen], 0);
    assert Patch(b, 10, c)[..hlen] == Patch(b[..hlen], 10, c);
    WordSumPatch(b[..hlen], 10, c);
    NoOverflow(b[..hlen], 0);
    assert WordSum(b[..hlen]) >= U16(b[..hlen][..2]) > 0;
    ChecksumCompletes(WordSum(b[..hlen]));
  }

  /** What is not IPv4 is left alone; without room for a UDP header, or with another protocol, only the header gets its sum. */
  lemma OtherChecksums(b: seq<u8>)
    ensures var (r, ok) := Checksummed(b);
            var v4 := |b| >= 1 && b[0] as int / 16 == 4 && 20 <= b[0] as int % 16 * 4 <= |b|;
            && (ok <==> v4 && b[9] == 17 && b[0] as int % 16 * 4 + 8 <= |b|)
            && (!v4 ==> r == b)
            && (v4 && !ok ==> r[..10] == b[..10] && r[12..] == b[12..])
            && (v4 && !ok && |b| <= 0xffff && b[10] == b[11] == 0 ==> Fold(WordSum(r[..b[0] as int % 16 * 4])) == 0xffff)
  {
    if |b| >= 1 && b[0] as int / 16 == 4 && 20 <= b[0] as int % 16 * 4 <= |b| {
      var hlen := b[0] as int % 16 * 4;
      assert Patch(b, 10, Csum(b[..hlen], 0))[9] == b[9];
      if |b| <= 0xffff && b[10] == b[11] == 0 {
        HeaderChecksum(b, hlen);
      }
    }
  }
}
