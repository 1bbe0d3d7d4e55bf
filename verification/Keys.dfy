/** The strings that `Clients` uses as map keys: `Uip.String` and `Duid.String` share one key space. */
module Keys {
  import opened Bytes

  type Duid = seq<u8>

  const HEX_DIGITS := "0123456789abcdef"

  function HexDigit(n: int): (c: char)
    requires 0 <= n < 16
    ensures '0' <= c <= '9' || 'a' <= c <= 'f'
  {
    HEX_DIGITS[n]
  }

  lemma HexDigitInjective(a: int, b: int)
    requires 0 <= a < 16 && 0 <= b < 16 && HexDigit(a) == HexDigit(b)
    ensures a == b
  {
    assert forall i, j | 0 <= i < j < 16 :: HEX_DIGITS[i] != HEX_DIGITS[j];
  }

  /** Format verb `%x`: lower-case hexadecimal without leading zeros. */
  function Hex(n: nat): (s: string)
    ensures s != ""
  {
    if n < 16 then [HexDigit(n)] else Hex(n / 16) + [HexDigit(n % 16)]
  }

  /** The last digit, and the digits before it. */
  lemma HexEnd(n: nat)
    ensures var s := Hex(n);
            s[|s| - 1] == HexDigit(n % 16) && (n < 16 <==> |s| == 1) && (n >= 16 ==> s[..|s| - 1] == Hex(n / 16))
  {
  }

  lemma {:induction false} HexInjective(a: nat, b: nat)
    requires Hex(a) == Hex(b)
    ensures a == b
    decreases a
  {
    HexEnd(a);
    HexEnd(b);
    HexDigitInjective(a % 16, b % 16);
    if a >= 16 {
      HexInjective(a / 16, b / 16);
    }
  }

  /** `Uip.String`. */
  function UipString(ip: u32): string { "uip(" + Hex(ip) + ")" }

  function HexByte(b: u8): string { [HexDigit(b / 16), HexDigit(b % 16)] }

  /** The bytes in `%02x`, joined by dashes. */
  function DashedHex(d: Duid): string
  {
    if d == [] then ""
    else if |d| == 1 then HexByte(d[0])
    else DashedHex(d[..|d| - 1]) + "-" + HexByte(d[|d| - 1])
  }

  function DuidString(d: Duid): string {
    if d == [] then "<duid:nil>" else "<duid:" + DashedHex(d) + ">"
  }

  /** `Duid.String` as written: one loop appending to a buffer. */
  method FormatDuid(d: Duid) returns (s: string)
    ensures s == DuidString(d)
  {
    if |d| == 0 {
      return "<duid:nil>";
    }
    var buf := "";
    for i := 0 to |d|
      invariant buf == DashedHex(d[..i])
    {
      if i > 0 {
        buf := buf + "-";
      }
      buf := buf + HexByte(d[i]);
      assert d[..i + 1][..i] == d[..i];
    }
    assert d[..|d|] == d;
    s := "<duid:" + buf + ">";
  }

  lemma {:induction false} DashedHexLength(d: Duid)
    ensures |DashedHex(d)| == if d == [] then 0 else 3 * |d| - 1
    ensures d != [] ==> DashedHex(d)[0] == HexDigit(d[0] / 16)
  {
    if |d| > 1 {
      DashedHexLength(d[..|d| - 1]);
    }
  }

  /** The last two characters are the last byte; what precedes them, without the dash, is the rest. */
  lemma DashedHexEnd(d: Duid)
    requires d != []
    ensures |DashedHex(d)| == 3 * |d| - 1
    ensures DashedHex(d)[3 * |d| - 3..] == HexByte(d[|d| - 1])
    ensures |d| > 1 ==> DashedHex(d)[..3 * |d| - 4] == DashedHex(d[..|d| - 1])
  {
    DashedHexLength(d);
    DashedHexLength(d[..|d| - 1]);
  }

  lemma HexByteInjective(a: u8, b: u8)
    requires HexByte(a) == HexByte(b)
    ensures a == b
  {
    assert HexByte(a)[0] == HexByte(b)[0] && HexByte(a)[1] == HexByte(b)[1];
    HexDigitInjective(a / 16, b / 16);
    HexDigitInjective(a % 16, b % 16);
  }

  lemma {:induction false} DashedHexInjective(a: Duid, b: Duid)
    requires DashedHex(a) == DashedHex(b)
    ensures a == b
    decreases |a|
  {
    DashedHexLength(a);
    DashedHexLength(b);
    if a != [] {
      DashedHexEnd(a);
      DashedHexEnd(b);
      HexByteInjective(a[|a| - 1], b[|b| - 1]);
      if |a| > 1 {
        DashedHexInjective(a[..|a| - 1], b[..|b| - 1]);
      }
      assert a == a[..|a| - 1] + [a[|a| - 1]] && b == b[..|b| - 1] + [b[|b| - 1]];
    }
  }

  lemma UipStringInjective(a: u32, b: u32)
    requires UipString(a) == UipString(b)
    ensures a == b
  {
    var s, t := UipString(a), UipString(b);
    assert s[4..|s| - 1] == Hex(a) && t[4..|t| - 1] == Hex(b);
    HexInjective(a, b);
  }

  /** The sentinel of the empty DUID collides with no other DUID: `n` is not a hexadecimal digit. */
  lemma DuidStringInjective(a: Duid, b: Duid)
    requires DuidString(a) == DuidString(b)
    ensures a == b
  {
    var s, t := DuidString(a), DuidString(b);
    DashedHexLength(a);
    DashedHexLength(b);
    assert s[6] == (if a == [] then 'n' else DashedHex(a)[0]);
    assert t[6] == (if b == [] then 'n' else DashedHex(b)[0]);
    if a != [] && b != [] {
      assert s[6..|s| - 1] == DashedHex(a) && t[6..|t| - 1] == DashedHex(b);
      DashedHexInjective(a, b);
    }
  }

  lemma UipIsNotDuid(a: u32, d: Duid)
    ensures UipString(a) != DuidString(d)
  {
    assert UipString(a)[0] == 'u' && DuidString(d)[0] == '<';
  }

  /** The key space is collision-free: keys of addresses and of DUIDs are unique and never meet. */
  lemma KeysNeverCollide()
    ensures forall a: u32, b: u32 :: UipString(a) == UipString(b) ==> a == b
    ensures forall a: Duid, b: Duid :: DuidString(a) == DuidString(b) ==> a == b
    ensures forall a: u32, b: Duid :: UipString(a) != DuidString(b)
  {
    forall a: u32, b: u32 | UipString(a) == UipString(b)
      ensures a == b
    {
      UipStringInjective(a, b);
    }
    forall a: Duid, b: Duid | DuidString(a) == DuidString(b)
      ensures a == b
    {
      DuidStringInjective(a, b);
    }
    forall a: u32, b: Duid
      ensures UipString(a) != DuidString(b)
    {
      UipIsNotDuid(a, b);
    }
  }

  /** `net.HardwareAddr.String`: the bytes in `%02x`, joined by colons. */
  function HwString(hw: seq<u8>): (s: string)
    ensures |s| == (if hw == [] then 0 else 3 * |hw| - 1) && (hw != [] ==> s[0] == HexDigit(hw[0] / 16))
  {
    if hw == [] then ""
    else if |hw| == 1 then HexByte(hw[0])
    else HwString(hw[..|hw| - 1]) + ":" + HexByte(hw[|hw| - 1])
  }

  /** A hardware address is never spelled like a DUID. */
  lemma HwStringIsNoDuid(hw: seq<u8>, d: Duid)
    ensures HwString(hw) != DuidString(d)
    ensures DuidString(d)[..1] == "<" && (hw != [] ==> HwString(hw)[..1] != "<")
  {
    assert DuidString(d)[0] == '<';
  }
}
