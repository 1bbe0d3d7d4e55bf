/** Byte buffers that the assemblers fill from the front. */
module Buffer {
  import opened Bytes

  /** The buffer starts with these bytes, and the rest is still zero. */
  predicate Written(b: seq<u8>, w: seq<u8>) {
    |w| <= |b| && b[..|w|] == w && forall i | |w| <= i < |b| :: b[i] == 0
  }

  method NewBuffer(n: nat) returns (b: array<u8>)
    ensures fresh(b) && b.Length == n && Written(b[..], [])
  {
    b := new u8[n](_ => 0);
  }

  /** `copy(b[i:], x)`, where everything before index `i` has been written. */
  method Fill(b: array<u8>, i: nat, ghost w: seq<u8>, x: seq<u8>) returns (ghost w': seq<u8>)
    requires i == |w| && i + |x| <= b.Length && Written(b[..], w)
    modifies b
    ensures w' == w + x && Written(b[..], w')
  {
    for k := 0 to |x|
      invariant Written(b[..], w + x[..k])
    {
      b[i + k] := x[k];
      assert x[..k + 1] == x[..k] + [x[k]];
    }
    w' := w + x;
    assert x[..|x|] == x;
  }

  /** Fields that are left out stay zero. */
  ghost method Skip(b: array<u8>, w: seq<u8>, n: nat) returns (w': seq<u8>)
    requires |w| + n <= b.Length && Written(b[..], w)
    ensures w' == w + Zeros(n) && Written(b[..], w')
  {
    w' := w + Zeros(n);
  }
}
