/** The deadlines of a bound client, two of which go through `float64` arithmetic. */
module Deadlines {
  import opened Bytes
  import opened Float64
  import opened LeaseTable
  import opened Network
  import opened Options

  /** A duration as it comes off the wire: whole seconds, in 32 bits. */
  predicate OnWire(d: Time) { 0 <= d < 0x1_0000_0000 * 1_000_000_000 && d % 1_000_000_000 == 0 }

  lemma ExactMultiples(a: nat)
    requires a < 0x20_0000_0000_0000
    ensures Float(512 * a) == 512 * a && Float(256 * a) == 256 * a
  {
    assert Pow2(9) == 512 && Pow2(8) == 256;
    FloatIsExact(512 * a, a, 9);
    FloatIsExact(256 * a, a, 8);
  }

  lemma WholeSeconds(d: Time) returns (n: u32)
    requires OnWire(d)
    ensures d == n * 1_000_000_000
  {
    n := d / 1_000_000_000;
  }

  /** A wire duration has at most 53 significant bits in front of nine zeros. */
  lemma SignificantBits(d: Time) returns (a: nat)
    requires OnWire(d)
    ensures a < 0x20_0000_0000_0000 && d == 512 * a
  {
    var n := WholeSeconds(d);
    a := (n as int) * 1_953_125;
  }

  /** A wire duration is exact as a `float64`, and so is its half. */
  lemma WireIsExact(d: Time)
    requires OnWire(d)
    ensures Float(d) == d && d % 512 == 0 && Float(d / 2) == d / 2
  {
    var a := SignificantBits(d);
    ExactMultiples(a);
  }

  lemma FloatError(e: nat)
    requires 448 * e < 0x20_0000_0000_0000 * 512
    ensures -256 <= Float(448 * e) - 448 * e <= 256
  {
    assert Pow2(9) == 512;
    UlpBound(448 * e, 9);
  }

  /** Seven eighths are not always exact, but off by no more than 256 nanoseconds. */
  lemma SevenEighths(d: Time)
    requires OnWire(d)
    ensures Float(d) * 7 % 8 == 0
    ensures -256 <= Float(Float(d) * 7 / 8) - d * 7 / 8 <= 256
  {
    var a := SignificantBits(d);
    ExactMultiples(a);
    FloatError(a);
  }

  datatype BoundDeadlines = BoundDeadlines(t1: Time, t2: Time, tx: Time)

  /** The server has sent usable renewal and rebinding times of its own. */
  predicate ServerTimes(lease: Time, renewal: Time, rebind: Time) { MINUTE < renewal < rebind < lease }

  /** The deadlines set on entering the bound state. */
  function DeadlinesFrom(now: Time, lease: Time, renewal: Time, rebind: Time): BoundDeadlines
    requires lease >= 0
  {
    if ServerTimes(lease, renewal, rebind) then BoundDeadlines(now + renewal, now + rebind, now + lease)
    else BoundDeadlines(now + Float(Float(lease) / 2), now + Float(Float(lease) * 7 / 8), now + lease)
  }

  /** A bound client renews, then rebinds, and then gives up, in this order, whatever the server has sent. */
  lemma DeadlinesAreOrdered(now: Time, lease: Time, renewal: Time, rebind: Time)
    requires OnWire(lease) && lease >= MINUTE
    ensures var b := DeadlinesFrom(now, lease, renewal, rebind);
            now < b.t1 < b.t2 < b.tx == now + lease
  {
    WireIsExact(lease);
    SevenEighths(lease);
  }

  const RESUME_TIME: Time := 5 * SECOND

  /**
   A client that is resumed no later than its rebinding time keeps its address for five more seconds. This
   goes past the end of the lease exactly if the server asked for a rebinding in the last five seconds, and
   then by four seconds at most.
   */
  lemma ResumeStaysClose(now: Time, lease: Time, renewal: Time, rebind: Time, resumed: Time)
    requires OnWire(lease) && OnWire(renewal) && OnWire(rebind) && lease >= MINUTE
    requires resumed <= DeadlinesFrom(now, lease, renewal, rebind).t2
    ensures var b := DeadlinesFrom(now, lease, renewal, rebind);
            && (b.t2 + RESUME_TIME > b.tx <==> ServerTimes(lease, renewal, rebind) && lease - rebind < RESUME_TIME)
            && (!ServerTimes(lease, renewal, rebind) ==> resumed + RESUME_TIME < b.tx)
            && resumed + RESUME_TIME <= b.tx + 4 * SECOND
  {
    WireIsExact(lease);
    SevenEighths(lease);
    if ServerTimes(lease, renewal, rebind) {
      assert rebind / SECOND < lease / SECOND;
    }
  }
}
