/** The client in time: rounds that follow each other, and end at their deadlines at the latest. */
module ClientTimes {
  import opened Bytes
  import opened ClientStates
  import opened Deadlines
  import opened LeaseTable

  datatype Timed = Timed(client: Client, now: Time)

  function Later(a: Time, b: Time): Time { if a < b then b else a }

  /** A round that waits does so until its deadline at most; one whose deadline is over ends at once. */
  ghost predicate Punctual(c: Client, r: Round)
    requires Sound(c)
  {
    && r.now <= r.end
    && match c.phase
       case Bound => r.end <= DeadlinesFrom(r.now, c.lastOpts.leaseDuration, c.lastOpts.renewalDuration, c.lastOpts.rebindDuration).t1
       case Renewing => r.end <= Later(r.now, c.deadlines.t2)
       case Rebinding => r.end <= Later(r.now, c.deadlines.tx)
       case _ => true
  }

  /** A round starts when the one before has ended; a resumption may come later. */
  ghost predicate Follows(hwaddr: seq<u8>, x: Timed, e: Event, y: Timed)
    requires Sound(x.client)
  {
    match e
    case Turn(r) => r.now == x.now && Punctual(x.client, r) && y == Timed(Step(hwaddr, x.client, r), r.end)
    case Resume(now) => x.now <= now && y == Timed(Resumed(x.client, now), now)
  }

  /** Sound, and in time for the next deadline. */
  ghost predicate OnTime(x: Timed) {
    && Sound(x.client)
    && (x.client.phase.Renewing? ==> x.now <= x.client.deadlines.t1)
    && (x.client.phase.Rebinding? ==> x.now <= x.client.deadlines.tx)
  }

  lemma StaysOnTime(hwaddr: seq<u8>, x: Timed, e: Event, y: Timed)
    requires OnTime(x) && Follows(hwaddr, x, e, y)
    ensures OnTime(y)
  {
    match e {
      case Turn(r) => StepKeepsSound(hwaddr, x.client, r);
      case Resume(now) => ResumedKeepsSound(x.client, now);
    }
  }

  /** The points of a life in time; `es[i]` leads from the `i`-th to the next. */
  ghost predicate Lived(hwaddr: seq<u8>, xs: seq<Timed>, es: seq<Event>) {
    && |xs| == |es| + 1
    && forall i | 0 <= i < |es| :: Sound(xs[i].client) && Follows(hwaddr, xs[i], es[i], xs[i + 1])
  }

  /** A client that is renewing or rebinding does so within its lease, at every point of its life. */
  lemma {:induction false} EveryLifeIsOnTime(hwaddr: seq<u8>, xs: seq<Timed>, es: seq<Event>, i: nat)
    requires Lived(hwaddr, xs, es) && xs[0].client.phase.PurgeInterface? && i < |xs|
    ensures OnTime(xs[i])
  {
    if i > 0 {
      EveryLifeIsOnTime(hwaddr, xs, es, i - 1);
      StaysOnTime(hwaddr, xs[i - 1], es[i - 1], xs[i]);
    }
  }

  /** It has left its address for a purge, or had it acknowledged again, in the round before. */
  ghost predicate Resolved(hwaddr: seq<u8>, x: Client, r: Round, y: Client) {
    if y.phase.ArpCheck? then Heard(hwaddr, r, Asked(x, r.xid)).Accepted? else y.phase.PurgeInterface?
  }

  /** The round of a client that is rebinding is its last before the end of its time. */
  lemma RebindingResolves(hwaddr: seq<u8>, x: Timed, r: Round, y: Timed)
    requires OnTime(x) && x.client.phase.Rebinding? && Follows(hwaddr, x, Turn(r), y)
    ensures y.now <= x.client.deadlines.tx && Resolved(hwaddr, x.client, r, y.client)
  {
  }

  /**
   A client that is bound, if it is not resumed in between, gives up its address or has it acknowledged again
   within three rounds, and before the end of its lease.
   */
  lemma BoundResolves(hwaddr: seq<u8>, xs: seq<Timed>, es: seq<Event>, i: nat) returns (j: nat)
    requires Lived(hwaddr, xs, es) && xs[0].client.phase.PurgeInterface?
    requires i + 3 <= |es| && es[i].Turn? && es[i + 1].Turn? && es[i + 2].Turn? && xs[i].client.phase.Bound?
    ensures i + 2 <= j <= i + 3 && es[j - 1].Turn?
    ensures xs[j].now <= xs[i].now + xs[i].client.lastOpts.leaseDuration
    ensures Resolved(hwaddr, xs[j - 1].client, es[j - 1].round, xs[j].client)
    ensures forall k | i < k < j :: xs[k].client.phase in {Renewing, Rebinding} && xs[k].client.iface == xs[i].client.iface
  {
    EveryLifeIsOnTime(hwaddr, xs, es, i);
    EveryLifeIsOnTime(hwaddr, xs, es, i + 1);
    EveryLifeIsOnTime(hwaddr, xs, es, i + 2);
    assert Follows(hwaddr, xs[i], es[i], xs[i + 1]);
    BoundIsOrdered(hwaddr, xs[i].client, es[i].round);
    assert Follows(hwaddr, xs[i + 1], es[i + 1], xs[i + 2]);
    if xs[i + 2].client.phase.Rebinding? {
      assert Follows(hwaddr, xs[i + 2], es[i + 2], xs[i + 3]);
      RebindingResolves(hwaddr, xs[i + 2], es[i + 2].round, xs[i + 3]);
      j := i + 3;
    } else {
      j := i + 2;
    }
  }

  /** One that is resumed while it has an address does so in the next round, and within five seconds. */
  lemma ResumedResolves(hwaddr: seq<u8>, xs: seq<Timed>, es: seq<Event>, i: nat)
    requires Lived(hwaddr, xs, es) && xs[0].client.phase.PurgeInterface?
    requires i + 2 <= |es| && es[i].Resume? && es[i + 1].Turn? && xs[i].client.phase in {Bound, Renewing, Rebinding}
    ensures xs[i + 2].now <= xs[i + 1].now + RESUME_TIME
    ensures Resolved(hwaddr, xs[i + 1].client, es[i + 1].round, xs[i + 2].client)
  {
    EveryLifeIsOnTime(hwaddr, xs, es, i + 1);
    assert Follows(hwaddr, xs[i], es[i], xs[i + 1]);
    assert Follows(hwaddr, xs[i + 1], es[i + 1], xs[i + 2]);
    RebindingResolves(hwaddr, xs[i + 1], es[i + 1].round, xs[i + 2]);
  }
}
