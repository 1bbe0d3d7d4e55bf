/** The client: its main loop and the function of each state, updating the client in place. */
module Dclient {
  import opened Bytes
  import opened ClientStates
  import opened Deadlines
  import opened Float64
  import opened DhcpMsg
  import opened LeaseTable
  import opened Options
  import opened Verify

  class Dclient {
    const hwaddr: seq<u8>
    var state: Phase
    var lastMsg: Message
    var lastOpts: DecodedOptions
    var boundDeadlines: BoundDeadlines
    ghost var iface: set<IP>
    ghost var offered: Option<IP>

    ghost function View(): Client
      reads this
    {
      Client(state, lastMsg, lastOpts, boundDeadlines, iface, offered)
    }

    ghost predicate Valid()
      reads this
    {
      Sound(View())
    }

    constructor (hwaddr: seq<u8>, ghost addresses: set<IP>)
      ensures Valid() && this.hwaddr == hwaddr && state == PurgeInterface && iface == addresses
    {
      this.hwaddr := hwaddr;
      state := PurgeInterface;
      lastMsg := Message(0, 0, 0, 0, 0, 0, NIL_IP, NIL_IP, NIL_IP, NIL_IP, [], Zeros(64), Zeros(128), 0, []);
      lastOpts := NOTHING;
      boundDeadlines := BoundDeadlines(0, 0, 0);
      iface := addresses;
      offered := None;
    }

    /** Rounds until the context is cancelled, which ends the input. */
    method Run(rounds: seq<Round>)
      requires Valid()
      modifies this
      ensures Valid() && View() == Life(hwaddr, old(View()), Turns(rounds))
    {
      for i := 0 to |rounds|
        invariant Valid() && View() == Life(hwaddr, old(View()), Turns(rounds[..i]))
      {
        TurnsOneMore(rounds, i);
        RunState(rounds[i]);
      }
      assert rounds[..|rounds|] == rounds;
    }

    method RunState(r: Round)
      requires Valid()
      modifies this
      ensures Valid() && View() == Step(hwaddr, old(View()), r)
    {
      StepKeepsSound(hwaddr, View(), r);
      if state == PurgeInterface {
        RunStatePurgeInterface(Discovering);
      } else if state == Discovering {
        RunStateDiscovering(r, Selecting);
      } else if state == Selecting {
        RunStateSelecting(r, ArpCheck, Discovering);
      } else if state == ArpCheck {
        RunStateArpCheck(r, Ifconfig);
      } else if state == Ifconfig {
        RunStateIfconfig(r, Bound);
      } else if state == Bound {
        RunStateBound(r, Renewing);
      } else if state == Renewing {
        RunStateRenewing(r, ArpCheck, Rebinding);
      } else {
        RunStateRebinding(r, ArpCheck, PurgeInterface);
      }
    }

    method RunStatePurgeInterface(nextState: Phase)
      modifies this
      ensures View() == old(View()).(phase := nextState, iface := {})
    {
      iface := {};
      state := nextState;
    }

    method AdvanceState(r: Round, q: Question) returns (a: Reply)
      ensures a == Heard(hwaddr, r, q)
    {
      a := CatchReply(r.packets, b => Examined(q, hwaddr, b));
    }

    method RunStateDiscovering(r: Round, nextState: Phase)
      modifies this
      ensures var a := Heard(hwaddr, r, Offers(r.xid));
              View() == if a.Accepted? then Take(old(View()), nextState, a).(offered := Some(a.m.yourIP))
                        else old(View()).(offered := None)
    {
      offered := None;
      var a := AdvanceState(r, Offers(r.xid));
      if a.Accepted? {
        lastMsg, lastOpts, state := a.m, a.opt, nextState;
        offered := Some(a.m.yourIP);
      }
    }

    method RunStateSelecting(r: Round, nextState: Phase, failState: Phase)
      modifies this
      ensures var a := Heard(hwaddr, r, Acks(old(lastMsg), old(lastOpts), r.xid, true));
              View() == if a.Accepted? then Take(old(View()), nextState, a) else old(View()).(phase := failState)
    {
      var a := AdvanceState(r, Acks(lastMsg, lastOpts, r.xid, true));
      if a.Accepted? {
        lastMsg, lastOpts, state := a.m, a.opt, nextState;
      } else {
        state := failState;
      }
    }

    method RunStateBound(r: Round, nextState: Phase)
      requires Valid() && state == Bound
      modifies this
      ensures View() == old(View()).(phase := nextState,
                deadlines := DeadlinesFrom(r.now, old(lastOpts).leaseDuration, old(lastOpts).renewalDuration, old(lastOpts).rebindDuration))
    {
      var now := r.now;
      WireIsExact(lastOpts.leaseDuration);
      SevenEighths(lastOpts.leaseDuration);
      boundDeadlines := BoundDeadlines(
        now + Float(Float(lastOpts.leaseDuration) / 2),
        now + Float(Float(lastOpts.leaseDuration) * 7 / 8),
        now + lastOpts.leaseDuration);
      if lastOpts.renewalDuration > MINUTE &&
         lastOpts.rebindDuration > lastOpts.renewalDuration &&
         lastOpts.rebindDuration < lastOpts.leaseDuration {
        boundDeadlines := boundDeadlines.(t1 := now + lastOpts.renewalDuration, t2 := now + lastOpts.rebindDuration);
      }
      state := nextState;
    }

    method RunStateRenewing(r: Round, nextState: Phase, failState: Phase)
      modifies this
      ensures var a := Heard(hwaddr, r, Acks(old(lastMsg), old(lastOpts), r.xid, true));
              View() == match a
                        case Accepted(_, _) => Take(old(View()), nextState, a)
                        case Nack => old(View()).(phase := PurgeInterface)
                        case NoReply => old(View()).(phase := failState)
    {
      var a := AdvanceState(r, Acks(lastMsg, lastOpts, r.xid, true));
      if a.Accepted? {
        lastMsg, lastOpts, state := a.m, a.opt, nextState;
      } else if a.Nack? {
        state := PurgeInterface;
      } else {
        state := failState;
      }
    }

    method RunStateRebinding(r: Round, nextState: Phase, failState: Phase)
      modifies this
      ensures var a := Heard(hwaddr, r, Acks(old(lastMsg), old(lastOpts), r.xid, false));
              View() == match a
                        case Accepted(_, _) => Take(old(View()), nextState, a)
                        case Nack => old(View()).(phase := PurgeInterface)
                        case NoReply => old(View()).(phase := failState)
    {
      var a := AdvanceState(r, Acks(lastMsg, lastOpts, r.xid, false));
      if a.Accepted? {
        lastMsg, lastOpts, state := a.m, a.opt, nextState;
      } else if a.Nack? {
        state := PurgeInterface;
      } else {
        state := failState;
      }
    }

    method RunStateArpCheck(r: Round, nextState: Phase)
      modifies this
      ensures View() == if r.arp.Some? && r.arp.value != hwaddr then ClientStates.PanicReset(old(View()))
                        else old(View()).(phase := nextState)
    {
      if r.arp.Some? && r.arp.value != hwaddr {
        PanicReset();
      } else {
        state := nextState;
      }
    }

    /** A configuration that fails may have set the address already; the reset takes it away again. */
    method RunStateIfconfig(r: Round, nextState: Phase)
      requires Valid() && state == Ifconfig
      modifies this
      ensures View() == if r.configured then old(View()).(phase := nextState, iface := old(iface) + {Netconfig(old(View())).ip})
                        else ClientStates.PanicReset(old(View()))
    {
      var nc := BuildNetconfig();
      if r.configured || r.addressSet {
        iface := iface + {nc.ip};
      }
      if !r.configured {
        PanicReset();
      } else {
        state := nextState;
      }
    }

    method BuildNetconfig() returns (nc: Config)
      requires Valid() && state == Ifconfig
      ensures nc == Netconfig(View())
    {
      var netmask := DefaultMask(lastMsg.yourIP);
      if ContiguousMask(lastOpts.subnetMask) {
        netmask := lastOpts.subnetMask;
      }
      nc := Config(lastMsg.yourIP, lastOpts.routers[0], lastOpts.interfaceMTU, netmask, lastOpts.dns, lastOpts.domainName,
                   lastOpts.leaseDuration);
    }

    method PanicReset()
      modifies this
      ensures View() == ClientStates.PanicReset(old(View()))
    {
      iface := {};
      state := PurgeInterface;
    }

    method ResumeClient(now: Time)
      requires Valid()
      modifies this
      ensures Valid() && View() == Resumed(old(View()), now)
    {
      if state == Bound || state == Renewing || state == Rebinding {
        var sd := now + 5 * SECOND;
        boundDeadlines := BoundDeadlines(sd, sd, sd);
        state := Rebinding;
      } else {
        state := PurgeInterface;
      }
      ResumedKeepsSound(old(View()), now);
    }
  }

  function Turns(rounds: seq<Round>): (events: seq<Event>)
    ensures |events| == |rounds| && forall i | 0 <= i < |rounds| :: events[i] == Turn(rounds[i])
  {
    seq(|rounds|, i requires 0 <= i < |rounds| => Turn(rounds[i]))
  }

  lemma TurnsOneMore(rounds: seq<Round>, i: nat)
    requires i < |rounds|
    ensures Turns(rounds[..i + 1])[..i] == Turns(rounds[..i]) && Turns(rounds[..i + 1])[i] == Turn(rounds[i])
  {
  }
}
