/** The TCP NAT tables as their source updates them. */
module TcpNat {
  import opened Octets
  import opened TcpNatSpec

  class Table {
    const timeout: nat
    var portIndex: UInt16
    var addrMap: map<Flow, UInt16>
    var portMap: map<UInt16, Session>
    /** The lookup between its two locked steps, if any. */
    ghost var pending: Pending

    ghost function State(): Nat
      reads this
    {
      Nat(portIndex, addrMap, portMap, pending)
    }

    constructor (timeout: nat)
      ensures this.timeout == timeout && State() == Init()
    {
      this.timeout := timeout;
      portIndex, addrMap, portMap, pending := 10000, map[], map[], Idle;
    }

    /** Drops every session that has been idle for longer than the timeout, from both maps. */
    method CheckTimeout(now: int)
      modifies this`addrMap, this`portMap
      ensures State() == Step(timeout, old(State()), Sweep(now))
    {
      hide Remaining, Removed;
      ghost var before, flows := portMap, addrMap;
      var ports := portMap.Keys;
      ghost var seen: set<UInt16> := {};
      NoneSeen(timeout, before, now);
      while ports != {}
        invariant ports + seen == before.Keys && ports !! seen
        invariant portMap == Remaining(timeout, before, seen, now)
        invariant addrMap == flows - Removed(timeout, before, seen, now)
        decreases |ports|
      {
        var natPort :| natPort in ports;
        ExamineOne(timeout, before, flows, seen, now, natPort);
        var session := portMap[natPort];
        if now - session.lastActive > timeout {
          addrMap := addrMap - {session.flow};
          portMap := portMap - {natPort};
        }
        ports := ports - {natPort};
        seen := seen + {natPort};
      }
      assert seen == before.Keys;
    }

    /** The session behind a port, its activity noted at most once a second. */
    method LookupInverse(port: UInt16, now: int) returns (session: Option<Session>)
      modifies this`portMap
      ensures State() == Step(timeout, old(State()), Inverse(port, now))
      ensures session.Some? <==> port in old(portMap)
      ensures session.Some? ==> session.value.flow == old(portMap)[port].flow
    {
      if port !in portMap {
        return None;
      }
      var found := portMap[port];
      if now - found.lastActive > SECOND {
        found := found.(lastActive := now);
        portMap := portMap[port := found];
      }
      session := Some(found);
    }

    /** First half of a lookup that misses: the flow entry and the port counter. */
    method ReservePort(flow: Flow) returns (nextPort: UInt16)
      requires Enabled(State(), Reserve(flow))
      modifies this`portIndex, this`addrMap, this`pending
      ensures State() == Step(timeout, old(State()), Reserve(flow))
      ensures pending == Reserved(flow, nextPort)
    {
      nextPort := portIndex;
      if nextPort == 0 {
        nextPort := 10000;
        portIndex := 10001;
      } else {
        portIndex := (portIndex + 1) % 0x1_0000;
      }
      addrMap := addrMap[flow := nextPort];
      pending := Reserved(flow, nextPort);
    }

    /** Second half: the port entry. */
    method CommitSession(flow: Flow, nextPort: UInt16, now: int)
      requires pending == Reserved(flow, nextPort)
      modifies this`portMap, this`pending
      ensures State() == Step(timeout, old(State()), Commit(now))
    {
      portMap := portMap[nextPort := Session(flow, now)];
      pending := Idle;
    }

    /** A lookup with nothing in between its halves. */
    method Lookup(flow: Flow, now: int) returns (port: UInt16)
      requires pending.Idle?
      modifies this`portIndex, this`addrMap, this`portMap, this`pending
      ensures flow in addrMap && addrMap[flow] == port
      ensures State() == if flow in old(addrMap) then Step(timeout, old(State()), Hit(flow))
                         else Step(timeout, Step(timeout, old(State()), Reserve(flow)), Commit(now))
    {
      if flow in addrMap {
        return addrMap[flow];
      }
      port := ReservePort(flow);
      CommitSession(flow, port, now);
    }
  }
}
