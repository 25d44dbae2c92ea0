/** The tun's UDP code, section by section between the points where others may come in. */
module UdpSessions {
  import opened Octets
  import opened UdpTable

  class Tunnel {
    var udpTable: map<Key, nat>
    var queues: seq<Queue>
    ghost var owners: seq<Owner>
    ghost var calls: map<Buffer, Call>
    ghost var released: multiset<Buffer>

    ghost function Now(): State
      reads this
    {
      State(udpTable, queues, owners, calls, released)
    }

    constructor ()
      ensures Now() == Init()
    {
      udpTable, queues := map[], [];
      owners, calls, released := [], map[], multiset{};
    }

    method Release(data: Buffer)
      modifies this`released
      ensures released == old(released) + multiset{data}
    {
      released := released + multiset{data};
    }

    /** The locked part of `NewPacket`: finds the source's queue or makes one with its owner. */
    method FindQueue(natKey: Key, data: Buffer) returns (queue: nat, loaded: bool)
      requires Owned(Now()) && data !in calls
      modifies this
      ensures Now() == Step(old(Now()), Arrive(natKey, data)) && Owned(Now())
      ensures calls[data] == Call(queue, loaded) && queue < |queues|
    {
      ghost var s := Now();
      assert Enabled(s, Arrive(natKey, data));
      StepOwned(s, Arrive(natKey, data));
      loaded := natKey in udpTable;
      if loaded {
        queue := udpTable[natKey];
      } else {
        queue := |queues|;
        queues := queues + [FRESH_QUEUE];
        udpTable := udpTable[natKey := queue];
        owners := owners + [Owner(queue, natKey, Starting)];
      }
      calls := calls[data := Call(queue, loaded)];
    }

    /**
     The rest of `NewPacket`: a later packet of a blocked application is dropped; any other
     goes into the queue, or is dropped if the queue is closed, either if both are possible.
     While the queue is open and full neither is, and the call waits.
     */
    method Hand(data: Buffer, queue: nat, loaded: bool, blocked: bool) returns (done: bool, ghost e: Event)
      requires Owned(Now()) && data in calls && calls[data] == Call(queue, loaded)
      modifies this`queues, this`calls, this`released
      ensures Owned(Now())
      ensures !done <==>
                !(loaded && blocked) && old(queues[queue].closes) == 0 && |old(queues[queue].packets)| >= 16
      ensures !done ==> Now() == old(Now())
      ensures done ==> Enabled(old(Now()), e) && Now() == Step(old(Now()), e)
      ensures done ==> e == Block(data) || e == Enqueue(data) || e == Refuse(data)
      ensures done ==> (e == Block(data) <==> loaded && blocked)
    {
      ghost var s := Now();
      done, e := true, Block(data);
      if loaded && blocked {
        Release(data);
      } else {
        var refuse: bool := *;
        if queues[queue].closes > 0 && (refuse || |queues[queue].packets| >= CAPACITY) {
          e := Refuse(data);
          Release(data);
        } else if |queues[queue].packets| < CAPACITY {
          e := Enqueue(data);
          var c := queues[queue];
          queues := queues[queue := c.(packets := c.packets + [data], accepted := c.accepted + [data])];
        } else {
          return false, e;
        }
      }
      calls := calls - {data};
      StepOwned(s, e);
    }

    /** What every exit path of an owner does: deletes its entry, then closes its queue. */
    method EndSession(natKey: Key, queue: nat, ghost o: nat)
      requires Owned(Now()) && o < |owners| && Live(owners[o]) && owners[o].key == natKey && owners[o].queue == queue
      modifies this`udpTable, this`queues, this`owners
      ensures Possible(old(Now()), [Delete(o), Close(o)]) && Now() == Run(old(Now()), [Delete(o), Close(o)])
      ensures Owned(Now()) && old(udpTable) == udpTable[natKey := queue] && natKey !in udpTable
      ensures queue < |queues| && old(queue < |queues| && queues[queue].closes == 0) && queues[queue].closes == 1
    {
      hide Run, Possible;
      ghost var s := Now();
      assert OwnerRight(s, o);
      udpTable := udpTable - {natKey};
      owners := owners[o := owners[o].(phase := Leaving)];
      ghost var s1 := Now();
      StepOwned(s, Delete(o));
      RunOne(s, Delete(o));
      queues := queues[queue := queues[queue].(closes := queues[queue].closes + 1)];
      owners := owners[o := owners[o].(phase := Gone)];
      StepOwned(s1, Close(o));
      RunOne(s1, Close(o));
      RunConcat(s, [Delete(o)], [Close(o)]);
      assert [Delete(o)] + [Close(o)] == [Delete(o), Close(o)];
    }

    /** Takes the next packet out of a queue's channel. */
    method Receive(queue: nat) returns (data: Buffer)
      requires Enabled(Now(), Take(queue))
      modifies this`queues
      ensures Now() == Step(old(Now()), Take(queue)) && queues[queue].hand == Some(data)
      ensures old(queues[queue].packets) == [data] + queues[queue].packets
    {
      var c := queues[queue];
      data := c.packets[0];
      queues := queues[queue := c.(packets := c.packets[1..], hand := Some(data))];
    }

    /** One turn of the writer's loop; false when the writer returns. */
    method WriterTurn(queue: nat) returns (goOn: bool, ghost events: seq<Event>)
      requires Owned(Now()) && Ready(Now(), queue) && queues[queue].writer.Active?
      requires queues[queue].closes > 0 || queues[queue].packets != []
      modifies this`queues, this`released
      ensures Possible(old(Now()), events) && Now() == Run(old(Now()), events) && Owned(Now())
      ensures events == [SeeClosed(queue)] || events == [Take(queue), WriteOut(queue, !goOn)]
      ensures goOn <==> queues[queue].writer.Active?
    {
      hide Run, Possible, Owned;
      ghost var s := Now();
      var close: bool := *;
      if queues[queue].closes > 0 && (close || queues[queue].packets == []) {
        events := [SeeClosed(queue)];
        queues := queues[queue := queues[queue].(writer := Draining)];
        goOn := false;
        StepOwned(s, SeeClosed(queue));
        RunOne(s, SeeClosed(queue));
      } else {
        goOn, events := TakeAndWrite(queue);
      }
    }

    /** Writes the next packet and releases it, whether or not the write failed. */
    method TakeAndWrite(queue: nat) returns (goOn: bool, ghost events: seq<Event>)
      requires Owned(Now()) && Ready(Now(), queue) && queues[queue].writer.Active? && queues[queue].packets != []
      modifies this`queues, this`released
      ensures events == [Take(queue), WriteOut(queue, !goOn)]
      ensures Possible(old(Now()), events) && Now() == Run(old(Now()), events) && Owned(Now())
      ensures queue < |queues| && (goOn <==> queues[queue].writer.Active?)
    {
      hide Run, Possible, Owned;
      ghost var s := Now();
      var data := Receive(queue);
      ghost var s1 := Now();
      StepOwned(s, Take(queue));
      RunOne(s, Take(queue));
      goOn := *;
      var c := queues[queue];
      queues := queues[queue := c.(hand := None, written := c.written + [data],
                                   writer := if goOn then Active else Stopped)];
      Release(data);
      StepOwned(s1, WriteOut(queue, !goOn));
      RunOne(s1, WriteOut(queue, !goOn));
      RunConcat(s, [Take(queue)], [WriteOut(queue, !goOn)]);
      events := [Take(queue)] + [WriteOut(queue, !goOn)];
    }

    /** After the close: releases what is in the channel, unwritten, before waiting for more. */
    method DrainPackets(queue: nat) returns (ghost events: seq<Event>)
      requires Owned(Now()) && Ready(Now(), queue) && queues[queue].writer.Draining?
      modifies this`queues, this`released
      ensures Possible(old(Now()), events) && Now() == Run(old(Now()), events) && Owned(Now())
      ensures Ready(Now(), queue) && queues[queue].packets == [] && queues[queue].writer.Draining?
      ensures released == old(released) + multiset(old(queues[queue].packets))
      ensures queues[queue].written == old(queues[queue].written)
    {
      hide Run, Possible, Owned;
      ghost var s, all := Now(), queues[queue].packets;
      events := [];
      Started(s);
      while |queues[queue].packets| > 0
        invariant Possible(s, events) && Now() == Run(s, events) && Owned(Now())
        invariant Ready(Now(), queue) && queues[queue].writer.Draining?
        invariant released + multiset(queues[queue].packets) == s.released + multiset(all)
        invariant queues[queue].written == s.queues[queue].written
        decreases |queues[queue].packets|
      {
        ghost var s1 := Now();
        var data := Receive(queue);
        ghost var s2 := Now();
        StepOwned(s1, Take(queue));
        RunOne(s1, Take(queue));
        RunConcat(s, events, [Take(queue)]);
        var c := queues[queue];
        queues := queues[queue := c.(hand := None, discarded := c.discarded + [data])];
        Release(data);
        StepOwned(s2, Discard(queue));
        RunOne(s2, Discard(queue));
        RunConcat(s, events + [Take(queue)], [Discard(queue)]);
        events := events + [Take(queue)] + [Discard(queue)];
      }
    }
  }

  lemma Started(s: State)
    ensures Possible(s, []) && Run(s, []) == s
  {
  }
}
