/** The hub's goroutines: publishers and the event loop, updating the hub's fields in place. */
module HubLoop {
  import opened HubSpec
  import opened HubRuns

  class Server {
    var subs: map<Handle, Sub>
    var table: map<Id, Handle>
    var registering: set<Handle>
    var leaving: multiset<Id>
    var inflight: set<Msg>
    var channel: seq<Msg>
    var totalBroadcasts: nat
    var seqNo: nat
    ghost var pings: nat
    ghost var dropped: nat
    ghost var issued: seq<Msg>
    ghost var sent: seq<Msg>
    ghost var joined: map<Handle, nat>

    /** The hub's state when the loop is in the given phase. */
    ghost function At(phase: Phase): Hub
      reads this
    {
      Hub(subs, table, registering, leaving, inflight, channel, phase,
          totalBroadcasts, pings, dropped, false, issued, sent, joined)
    }

    /** The fields always hold a state that the transition system reaches. */
    ghost predicate Valid()
      reads this
    {
      Reachable(At(Idle)) && seqNo == |issued|
    }

    constructor ()
      ensures Valid() && At(Idle) == INITIAL
    {
      subs, table, registering, leaving := map[], map[], {}, multiset{};
      inflight, channel, totalBroadcasts, seqNo := {}, [], 0, 0;
      pings, dropped, issued, sent, joined := 0, 0, [], [], map[];
      new;
      InitialReachable();
    }

    /** A publisher's call, when no other goroutine runs in between. */
    method Broadcast(topic: Topic)
      requires Valid()
      modifies this
      ensures Valid()
      ensures var m := Event(topic, old(seqNo) + 1);
              At(Idle) == Step(Step(old(At(Idle)), Issue(topic)), Enqueue(m))
    {
      PublishSteps(At(Idle), topic);
      PublishEffect(At(Idle), topic);
      seqNo := seqNo + 1;
      var m := Event(topic, seqNo);
      issued := issued + [m];
      if |channel| < BROADCAST_CAP {
        channel := channel + [m];
      } else {
        dropped := dropped + 1;
      }
    }

    method Register(h: Handle)
      requires Valid() && h in registering
      modifies this
      ensures Valid() && At(Idle) == Step(old(At(Idle)), LoopRegister(h))
    {
      RegisteringExists(At(Idle), h);
      StepReachable(At(Idle), LoopRegister(h));
      registering := registering - {h};
      table := table[subs[h].id := h];
      joined := joined[h := |sent|];
    }

    /** Close the queue of a connected subscriber; an unknown id is ignored. */
    method Unregister(id: Id)
      requires Valid() && id in leaving
      modifies this
      ensures Valid() && At(Idle) == Step(old(At(Idle)), LoopUnregister(id))
    {
      StepReachable(At(Idle), LoopUnregister(id));
      ghost var was := At(Idle);
      leaving := leaving - multiset{id};
      if id in table {
        var h := table[id];
        ConnectedIsOpen(was, id);
        assert !subs[h].closed;
        subs := subs[h := subs[h].(closed := true)];
        table := table - {id};
      }
    }

    /** Take one broadcast and offer it to every connected subscriber. */
    method FanOut() returns (ghost trace: seq<Action>)
      requires Valid() && channel != []
      modifies this
      ensures At(Idle) == Run(old(At(Idle)), trace) && Valid()
      ensures channel == old(channel)[1..] && totalBroadcasts == old(totalBroadcasts) + 1
      ensures AllServed(At(Idle), old(channel)[0])
    {
      ghost var was := At(Idle);
      var m := channel[0];
      RunOne(was, LoopTake);
      channel := channel[1..];
      totalBroadcasts := totalBroadcasts + 1;
      sent := sent + [m];
      assert At(Sending(m, table.Keys)) == Step(was, LoopTake);
      trace := SendToAll(m, was, [LoopTake]);
    }

    method SendHeartbeat() returns (ghost trace: seq<Action>)
      requires Valid()
      modifies this
      ensures At(Idle) == Run(old(At(Idle)), trace) && Valid()
      ensures channel == old(channel) && leaving == old(leaving) && seqNo == old(seqNo) + 1
    {
      ghost var was := At(Idle);
      seqNo := seqNo + 1;
      var m := Ping(seqNo);
      RunOne(was, LoopPing);
      issued, pings, sent := issued + [m], pings + 1, sent + [m];
      assert At(Sending(m, table.Keys)) == Step(was, LoopPing);
      trace := SendToAll(m, was, [LoopPing]);
    }

    /** Visit the connected subscribers in any order, sending without blocking. */
    method SendToAll(m: Msg, ghost start: Hub, ghost before: seq<Action>) returns (ghost trace: seq<Action>)
      requires Reachable(start) && seqNo == |issued|
      requires At(Sending(m, table.Keys)) == Run(start, before)
      modifies this`subs, this`leaving
      ensures At(Idle) == Run(start, trace) && Valid()
      ensures m.Ping? ==> leaving == old(leaving)
      ensures AllServed(At(Idle), m)
    {
      trace := before;
      var todo := table.Keys;
      while todo != {}
        invariant todo <= table.Keys
        invariant At(Sending(m, todo)) == Run(start, trace)
        invariant m.Ping? ==> leaving == old(leaving)
        decreases todo
      {
        var id :| id in todo;
        RunReachable(start, trace);
        RunSnoc(start, trace, Visit(id));
        SendTo(id, m, todo);
        trace := trace + [Visit(id)];
        todo := todo - {id};
      }
      FinishServes(start, trace);
      trace := trace + [Finish];
    }

    /** One iteration: skip, send, or give up on a full queue. */
    method SendTo(id: Id, m: Msg, ghost todo: set<Id>)
      requires Reachable(At(Sending(m, todo))) && id in todo && id in table
      modifies this`subs, this`leaving
      ensures At(Sending(m, todo - {id})) == Step(old(At(Sending(m, todo))), Visit(id))
      ensures m.Ping? ==> leaving == old(leaving)
    {
      ConnectedIsOpen(At(Sending(m, todo)), id);
      var sub := subs[table[id]];
      if Wants(sub, m) {
        assert !sub.closed;
        if HasRoom(sub) {
          subs := subs[table[id] := sub.(log := sub.log + [m])];
        } else if m.Event? {
          leaving := leaving + multiset{id};
        }
      }
    }
  }
}
