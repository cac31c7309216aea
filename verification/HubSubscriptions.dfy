/**
 Who receives what, over whole interleavings and in the client's own terms: the topics it named
 when it connected, and the moment it was registered.
 */
module HubSubscriptions {
  import opened HubSpec
  import opened HubRuns
  import opened HubDelivery

  /** The client asked for the topic: by name, through "all", or by naming none. */
  predicate AskedFor(names: set<string>, topic: string) {
    names == {} || "all" in names || topic in names
  }

  /** The events among the messages that the client asked for, in order. */
  function Asked(names: set<string>, ms: seq<Msg>): seq<Msg> {
    if ms == [] then []
    else
      var n := |ms| - 1;
      Asked(names, ms[..n]) + if ms[n].Event? && AskedFor(names, ms[n].topic) then [ms[n]] else []
  }

  // ----- runs in parts -----

  lemma {:induction false} RunConcat(s: Hub, first: seq<Action>, second: seq<Action>)
    ensures Run(s, first + second) == Run(Run(s, first), second)
  {
    if second == [] {
      assert first + second == first;
    } else {
      var n := |second| - 1;
      assert (first + second)[..|first + second| - 1] == first + second[..n];
      RunConcat(s, first, second[..n]);
    }
  }

  // ----- what a client keeps -----

  /** Clients keep their id and topics, and what was sent only grows. */
  ghost predicate ClientsKept(s: Hub, t: Hub) {
    && s.sent <= t.sent
    && forall h :: h in s.subs ==>
         h in t.subs && t.subs[h].id == s.subs[h].id && t.subs[h].topics == s.subs[h].topics
  }

  lemma VisitKeepsClients(s: Hub, id: Id)
    requires Enabled(s, Visit(id))
    ensures ClientsKept(s, Offer(s, id))
  {
    VisitKeepsFields(s, id);
  }

  lemma DisconnectKeepsClients(s: Hub, id: Id)
    ensures ClientsKept(s, Disconnect(s, id))
  {
  }

  lemma OthersKeepClients(s: Hub, a: Action)
    requires Enabled(s, a) && !a.Visit? && !a.LoopUnregister? && !a.Connect? && !a.Write?
    ensures ClientsKept(s, Apply(s, a))
  {
    assert Apply(s, a).subs == s.subs;
  }

  lemma StepKeepsClients(s: Hub, a: Action)
    ensures ClientsKept(s, Step(s, a))
  {
    if Enabled(s, a) {
      if a.Visit? {
        VisitKeepsClients(s, a.id);
      } else if a.LoopUnregister? {
        DisconnectKeepsClients(s, a.id);
      } else if a.Connect? || a.Write? {
        assert Apply(s, a).sent == s.sent;
      } else {
        OthersKeepClients(s, a);
      }
    }
  }

  lemma {:induction false} RunKeepsClients(s: Hub, trace: seq<Action>)
    ensures ClientsKept(s, Run(s, trace))
  {
    if trace != [] {
      var n := |trace| - 1;
      RunKeepsClients(s, trace[..n]);
      StepKeepsClients(Run(s, trace[..n]), trace[n]);
    }
  }

  /** The client was registered: it left the register queue for good. */
  ghost predicate Registered(s: Hub, h: Handle, at: nat) {
    h in s.subs && h !in s.registering && h in s.joined && s.joined[h] == at
  }

  lemma StepKeepsRegistered(s: Hub, a: Action, h: Handle, at: nat)
    requires Registered(s, h, at)
    ensures Registered(Step(s, a), h, at)
  {
  }

  lemma {:induction false} RunKeepsRegistered(s: Hub, trace: seq<Action>, h: Handle, at: nat)
    requires Registered(s, h, at)
    ensures Registered(Run(s, trace), h, at)
  {
    if trace != [] {
      var n := |trace| - 1;
      RunKeepsRegistered(s, trace[..n], h, at);
      StepKeepsRegistered(Run(s, trace[..n]), trace[n], h, at);
    }
  }

  // ----- a client's whole life -----

  /** The hub after a client connects at some point and is registered at a later one. */
  function Connected(before: seq<Action>, h: Handle, id: Id, names: set<Topic>, after: seq<Action>): Hub {
    Run(Step(Run(INITIAL, before), Connect(h, id, names)), after)
  }

  lemma {:induction false} ConnectedReachable(before: seq<Action>, h: Handle, id: Id, names: set<Topic>, after: seq<Action>)
    ensures Reachable(Connected(before, h, id, names, after))
  {
    assert Reachable(Run(INITIAL, before));
    StepReachable(Run(INITIAL, before), Connect(h, id, names));
    RunReachable(Step(Run(INITIAL, before), Connect(h, id, names)), after);
  }

  lemma {:induction false} ConnectedTerms(before: seq<Action>, h: Handle, id: Id, names: set<Topic>, after: seq<Action>)
    requires h !in Run(INITIAL, before).subs
    ensures var s := Connected(before, h, id, names, after);
            h in s.subs && s.subs[h].id == id && forall t :: Matches(s.subs[h], t) <==> AskedFor(names, t)
  {
    RunKeepsClients(Step(Run(INITIAL, before), Connect(h, id, names)), after);
  }

  /**
   For every interleaving: a client that connected with some topic names has only ever been sent
   events on topics it asked for.
   */
  lemma {:induction false} OnlyAskedFor(before: seq<Action>, h: Handle, id: Id, names: set<Topic>,
                                        after: seq<Action>, k: nat)
    requires h !in Run(INITIAL, before).subs
    requires h in Connected(before, h, id, names, after).subs
    requires k < |Connected(before, h, id, names, after).subs[h].log|
    ensures var m := Connected(before, h, id, names, after).subs[h].log[k];
            m.Event? ==> names == {} || "all" in names || m.topic in names
  {
    ConnectedReachable(before, h, id, names, after);
    ConnectedTerms(before, h, id, names, after);
    DeliveredAtMostOnce(Connected(before, h, id, names, after), h);
  }

  lemma {:induction false} MatchingIsAsked(sub: Sub, names: set<Topic>, ms: seq<Msg>)
    requires forall t :: Matches(sub, t) <==> AskedFor(names, t)
    ensures Matching(sub, ms) == Asked(names, ms)
  {
    if ms != [] {
      MatchingIsAsked(sub, names, ms[..|ms| - 1]);
    }
  }

  /** The state in which the loop registers the client, and the one reached from there. */
  lemma {:induction false} RegisteredFrom(s: Hub, h: Handle, after: seq<Action>)
    requires Enabled(s, LoopRegister(h))
    ensures Registered(Run(Step(s, LoopRegister(h)), after), h, |s.sent|)
  {
    RunKeepsRegistered(Step(s, LoopRegister(h)), after, h, |s.sent|);
  }

  /**
   For every interleaving in which a client connects, is registered, and at the end is connected,
   not leaving, and the loop idle: the events it was sent are exactly those it asked for among the
   messages dispatched since it was registered, in the order of their dispatch.
   */
  lemma {:induction false} ExactlyAskedFor(before: seq<Action>, h: Handle, id: Id, names: set<Topic>,
                                           waiting: seq<Action>, after: seq<Action>)
    requires h !in Run(INITIAL, before).subs
    requires Enabled(Connected(before, h, id, names, waiting), LoopRegister(h))
    requires var s := Connected(before, h, id, names, waiting + [LoopRegister(h)] + after);
             s.phase == Idle && id in s.table && s.table[id] == h && id !in s.leaving
    ensures var since := |Connected(before, h, id, names, waiting).sent|;
            var s := Connected(before, h, id, names, waiting + [LoopRegister(h)] + after);
            && since <= |s.sent| && h in s.subs
            && Events(s.subs[h].log) == Asked(names, s.sent[since..])
  {
    var start := Step(Run(INITIAL, before), Connect(h, id, names));
    var mid, trace := Connected(before, h, id, names, waiting), waiting + [LoopRegister(h)] + after;
    var s := Connected(before, h, id, names, trace);
    RunConcat(start, waiting + [LoopRegister(h)], after);
    RunSnoc(start, waiting, LoopRegister(h));
    assert s == Run(Step(mid, LoopRegister(h)), after);
    RegisteredFrom(mid, h, after);
    ConnectedReachable(before, h, id, names, trace);
    ConnectedTerms(before, h, id, names, trace);
    DeliveredExactly(s, id);
    MatchingIsAsked(s.subs[h], names, s.sent[s.joined[h]..]);
  }

  // ----- what single steps promise -----

  /** A message is handed over if and only if fewer than 512 are waiting; otherwise it is dropped. */
  lemma HandedOverExactly(s: Hub, m: Msg)
    requires m in s.inflight
    ensures var t := Step(s, Enqueue(m));
            && (t.channel == s.channel + [m] <==> |s.channel| < 512)
            && (t.dropped == s.dropped + 1 <==> 512 <= |s.channel|)
            && (512 <= |s.channel| ==> t.channel == s.channel)
  {
  }

  /**
   Visiting a client that wants the event: it gets it if and only if fewer than 128 messages wait in
   its queue; otherwise it is asked to leave. Nobody else's queue changes.
   */
  lemma OfferedExactly(s: Hub, id: Id)
    requires Enabled(s, Visit(id)) && s.phase.msg.Event? && Matches(s.subs[s.table[id]], s.phase.msg.topic)
    requires !s.subs[s.table[id]].closed
    ensures var (t, h) := (Step(s, Visit(id)), s.table[id]);
            && (t.subs[h].log == s.subs[h].log + [s.phase.msg] <==> |s.subs[h].log| - s.subs[h].taken < 128)
            && (t.leaving[id] == s.leaving[id] + 1 <==> 128 <= |s.subs[h].log| - s.subs[h].taken)
            && t.subs.Keys == s.subs.Keys
            && forall g :: g in s.subs && g != h ==> t.subs[g] == s.subs[g]
  {
  }

  /** A heartbeat is offered to every client whatever its topics, and asks nobody to leave. */
  lemma PingOfferedExactly(s: Hub, id: Id)
    requires Enabled(s, Visit(id)) && s.phase.msg.Ping? && !s.subs[s.table[id]].closed
    ensures var (t, h) := (Step(s, Visit(id)), s.table[id]);
            && (t.subs[h].log == s.subs[h].log + [s.phase.msg] <==> |s.subs[h].log| - s.subs[h].taken < 128)
            && t.leaving == s.leaving && t.subs.Keys == s.subs.Keys
            && forall g :: g in s.subs && g != h ==> t.subs[g] == s.subs[g]
  {
  }

  /** Unregistering closes the client's own queue, forgets its id, and leaves all others connected. */
  lemma UnregisteredExactly(s: Hub, id: Id)
    requires Enabled(s, LoopUnregister(id)) && id in s.table && s.table[id] in s.subs
    ensures var t := Step(s, LoopUnregister(id));
            && id !in t.table && t.subs.Keys == s.subs.Keys
            && t.subs[s.table[id]] == s.subs[s.table[id]].(closed := true)
            && (forall x :: x in s.table && x != id ==> x in t.table && t.table[x] == s.table[x])
            && (forall h :: h in s.subs && h != s.table[id] ==> t.subs[h] == s.subs[h])
  {
  }

  /** Registering connects the client under the id it came with, in place of whoever had it. */
  lemma RegisteredExactly(s: Hub, h: Handle)
    requires Enabled(s, LoopRegister(h))
    ensures var (t, id) := (Step(s, LoopRegister(h)), s.subs[h].id);
            && id in t.table && t.table[id] == h && h !in t.registering && t.subs == s.subs
            && forall x :: x in s.table && x != id ==> x in t.table && t.table[x] == s.table[x]
  {
  }
}
