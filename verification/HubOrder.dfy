/**
 When sequence numbers arrive in order.

 Numbers are drawn before messages are handed over, so they need not arrive in order; clients get
 the number and may have to reorder. Order is lost at two kinds of step and at no other.
 */
module HubOrder {
  import opened Subsequence
  import opened HubSpec
  import opened HubRuns

  ghost predicate Ascending(ms: seq<Msg>) {
    forall i, j :: 0 <= i < j < |ms| ==> ms[i].seqNo < ms[j].seqNo
  }

  /** Everything sent so far or waiting to be sent is in the order of its numbers. */
  ghost predicate InOrder(s: Hub) {
    Ascending(s.sent + s.channel)
  }

  /** A message handed over is newer than all before it, and heartbeats find an empty channel. */
  ghost predicate Orderly(s: Hub, a: Action) {
    match a
    case Enqueue(m) => |s.channel| < BROADCAST_CAP ==> forall x :: x in s.sent + s.channel ==> x.seqNo < m.seqNo
    case LoopPing => s.channel == []
    case _ => true
  }

  lemma AppendAscending(ms: seq<Msg>, m: Msg)
    ensures Ascending(ms + [m]) <==> Ascending(ms) && forall x :: x in ms ==> x.seqNo < m.seqNo
  {
    var t := ms + [m];
    assert forall i :: 0 <= i < |ms| ==> t[i] == ms[i];
    if Ascending(t) {
      forall x | x in ms ensures x.seqNo < m.seqNo {
        var i :| 0 <= i < |ms| && ms[i] == x;
        assert t[i].seqNo < t[|ms|].seqNo;
      }
      assert Ascending(ms);
    }
  }

  /** Putting the newest number anywhere but at the end breaks the order. */
  lemma PingOrder(s: Hub)
    requires Numbering(s) && Enabled(s, LoopPing)
    ensures InOrder(Apply(s, LoopPing)) <==> InOrder(s) && s.channel == []
  {
    var t, m := Apply(s, LoopPing), Ping(|s.issued| + 1);
    if s.channel == [] {
      assert s.sent + s.channel == s.sent && t.sent + t.channel == s.sent + [m];
      AppendAscending(s.sent, m);
      assert forall x :: x in s.sent ==> Known(s, x);
    } else {
      var all, n := t.sent + t.channel, |s.sent|;
      assert all[n] == m && all[n + 1] == s.channel[0] && Known(s, s.channel[0]);
    }
  }

  /** Every step keeps the order if and only if it is orderly; what is out of order stays so. */
  lemma StepOrder(s: Hub, a: Action)
    requires Inv(s) && Enabled(s, a)
    ensures InOrder(Apply(s, a)) <==> InOrder(s) && Orderly(s, a)
  {
    var t := Apply(s, a);
    if a.LoopPing? {
      PingOrder(s);
    } else if a.Enqueue? {
      if |s.channel| < BROADCAST_CAP {
        assert t.sent + t.channel == (s.sent + s.channel) + [a.msg];
        AppendAscending(s.sent + s.channel, a.msg);
      }
    } else if a.LoopTake? {
      assert t.sent + t.channel == s.sent + s.channel;
    } else if !a.Issue? && !a.Discard? {
      OthersKeepFields(s, a);
    }
  }

  /** Each step of the run was orderly in the state it was taken in. */
  ghost predicate OrderlyRun(s: Hub, trace: seq<Action>) {
    trace == [] || (
      var n := |trace| - 1;
      OrderlyRun(s, trace[..n]) && (Enabled(Run(s, trace[..n]), trace[n]) ==> Orderly(Run(s, trace[..n]), trace[n])))
  }

  /** For every interleaving: the order is kept if and only if every step was orderly. */
  lemma {:induction false} RunOrder(s: Hub, trace: seq<Action>)
    requires Inv(s)
    ensures InOrder(Run(s, trace)) <==> InOrder(s) && OrderlyRun(s, trace)
  {
    if trace != [] {
      var n := |trace| - 1;
      RunOrder(s, trace[..n]);
      RunKeepsInv(s, trace[..n]);
      if Enabled(Run(s, trace[..n]), trace[n]) {
        StepOrder(Run(s, trace[..n]), trace[n]);
      }
    }
  }

  lemma SubseqAscending(l: seq<Msg>, s: seq<Msg>)
    requires Subseq(l, s) && Ascending(s)
    ensures Ascending(l)
  {
    forall i, j | 0 <= i < j < |l| ensures l[i].seqNo < l[j].seqNo {
      var a, b := SubseqOrder(l, s, i, j);
    }
  }

  lemma InOrderLogsAscend(s: Hub, h: Handle)
    requires SubsOk(s) && InOrder(s) && h in s.subs
    ensures Ascending(s.subs[h].log)
  {
    assert SubOk(s, s.subs[h]);
    assert forall i :: 0 <= i < |s.sent| ==> s.sent[i] == (s.sent + s.channel)[i];
    SubseqAscending(s.subs[h].log, s.sent);
  }

  lemma OrderlyRunDeliversInOrder(s: Hub, trace: seq<Action>, h: Handle)
    requires Inv(s) && InOrder(s) && OrderlyRun(s, trace) && h in Run(s, trace).subs
    ensures Ascending(Run(s, trace).subs[h].log)
  {
    RunKeepsInv(s, trace);
    RunOrder(s, trace);
    InOrderLogsAscend(Run(s, trace), h);
  }

  lemma InitialInOrder()
    ensures InOrder(INITIAL)
  {
  }

  /** After an orderly run every subscriber has received its numbers in ascending order. */
  lemma LogsAscend(trace: seq<Action>, h: Handle)
    requires OrderlyRun(INITIAL, trace) && h in Run(INITIAL, trace).subs
    ensures Ascending(Run(INITIAL, trace).subs[h].log)
  {
    InitialInv();
    InitialInOrder();
    OrderlyRunDeliversInOrder(INITIAL, trace, h);
  }

  // ----- both causes of disorder occur -----

  /** One subscriber to one topic is connected. */
  function OneClient(id: Id, topic: Topic, log: seq<Msg>): Hub {
    INITIAL.(subs := map[0 := Sub(id, {topic}, log, 0, false)], table := map[id := 0], joined := map[0 := 0])
  }

  lemma ClientConnects(id: Id, topic: Topic)
    ensures Reachable(OneClient(id, topic, []))
  {
    InitialReachable();
    var s := Step(INITIAL, Connect(0, id, {topic}));
    StepReachable(INITIAL, Connect(0, id, {topic}));
    StepReachable(s, LoopRegister(0));
    assert Step(s, LoopRegister(0)) == OneClient(id, topic, []);
  }

  lemma PublishersOvertake(id: Id, topic: Topic)
    ensures var (m, n) := (Event(topic, 1), Event(topic, 2));
            Reachable(OneClient(id, topic, []).(issued := [m, n], channel := [n, m]))
  {
    var m, n, s0 := Event(topic, 1), Event(topic, 2), OneClient(id, topic, []);
    ClientConnects(id, topic);
    StepReachable(s0, Issue(topic));
    var s1 := s0.(issued := [m], inflight := {m});
    assert Step(s0, Issue(topic)) == s1;
    StepReachable(s1, Issue(topic));
    var s2 := s0.(issued := [m, n], inflight := {m, n});
    assert Step(s1, Issue(topic)) == s2;
    StepReachable(s2, Enqueue(n));
    var s3 := s2.(inflight := {m}, channel := [n]);
    assert Step(s2, Enqueue(n)) == s3;
    StepReachable(s3, Enqueue(m));
    assert Step(s3, Enqueue(m)) == s3.(inflight := {}, channel := [n, m]);
  }

  /** Taking, delivering and finishing one broadcast with a single connected subscriber. */
  lemma DeliverOne(s: Hub, id: Id, log: seq<Msg>, topic: Topic)
    requires Reachable(s) && s.phase == Idle && s.channel != [] && s.channel[0].Event?
    requires s.channel[0].topic == topic && |log| < QUEUE_CAP
    requires s.subs == map[0 := Sub(id, {topic}, log, 0, false)] && s.table == map[id := 0]
    ensures var m := s.channel[0];
            Reachable(s.(channel := s.channel[1..], totalBroadcasts := s.totalBroadcasts + 1,
                         sent := s.sent + [m], subs := map[0 := Sub(id, {topic}, log + [m], 0, false)]))
  {
    var m := s.channel[0];
    assert s.table.Keys == {id};
    var s1 := s.(channel := s.channel[1..], totalBroadcasts := s.totalBroadcasts + 1,
                 phase := Sending(m, {id}), sent := s.sent + [m]);
    assert Step(s, LoopTake) == s1;
    StepReachable(s, LoopTake);
    VisitOnly(s1, id, log, topic);
    StepReachable(s1, Visit(id));
    StepReachable(Step(s1, Visit(id)), Finish);
  }

  lemma VisitOnly(s: Hub, id: Id, log: seq<Msg>, topic: Topic)
    requires s.phase.Sending? && s.phase.todo == {id} && |log| < QUEUE_CAP
    requires s.phase.msg.Event? ==> s.phase.msg.topic == topic
    requires s.subs == map[0 := Sub(id, {topic}, log, 0, false)] && s.table == map[id := 0]
    ensures var m := s.phase.msg;
            Step(s, Visit(id)) == s.(phase := Sending(m, {}), subs := map[0 := Sub(id, {topic}, log + [m], 0, false)])
  {
    var m := s.phase.msg;
    assert {id} - {id} == {};
    assert s.subs[0 := s.subs[0].(log := log + [m])] == map[0 := Sub(id, {topic}, log + [m], 0, false)];
  }

  /** Cause one: a publisher is overtaken between drawing its number and handing its message over. */
  lemma PublisherOvertaken(id: Id, topic: Topic)
    ensures exists s: Hub :: Reachable(s) && 0 in s.subs && s.subs[0].log == [Event(topic, 2), Event(topic, 1)]
  {
    var m, n := Event(topic, 1), Event(topic, 2);
    var s := OneClient(id, topic, []).(issued := [m, n], channel := [n, m]);
    PublishersOvertake(id, topic);
    DeliverOne(s, id, [], topic);
    var s1 := s.(channel := s.channel[1..], totalBroadcasts := 1, sent := [] + [n],
                 subs := map[0 := Sub(id, {topic}, [] + [n], 0, false)]);
    DeliverOne(s1, id, [] + [n], topic);
    var s2 := s1.(channel := s1.channel[1..], totalBroadcasts := 2, sent := s1.sent + [m],
                  subs := map[0 := Sub(id, {topic}, [] + [n] + [m], 0, false)]);
    assert Reachable(s2) && s2.subs[0].log == [n, m];
  }

  /** Cause two: a heartbeat draws its number and is sent while an older event waits in the channel. */
  lemma HeartbeatOvertakes(id: Id, topic: Topic)
    ensures exists s: Hub :: Reachable(s) && 0 in s.subs && s.subs[0].log == [Ping(2), Event(topic, 1)]
  {
    var m, p, s0 := Event(topic, 1), Ping(2), OneClient(id, topic, []);
    ClientConnects(id, topic);
    StepReachable(s0, Issue(topic));
    var s1 := s0.(issued := [m], inflight := {m});
    assert Step(s0, Issue(topic)) == s1;
    StepReachable(s1, Enqueue(m));
    var s2 := s0.(issued := [m], channel := [m]);
    assert Step(s1, Enqueue(m)) == s2;
    PingFirst(s2, id, topic);
    var s3 := s2.(issued := [m, p], pings := 1, sent := [p], subs := map[0 := Sub(id, {topic}, [p], 0, false)]);
    DeliverOne(s3, id, [p], topic);
    var s4 := s3.(channel := s3.channel[1..], totalBroadcasts := s3.totalBroadcasts + 1, sent := s3.sent + [m],
                  subs := map[0 := Sub(id, {topic}, [p] + [m], 0, false)]);
    assert Reachable(s4) && s4.subs[0].log == [p, m];
  }

  lemma PingFirst(s: Hub, id: Id, topic: Topic)
    requires Reachable(s) && s.issued == [Event(topic, 1)] && s.sent == [] && s.pings == 0
    requires s == OneClient(id, topic, []).(issued := s.issued, channel := s.channel)
    ensures Reachable(s.(issued := s.issued + [Ping(2)], pings := 1, sent := [Ping(2)],
                         subs := map[0 := Sub(id, {topic}, [Ping(2)], 0, false)]))
  {
    var p := Ping(2);
    assert s.table.Keys == {id};
    var s1 := s.(issued := s.issued + [p], pings := 1, phase := Sending(p, {id}), sent := [p]);
    assert Step(s, LoopPing) == s1;
    StepReachable(s, LoopPing);
    VisitOnly(s1, id, [], topic);
    assert [] + [p] == [p];
    StepReachable(s1, Visit(id));
    StepReachable(Step(s1, Visit(id)), Finish);
  }
}
