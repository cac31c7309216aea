/** Every step of the hub keeps its invariant, so the delivery guarantees hold in every interleaving. */
module HubRuns {
  import opened Subsequence
  import opened HubSpec

  ghost predicate Messages(s: Hub) {
    Numbering(s) && OnePlace(s) && Counted(s)
  }

  // ----- numbers and places of messages -----

  /** Numbers already known stay known when the next one is issued. */
  lemma IssueKeepsKnown(s: Hub, t: Hub, m: Msg)
    requires Numbering(s) && t.issued == s.issued + [m] && m.seqNo == |s.issued| + 1
    ensures Known(t, m) && forall x :: Known(s, x) ==> Known(t, x) && x != m
  {
  }

  /** The next number belongs to no message yet. */
  lemma NextIsNew(s: Hub, m: Msg)
    requires Numbering(s) && m.seqNo == |s.issued| + 1
    ensures m !in s.inflight && m !in s.channel && m !in s.sent
  {
    assert !Known(s, m);
  }

  lemma IssueKeepsMessages(s: Hub, topic: Topic)
    requires Messages(s)
    ensures Messages(Apply(s, Issue(topic)))
  {
    var t, m := Apply(s, Issue(topic)), Event(topic, |s.issued| + 1);
    IssueKeepsKnown(s, t, m);
    NextIsNew(s, m);
    assert Numbering(t);
    assert OnePlace(t);
  }

  lemma DropKeepsMessages(s: Hub, m: Msg)
    requires Messages(s) && m in s.inflight
    ensures Messages(s.(inflight := s.inflight - {m}, dropped := s.dropped + 1))
  {
    assert |s.inflight - {m}| == |s.inflight| - 1;
  }

  lemma HandOverKeepsMessages(s: Hub, m: Msg)
    requires Messages(s) && m in s.inflight && |s.channel| < BROADCAST_CAP
    ensures Messages(s.(inflight := s.inflight - {m}, channel := s.channel + [m]))
  {
    var channel := s.channel + [m];
    assert |s.inflight - {m}| == |s.inflight| - 1;
    assert m !in s.channel && m !in s.sent;
    assert forall k :: 0 <= k < |s.channel| ==> channel[k] == s.channel[k] && channel[k] in s.channel;
    assert forall x :: x in channel ==> x in s.channel || x == m;
  }

  lemma TakeKeepsPlaces(s: Hub)
    requires OnePlace(s) && Enabled(s, LoopTake)
    ensures OnePlace(Apply(s, LoopTake))
  {
    var m, rest := s.channel[0], s.channel[1..];
    assert m in s.channel;
    assert forall k :: 0 <= k < |rest| ==> rest[k] == s.channel[k + 1] && rest[k] in s.channel;
    assert forall x :: x in rest ==> x in s.channel && x != m;
    assert forall x :: x in s.sent + [m] ==> x in s.sent || x == m;
  }

  lemma TakeKeepsMessages(s: Hub)
    requires Messages(s) && Enabled(s, LoopTake)
    ensures Messages(Apply(s, LoopTake))
  {
    TakeKeepsPlaces(s);
    var t := Apply(s, LoopTake);
    assert forall k :: 0 <= k < |t.channel| ==> t.channel[k] == s.channel[k + 1];
    assert forall x :: Known(s, x) ==> Known(t, x);
  }

  lemma PingKeepsMessages(s: Hub)
    requires Messages(s) && Enabled(s, LoopPing)
    ensures Messages(Apply(s, LoopPing))
  {
    var t, m := Apply(s, LoopPing), Ping(|s.issued| + 1);
    IssueKeepsKnown(s, t, m);
    NextIsNew(s, m);
    assert forall x :: x in s.sent + [m] ==> x in s.sent || x == m;
    assert Numbering(t);
    assert OnePlace(t);
  }

  /** Messages depend on nothing but the fields that hold them. */
  lemma SameMessages(s: Hub, t: Hub)
    requires Messages(s) && t.issued == s.issued && t.inflight == s.inflight && t.channel == s.channel
    requires t.sent == s.sent && t.dropped == s.dropped && t.pings == s.pings
    requires t.totalBroadcasts == s.totalBroadcasts
    ensures Messages(t)
  {
    assert forall m :: Known(s, m) ==> Known(t, m);
  }

  lemma EnqueueKeepsMessages(s: Hub, m: Msg)
    requires Messages(s) && m in s.inflight
    ensures Messages(Apply(s, Enqueue(m)))
  {
    if |s.channel| < BROADCAST_CAP {
      HandOverKeepsMessages(s, m);
    } else {
      DropKeepsMessages(s, m);
    }
  }

  lemma StepKeepsMessages(s: Hub, a: Action)
    requires Messages(s) && Enabled(s, a)
    ensures Messages(Apply(s, a))
  {
    if a.Issue? {
      IssueKeepsMessages(s, a.topic);
    } else if a.Enqueue? {
      EnqueueKeepsMessages(s, a.msg);
    } else if a.Discard? {
      DropKeepsMessages(s, a.msg);
    } else if a.LoopTake? {
      TakeKeepsMessages(s);
    } else if a.LoopPing? {
      PingKeepsMessages(s);
    } else {
      OthersKeepMessages(s, a);
    }
  }

  lemma OthersKeepMessages(s: Hub, a: Action)
    requires Messages(s) && Enabled(s, a)
    requires !a.Issue? && !a.Enqueue? && !a.Discard? && !a.LoopTake? && !a.LoopPing?
    ensures Messages(Apply(s, a))
  {
    OthersKeepFields(s, a);
    SameMessages(s, Apply(s, a));
  }

  lemma OthersKeepFields(s: Hub, a: Action)
    requires Enabled(s, a)
    requires !a.Issue? && !a.Enqueue? && !a.Discard? && !a.LoopTake? && !a.LoopPing?
    ensures var t := Apply(s, a);
            && t.issued == s.issued && t.inflight == s.inflight && t.channel == s.channel && t.sent == s.sent
            && t.dropped == s.dropped && t.pings == s.pings && t.totalBroadcasts == s.totalBroadcasts
  {
    if a.Visit? {
      VisitKeepsFields(s, a.id);
    }
  }

  lemma VisitKeepsFields(s: Hub, id: Id)
    requires Enabled(s, Visit(id))
    ensures var t := Offer(s, id); t == s.(subs := t.subs, leaving := t.leaving, phase := t.phase, panicked := t.panicked)
  {
  }

  // ----- subscribers and the table -----

  lemma SentGrows(s: Hub, t: Hub, m: Msg)
    requires SubsOk(s) && t.subs == s.subs && t.sent == s.sent + [m]
    ensures SubsOk(t)
  {
    forall h | h in t.subs ensures SubOk(t, t.subs[h]) {
      assert SubOk(s, s.subs[h]);
      SubseqSkip(s.subs[h].log, s.sent, m);
    }
  }

  /** The visited subscriber has an open queue, and taking the message keeps its log in order. */
  lemma VisitKeepsSubs(s: Hub, id: Id)
    requires Inv(s) && Enabled(s, Visit(id))
    ensures SubsOk(Offer(s, id))
  {
    var t, h := Offer(s, id), s.table[id];
    var sub, m, n := s.subs[h], s.phase.msg, |s.sent| - 1;
    assert Waiting(s, id) && SubOk(s, sub);
    assert Subseq(sub.log + [m], s.sent) by {
      SubseqTake(sub.log, s.sent[..n], m);
      assert s.sent[..n] + [m] == s.sent;
    }
    forall g | g in t.subs ensures SubOk(s, t.subs[g]) {
      assert SubOk(s, s.subs[g]);
    }
    SameLogs(s, t);
  }

  lemma VisitKeepsTable(s: Hub, id: Id)
    requires Inv(s) && Enabled(s, Visit(id))
    ensures TableOk(Offer(s, id))
  {
  }

  /** Steps that change single subscribers without touching any log. */
  lemma SameLogs(s: Hub, t: Hub)
    requires SubsOk(s) && t.sent == s.sent
    requires forall h :: h in t.subs ==> SubOk(s, t.subs[h])
    ensures SubsOk(t)
  {
    assert forall h :: h in t.subs && SubOk(s, t.subs[h]) ==> SubOk(t, t.subs[h]);
  }

  lemma MembershipKeepsSubs(s: Hub, a: Action)
    requires Inv(s) && Enabled(s, a)
    requires a.Connect? || a.LoopRegister? || a.LoopUnregister? || a.Write?
    ensures SubsOk(Apply(s, a))
  {
    var t := Apply(s, a);
    forall h | h in t.subs ensures SubOk(s, t.subs[h]) {
      if h in s.subs {
        assert SubOk(s, s.subs[h]);
      }
    }
    SameLogs(s, t);
  }

  lemma MembershipKeepsTable(s: Hub, a: Action)
    requires Inv(s) && Enabled(s, a)
    requires a.Connect? || a.LoopRegister? || a.LoopUnregister? || a.Write?
    ensures TableOk(Apply(s, a))
  {
    if a.LoopUnregister? {
      UnregisterKeepsTable(s, a.id);
    } else if a.LoopRegister? {
      assert s.subs[a.h].id !in s.table || s.table[s.subs[a.h].id] != a.h;
    }
  }

  /** Only the queue of the subscriber that leaves the table is closed. */
  lemma UnregisterKeepsTable(s: Hub, id: Id)
    requires TableOk(s) && Enabled(s, LoopUnregister(id))
    ensures TableOk(Disconnect(s, id))
  {
    assert forall x :: x in s.table ==> s.subs[s.table[x]].id == x;
  }

  lemma StepKeepsSubs(s: Hub, a: Action)
    requires Inv(s) && Enabled(s, a)
    ensures SubsOk(Apply(s, a)) && TableOk(Apply(s, a))
  {
    var t := Apply(s, a);
    if a.Connect? || a.LoopRegister? || a.LoopUnregister? || a.Write? {
      MembershipKeepsSubs(s, a);
      MembershipKeepsTable(s, a);
    } else if a.Visit? {
      VisitKeepsSubs(s, a.id);
      VisitKeepsTable(s, a.id);
    } else if a.LoopTake? {
      SentGrows(s, t, s.channel[0]);
    } else if a.LoopPing? {
      SentGrows(s, t, Ping(|s.issued| + 1));
    } else {
      assert t.subs == s.subs && t.sent == s.sent;
      SameLogs(s, t);
    }
  }

  // ----- the loop's progress -----

  lemma StartOfPhase(s: Hub, t: Hub, m: Msg)
    requires Inv(s) && t.sent == s.sent + [m] && t.subs == s.subs && t.table == s.table
    requires t.phase == Sending(m, s.table.Keys)
    ensures PhaseOk(t)
  {
    assert t.sent[..|s.sent|] == s.sent;
    forall id | id in t.table ensures Waiting(t, id) {
      assert SubOk(s, s.subs[s.table[id]]);
    }
  }

  lemma VisitKeepsPhase(s: Hub, id: Id)
    requires Inv(s) && Enabled(s, Visit(id))
    ensures PhaseOk(Offer(s, id))
  {
    var t := Offer(s, id);
    forall x | x in t.table ensures if x in t.phase.todo then Waiting(t, x) else Served(t, x) {
      assert if x in s.phase.todo then Waiting(s, x) else Served(s, x);
      assert s.subs[s.table[x]].id == x && s.subs[s.table[id]].id == id;
    }
  }

  /** Steps outside the loop leave every queue's log and the table as they are. */
  lemma SamePhase(s: Hub, t: Hub)
    requires Inv(s) && t.sent == s.sent && t.table == s.table && t.phase == s.phase
    requires s.leaving <= t.leaving
    requires forall h :: h in s.subs ==>
               h in t.subs && t.subs[h].log == s.subs[h].log && t.subs[h].topics == s.subs[h].topics
    ensures PhaseOk(t)
  {
    if s.phase.Sending? {
      forall id | id in t.table ensures if id in t.phase.todo then Waiting(t, id) else Served(t, id) {
        assert if id in s.phase.todo then Waiting(s, id) else Served(s, id);
      }
    }
  }

  lemma StepKeepsPhase(s: Hub, a: Action)
    requires Inv(s) && Enabled(s, a)
    ensures PhaseOk(Apply(s, a))
  {
    var t := Apply(s, a);
    if a.Visit? {
      VisitKeepsPhase(s, a.id);
    } else if a.LoopTake? {
      StartOfPhase(s, t, s.channel[0]);
    } else if a.LoopPing? {
      StartOfPhase(s, t, Ping(|s.issued| + 1));
    } else if a.LoopRegister? || a.LoopUnregister? || a.Finish? {
      assert t.phase == Idle;
    } else {
      OutsideKeepsPhase(s, a);
    }
  }

  lemma OutsideKeepsPhase(s: Hub, a: Action)
    requires Inv(s) && Enabled(s, a)
    requires a.Connect? || a.RequestLeave? || a.Issue? || a.Enqueue? || a.Discard? || a.Write?
    ensures PhaseOk(Apply(s, a))
  {
    if a.Connect? || a.Write? {
      ClientKeepsPhase(s, a);
    } else {
      PublisherKeepsPhase(s, a);
    }
  }

  lemma ClientKeepsPhase(s: Hub, a: Action)
    requires Inv(s) && Enabled(s, a) && (a.Connect? || a.Write?)
    ensures PhaseOk(Apply(s, a))
  {
    SamePhase(s, Apply(s, a));
  }

  lemma PublisherKeepsPhase(s: Hub, a: Action)
    requires Inv(s) && Enabled(s, a) && (a.RequestLeave? || a.Issue? || a.Enqueue? || a.Discard?)
    ensures PhaseOk(Apply(s, a))
  {
    SamePhaseAndSubs(s, Apply(s, a));
  }

  lemma SamePhaseAndSubs(s: Hub, t: Hub)
    requires Inv(s) && t.sent == s.sent && t.table == s.table && t.phase == s.phase && t.subs == s.subs
    requires s.leaving <= t.leaving
    ensures PhaseOk(t)
  {
    SamePhase(s, t);
  }

  lemma StepKeepsInv(s: Hub, a: Action)
    requires Inv(s)
    ensures Inv(Step(s, a))
  {
    if Enabled(s, a) {
      StepKeepsMessages(s, a);
      StepKeepsSubs(s, a);
      StepKeepsPhase(s, a);
    }
  }

  lemma {:induction false} RunKeepsInv(s: Hub, trace: seq<Action>)
    requires Inv(s)
    ensures Inv(Run(s, trace))
  {
    if trace != [] {
      RunKeepsInv(s, trace[..|trace| - 1]);
      StepKeepsInv(Run(s, trace[..|trace| - 1]), trace[|trace| - 1]);
    }
  }

  // ----- guarantees -----

  ghost predicate Reachable(s: Hub) {
    exists trace :: s == Run(INITIAL, trace)
  }

  lemma InitialInv()
    ensures Inv(INITIAL)
  {
  }

  lemma ReachableInv(s: Hub)
    requires Reachable(s)
    ensures Inv(s)
  {
    var trace :| s == Run(INITIAL, trace);
    InitialInv();
    RunKeepsInv(INITIAL, trace);
  }

  /** A subscriber receives a sequence number at most once, only issued ones, only wanted topics. */
  lemma DeliveredAtMostOnce(s: Hub, h: Handle)
    requires Reachable(s) && h in s.subs
    ensures var sub := s.subs[h];
            && (forall i, j :: 0 <= i < j < |sub.log| ==> sub.log[i].seqNo != sub.log[j].seqNo)
            && (forall i :: 0 <= i < |sub.log| ==>
                  && 1 <= sub.log[i].seqNo <= |s.issued| && s.issued[sub.log[i].seqNo - 1] == sub.log[i]
                  && (sub.log[i].Event? ==> Matches(sub, sub.log[i].topic)))
  {
    ReachableInv(s);
    var log := s.subs[h].log;
    assert SubOk(s, s.subs[h]);
    SubseqNoRepeats(log, s.sent);
    forall i | 0 <= i < |log| ensures Known(s, log[i]) && Wants(s.subs[h], log[i]) {
      SubseqMember(log, s.sent, i);
    }
    forall i, j | 0 <= i < j < |log| ensures log[i].seqNo != log[j].seqNo {
      assert Known(s, log[i]) && Known(s, log[j]);
    }
  }

  /** Any two subscribers receive the messages they share in the same order. */
  lemma SubscribersAgreeOnOrder(s: Hub, g: Handle, h: Handle, i: nat, j: nat, i': nat, j': nat)
    requires Reachable(s) && g in s.subs && h in s.subs
    requires i < j < |s.subs[g].log| && i' < |s.subs[h].log| && j' < |s.subs[h].log|
    requires s.subs[h].log[i'] == s.subs[g].log[i] && s.subs[h].log[j'] == s.subs[g].log[j]
    ensures i' < j'
  {
    ReachableInv(s);
    assert SubOk(s, s.subs[g]) && SubOk(s, s.subs[h]);
    SubseqsAgree(s.subs[g].log, s.subs[h].log, s.sent, i, j, i', j');
  }

  /** The loop never sends to a closed queue and never closes a queue twice. */
  lemma NeverPanics(s: Hub)
    requires Reachable(s)
    ensures !s.panicked
  {
    ReachableInv(s);
  }

  /** Every connected subscriber that wants the broadcast has it or is leaving. */
  ghost predicate AllServed(s: Hub, m: Msg) {
    m.Event? ==> forall id :: id in s.table && s.table[id] in s.subs && Matches(s.subs[s.table[id]], m.topic) ==>
                   m in s.subs[s.table[id]].log || id in s.leaving
  }

  /** When a fan-out ends, no subscriber of the topic has missed the event unnoticed. */
  lemma NoSilentLoss(s: Hub)
    requires Reachable(s) && s.phase.Sending? && s.phase.todo == {}
    ensures AllServed(s, s.phase.msg)
  {
    ReachableInv(s);
    if s.phase.msg.Event? {
      forall id | id in s.table && s.table[id] in s.subs && Matches(s.subs[s.table[id]], s.phase.msg.topic)
        ensures s.phase.msg in s.subs[s.table[id]].log || id in s.leaving
      {
        assert Served(s, id);
      }
    }
  }

  /** Every number drawn so far is accounted for, and all buffers respect their capacity. */
  lemma NumbersAccounted(s: Hub)
    requires Reachable(s)
    ensures |s.issued| == |s.inflight| + |s.channel| + s.totalBroadcasts + s.pings + s.dropped
    ensures |s.channel| <= 512
    ensures forall h :: h in s.subs ==> |s.subs[h].log| - s.subs[h].taken <= 128
  {
    ReachableInv(s);
    forall h | h in s.subs ensures |s.subs[h].log| - s.subs[h].taken <= QUEUE_CAP {
      assert SubOk(s, s.subs[h]);
    }
  }

  lemma {:induction false} RunSnoc(s: Hub, trace: seq<Action>, a: Action)
    ensures Run(s, trace + [a]) == Step(Run(s, trace), a)
  {
    assert (trace + [a])[..|trace|] == trace;
  }

  lemma RunOne(s: Hub, a: Action)
    ensures Run(s, [a]) == Step(s, a)
  {
    assert [a][..0] == [];
  }

  lemma StepReachable(s: Hub, a: Action)
    requires Reachable(s)
    ensures Reachable(Step(s, a))
  {
    var trace :| s == Run(INITIAL, trace);
    RunSnoc(INITIAL, trace, a);
  }

  lemma {:induction false} RunReachable(s: Hub, trace: seq<Action>)
    requires Reachable(s)
    ensures Reachable(Run(s, trace))
  {
    if trace != [] {
      RunReachable(s, trace[..|trace| - 1]);
      StepReachable(Run(s, trace[..|trace| - 1]), trace[|trace| - 1]);
    }
  }

  lemma FinishStep(s: Hub)
    requires Reachable(s) && s.phase.Sending? && s.phase.todo == {}
    ensures Step(s, Finish) == s.(phase := Idle) && AllServed(Step(s, Finish), s.phase.msg)
  {
    NoSilentLoss(s);
  }

  /** When all subscribers have been visited, finishing leaves every one of them served. */
  lemma {:induction false} FinishServes(start: Hub, trace: seq<Action>)
    requires Reachable(start) && Run(start, trace).phase.Sending? && Run(start, trace).phase.todo == {}
    ensures Run(start, trace + [Finish]) == Run(start, trace).(phase := Idle)
    ensures Reachable(Run(start, trace + [Finish]))
    ensures AllServed(Run(start, trace + [Finish]), Run(start, trace).phase.msg)
  {
    RunReachable(start, trace);
    FinishStep(Run(start, trace));
    RunSnoc(start, trace, Finish);
    StepReachable(Run(start, trace), Finish);
  }

  lemma InitialReachable()
    ensures Reachable(INITIAL)
  {
    assert INITIAL == Run(INITIAL, []);
  }

  /** What the two steps of a publisher that nobody interrupts do. */
  lemma PublishEffect(s: Hub, topic: Topic)
    requires Event(topic, |s.issued| + 1) !in s.inflight
    ensures var m := Event(topic, |s.issued| + 1);
            Step(Step(s, Issue(topic)), Enqueue(m))
            == if |s.channel| < BROADCAST_CAP
               then s.(issued := s.issued + [m], channel := s.channel + [m])
               else s.(issued := s.issued + [m], dropped := s.dropped + 1)
  {
    var m := Event(topic, |s.issued| + 1);
    var t := s.(issued := s.issued + [m], inflight := s.inflight + {m});
    assert Step(s, Issue(topic)) == t;
    assert t.inflight - {m} == s.inflight;
  }

  lemma PublishSteps(s: Hub, topic: Topic)
    requires Reachable(s)
    ensures Event(topic, |s.issued| + 1) !in s.inflight
    ensures Reachable(Step(Step(s, Issue(topic)), Enqueue(Event(topic, |s.issued| + 1))))
  {
    ReachableInv(s);
    NextIsNew(s, Event(topic, |s.issued| + 1));
    StepReachable(s, Issue(topic));
    StepReachable(Step(s, Issue(topic)), Enqueue(Event(topic, |s.issued| + 1)));
  }

  /** A connected subscriber exists and its queue is open. */
  lemma ConnectedIsOpen(s: Hub, id: Id)
    requires Reachable(s) && id in s.table
    ensures s.table[id] in s.subs && !s.subs[s.table[id]].closed
  {
    ReachableInv(s);
  }

  lemma RegisteringExists(s: Hub, h: Handle)
    requires Reachable(s) && h in s.registering
    ensures h in s.subs
  {
    ReachableInv(s);
  }
}
