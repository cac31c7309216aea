/** What a connected subscriber has received: exactly the matching events since it was registered. */
module HubDelivery {
  import opened HubSpec
  import opened HubRuns

  /** The events among the messages, in order. */
  function Events(ms: seq<Msg>): seq<Msg> {
    if ms == [] then []
    else
      var n := |ms| - 1;
      Events(ms[..n]) + if ms[n].Event? then [ms[n]] else []
  }

  /** The events among the messages that a subscriber matches, in order. */
  function Matching(sub: Sub, ms: seq<Msg>): seq<Msg> {
    if ms == [] then []
    else
      var n := |ms| - 1;
      Matching(sub, ms[..n]) + if ms[n].Event? && Matches(sub, ms[n].topic) then [ms[n]] else []
  }

  lemma EventsSnoc(ms: seq<Msg>, m: Msg)
    ensures Events(ms + [m]) == Events(ms) + if m.Event? then [m] else []
  {
    assert (ms + [m])[..|ms|] == ms;
  }

  lemma MatchingSnoc(sub: Sub, ms: seq<Msg>, m: Msg)
    ensures Matching(sub, ms + [m]) == Matching(sub, ms) + if m.Event? && Matches(sub, m.topic) then [m] else []
  {
    assert (ms + [m])[..|ms|] == ms;
  }

  lemma {:induction false} SameTopics(sub: Sub, sub': Sub, ms: seq<Msg>)
    requires sub.topics == sub'.topics
    ensures Matching(sub, ms) == Matching(sub', ms)
  {
    if ms != [] {
      SameTopics(sub, sub', ms[..|ms| - 1]);
    }
  }

  // ----- the invariant -----

  /** How much of what was sent has been offered to the subscriber. */
  function Offered(s: Hub, id: Id): int {
    if s.phase.Sending? && id in s.phase.todo then |s.sent| - 1 else |s.sent|
  }

  /** The subscriber behind handle `h` has exactly the matching events sent up to `n` since it joined. */
  ghost predicate Has(s: Hub, h: Handle, n: int) {
    && h in s.subs && h in s.joined && s.joined[h] <= n <= |s.sent|
    && Events(s.subs[h].log) == Matching(s.subs[h], s.sent[s.joined[h]..n])
  }

  ghost predicate UpToDate(s: Hub) {
    forall id :: id in s.table && id !in s.leaving ==> Has(s, s.table[id], Offered(s, id))
  }

  ghost predicate FreshRegistrations(s: Hub) {
    forall h :: h in s.registering ==> h in s.subs && s.subs[h].log == []
  }

  ghost predicate Complete(s: Hub) {
    UpToDate(s) && FreshRegistrations(s)
  }

  /** A step that leaves a subscriber's log and what was sent before alone. */
  lemma HasKept(s: Hub, t: Hub, h: Handle, n: int)
    requires Has(s, h, n) && h in t.subs && h in t.joined && t.joined[h] == s.joined[h]
    requires t.subs[h].log == s.subs[h].log && t.subs[h].topics == s.subs[h].topics
    requires s.sent <= t.sent
    ensures Has(t, h, n)
  {
    assert t.sent[t.joined[h]..n] == s.sent[s.joined[h]..n];
    SameTopics(s.subs[h], t.subs[h], s.sent[s.joined[h]..n]);
  }

  /** A freshly registered subscriber has missed nothing yet. */
  lemma RegisterComplete(s: Hub, h: Handle)
    requires Inv(s) && Complete(s) && Enabled(s, LoopRegister(h))
    ensures Complete(Apply(s, LoopRegister(h)))
  {
    var t := Apply(s, LoopRegister(h));
    forall id | id in t.table && id !in t.leaving ensures Has(t, t.table[id], Offered(t, id)) {
      if t.table[id] == h {
        assert t.sent[|s.sent|..|t.sent|] == [];
      } else {
        HasKept(s, t, s.table[id], |s.sent|);
      }
    }
  }

  lemma HasOneMore(s: Hub, t: Hub, h: Handle, n: nat)
    requires Has(s, h, n) && n < |s.sent| && t.sent == s.sent && t.joined == s.joined && h in t.subs
    requires t.subs[h].topics == s.subs[h].topics
    requires var m := s.sent[n];
             Events(t.subs[h].log)
               == Events(s.subs[h].log) + if m.Event? && Matches(s.subs[h], m.topic) then [m] else []
    ensures Has(t, h, n + 1)
  {
    var sub, j, m := s.subs[h], s.joined[h], s.sent[n];
    assert s.sent[j..n] + [m] == s.sent[j..n + 1];
    MatchingSnoc(sub, s.sent[j..n], m);
    SameTopics(sub, t.subs[h], s.sent[j..n + 1]);
  }

  /** A visited subscriber took the message, did not want it, or is leaving. */
  lemma VisitedLog(s: Hub, id: Id)
    requires Enabled(s, Visit(id)) && !s.subs[s.table[id]].closed && id !in Offer(s, id).leaving
    ensures var (t, h, m) := (Offer(s, id), s.table[id], s.phase.msg);
            && h in t.subs && t.subs[h].topics == s.subs[h].topics
            && Events(t.subs[h].log)
                 == Events(s.subs[h].log) + if m.Event? && Matches(s.subs[h], m.topic) then [m] else []
  {
    EventsSnoc(s.subs[s.table[id]].log, s.phase.msg);
  }

  lemma VisitedHas(s: Hub, id: Id)
    requires TableOk(s) && PhaseOk(s) && UpToDate(s) && Enabled(s, Visit(id)) && id !in Offer(s, id).leaving
    ensures Has(Offer(s, id), s.table[id], |s.sent|)
  {
    VisitKeepsFields(s, id);
    VisitedLog(s, id);
    assert id !in s.leaving && Offered(s, id) == |s.sent| - 1;
    HasOneMore(s, Offer(s, id), s.table[id], |s.sent| - 1);
  }

  lemma VisitComplete(s: Hub, id: Id)
    requires Inv(s) && Complete(s) && Enabled(s, Visit(id))
    ensures Complete(Offer(s, id))
  {
    var t := Offer(s, id);
    VisitKeepsFields(s, id);
    forall x | x in t.table && x !in t.leaving ensures Has(t, t.table[x], Offered(t, x)) {
      if x == id {
        VisitedHas(s, id);
      } else {
        assert s.subs[s.table[x]].id == x && s.subs[s.table[id]].id == id;
        HasKept(s, t, s.table[x], Offered(s, x));
      }
    }
  }

  /** Nothing changes for the subscribers that stay. */
  lemma UpToDateKept(s: Hub, t: Hub)
    requires UpToDate(s) && s.sent <= t.sent && t.joined == s.joined
    requires forall id :: id in t.table && id !in t.leaving ==>
               && id in s.table && id !in s.leaving && t.table[id] == s.table[id]
               && Offered(t, id) == Offered(s, id)
    requires forall h :: h in s.subs ==>
               h in t.subs && t.subs[h].log == s.subs[h].log && t.subs[h].topics == s.subs[h].topics
    ensures UpToDate(t)
  {
    forall id | id in t.table && id !in t.leaving ensures Has(t, t.table[id], Offered(t, id)) {
      assert Has(s, s.table[id], Offered(s, id));
      HasKept(s, t, s.table[id], Offered(s, id));
    }
  }

  lemma UnregisterUpToDate(s: Hub, id: Id)
    requires TableOk(s) && UpToDate(s) && Enabled(s, LoopUnregister(id))
    ensures UpToDate(Disconnect(s, id))
  {
    UpToDateKept(s, Disconnect(s, id));
  }

  /** When sending starts, nobody has been offered the message yet. */
  lemma StartUpToDate(s: Hub, t: Hub, m: Msg)
    requires UpToDate(s) && s.phase == Idle && t.sent == s.sent + [m] && t.phase == Sending(m, s.table.Keys)
    requires t.subs == s.subs && t.table == s.table && t.leaving == s.leaving && t.joined == s.joined
    ensures UpToDate(t)
  {
    UpToDateKept(s, t);
  }

  lemma OthersUpToDate(s: Hub, a: Action)
    requires TableOk(s) && UpToDate(s) && Enabled(s, a) && !a.LoopRegister? && !a.Visit?
    ensures UpToDate(Apply(s, a))
  {
    if a.LoopUnregister? {
      UnregisterUpToDate(s, a.id);
    } else if a.LoopTake? {
      StartUpToDate(s, Apply(s, a), s.channel[0]);
    } else if a.LoopPing? {
      StartUpToDate(s, Apply(s, a), Ping(|s.issued| + 1));
    } else {
      OutsideUpToDate(s, a);
    }
  }

  lemma OutsideUpToDate(s: Hub, a: Action)
    requires TableOk(s) && UpToDate(s) && Enabled(s, a) && !a.LoopRegister? && !a.Visit?
    requires !a.LoopUnregister? && !a.LoopTake? && !a.LoopPing?
    ensures UpToDate(Apply(s, a))
  {
    var t := Apply(s, a);
    assert t.table == s.table && t.sent == s.sent && t.joined == s.joined && s.leaving <= t.leaving;
    UpToDateKept(s, t);
  }

  lemma OthersFresh(s: Hub, a: Action)
    requires TableOk(s) && FreshRegistrations(s) && Enabled(s, a) && !a.LoopRegister? && !a.Visit?
    ensures FreshRegistrations(Apply(s, a))
  {
  }

  lemma StepComplete(s: Hub, a: Action)
    requires Inv(s) && Complete(s) && Enabled(s, a)
    ensures Complete(Apply(s, a))
  {
    if a.LoopRegister? {
      RegisterComplete(s, a.h);
    } else if a.Visit? {
      VisitComplete(s, a.id);
    } else {
      OthersUpToDate(s, a);
      OthersFresh(s, a);
    }
  }

  lemma {:induction false} RunComplete(s: Hub, trace: seq<Action>)
    requires Inv(s) && Complete(s)
    ensures Complete(Run(s, trace))
  {
    if trace != [] {
      var n := |trace| - 1;
      RunComplete(s, trace[..n]);
      RunKeepsInv(s, trace[..n]);
      if Enabled(Run(s, trace[..n]), trace[n]) {
        StepComplete(Run(s, trace[..n]), trace[n]);
      }
    }
  }

  lemma NobodyIsUpToDate(s: Hub)
    requires s.table == map[] && s.registering == {}
    ensures Complete(s)
  {
  }

  lemma InitialComplete()
    ensures Complete(INITIAL)
  {
    NobodyIsUpToDate(INITIAL);
  }

  lemma ReachableComplete(s: Hub)
    requires Reachable(s)
    ensures Complete(s)
  {
    var trace :| s == Run(INITIAL, trace);
    InitialInv();
    InitialComplete();
    RunComplete(INITIAL, trace);
  }

  /**
   In every reachable state, a connected subscriber that is not leaving has received exactly the
   matching events dispatched since it was registered, in the order of their dispatch; while a
   fan-out runs, the event being sent may still be on its way.
   */
  lemma DeliveredExactly(s: Hub, id: Id)
    requires Reachable(s) && id in s.table && id !in s.leaving
    ensures var h := s.table[id];
            && h in s.subs && h in s.joined && s.joined[h] <= Offered(s, id) <= |s.sent|
            && Events(s.subs[h].log) == Matching(s.subs[h], s.sent[s.joined[h]..Offered(s, id)])
            && (s.phase == Idle ==> Events(s.subs[h].log) == Matching(s.subs[h], s.sent[s.joined[h]..]))
  {
    ReachableComplete(s);
    var h := s.table[id];
    assert Has(s, h, Offered(s, id));
    assert s.sent[s.joined[h]..] == s.sent[s.joined[h]..|s.sent|];
  }
}
