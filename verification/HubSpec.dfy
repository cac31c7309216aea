/**
 The WebSocket hub as a transition system.

 Publishers, the hub loop, writers and clients take turns in any order; each action is one atomic
 step of one of them. A fan-out is not atomic: it visits one subscriber per step, and publishers
 and writers may run in between. `Sub.log` records everything ever put on a subscriber's queue,
 of which the writer has taken the first `taken` messages.
 */
module HubSpec {
  import opened Subsequence

  type Topic = string
  type Id = string
  type Handle = nat

  const TOPIC_ALL: Topic := "all"
  const QUEUE_CAP := 128
  const BROADCAST_CAP := 512

  datatype Msg =
    | Event(topic: Topic, seqNo: nat)
    | Ping(seqNo: nat)

  datatype Sub = Sub(id: Id, topics: set<Topic>, log: seq<Msg>, taken: nat, closed: bool)

  /** Whether the hub loop waits in its select or is visiting the subscribers in `todo`. */
  datatype Phase =
    | Idle
    | Sending(msg: Msg, todo: set<Id>)

  /**
   `subs` holds every subscriber ever created; `table` is the hub's map of connected ones.
   `registering` and `leaving` hold what waits on the register and unregister channels or on
   goroutines blocked sending to them. `issued` and `sent` are histories: every message numbered
   so far, and every message the loop started to send. `joined` records how many had been sent when
   a subscriber was registered.
   */
  datatype Hub = Hub(
    subs: map<Handle, Sub>,
    table: map<Id, Handle>,
    registering: set<Handle>,
    leaving: multiset<Id>,
    inflight: set<Msg>,
    channel: seq<Msg>,
    phase: Phase,
    totalBroadcasts: nat,
    pings: nat,
    dropped: nat,
    panicked: bool,
    issued: seq<Msg>,
    sent: seq<Msg>,
    joined: map<Handle, nat>)

  const INITIAL := Hub(map[], map[], {}, multiset{}, {}, [], Idle, 0, 0, 0, false, [], [], map[])

  datatype Action =
    | Connect(h: Handle, id: Id, names: set<Topic>) // a client connects and queues its registration
    | RequestLeave(id: Id)                          // reader, writer or client asks to disconnect
    | Issue(topic: Topic)                           // a publisher draws the next sequence number
    | Enqueue(msg: Msg)                             // ... and hands its message over, or drops it
    | Discard(msg: Msg)                             // ... or fails to encode it
    | LoopRegister(h: Handle)
    | LoopUnregister(id: Id)
    | LoopTake                                      // the loop starts to fan a broadcast out
    | LoopPing                                      // the heartbeat fires
    | Visit(id: Id)                                 // one iteration of the loop over subscribers
    | Finish                                        // that loop ends
    | Write(h: Handle)                              // a writer takes one message

  predicate Matches(s: Sub, topic: Topic) {
    TOPIC_ALL in s.topics || topic in s.topics
  }

  function NewTopics(names: set<Topic>): set<Topic> {
    if names == {} then {TOPIC_ALL} else names
  }

  predicate HasRoom(s: Sub) {
    |s.log| < s.taken + QUEUE_CAP
  }

  /** Whether the subscriber is offered the message at all. */
  predicate Wants(s: Sub, m: Msg) {
    m.Ping? || Matches(s, m.topic)
  }

  predicate Enabled(s: Hub, a: Action) {
    match a
    case Connect(h, _, _) => h !in s.subs
    case RequestLeave(_) => true
    case Issue(_) => true
    case Enqueue(m) => m in s.inflight
    case Discard(m) => m in s.inflight
    case LoopRegister(h) => s.phase == Idle && h in s.registering && h in s.subs
    case LoopUnregister(id) => s.phase == Idle && id in s.leaving
    case LoopTake => s.phase == Idle && s.channel != []
    case LoopPing => s.phase == Idle
    case Visit(id) => s.phase.Sending? && id in s.phase.todo && id in s.table && s.table[id] in s.subs
    case Finish => s.phase.Sending? && s.phase.todo == {}
    case Write(h) => h in s.subs && s.subs[h].taken < |s.subs[h].log|
  }

  /** Non-blocking send of the message being sent to one subscriber. */
  function Offer(s: Hub, id: Id): Hub
    requires Enabled(s, Visit(id))
  {
    var h := s.table[id];
    var sub, m := s.subs[h], s.phase.msg;
    var t := s.(phase := Sending(m, s.phase.todo - {id}));
    if !Wants(sub, m) then t
    else if sub.closed then t.(panicked := true)
    else if HasRoom(sub) then t.(subs := s.subs[h := sub.(log := sub.log + [m])])
    else if m.Event? then t.(leaving := s.leaving + multiset{id})
    else t
  }

  /** Close the subscriber's queue and forget it; closing a closed queue would panic. */
  function Disconnect(s: Hub, id: Id): Hub {
    var t := s.(leaving := s.leaving - multiset{id});
    if id in s.table && s.table[id] in s.subs then
      var h := s.table[id];
      t.(subs := s.subs[h := s.subs[h].(closed := true)],
         table := s.table - {id},
         panicked := s.panicked || s.subs[h].closed)
    else t
  }

  function Apply(s: Hub, a: Action): Hub
    requires Enabled(s, a)
  {
    match a
    case Connect(h, id, names) =>
      s.(subs := s.subs[h := Sub(id, NewTopics(names), [], 0, false)],
         registering := s.registering + {h})
    case RequestLeave(id) => s.(leaving := s.leaving + multiset{id})
    case Issue(topic) =>
      var m := Event(topic, |s.issued| + 1);
      s.(issued := s.issued + [m], inflight := s.inflight + {m})
    case Enqueue(m) =>
      var t := s.(inflight := s.inflight - {m});
      if |s.channel| < BROADCAST_CAP then t.(channel := s.channel + [m])
      else t.(dropped := s.dropped + 1)
    case Discard(m) => s.(inflight := s.inflight - {m}, dropped := s.dropped + 1)
    case LoopRegister(h) =>
      s.(table := s.table[s.subs[h].id := h], registering := s.registering - {h},
         joined := s.joined[h := |s.sent|])
    case LoopUnregister(id) => Disconnect(s, id)
    case LoopTake =>
      var m := s.channel[0];
      s.(channel := s.channel[1..], totalBroadcasts := s.totalBroadcasts + 1,
         phase := Sending(m, s.table.Keys), sent := s.sent + [m])
    case LoopPing =>
      var m := Ping(|s.issued| + 1);
      s.(issued := s.issued + [m], pings := s.pings + 1,
         phase := Sending(m, s.table.Keys), sent := s.sent + [m])
    case Visit(id) => Offer(s, id)
    case Finish => s.(phase := Idle)
    case Write(h) => s.(subs := s.subs[h := s.subs[h].(taken := s.subs[h].taken + 1)])
  }

  function Step(s: Hub, a: Action): Hub {
    if Enabled(s, a) then Apply(s, a) else s
  }

  /** The hub after an interleaving of actions. */
  function Run(s: Hub, trace: seq<Action>): Hub {
    if trace == [] then s else Step(Run(s, trace[..|trace| - 1]), trace[|trace| - 1])
  }

  // ----- invariant -----

  /** The message carries a number that was issued, and issued to it. */
  ghost predicate Known(s: Hub, m: Msg) {
    1 <= m.seqNo <= |s.issued| && s.issued[m.seqNo - 1] == m
  }

  ghost predicate Numbering(s: Hub) {
    && (forall k :: 0 <= k < |s.issued| ==> s.issued[k].seqNo == k + 1)
    && (forall m :: m in s.inflight ==> Known(s, m) && m.Event?)
    && (forall k :: 0 <= k < |s.channel| ==> Known(s, s.channel[k]) && s.channel[k].Event?)
    && (forall k :: 0 <= k < |s.sent| ==> Known(s, s.sent[k]))
  }

  /** Every message is in exactly one place: in flight, in the channel, sent or dropped. */
  ghost predicate OnePlace(s: Hub) {
    && NoRepeats(s.channel) && NoRepeats(s.sent)
    && (forall m :: m in s.channel ==> m !in s.inflight && m !in s.sent)
    && (forall m :: m in s.sent ==> m !in s.inflight)
  }

  ghost predicate Counted(s: Hub) {
    && |s.issued| == |s.inflight| + |s.channel| + |s.sent| + s.dropped
    && |s.sent| == s.totalBroadcasts + s.pings
    && |s.channel| <= BROADCAST_CAP
  }

  ghost predicate SubOk(s: Hub, sub: Sub) {
    && sub.taken <= |sub.log| <= sub.taken + QUEUE_CAP
    && Subseq(sub.log, s.sent)
    && forall k :: 0 <= k < |sub.log| ==> Wants(sub, sub.log[k])
  }

  ghost predicate SubsOk(s: Hub) {
    forall h :: h in s.subs ==> SubOk(s, s.subs[h])
  }

  /** Connected subscribers have open queues, one entry each; no queue was misused so far. */
  ghost predicate TableOk(s: Hub) {
    && !s.panicked
    && (forall id :: id in s.table ==>
          && s.table[id] in s.subs && s.subs[s.table[id]].id == id
          && !s.subs[s.table[id]].closed && s.table[id] !in s.registering)
    && (forall h :: h in s.registering ==> h in s.subs && !s.subs[h].closed)
  }

  /** The subscriber still has to be visited, so it cannot have the message yet. */
  ghost predicate Waiting(s: Hub, id: Id) {
    id in s.table && s.table[id] in s.subs && s.sent != []
    && Subseq(s.subs[s.table[id]].log, s.sent[..|s.sent| - 1])
  }

  /** A visited subscriber that wants a broadcast has it or is on its way out. */
  ghost predicate Served(s: Hub, id: Id) {
    id in s.table && s.table[id] in s.subs && s.phase.Sending?
    && (s.phase.msg.Event? && Wants(s.subs[s.table[id]], s.phase.msg)
        ==> s.phase.msg in s.subs[s.table[id]].log || id in s.leaving)
  }

  ghost predicate PhaseOk(s: Hub) {
    s.phase.Sending? ==>
      && s.sent != [] && s.phase.msg == s.sent[|s.sent| - 1]
      && s.phase.todo <= s.table.Keys
      && forall id :: id in s.table ==> if id in s.phase.todo then Waiting(s, id) else Served(s, id)
  }

  ghost predicate Inv(s: Hub) {
    Numbering(s) && OnePlace(s) && Counted(s) && SubsOk(s) && TableOk(s) && PhaseOk(s)
  }
}
