/**
 Batches over whole runs, beside everything else that writes transactions and listings: the
 transfer, listing and approval handlers, and the processor of queued batches.
 */
module BatchRuns {
  import opened Common
  import opened BatchNames
  import opened BatchSpec

  /**
   The batch table hands out row ids from `next`. It holds the handler's batches and the queue's;
   of the latter only the ids matter here. A retried batch passes to the queue.
   */
  datatype World = World(store: Store, batches: map<nat, Batch>, queued: set<nat>, next: nat)

  datatype Action =
    | ExecuteBatch(user: nat, ops: seq<Op>, refused: set<nat>)
    | RollbackBatch(user: nat, id: nat)
    | RecordTransfer(tx: Tx)
    | RequestApproval(uuid: string, tx: Tx)
    | PostListing(listing: Listing)
    | QueueBatch
    | RetryBatch(id: nat)
    | ProcessTransfer(id: nat, i: nat, stamp: nat, tx: Tx)
    | ProcessList(id: nat, i: nat, listing: Listing)
    | ProcessCancel(name: string)
    | RollbackQueued(id: nat, ops: seq<Op>)
    | ChangeAssets(assets: set<nat>)

  function Start(assets: set<nat>): World {
    World(Store(assets, map[], map[]), map[], {}, 0)
  }

  /** Names are unique: inserting a taken one fails. */
  function InsertTx(s: Store, name: string, tx: Tx): Store {
    if name in s.transactions then s else s.(transactions := s.transactions[name := tx])
  }

  function InsertListing(s: Store, name: string, l: Listing): Store {
    if name in s.listings then s else s.(listings := s.listings[name := l])
  }

  function Deactivate(s: Store, name: string): Store {
    if name in s.listings then s.(listings := s.listings[name := s.listings[name].(active := false)]) else s
  }

  function ExecuteStep(w: World, user: nat, ops: seq<Op>, refused: set<nat>): World {
    var (t, b) := Execute(w.store, w.next, user, ops, refused);
    w.(store := t, batches := w.batches[w.next := b], next := w.next + 1)
  }

  function RollbackStep(w: World, user: nat, id: nat): World {
    if id !in w.batches then w
    else
      match Rollback(w.store, w.batches[id], user)
      case Err(_) => w
      case Ok(v) => w.(store := v.0, batches := w.batches[id := v.1])
  }

  function Step(w: World, a: Action): World {
    match a
    case ExecuteBatch(user, ops, refused) => if ops == [] then w else ExecuteStep(w, user, ops, refused)
    case RollbackBatch(user, id) => RollbackStep(w, user, id)
    case RecordTransfer(tx) => w.(store := InsertTx(w.store, PLACEHOLDER_HASH, tx))
    case RequestApproval(uuid, tx) => w.(store := InsertTx(w.store, ApprovalHash(uuid), tx))
    case PostListing(l) => w.(store := InsertListing(w.store, FIRST_LISTING, l))
    case QueueBatch => w.(queued := w.queued + {w.next}, next := w.next + 1)
    case RetryBatch(id) =>
      if id in w.batches && w.batches[id].status != StatusCompleted
      then w.(batches := w.batches - {id}, queued := w.queued + {id}) else w
    case ProcessTransfer(id, i, stamp, tx) =>
      if id in w.queued then w.(store := InsertTx(w.store, QueueHash(id, i, stamp), tx)) else w
    case ProcessList(id, i, l) =>
      if id in w.queued then w.(store := InsertListing(w.store, ListingName(id, i), l)) else w
    case ProcessCancel(name) => w.(store := Deactivate(w.store, name))
    case RollbackQueued(id, ops) =>
      if id in w.queued then w.(store := UndoPrefix(w.store, id, ops, |ops|)) else w
    case ChangeAssets(assets) => w.(store := w.store.(assets := assets))
  }

  function Run(assets: set<nat>, trace: seq<Action>): World {
    if trace == [] then Start(assets) else Step(Run(assets, trace[..|trace| - 1]), trace[|trace| - 1])
  }

  // ----- invariant -----

  /** Operation `i` of the kind succeeded. */
  predicate Done(ops: seq<Op>, rs: seq<OpResult>, kind: string, i: nat) {
    i < |ops| && i < |rs| && ops[i].kind == kind && Success(rs[i])
  }

  predicate Committed(b: Batch) {
    b.status == StatusCompleted || b.status == StatusWithErrors
  }

  function TxOf(op: Op): Tx {
    Tx(op.asset, op.from, op.to, op.amount)
  }

  /** A listing, whether still active or not. */
  function ListingOf(op: Op, active: bool): Listing {
    Listing(op.asset, op.from, op.amount, if op.price.Some? then op.price.value else 0, active)
  }

  ghost predicate IdsOk(w: World) {
    && (forall b :: b in w.batches ==> b < w.next && b !in w.queued && w.batches[b].id == b)
    && (forall b :: b in w.queued ==> b < w.next)
  }

  /** The handler's transactions are exactly the successful transfers of batches that stand. */
  ghost predicate TxOk(w: World, b: nat, i: nat) {
    var ts := w.store.transactions;
    && (TxHash(b, i) in ts <==>
        b in w.batches && Committed(w.batches[b]) && Done(w.batches[b].ops, w.batches[b].results, TRANSFER, i))
    && (TxHash(b, i) in ts && b in w.batches && i < |w.batches[b].ops| ==>
          ts[TxHash(b, i)] == TxOf(w.batches[b].ops[i]))
  }

  /** Its listings are exactly those it posted, inactive once the batch is rolled back. */
  ghost predicate ListingOk(w: World, b: nat, i: nat) {
    var ls := w.store.listings;
    && (ListingName(b, i) in ls <==>
        && b in w.batches && w.batches[b].status != StatusFailed
        && Done(w.batches[b].ops, w.batches[b].results, LIST, i))
    && (ListingName(b, i) in ls && b in w.batches && i < |w.batches[b].ops| ==>
          && ls[ListingName(b, i)] == ListingOf(w.batches[b].ops[i], ls[ListingName(b, i)].active)
          && (ls[ListingName(b, i)].active ==> Committed(w.batches[b])))
  }

  ghost predicate Inv(w: World) {
    && IdsOk(w)
    && (forall b: nat, i: nat :: b !in w.queued ==> TxOk(w, b, i))
    && (forall b: nat, i: nat :: b !in w.queued ==> ListingOk(w, b, i))
  }

  // ----- executing under fresh names -----

  ghost predicate Fresh(s: Store, id: nat) {
    forall i: nat :: TxHash(id, i) !in s.transactions && ListingName(id, i) !in s.listings
  }

  /** Transactions are added under the batch's names. */
  ghost predicate TxsGrow(s: Store, t: Store, id: nat) {
    && (forall k :: k in s.transactions ==> k in t.transactions && t.transactions[k] == s.transactions[k])
    && (forall k :: k in t.transactions && k !in s.transactions ==> exists i: nat :: k == TxHash(id, i))
  }

  ghost predicate TxRow(t: Store, id: nat, ops: seq<Op>, rs: seq<OpResult>, i: nat) {
    && (TxHash(id, i) in t.transactions <==> Done(ops, rs, TRANSFER, i))
    && (TxHash(id, i) in t.transactions && i < |ops| ==> t.transactions[TxHash(id, i)] == TxOf(ops[i]))
  }

  /** Listings are added under the batch's names; others can only be deactivated. */
  ghost predicate ListingsGrow(s: Store, t: Store, id: nat) {
    && (forall k :: k in s.listings ==>
          && k in t.listings && t.listings[k] == s.listings[k].(active := t.listings[k].active)
          && (t.listings[k].active ==> s.listings[k].active))
    && (forall k :: k in t.listings && k !in s.listings ==> exists i: nat :: k == ListingName(id, i))
  }

  ghost predicate ListingRow(t: Store, id: nat, ops: seq<Op>, rs: seq<OpResult>, i: nat) {
    && (ListingName(id, i) in t.listings <==> Done(ops, rs, LIST, i))
    && (ListingName(id, i) in t.listings && i < |ops| ==>
          t.listings[ListingName(id, i)] == ListingOf(ops[i], t.listings[ListingName(id, i)].active))
  }

  ghost predicate Effect(s: Store, t: Store, id: nat, ops: seq<Op>, rs: seq<OpResult>) {
    && TxsGrow(s, t, id) && ListingsGrow(s, t, id)
    && (forall i: nat :: TxRow(t, id, ops, rs, i))
    && (forall i: nat :: ListingRow(t, id, ops, rs, i))
  }

  lemma DoneSnoc(ops: seq<Op>, rs: seq<OpResult>, r: OpResult, kind: string, i: nat)
    requires |rs| < |ops|
    ensures Done(ops, rs + [r], kind, i)
            <==> Done(ops, rs, kind, i) || (i == |rs| && ops[i].kind == kind && Success(r))
  {
  }

  lemma ExecOpGrows(s: Store, t: Store, id: nat, n: nat, op: Op, refused: set<nat>)
    requires TxsGrow(s, t, id) && ListingsGrow(s, t, id)
    ensures var u := ExecOp(t, id, n, op, refused).0; TxsGrow(s, u, id) && ListingsGrow(s, u, id)
  {
  }

  lemma ExecOpTxRow(t: Store, id: nat, ops: seq<Op>, rs: seq<OpResult>, refused: set<nat>, i: nat)
    requires |rs| < |ops| && TxRow(t, id, ops, rs, i)
    ensures var (u, r) := ExecOp(t, id, |rs|, ops[|rs|], refused); TxRow(u, id, ops, rs + [r], i)
  {
    var (u, r) := ExecOp(t, id, |rs|, ops[|rs|], refused);
    NamesInjective(id, i, id, |rs|);
    DoneSnoc(ops, rs, r, TRANSFER, i);
  }

  lemma ExecOpListingRow(t: Store, id: nat, ops: seq<Op>, rs: seq<OpResult>, refused: set<nat>, i: nat)
    requires |rs| < |ops| && ListingRow(t, id, ops, rs, i)
    ensures var (u, r) := ExecOp(t, id, |rs|, ops[|rs|], refused); ListingRow(u, id, ops, rs + [r], i)
  {
    var (u, r) := ExecOp(t, id, |rs|, ops[|rs|], refused);
    NamesInjective(id, i, id, |rs|);
    DoneSnoc(ops, rs, r, LIST, i);
  }

  lemma ExecOpEffect(s: Store, t: Store, id: nat, ops: seq<Op>, rs: seq<OpResult>, refused: set<nat>)
    requires |rs| < |ops| && Effect(s, t, id, ops, rs)
    ensures var (u, r) := ExecOp(t, id, |rs|, ops[|rs|], refused); Effect(s, u, id, ops, rs + [r])
  {
    var (u, r) := ExecOp(t, id, |rs|, ops[|rs|], refused);
    ExecOpGrows(s, t, id, |rs|, ops[|rs|], refused);
    forall i: nat ensures TxRow(u, id, ops, rs + [r], i) {
      ExecOpTxRow(t, id, ops, rs, refused, i);
    }
    forall i: nat ensures ListingRow(u, id, ops, rs + [r], i) {
      ExecOpListingRow(t, id, ops, rs, refused, i);
    }
  }

  lemma {:induction false} ExecEffect(s: Store, id: nat, ops: seq<Op>, refused: set<nat>, n: nat)
    requires n <= |ops| && Fresh(s, id)
    ensures var (t, rs) := ExecPrefix(s, id, ops, refused, n); |rs| == n && Effect(s, t, id, ops, rs)
  {
    if n > 0 {
      ExecEffect(s, id, ops, refused, n - 1);
      var (t, rs) := ExecPrefix(s, id, ops, refused, n - 1);
      ExecOpEffect(s, t, id, ops, rs, refused);
    }
  }

  /** An id not issued yet names no row. */
  lemma NextIsFresh(w: World)
    requires Inv(w)
    ensures Fresh(w.store, w.next)
  {
    forall i: nat ensures TxHash(w.next, i) !in w.store.transactions && ListingName(w.next, i) !in w.store.listings {
      assert TxOk(w, w.next, i) && ListingOk(w, w.next, i);
    }
  }

  lemma ExecuteTxOk(w: World, user: nat, ops: seq<Op>, refused: set<nat>, b: nat, i: nat)
    requires Inv(w) && b !in w.queued
    ensures TxOk(ExecuteStep(w, user, ops, refused), b, i)
  {
    var id := w.next;
    NextIsFresh(w);
    ExecEffect(w.store, id, ops, refused, |ops|);
    var (t, rs) := ExecPrefix(w.store, id, ops, refused, |ops|);
    assert TxOk(w, b, i) && TxRow(t, id, ops, rs, i);
    if b != id && TxHash(b, i) in t.transactions && TxHash(b, i) !in w.store.transactions {
      var j: nat :| TxHash(b, i) == TxHash(id, j);
      NamesInjective(b, i, id, j);
    }
  }

  lemma ExecuteListingOk(w: World, user: nat, ops: seq<Op>, refused: set<nat>, b: nat, i: nat)
    requires Inv(w) && b !in w.queued
    ensures ListingOk(ExecuteStep(w, user, ops, refused), b, i)
  {
    var id := w.next;
    NextIsFresh(w);
    ExecEffect(w.store, id, ops, refused, |ops|);
    var (t, rs) := ExecPrefix(w.store, id, ops, refused, |ops|);
    assert ListingOk(w, b, i) && ListingRow(t, id, ops, rs, i);
    if b != id && ListingName(b, i) in t.listings && ListingName(b, i) !in w.store.listings {
      var j: nat :| ListingName(b, i) == ListingName(id, j);
      NamesInjective(b, i, id, j);
    }
  }

  lemma ExecuteKeepsInv(w: World, user: nat, ops: seq<Op>, refused: set<nat>)
    requires Inv(w)
    ensures Inv(ExecuteStep(w, user, ops, refused))
  {
    var w' := ExecuteStep(w, user, ops, refused);
    forall b: nat, i: nat | b !in w'.queued ensures TxOk(w', b, i) {
      ExecuteTxOk(w, user, ops, refused, b, i);
    }
    forall b: nat, i: nat | b !in w'.queued ensures ListingOk(w', b, i) {
      ExecuteListingOk(w, user, ops, refused, b, i);
    }
  }

  // ----- undoing -----

  /** Undoing a batch leaves the rows of every other batch alone. */
  lemma UndoSparesOthers(s: Store, id: nat, ops: seq<Op>, b: nat, i: nat)
    requires b != id
    ensures var t := UndoPrefix(s, id, ops, |ops|);
            && (TxHash(b, i) in t.transactions <==> TxHash(b, i) in s.transactions)
            && (TxHash(b, i) in t.transactions ==> t.transactions[TxHash(b, i)] == s.transactions[TxHash(b, i)])
            && (ListingName(b, i) in t.listings <==> ListingName(b, i) in s.listings)
            && (ListingName(b, i) in t.listings ==> t.listings[ListingName(b, i)] == s.listings[ListingName(b, i)])
  {
    UndoEffect(s, id, ops, |ops|);
    forall j | 0 <= j < |ops| ensures TxHash(b, i) != TxHash(id, j) && ListingName(b, i) != ListingName(id, j) {
      NamesInjective(b, i, id, j);
    }
  }

  lemma UndoOwnTx(s: Store, id: nat, ops: seq<Op>, i: nat)
    requires i < |ops| && ops[i].kind == TRANSFER
    ensures TxHash(id, i) !in UndoPrefix(s, id, ops, |ops|).transactions
  {
    UndoEffect(s, id, ops, |ops|);
  }

  lemma UndoOwnListing(s: Store, id: nat, ops: seq<Op>, i: nat)
    ensures var t := UndoPrefix(s, id, ops, |ops|);
            && (ListingName(id, i) in t.listings <==> ListingName(id, i) in s.listings)
            && (ListingName(id, i) in t.listings ==>
                  var l := s.listings[ListingName(id, i)];
                  t.listings[ListingName(id, i)]
                    == if i < |ops| && ops[i].kind == LIST then l.(active := false) else l)
  {
    UndoEffect(s, id, ops, |ops|);
    forall j | 0 <= j < |ops| && ListingName(id, i) == ListingName(id, j) ensures i == j {
      NamesInjective(id, i, id, j);
    }
  }

  lemma RollbackKeepsInv(w: World, user: nat, id: nat)
    requires Inv(w) && id in w.batches && Rollback(w.store, w.batches[id], user).Ok?
    ensures Inv(RollbackStep(w, user, id))
  {
    var w', ops := RollbackStep(w, user, id), w.batches[id].ops;
    forall b: nat, i: nat | b !in w'.queued ensures TxOk(w', b, i) {
      assert TxOk(w, b, i);
      if b != id {
        UndoSparesOthers(w.store, id, ops, b, i);
      } else {
        RollbackTxOk(w, user, id, i);
      }
    }
    forall b: nat, i: nat | b !in w'.queued ensures ListingOk(w', b, i) {
      assert ListingOk(w, b, i);
      if b != id {
        UndoSparesOthers(w.store, id, ops, b, i);
      } else {
        UndoOwnListing(w.store, id, ops, i);
      }
    }
  }

  lemma RollbackTxOk(w: World, user: nat, id: nat, i: nat)
    requires Inv(w) && id in w.batches && Rollback(w.store, w.batches[id], user).Ok?
    ensures TxHash(id, i) !in RollbackStep(w, user, id).store.transactions
  {
    var ops := w.batches[id].ops;
    assert TxOk(w, id, i);
    UndoEffect(w.store, id, ops, |ops|);
    if TxHash(id, i) in w.store.transactions {
      UndoOwnTx(w.store, id, ops, i);
    }
  }

  // ----- the other writers -----

  /** The rows under a batch's names stay, except that listings may be deactivated. */
  ghost predicate RowsKept(w: World, w': World, b: nat, i: nat) {
    var ts, ts', ls, ls' := w.store.transactions, w'.store.transactions, w.store.listings, w'.store.listings;
    && (TxHash(b, i) in ts' <==> TxHash(b, i) in ts)
    && (TxHash(b, i) in ts' ==> ts'[TxHash(b, i)] == ts[TxHash(b, i)])
    && (ListingName(b, i) in ls' <==> ListingName(b, i) in ls)
    && (ListingName(b, i) in ls' ==>
          || ls'[ListingName(b, i)] == ls[ListingName(b, i)]
          || ls'[ListingName(b, i)] == ls[ListingName(b, i)].(active := false))
  }

  lemma RowsKeptKeepInv(w: World, w': World)
    requires Inv(w) && IdsOk(w') && w.queued <= w'.queued
    requires forall b :: b !in w'.queued ==> (b in w'.batches <==> b in w.batches)
    requires forall b :: b in w'.batches ==> b in w.batches && w'.batches[b] == w.batches[b]
    requires forall b: nat, i: nat :: b !in w'.queued ==> RowsKept(w, w', b, i)
    ensures Inv(w')
  {
    forall b: nat, i: nat | b !in w'.queued ensures TxOk(w', b, i) && ListingOk(w', b, i) {
      assert RowsKept(w, w', b, i) && TxOk(w, b, i) && ListingOk(w, b, i);
    }
  }

  lemma InsertTxKeepsInv(w: World, name: string, tx: Tx)
    requires Inv(w) && forall b: nat, i: nat :: name != TxHash(b, i)
    ensures Inv(w.(store := InsertTx(w.store, name, tx)))
  {
    RowsKeptKeepInv(w, w.(store := InsertTx(w.store, name, tx)));
  }

  lemma InsertListingKeepsInv(w: World, name: string, l: Listing)
    requires Inv(w) && forall b: nat, i: nat :: b !in w.queued ==> name != ListingName(b, i)
    ensures Inv(w.(store := InsertListing(w.store, name, l)))
  {
    RowsKeptKeepInv(w, w.(store := InsertListing(w.store, name, l)));
  }

  lemma RollbackQueuedKeepsInv(w: World, id: nat, ops: seq<Op>)
    requires Inv(w) && id in w.queued
    ensures Inv(Step(w, RollbackQueued(id, ops)))
  {
    var w' := Step(w, RollbackQueued(id, ops));
    forall b: nat, i: nat | b !in w'.queued ensures RowsKept(w, w', b, i) {
      UndoSparesOthers(w.store, id, ops, b, i);
    }
    RowsKeptKeepInv(w, w');
  }

  lemma TransferNames(a: Action, b: nat, i: nat)
    ensures a.RecordTransfer? ==> PLACEHOLDER_HASH != TxHash(b, i)
    ensures a.RequestApproval? ==> ApprovalHash(a.uuid) != TxHash(b, i)
    ensures a.ProcessTransfer? ==> QueueHash(a.id, a.i, a.stamp) != TxHash(b, i)
  {
    if a.RequestApproval? {
      PlainNamesDistinct(a.uuid, b, i);
    } else if a.ProcessTransfer? {
      QueueHashDistinct(a.id, a.i, a.stamp, b, i);
    } else {
      PlainNamesDistinct("", b, i);
    }
  }

  lemma TransfersKeepInv(w: World, a: Action)
    requires Inv(w) && (a.RecordTransfer? || a.RequestApproval? || a.ProcessTransfer?)
    ensures Inv(Step(w, a))
  {
    forall b: nat, i: nat
      ensures a.RecordTransfer? ==> PLACEHOLDER_HASH != TxHash(b, i)
      ensures a.RequestApproval? ==> ApprovalHash(a.uuid) != TxHash(b, i)
      ensures a.ProcessTransfer? ==> QueueHash(a.id, a.i, a.stamp) != TxHash(b, i)
    {
      TransferNames(a, b, i);
    }
    match a
    case RecordTransfer(tx) => InsertTxKeepsInv(w, PLACEHOLDER_HASH, tx);
    case RequestApproval(uuid, tx) => InsertTxKeepsInv(w, ApprovalHash(uuid), tx);
    case ProcessTransfer(id, i, stamp, tx) => InsertTxKeepsInv(w, QueueHash(id, i, stamp), tx);
  }

  lemma PostListingKeepsInv(w: World, l: Listing)
    requires Inv(w)
    ensures Inv(Step(w, PostListing(l)))
  {
    forall b: nat, i: nat ensures FIRST_LISTING != ListingName(b, i) {
      PlainNamesDistinct("", b, i);
    }
    InsertListingKeepsInv(w, FIRST_LISTING, l);
  }

  lemma ProcessListKeepsInv(w: World, id: nat, i: nat, l: Listing)
    requires Inv(w) && id in w.queued
    ensures Inv(Step(w, ProcessList(id, i, l)))
  {
    forall b: nat, j: nat | b !in w.queued ensures ListingName(id, i) != ListingName(b, j) {
      NamesInjective(id, i, b, j);
    }
    InsertListingKeepsInv(w, ListingName(id, i), l);
  }

  // ----- runs -----

  lemma BatchStepKeepsInv(w: World, a: Action)
    requires Inv(w) && (a.ExecuteBatch? || a.RollbackBatch?)
    ensures Inv(Step(w, a))
  {
    match a
    case ExecuteBatch(user, ops, refused) => ExecuteKeepsInv(w, user, ops, refused);
    case RollbackBatch(user, id) =>
      if id in w.batches && Rollback(w.store, w.batches[id], user).Ok? {
        RollbackKeepsInv(w, user, id);
      }
  }

  lemma StepKeepsInv(w: World, a: Action)
    requires Inv(w)
    ensures Inv(Step(w, a))
  {
    match a
    case ExecuteBatch(_, _, _) => BatchStepKeepsInv(w, a);
    case RollbackBatch(_, _) => BatchStepKeepsInv(w, a);
    case RecordTransfer(_) => TransfersKeepInv(w, a);
    case RequestApproval(_, _) => TransfersKeepInv(w, a);
    case ProcessTransfer(_, _, _, _) => TransfersKeepInv(w, a);
    case PostListing(l) => PostListingKeepsInv(w, l);
    case QueueBatch => RowsKeptKeepInv(w, Step(w, a));
    case RetryBatch(_) => RowsKeptKeepInv(w, Step(w, a));
    case ProcessList(id, i, l) => if id in w.queued { ProcessListKeepsInv(w, id, i, l); }
    case ProcessCancel(_) => RowsKeptKeepInv(w, Step(w, a));
    case RollbackQueued(id, ops) => if id in w.queued { RollbackQueuedKeepsInv(w, id, ops); }
    case ChangeAssets(_) => RowsKeptKeepInv(w, Step(w, a));
  }

  lemma {:induction false} RunKeepsInv(assets: set<nat>, trace: seq<Action>)
    ensures Inv(Run(assets, trace))
  {
    if trace != [] {
      RunKeepsInv(assets, trace[..|trace| - 1]);
      StepKeepsInv(Run(assets, trace[..|trace| - 1]), trace[|trace| - 1]);
    }
  }

  // ----- what a rollback does, in every run -----

  /** In every run: each transaction and listing of the handler's batches follows from their results. */
  lemma RowsAccounted(assets: set<nat>, trace: seq<Action>, b: nat, i: nat)
    ensures var w := Run(assets, trace);
            && (b !in w.queued ==> TxOk(w, b, i) && ListingOk(w, b, i))
            && (w.next <= b ==> TxHash(b, i) !in w.store.transactions && ListingName(b, i) !in w.store.listings)
  {
    RunKeepsInv(assets, trace);
    var w := Run(assets, trace);
    assert b !in w.queued ==> TxOk(w, b, i) && ListingOk(w, b, i);
  }

  lemma RollbackRestoresHere(w: World, user: nat, ops: seq<Op>, refused: set<nat>)
    requires Inv(w) && ops != [] && !HasCancel(ops)
    ensures var (t, b) := Execute(w.store, w.next, user, ops, refused);
            if b.status == StatusFailed then t == w.store
            else
              var r := Rollback(t, b, user);
              && r.Ok? && r.value.1.status == StatusRolledBack
              && r.value.0.transactions == w.store.transactions
              && ActiveListings(r.value.0) == ActiveListings(w.store)
  {
    NextIsFresh(w);
    assert NamesFree(w.store, w.next, ops);
    if Execute(w.store, w.next, user, ops, refused).1.status != StatusFailed {
      RollbackRestores(w.store, w.next, user, ops, refused);
    }
  }

  /**
   In every run, executing a batch without cancellations and rolling it back restores the
   transactions and the active listings.
   */
  lemma RollbackAlwaysRestores(assets: set<nat>, trace: seq<Action>, user: nat, ops: seq<Op>, refused: set<nat>)
    requires ops != [] && !HasCancel(ops)
    ensures var w := Run(assets, trace);
            var done := Step(w, ExecuteBatch(user, ops, refused));
            var undone := Step(done, RollbackBatch(user, w.next));
            && w.next in done.batches && w.next in undone.batches
            && (done.batches[w.next].status != StatusFailed ==> undone.batches[w.next].status == StatusRolledBack)
            && undone.store.transactions == w.store.transactions
            && ActiveListings(undone.store) == ActiveListings(w.store)
  {
    RunKeepsInv(assets, trace);
    RollbackRestoresHere(Run(assets, trace), user, ops, refused);
  }

  /**
   In every run, whatever happened since, an accepted rollback removes exactly the batch's own
   transactions, deactivates exactly its own listings, and touches no other row.
   */
  lemma RollbackUndoesOnlyItsOwn(assets: set<nat>, trace: seq<Action>, user: nat, id: nat)
    requires var w := Run(assets, trace); id in w.batches && Rollback(w.store, w.batches[id], user).Ok?
    ensures var s := Run(assets, trace).store;
            var t := Step(Run(assets, trace), RollbackBatch(user, id)).store;
            && (forall k :: k in t.transactions <==> k in s.transactions && forall i: nat :: k != TxHash(id, i))
            && (forall k :: k in t.transactions ==> k in s.transactions && t.transactions[k] == s.transactions[k])
            && (forall k :: k in t.listings <==> k in s.listings)
            && (forall i: nat :: ListingName(id, i) in t.listings ==> !t.listings[ListingName(id, i)].active)
            && (forall k :: k in t.listings && (forall i: nat :: k != ListingName(id, i)) ==>
                  k in s.listings && t.listings[k] == s.listings[k])
  {
    var w := Run(assets, trace);
    RunKeepsInv(assets, trace);
    var w', ops := Step(w, RollbackBatch(user, id)), w.batches[id].ops;
    assert w.batches[id].id == id;
    UndoEffect(w.store, id, ops, |ops|);
    forall i: nat ensures TxHash(id, i) !in w'.store.transactions {
      RollbackTxOk(w, user, id, i);
    }
    StepKeepsInv(w, RollbackBatch(user, id));
    forall i: nat | ListingName(id, i) in w'.store.listings
      ensures !w'.store.listings[ListingName(id, i)].active
    {
      assert ListingOk(w', id, i);
    }
  }
}
