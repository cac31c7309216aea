/**
 Batches of marketplace operations: a partial-success interpreter and its compensating rollback.

 `refused` holds the indices at which the store refuses a write for a reason of its own; every
 result holds whatever it contains.
 */
module BatchSpec {
  import opened Common
  import opened BatchNames

  datatype Tx = Tx(asset: nat, from: string, to: string, amount: int)

  datatype Listing = Listing(asset: nat, seller: string, amount: int, price: int, active: bool)

  datatype Store = Store(assets: set<nat>, transactions: map<string, Tx>, listings: map<string, Listing>)

  /** `price` and `listingId` come from the extra parameters; an absent id is empty. */
  datatype Op = Op(kind: string, asset: nat, from: string, to: string, amount: int,
                   price: Option<int>, listingId: string)

  datatype Failure = AssetNotFound | CreateFailed | UpdateFailed | ListingIdRequired | ListingNotFound | Unsupported

  datatype OpResult = OpResult(index: nat, kind: string, failure: Option<Failure>, resource: string,
                               previousActive: Option<bool>)

  const TRANSFER := "transfer"
  const LIST := "list"
  const CANCEL := "cancel_listing"

  predicate Success(r: OpResult) {
    r.failure == None
  }

  // ----- executing -----

  function Failed(i: nat, op: Op, f: Failure): OpResult {
    OpResult(i, op.kind, Some(f), "", None)
  }

  function ExecOp(s: Store, batch: nat, i: nat, op: Op, refused: set<nat>): (Store, OpResult) {
    if op.kind == TRANSFER then
      var hash := TxHash(batch, i);
      if op.asset !in s.assets then (s, Failed(i, op, AssetNotFound))
      else if hash in s.transactions || i in refused then (s, Failed(i, op, CreateFailed))
      else (s.(transactions := s.transactions[hash := Tx(op.asset, op.from, op.to, op.amount)]),
            OpResult(i, op.kind, None, hash, None))
    else if op.kind == LIST then
      var name := ListingName(batch, i);
      var price := if op.price.Some? then op.price.value else 0;
      if name in s.listings || i in refused then (s, Failed(i, op, CreateFailed))
      else (s.(listings := s.listings[name := Listing(op.asset, op.from, op.amount, price, true)]),
            OpResult(i, op.kind, None, name, None))
    else if op.kind == CANCEL then
      var name := op.listingId;
      if name == "" then (s, Failed(i, op, ListingIdRequired))
      else if name !in s.listings then (s, Failed(i, op, ListingNotFound))
      else if i in refused then (s, Failed(i, op, UpdateFailed))
      else (s.(listings := s.listings[name := s.listings[name].(active := false)]),
            OpResult(i, op.kind, None, name, Some(s.listings[name].active)))
    else (s, Failed(i, op, Unsupported))
  }

  /** The first `n` operations: the working store and one result per operation. */
  function ExecPrefix(s: Store, batch: nat, ops: seq<Op>, refused: set<nat>, n: nat): (Store, seq<OpResult>)
    requires n <= |ops|
  {
    if n == 0 then (s, [])
    else
      var (t, rs) := ExecPrefix(s, batch, ops, refused, n - 1);
      var (u, r) := ExecOp(t, batch, n - 1, ops[n - 1], refused);
      (u, rs + [r])
  }

  function Completed(rs: seq<OpResult>): nat {
    if rs == [] then 0 else Completed(rs[..|rs| - 1]) + if Success(rs[|rs| - 1]) then 1 else 0
  }

  datatype Status = StatusCompleted | StatusWithErrors | StatusFailed | StatusRolledBack

  datatype Batch = Batch(id: nat, user: nat, ops: seq<Op>, status: Status,
                         results: seq<OpResult>, completed: nat, failed: nat)

  /** Run a batch; when every operation failed, nothing is committed. */
  function Execute(s: Store, id: nat, user: nat, ops: seq<Op>, refused: set<nat>): (Store, Batch) {
    var (t, rs) := ExecPrefix(s, id, ops, refused, |ops|);
    var done := Completed(rs);
    ExecPrefixAligned(s, id, ops, refused, |ops|);
    CompletedBounds(rs);
    var failed := |ops| - done;
    var status := if failed > 0 && done == 0 then StatusFailed
                  else if failed > 0 then StatusWithErrors else StatusCompleted;
    (if status == StatusFailed then s else t, Batch(id, user, ops, status, rs, done, failed))
  }

  lemma {:induction false} CompletedBounds(rs: seq<OpResult>)
    ensures Completed(rs) <= |rs|
    ensures Completed(rs) == 0 <==> forall i :: 0 <= i < |rs| ==> !Success(rs[i])
  {
    if rs != [] {
      CompletedBounds(rs[..|rs| - 1]);
    }
  }

  /** Results align with the operations, index by index. */
  lemma {:induction false} ExecPrefixAligned(s: Store, batch: nat, ops: seq<Op>, refused: set<nat>, n: nat)
    requires n <= |ops|
    ensures var rs := ExecPrefix(s, batch, ops, refused, n).1;
            && |rs| == n
            && forall i :: 0 <= i < n ==> rs[i].index == i && rs[i].kind == ops[i].kind
  {
    if n > 0 {
      ExecPrefixAligned(s, batch, ops, refused, n - 1);
      ExecOpAligned(ExecPrefix(s, batch, ops, refused, n - 1).0, batch, n - 1, ops[n - 1], refused);
    }
  }

  lemma ExecOpAligned(s: Store, batch: nat, i: nat, op: Op, refused: set<nat>)
    ensures var r := ExecOp(s, batch, i, op, refused).1; r.index == i && r.kind == op.kind
  {
  }

  /** The counts add up, results align index by index, and an all-failed batch leaves no trace. */
  lemma BatchAccounted(s: Store, id: nat, user: nat, ops: seq<Op>, refused: set<nat>)
    requires ops != []
    ensures var (t, b) := Execute(s, id, user, ops, refused);
            && b.id == id && b.user == user && b.ops == ops
            && |b.results| == |ops| == b.completed + b.failed
            && (forall i :: 0 <= i < |ops| ==> b.results[i].index == i && b.results[i].kind == ops[i].kind)
            && (b.status == StatusFailed <==> forall i :: 0 <= i < |ops| ==> !Success(b.results[i]))
            && (b.status == StatusFailed ==> t == s)
            && (b.status == StatusCompleted <==> forall i :: 0 <= i < |ops| ==> Success(b.results[i]))
            && (b.status == StatusCompleted <==> b.failed == 0)
            && (b.status == StatusWithErrors <==> 0 < b.failed && 0 < b.completed)
  {
    ExecPrefixAligned(s, id, ops, refused, |ops|);
    CompletedBounds(ExecPrefix(s, id, ops, refused, |ops|).1);
    CompletedAll(ExecPrefix(s, id, ops, refused, |ops|).1);
  }

  lemma {:induction false} CompletedAll(rs: seq<OpResult>)
    ensures Completed(rs) == |rs| <==> forall i :: 0 <= i < |rs| ==> Success(rs[i])
  {
    if rs != [] {
      var n := |rs| - 1;
      CompletedBounds(rs[..n]);
      CompletedAll(rs[..n]);
    }
  }

  // ----- rolling back -----

  datatype RollbackError = NotOwner | NotCompleted | ContainsCancel

  function UndoOp(s: Store, batch: nat, i: nat, op: Op): Store {
    if op.kind == TRANSFER then s.(transactions := s.transactions - {TxHash(batch, i)})
    else if op.kind == LIST then
      var name := ListingName(batch, i);
      if name in s.listings then s.(listings := s.listings[name := s.listings[name].(active := false)])
      else s
    else s
  }

  function UndoPrefix(s: Store, batch: nat, ops: seq<Op>, n: nat): Store
    requires n <= |ops|
  {
    if n == 0 then s else UndoOp(UndoPrefix(s, batch, ops, n - 1), batch, n - 1, ops[n - 1])
  }

  predicate HasCancel(ops: seq<Op>) {
    exists i :: 0 <= i < |ops| && ops[i].kind == CANCEL
  }

  function Rollback(s: Store, b: Batch, user: nat): Result<(Store, Batch), RollbackError> {
    if b.user != user then Err(NotOwner)
    else if b.status != StatusCompleted && b.status != StatusWithErrors then Err(NotCompleted)
    else if HasCancel(b.ops) then Err(ContainsCancel)
    else Ok((UndoPrefix(s, b.id, b.ops, |b.ops|), b.(status := StatusRolledBack)))
  }

  // ----- what executing and undoing do to the tables -----

  ghost predicate IsTxName(batch: nat, ops: seq<Op>, n: nat, name: string)
    requires n <= |ops|
  {
    exists i :: 0 <= i < n && ops[i].kind == TRANSFER && name == TxHash(batch, i)
  }

  ghost predicate IsListingName(batch: nat, ops: seq<Op>, n: nat, name: string)
    requires n <= |ops|
  {
    exists i :: 0 <= i < n && ops[i].kind == LIST && name == ListingName(batch, i)
  }

  /** Rows that differ between `s` and `t` carry one of the batch's first `n` names. */
  ghost predicate OnlyOwnRows(s: Store, t: Store, batch: nat, ops: seq<Op>, n: nat)
    requires n <= |ops|
  {
    && t.assets == s.assets
    && (forall k :: k in s.transactions ==> k in t.transactions && t.transactions[k] == s.transactions[k])
    && (forall k :: k in s.listings ==> k in t.listings && t.listings[k] == s.listings[k])
    && (forall k :: k in t.transactions && k !in s.transactions ==> IsTxName(batch, ops, n, k))
    && (forall k :: k in t.listings && k !in s.listings ==> IsListingName(batch, ops, n, k))
  }

  lemma ExecOpOnlyAdds(s: Store, t: Store, batch: nat, ops: seq<Op>, refused: set<nat>, n: nat)
    requires 0 < n <= |ops| && ops[n - 1].kind != CANCEL && OnlyOwnRows(s, t, batch, ops, n - 1)
    ensures OnlyOwnRows(s, ExecOp(t, batch, n - 1, ops[n - 1], refused).0, batch, ops, n)
  {
    NamesGrow(batch, ops, n);
  }

  /** Without cancellations, executing only adds rows, under the batch's own names. */
  lemma {:induction false} ExecuteOnlyAdds(s: Store, batch: nat, ops: seq<Op>, refused: set<nat>, n: nat)
    requires n <= |ops| && !HasCancel(ops)
    ensures OnlyOwnRows(s, ExecPrefix(s, batch, ops, refused, n).0, batch, ops, n)
  {
    if n > 0 {
      ExecuteOnlyAdds(s, batch, ops, refused, n - 1);
      ExecOpOnlyAdds(s, ExecPrefix(s, batch, ops, refused, n - 1).0, batch, ops, refused, n);
    }
  }

  /** Undoing removes the transactions and deactivates the listings that carry the batch's names. */
  ghost predicate Undone(s: Store, t: Store, batch: nat, ops: seq<Op>, n: nat)
    requires n <= |ops|
  {
    && (forall k :: k in t.transactions <==> k in s.transactions && !IsTxName(batch, ops, n, k))
    && (forall k :: k in t.transactions ==> k in s.transactions && t.transactions[k] == s.transactions[k])
    && (forall k :: k in t.listings <==> k in s.listings)
    && (forall k :: k in t.listings ==>
          t.listings[k] == if IsListingName(batch, ops, n, k) then s.listings[k].(active := false) else s.listings[k])
  }

  lemma {:induction false} UndoEffect(s: Store, batch: nat, ops: seq<Op>, n: nat)
    requires n <= |ops|
    ensures Undone(s, UndoPrefix(s, batch, ops, n), batch, ops, n)
  {
    if n > 0 {
      UndoEffect(s, batch, ops, n - 1);
      NamesGrow(batch, ops, n);
    }
  }

  lemma NamesGrow(batch: nat, ops: seq<Op>, n: nat)
    requires 0 < n <= |ops|
    ensures forall k :: IsTxName(batch, ops, n, k)
              <==> IsTxName(batch, ops, n - 1, k) || (ops[n - 1].kind == TRANSFER && k == TxHash(batch, n - 1))
    ensures forall k :: IsListingName(batch, ops, n, k)
              <==> IsListingName(batch, ops, n - 1, k) || (ops[n - 1].kind == LIST && k == ListingName(batch, n - 1))
  {
  }

  // ----- execute, then roll back -----

  function ActiveListings(s: Store): map<string, Listing> {
    map k | k in s.listings && s.listings[k].active :: s.listings[k]
  }

  /** No transaction and no active listing already carries a name this batch will use. */
  ghost predicate NamesFree(s: Store, batch: nat, ops: seq<Op>) {
    forall i :: 0 <= i < |ops| ==>
      && (ops[i].kind == TRANSFER ==> TxHash(batch, i) !in s.transactions)
      && (ops[i].kind == LIST ==> ListingName(batch, i) !in ActiveListings(s))
  }

  /** Transactions and active listings after executing and rolling back a batch. */
  lemma RollbackLeaves(s: Store, id: nat, user: nat, ops: seq<Op>, refused: set<nat>)
    requires !HasCancel(ops)
    ensures var t := UndoPrefix(ExecPrefix(s, id, ops, refused, |ops|).0, id, ops, |ops|);
            && (forall k :: k in t.transactions <==> k in s.transactions && !IsTxName(id, ops, |ops|, k))
            && (forall k :: k in t.transactions ==> k in s.transactions && t.transactions[k] == s.transactions[k])
            && (forall k :: k in ActiveListings(t)
                  <==> k in ActiveListings(s) && !IsListingName(id, ops, |ops|, k))
            && (forall k :: k in ActiveListings(t) ==> k in s.listings && ActiveListings(t)[k] == s.listings[k])
  {
    var u := ExecPrefix(s, id, ops, refused, |ops|).0;
    ExecuteOnlyAdds(s, id, ops, refused, |ops|);
    UndoEffect(u, id, ops, |ops|);
  }

  /**
   Rolling back a completed batch restores the earlier transactions and active listings if and only
   if none of them already carried one of the batch's names.
   */
  lemma RollbackRestores(s: Store, id: nat, user: nat, ops: seq<Op>, refused: set<nat>)
    requires ops != [] && !HasCancel(ops)
    requires Execute(s, id, user, ops, refused).1.status != StatusFailed
    ensures var (t, b) := Execute(s, id, user, ops, refused);
            var r := Rollback(t, b, user);
            && r.Ok? && r.value.1.status == StatusRolledBack
            && ((r.value.0.transactions == s.transactions && ActiveListings(r.value.0) == ActiveListings(s))
                <==> NamesFree(s, id, ops))
  {
    RollbackLeaves(s, id, user, ops, refused);
    var (t, b) := Execute(s, id, user, ops, refused);
    var u := Rollback(t, b, user).value.0;
    if NamesFree(s, id, ops) {
      FreeNamesUnused(s, id, ops);
      assert u.transactions == s.transactions;
      assert ActiveListings(u) == ActiveListings(s);
    } else {
      TakenNameUsed(s, id, ops);
    }
  }

  lemma FreeNamesUnused(s: Store, id: nat, ops: seq<Op>)
    requires NamesFree(s, id, ops)
    ensures forall k :: k in s.transactions ==> !IsTxName(id, ops, |ops|, k)
    ensures forall k :: k in ActiveListings(s) ==> !IsListingName(id, ops, |ops|, k)
  {
  }

  lemma TakenNameUsed(s: Store, id: nat, ops: seq<Op>)
    requires !NamesFree(s, id, ops)
    ensures || (exists k :: k in s.transactions && IsTxName(id, ops, |ops|, k))
            || (exists k :: k in ActiveListings(s) && IsListingName(id, ops, |ops|, k))
  {
    var i :| 0 <= i < |ops| && !((ops[i].kind == TRANSFER ==> TxHash(id, i) !in s.transactions)
                                 && (ops[i].kind == LIST ==> ListingName(id, i) !in ActiveListings(s)));
    if ops[i].kind == TRANSFER {
      assert IsTxName(id, ops, |ops|, TxHash(id, i));
    } else {
      assert IsListingName(id, ops, |ops|, ListingName(id, i));
    }
  }

  // ----- which operations succeed -----

  /** The operation does not depend on the others in a batch without cancellations. */
  predicate Valid(s: Store, batch: nat, i: nat, op: Op, refused: set<nat>) {
    && i !in refused
    && ((op.kind == TRANSFER && op.asset in s.assets && TxHash(batch, i) !in s.transactions)
        || (op.kind == LIST && ListingName(batch, i) !in s.listings))
  }

  lemma OwnNameUnaffected(s: Store, batch: nat, ops: seq<Op>, refused: set<nat>, n: nat)
    requires 0 < n <= |ops| && !HasCancel(ops)
    ensures var t := ExecPrefix(s, batch, ops, refused, n - 1).0;
            && t.assets == s.assets
            && (TxHash(batch, n - 1) in t.transactions <==> TxHash(batch, n - 1) in s.transactions)
            && (ListingName(batch, n - 1) in t.listings <==> ListingName(batch, n - 1) in s.listings)
  {
    ExecuteOnlyAdds(s, batch, ops, refused, n - 1);
    OwnNameStillFree(batch, ops, n);
  }

  /** Each operation succeeds or fails on its own: no operation's outcome affects another's. */
  lemma {:induction false} OperationsIndependent(s: Store, batch: nat, ops: seq<Op>, refused: set<nat>, n: nat)
    requires n <= |ops| && !HasCancel(ops)
    ensures var rs := ExecPrefix(s, batch, ops, refused, n).1;
            |rs| == n && forall i :: 0 <= i < n ==> (Success(rs[i]) <==> Valid(s, batch, i, ops[i], refused))
  {
    if n > 0 {
      OperationsIndependent(s, batch, ops, refused, n - 1);
      OwnNameUnaffected(s, batch, ops, refused, n);
      assert ops[n - 1].kind != CANCEL;
    }
  }

  lemma OwnNameStillFree(batch: nat, ops: seq<Op>, n: nat)
    requires 0 < n <= |ops|
    ensures !IsTxName(batch, ops, n - 1, TxHash(batch, n - 1))
    ensures !IsListingName(batch, ops, n - 1, ListingName(batch, n - 1))
  {
    forall i | 0 <= i < n - 1
      ensures TxHash(batch, i) != TxHash(batch, n - 1) && ListingName(batch, i) != ListingName(batch, n - 1)
    {
      NamesInjective(batch, i, batch, n - 1);
    }
  }

  // ----- one operation, and the right to roll back -----

  /** When an operation succeeds: it is of a known kind and finds what it needs. */
  lemma OpSucceedsExactly(s: Store, batch: nat, i: nat, op: Op, refused: set<nat>)
    ensures Success(ExecOp(s, batch, i, op, refused).1)
            <==> && i !in refused
                 && (|| (op.kind == "transfer" && op.asset in s.assets && TxHash(batch, i) !in s.transactions)
                     || (op.kind == "list" && ListingName(batch, i) !in s.listings)
                     || (op.kind == "cancel_listing" && op.listingId != "" && op.listingId in s.listings))
  {
  }

  /** What an operation changes: one row, holding the operation's own values; nothing if it fails. */
  lemma OpSettles(s: Store, batch: nat, i: nat, op: Op, refused: set<nat>)
    ensures var (t, r) := ExecOp(s, batch, i, op, refused);
            && t.assets == s.assets && r.index == i && r.kind == op.kind
            && (r.failure != None ==> t == s)
            && (r.failure == None && op.kind == "transfer" ==>
                  && t.listings == s.listings && r.resource == TxHash(batch, i)
                  && t.transactions == s.transactions[TxHash(batch, i) := Tx(op.asset, op.from, op.to, op.amount)])
            && (r.failure == None && op.kind == "list" ==>
                  && t.transactions == s.transactions && r.resource == ListingName(batch, i)
                  && t.listings == s.listings[ListingName(batch, i) :=
                       Listing(op.asset, op.from, op.amount, match op.price case Some(x) => x case None => 0, true)])
            && (r.failure == None && op.kind == "cancel_listing" ==>
                  && t.transactions == s.transactions && r.resource == op.listingId && op.listingId in s.listings
                  && t.listings == s.listings[op.listingId := s.listings[op.listingId].(active := false)]
                  && r.previousActive == Some(s.listings[op.listingId].active))
  {
  }

  /** The failure an operation reports is the case. */
  lemma FailureIsTrue(s: Store, batch: nat, i: nat, op: Op, refused: set<nat>)
    ensures match ExecOp(s, batch, i, op, refused).1.failure
            case None => true
            case Some(AssetNotFound) => op.kind == "transfer" && op.asset !in s.assets
            case Some(CreateFailed) =>
              || i in refused || (op.kind == "transfer" && TxHash(batch, i) in s.transactions)
              || (op.kind == "list" && ListingName(batch, i) in s.listings)
            case Some(UpdateFailed) => op.kind == "cancel_listing" && i in refused
            case Some(ListingIdRequired) => op.kind == "cancel_listing" && op.listingId == ""
            case Some(ListingNotFound) => op.kind == "cancel_listing" && op.listingId !in s.listings
            case Some(Unsupported) => op.kind != "transfer" && op.kind != "list" && op.kind != "cancel_listing"
  {
  }

  /**
   A batch is rolled back if and only if its own user asks, it completed with or without errors, and
   it contains no cancellation; its row then says so and keeps everything else.
   */
  lemma RollbackAcceptedExactly(s: Store, b: Batch, user: nat)
    ensures var r := Rollback(s, b, user);
            && (r.Ok? <==> && b.user == user && (b.status == StatusCompleted || b.status == StatusWithErrors)
                           && forall i :: 0 <= i < |b.ops| ==> b.ops[i].kind != "cancel_listing")
            && (r == Err(NotOwner) <==> b.user != user)
            && (r == Err(ContainsCancel) ==>
                  exists i :: 0 <= i < |b.ops| && b.ops[i].kind == "cancel_listing")
            && (r.Ok? ==> r.value.1 == b.(status := StatusRolledBack))
  {
  }
}
