/** The batch handler: a loop over operations on a working copy of the store, then commit or discard. */
module BatchHandler {
  import opened Common
  import opened BatchNames
  import opened BatchSpec
  import BatchRuns

  datatype Error = Unauthorized | EmptyBatch | BatchTooLarge | BatchNotFound | CannotRollBack(reason: RollbackError)

  class Batches {
    const maxSize: nat
    var store: Store
    var batches: map<nat, Batch>
    var queued: set<nat>
    var nextId: nat

    ghost function State(): BatchRuns.World
      reads this
    {
      BatchRuns.World(store, batches, queued, nextId)
    }

    constructor (maxSize: nat, assets: set<nat>)
      ensures this.maxSize == maxSize && State() == BatchRuns.Start(assets)
    {
      this.maxSize, store := maxSize, Store(assets, map[], map[]);
      batches, queued, nextId := map[], {}, 0;
    }

    /** Creating the batch's row gives it the next id, which names its transactions and listings. */
    method ExecuteBatch(user: Option<nat>, ops: seq<Op>, refused: set<nat>) returns (r: Result<Batch, Error>)
      modifies this
      ensures user == None ==> r == Err(Unauthorized)
      ensures user.Some? && ops == [] ==> r == Err(EmptyBatch)
      ensures user.Some? && |ops| > maxSize && ops != [] ==> r == Err(BatchTooLarge)
      ensures r.Err? <==> user == None || ops == [] || |ops| > maxSize
      ensures r.Err? ==> State() == old(State())
      ensures r.Ok? ==>
                && State() == BatchRuns.Step(old(State()), BatchRuns.ExecuteBatch(user.value, ops, refused))
                && (store, r.value) == Execute(old(store), old(nextId), user.value, ops, refused)
                && batches == old(batches)[old(nextId) := r.value]
    {
      if user.None? {
        return Err(Unauthorized);
      }
      if |ops| == 0 {
        return Err(EmptyBatch);
      }
      if |ops| > maxSize {
        return Err(BatchTooLarge);
      }
      var id := nextId;
      nextId := nextId + 1;
      var tx, results, completed, failed := Interpret(id, ops, refused);
      CompletedBounds(results);
      var status := StatusFailed;
      if !(failed > 0 && completed == 0) {
        status := if failed > 0 then StatusWithErrors else StatusCompleted;
        store := tx;
      }
      var batch := Batch(id, user.value, ops, status, results, completed, failed);
      assert (store, batch) == Execute(old(store), id, user.value, ops, refused);
      batches := batches[id := batch];
      return Ok(batch);
    }

    /** The loop over the operations; nothing is written to the store yet. */
    method Interpret(id: nat, ops: seq<Op>, refused: set<nat>)
      returns (tx: Store, results: seq<OpResult>, completed: nat, failed: nat)
      ensures (tx, results) == ExecPrefix(store, id, ops, refused, |ops|)
      ensures |results| == |ops| == completed + failed && completed == Completed(results)
    {
      tx, results, completed, failed := store, [], 0, 0;
      for i := 0 to |ops|
        invariant (tx, results) == ExecPrefix(store, id, ops, refused, i)
        invariant |results| == i == completed + failed && completed == Completed(results)
      {
        var op := ops[i];
        var result;
        tx, result := Apply(tx, id, i, op, refused);
        if result.failure == None {
          completed := completed + 1;
        } else {
          failed := failed + 1;
        }
        assert (results + [result])[..i] == results;
        results := results + [result];
      }
    }

    /** One operation of the batch. */
    method Apply(s: Store, id: nat, i: nat, op: Op, refused: set<nat>) returns (t: Store, r: OpResult)
      ensures (t, r) == ExecOp(s, id, i, op, refused)
    {
      t := s;
      if op.kind == TRANSFER {
        var hash := TxHash(id, i);
        if op.asset !in s.assets {
          return t, Failed(i, op, AssetNotFound);
        }
        if hash in s.transactions || i in refused {
          return t, Failed(i, op, CreateFailed);
        }
        t := t.(transactions := t.transactions[hash := Tx(op.asset, op.from, op.to, op.amount)]);
        r := OpResult(i, op.kind, None, hash, None);
      } else if op.kind == LIST {
        var price := 0;
        if op.price.Some? {
          price := op.price.value;
        }
        var name := ListingName(id, i);
        if name in s.listings || i in refused {
          return t, Failed(i, op, CreateFailed);
        }
        t := t.(listings := t.listings[name := Listing(op.asset, op.from, op.amount, price, true)]);
        r := OpResult(i, op.kind, None, name, None);
      } else if op.kind == CANCEL {
        var name := op.listingId;
        if name == "" {
          return t, Failed(i, op, ListingIdRequired);
        }
        if name !in s.listings {
          return t, Failed(i, op, ListingNotFound);
        }
        if i in refused {
          return t, Failed(i, op, UpdateFailed);
        }
        var previousActive := s.listings[name].active;
        t := t.(listings := t.listings[name := t.listings[name].(active := false)]);
        r := OpResult(i, op.kind, None, name, Some(previousActive));
      } else {
        r := Failed(i, op, Unsupported);
      }
    }

    method RollbackBatch(user: Option<nat>, id: nat) returns (r: Result<(), Error>)
      modifies this
      ensures user == None ==> r == Err(Unauthorized)
      ensures user.Some? && id !in old(batches) ==> r == Err(BatchNotFound)
      ensures r.Err? ==> State() == old(State())
      ensures r.Ok? ==> State() == BatchRuns.Step(old(State()), BatchRuns.RollbackBatch(user.value, id))
      ensures user.Some? && id in old(batches) ==>
                match Rollback(old(store), old(batches)[id], user.value)
                case Err(e) => r == Err(CannotRollBack(e))
                case Ok(v) => r == Ok(()) && store == v.0 && batches == old(batches)[id := v.1]
    {
      if user.None? {
        return Err(Unauthorized);
      }
      if id !in batches {
        return Err(BatchNotFound);
      }
      var b := batches[id];
      if b.user != user.value {
        return Err(CannotRollBack(NotOwner));
      }
      if b.status != StatusCompleted && b.status != StatusWithErrors {
        return Err(CannotRollBack(NotCompleted));
      }
      for i := 0 to |b.ops|
        invariant State() == old(State())
        invariant forall j :: 0 <= j < i ==> b.ops[j].kind != CANCEL
      {
        if b.ops[i].kind == CANCEL {
          return Err(CannotRollBack(ContainsCancel));
        }
      }
      var tx := store;
      for i := 0 to |b.ops|
        invariant State() == old(State())
        invariant tx == UndoPrefix(store, b.id, b.ops, i)
      {
        if b.ops[i].kind == TRANSFER {
          tx := tx.(transactions := tx.transactions - {TxHash(b.id, i)});
        } else if b.ops[i].kind == LIST {
          var name := ListingName(b.id, i);
          if name in tx.listings {
            tx := tx.(listings := tx.listings[name := tx.listings[name].(active := false)]);
          }
        }
      }
      store := tx;
      batches := batches[id := b.(status := StatusRolledBack)];
      return Ok(());
    }
  }
}
