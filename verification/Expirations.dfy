/** The index from transactions to expiration heights and back. */
module Expirations {
  import opened Prelude

  class TransactionExpirations {
    var byTx: map<nat, nat>
    var byBlock: map<nat, set<nat>>

    /** The two maps are each other's inverse and no height has an empty entry. */
    ghost predicate Valid()
      reads this
    {
      var valid :=
        && (forall t :: t in byTx ==> byTx[t] in byBlock && t in byBlock[byTx[t]])
        && (forall b, t :: b in byBlock && t in byBlock[b] ==> t in byTx && byTx[t] == b)
        && (forall b :: b in byBlock ==> byBlock[b] != {});
      valid
    }

    constructor ()
      ensures Valid() && byTx == map[]
    {
      byTx, byBlock := map[], map[];
    }

    /** Tracks a transaction. Tracking one a second time at another height would leave the old
        height behind; anything else keeps the maps inverse. */
    method Insert(tx: nat, block: nat)
      requires Valid()
      modifies this
      ensures byTx == old(byTx)[tx := block]
      ensures Valid() <==> tx !in old(byTx) || old(byTx)[tx] == block
    {
      byTx := byTx[tx := block];
      var entry := if block in byBlock then byBlock[block] else {};
      byBlock := byBlock[block := entry + {tx}];
      if tx in old(byTx) && old(byTx)[tx] != block {
        ghost var stale := old(byTx)[tx];
        assert stale in byBlock && tx in byBlock[stale] && byTx[tx] != stale;
        assert !Valid();
      }
    }

    method Get(block: nat) returns (expired: set<nat>)
      requires Valid()
      ensures expired == set t | t in byTx && byTx[t] == block
    {
      expired := if block in byBlock then byBlock[block] else {};
    }

    /** Stops tracking the transactions; unknown ones are ignored. */
    method Remove(txs: set<nat>)
      requires Valid()
      modifies this
      ensures Valid()
      ensures byTx == old(byTx) - txs
    {
      var todo := txs;
      while todo != {}
        invariant todo <= txs
        invariant Valid()
        invariant byTx == old(byTx) - (txs - todo)
        decreases todo
      {
        var tx := Min(todo);
        if tx in byTx {
          var block := byTx[tx];
          byTx := byTx - {tx};
          assert block in byBlock;  // "block entry must exist"
          var entry := byBlock[block] - {tx};
          byBlock := if entry == {} then byBlock - {block} else byBlock[block := entry];
        }
        todo := todo - {tx};
      }
    }
  }
}
