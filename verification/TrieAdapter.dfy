/**
 The objects between state-root computation and disk: the adapter that buffers trie nodes for the
 database, and the trie that keeps what it builds in a cache of its own until it is committed.
*/
module TrieAdapter {
  import opened Types
  import opened Blocks

  const AUTO_FLUSH_THRESHOLD := 1024

  /** `stored` are the node hashes on disk, `pending` those waiting for a commit. */
  class Adapter {
    /** Whether the k-th batch write fails. */
    const faults: nat -> bool
    var writes: nat
    var stored: set<H256>
    var pending: seq<H256>

    ghost function HandedOver(): set<H256>
      reads this
    {
      stored + set i | 0 <= i < |pending| :: pending[i]
    }

    constructor (onDisk: set<H256>, faults: nat -> bool)
      ensures stored == onDisk && pending == [] && writes == 0 && this.faults == faults
    {
      stored, pending, writes := onDisk, [], 0;
      this.faults := faults;
    }

    /** One of the batch writes `lo .. hi` failed. */
    ghost predicate FaultIn(lo: nat, hi: nat) {
      exists k :: lo <= k < hi && faults(k)
    }

    /** Everything handed over so far is written; a write that fails keeps the buffer, and an empty one is not written. */
    method Commit() returns (ok: bool)
      modifies this
      ensures writes == old(writes) + if old(pending) == [] then 0 else 1
      ensures ok <==> !FaultIn(old(writes), writes)
      ensures if ok then pending == [] && stored == old(HandedOver())
              else pending == old(pending) && stored == old(stored)
      ensures HandedOver() == old(HandedOver())
    {
      ok := true;
      if |pending| > 0 {
        ok := !faults(writes);
        writes := writes + 1;
      }
      if ok {
        stored := stored + set i | 0 <= i < |pending| :: pending[i];
        pending := [];
      }
    }

    /** The node is buffered; a full buffer is written at once, and if that fails the call does. */
    method Insert(hash: H256) returns (ok: bool)
      modifies this
      ensures HandedOver() == old(HandedOver()) + {hash}
      ensures writes == old(writes) + if |old(pending)| + 1 < AUTO_FLUSH_THRESHOLD then 0 else 1
      ensures ok <==> !FaultIn(old(writes), writes)
      ensures if |old(pending)| + 1 < AUTO_FLUSH_THRESHOLD || !ok
              then stored == old(stored) && pending == old(pending) + [hash]
              else stored == old(HandedOver()) + {hash} && pending == []
    {
      pending := pending + [hash];
      OneMoreHandedOver(old(pending), hash);
      ok := true;
      if |pending| >= AUTO_FLUSH_THRESHOLD {
        ok := Commit();
      }
    }
  }

  lemma OneMoreHandedOver(pending: seq<H256>, hash: H256)
    ensures (set i | 0 <= i < |pending + [hash]| :: (pending + [hash])[i])
         == (set i | 0 <= i < |pending| :: pending[i]) + {hash}
  {
    var all := pending + [hash];
    assert all[|pending|] == hash;
    forall i | 0 <= i < |pending| ensures pending[i] in (set j | 0 <= j < |all| :: all[j]) {
      assert all[i] == pending[i];
    }
  }

  /** What inserting one leaf builds: the new root and the nodes on its path. */
  type Builder = (H256, Leaf) -> (H256, set<H256>)

  datatype Leaf = Leaf(key: H256, value: seq<byte>)

  class MutableTrie {
    var root: H256
    var cache: set<H256>
    const db: Adapter

    constructor (start: H256, db: Adapter)
      ensures root == start && cache == {} && this.db == db
    {
      root := start;
      cache := {};
      this.db := db;
    }

    /** New nodes go into the trie's own cache. */
    method Insert(build: Builder, leaf: Leaf)
      modifies this
      ensures (root, cache) == (build(old(root), leaf).0, old(cache) + build(old(root), leaf).1)
    {
      var (newRoot, path) := build(root, leaf);
      root, cache := newRoot, cache + path;
    }

    /** Hands the cache to the adapter, node by node; an insertion that fails drops what is left of it. */
    method Commit() returns (ok: bool)
      modifies this, db
      ensures cache == {} && root == old(root)
      ensures old(db.HandedOver()) <= db.HandedOver() <= old(db.HandedOver()) + old(cache)
      ensures ok ==> db.HandedOver() == old(db.HandedOver()) + old(cache)
      ensures old(db.writes) <= db.writes && (ok <==> !db.FaultIn(old(db.writes), db.writes))
    {
      ghost var all := cache;
      ghost var before := db.HandedOver();
      while cache != {}
        invariant cache <= all && root == old(root)
        invariant db.HandedOver() == before + (all - cache)
        invariant old(db.writes) <= db.writes && !db.FaultIn(old(db.writes), db.writes)
        decreases cache
      {
        var h :| h in cache;
        ok := db.Insert(h);
        cache := cache - {h};
        if !ok {
          cache := {};
          return;
        }
      }
      ok := true;
    }
  }

  function RootOf(build: Builder, start: H256, leaves: seq<Leaf>): H256 {
    if leaves == [] then start else build(RootOf(build, start, leaves[..|leaves| - 1]), leaves[|leaves| - 1]).0
  }

  /** The nodes built on the way. */
  function Built(build: Builder, start: H256, leaves: seq<Leaf>): set<H256> {
    if leaves == [] then {} else
    Built(build, start, leaves[..|leaves| - 1])
      + build(RootOf(build, start, leaves[..|leaves| - 1]), leaves[|leaves| - 1]).1
  }

  /**
   `compute_state_root_with_db`: inserts the leaves and returns the root. It does not commit the
   trie, so the adapter is left exactly as it was and what was built is gone with the trie's cache.
  */
  method ComputeRoot(db: Adapter, build: Builder, start: H256, leaves: seq<Leaf>) returns (root: H256, ghost lost: set<H256>)
    ensures root == RootOf(build, start, leaves) && lost == Built(build, start, leaves)
    ensures db.stored == old(db.stored) && db.pending == old(db.pending)
  {
    var trie := new MutableTrie(start, db);
    for i := 0 to |leaves|
      invariant fresh(trie) && trie.db == db && db.stored == old(db.stored) && db.pending == old(db.pending)
      invariant trie.root == RootOf(build, start, leaves[..i]) && trie.cache == Built(build, start, leaves[..i])
    {
      assert leaves[..i + 1][..i] == leaves[..i];
      trie.Insert(build, leaves[i]);
    }
    assert leaves[..|leaves|] == leaves;
    root, lost := trie.root, trie.cache;
  }
}
