/**
 * The preference store as the dialog sees it and the dialog's ledger of
 * pending changes (`updatedPreferenceMap`), whose `put` drops a write of
 * the value the store already holds.
 */
module Ledger {
  import opened Wrappers

  type Key = string
  type Value = string

  /** The preference store: key to stored text; a missing key reads as null. */
  type Store = map<Key, Value>

  /** Pending changes; a `None` entry is a staged null, which removes the key on commit. */
  type Staged = map<Key, Option<Value>>

  /** `prefMgr.get(k)`. */
  function Get(store: Store, k: Key): (r: Option<Value>)
    ensures r.Some? <==> k in store
    ensures r.Some? ==> r.value == store[k]
  {
    if k in store then Some(store[k]) else None
  }

  /**
   * The ledger's overridden `put`: the entry is written unless the new value
   * equals the stored one. A staged value equal to the store is dropped
   * without removing an earlier, different staged value for the same key.
   * Staging null for a key the store lacks dereferences null, so callers
   * must not do it.
   */
  function Put(store: Store, ledger: Staged, k: Key, v: Option<Value>): (r: Staged)
    requires v.Some? || k in store
    ensures Get(store, k) == v ==> r == ledger
    ensures Get(store, k) != v ==> k in r && r[k] == v
    ensures forall k' :: k' != k ==> (k' in r <==> k' in ledger)
    ensures forall k' :: k' != k && k' in r ==> r[k'] == ledger[k']
  {
    if v.None? || v != Get(store, k) then ledger[k := v] else ledger
  }

  /** Every pending change differs from what the store holds. */
  predicate Pending(store: Store, ledger: Staged) {
    forall k :: k in ledger ==> ledger[k] != Get(store, k)
  }

  /** `put` keeps the ledger free of no-op entries. */
  lemma PutKeepsPending(store: Store, ledger: Staged, k: Key, v: Option<Value>)
    requires v.Some? || k in store
    requires Pending(store, ledger)
    ensures Pending(store, Put(store, ledger, k, v))
  {
  }

  /**
   * What `putAll` leaves in the store for a staged entry: null unsets the
   * key, and so does the empty string (which is why the hidden-tag handler
   * always appends a ',').
   */
  function Written(v: Option<Value>): (r: Option<Value>)
    ensures r.None? <==> v.None? || v == Some("")
    ensures r.Some? ==> r == v
  {
    if v == Some("") then None else v
  }

  /**
   * `prefMgr.putAll(ledger)`: every staged value is written, every staged
   * null or empty string removes its key, and keys the ledger lacks keep
   * their stored value.
   */
  function Flush(store: Store, ledger: Staged): (r: Store)
    ensures forall k :: Get(r, k) == if k in ledger then Written(ledger[k]) else Get(store, k)
  {
    map k | k in store.Keys + ledger.Keys && (k in ledger ==> Written(ledger[k]).Some?) ::
      if k in ledger then ledger[k].value else store[k]
  }

  /**
   * Flushing a ledger of genuine changes changes exactly the staged keys,
   * except an empty string staged for a key the store lacks, which leaves
   * the key unset.
   */
  lemma FlushChangesExactlyLedgerKeys(store: Store, ledger: Staged, k: Key)
    requires Pending(store, ledger)
    ensures Get(Flush(store, ledger), k) != Get(store, k)
            <==> k in ledger && !(ledger[k] == Some("") && k !in store)
  {
  }

  /** Flushing an empty ledger is a no-op. */
  lemma FlushEmpty(store: Store)
    ensures Flush(store, map[]) == store
  {
    var r := Flush(store, map[]);
    forall k | true
      ensures k in r <==> k in store
    {
      assert Get(r, k) == Get(store, k);
    }
  }

  /**
   * Staging a non-empty value and flushing makes the store read that value,
   * unless the value is the stored one while an earlier different edit is
   * still staged. Staging the empty string unsets the key.
   */
  lemma StageThenFlush(store: Store, ledger: Staged, k: Key, v: Value)
    requires Pending(store, ledger)
    ensures v != "" ==>
              (Get(store, k) != Some(v) || k !in ledger
               <==> Get(Flush(store, Put(store, ledger, k, Some(v))), k) == Some(v))
    ensures v == "" && Get(store, k) != Some(v) ==> Get(Flush(store, Put(store, ledger, k, Some(v))), k) == None
  {
  }

  /**
   * Editing a value away from the store and back again commits the
   * intermediate value, not the final one (an empty intermediate value
   * unsets the key).
   */
  lemma EditBackCommitsStaleValue(k: Key, stored: Value, other: Value)
    requires stored != other
    ensures var store := map[k := stored];
            var ledger := Put(store, Put(store, map[], k, Some(other)), k, Some(stored));
            Get(Flush(store, ledger), k) == Written(Some(other))
  {
  }
}
