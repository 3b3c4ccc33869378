/**
 * `LoRAModule._state_dict_hook`: when the wrapped model's state dict is taken, every
 * entry under the module's prefix that is not a LoRA parameter is deleted in place,
 * so checkpoints keep only the adapter weights and everything outside the prefix.
 * The name test (`minlora.name_is_lora`) is a parameter. The dictionary's insertion
 * order is not modelled.
 */
module LoRA {

  /** A state dict: parameter names mapped to tensors. */
  class StateDict<V> {
    var entries: map<string, V>

    constructor (entries: map<string, V>)
      ensures this.entries == entries
    {
      this.entries := entries;
    }
  }

  predicate StartsWith(key: string, prefix: string)
  {
    prefix <= key
  }

  /** The hook discards a key that is under the prefix and is not a LoRA parameter. */
  predicate Discarded(key: string, prefix: string, isLora: string -> bool)
  {
    StartsWith(key, prefix) && !isLora(key)
  }

  /** The entries the hook leaves. */
  function Pruned<V>(m: map<string, V>, prefix: string, isLora: string -> bool): (r: map<string, V>)
    ensures forall k :: k in r ==> !Discarded(k, prefix, isLora)
    ensures forall k :: k in m && !StartsWith(k, prefix) ==> k in r && r[k] == m[k]
    ensures forall k :: k in m && StartsWith(k, prefix) && isLora(k) ==> k in r && r[k] == m[k]
    ensures forall k :: k in r ==> k in m
  {
    map k | k in m && !Discarded(k, prefix, isLora) :: m[k]
  }

  /** The deleted keys are exactly the discarded ones. */
  lemma PrunedRemovesExactly<V>(m: map<string, V>, prefix: string, isLora: string -> bool)
    ensures m.Keys - Pruned(m, prefix, isLora).Keys == set k | k in m && Discarded(k, prefix, isLora)
  {
    var r := Pruned(m, prefix, isLora);
    forall k | k in m && Discarded(k, prefix, isLora)
      ensures k !in r
    {
    }
  }

  /** Running the hook again changes nothing. */
  lemma PrunedIdempotent<V>(m: map<string, V>, prefix: string, isLora: string -> bool)
    ensures Pruned(Pruned(m, prefix, isLora), prefix, isLora) == Pruned(m, prefix, isLora)
  {
    var once := Pruned(m, prefix, isLora);
    var twice := Pruned(once, prefix, isLora);
    assert twice.Keys == once.Keys;
  }

  /** The entries of m whose key is not in d. */
  function Without<V>(m: map<string, V>, d: set<string>): map<string, V>
  {
    map k | k in m && k !in d :: m[k]
  }

  /** Deleting one more key from what is left. */
  lemma WithoutOneMore<V>(m: map<string, V>, d: set<string>, k: string)
    ensures Without(m, d) - {k} == Without(m, d + {k})
  {
    assert (Without(m, d) - {k}).Keys == Without(m, d + {k}).Keys;
  }

  /** Moving one key from the pending set to the deleted set keeps their union and disjointness. */
  lemma MoveKey(pending: set<string>, deleted: set<string>, k: string)
    requires k in pending && pending !! deleted
    ensures (pending - {k}) + (deleted + {k}) == pending + deleted
    ensures (pending - {k}) !! (deleted + {k})
  {
  }

  /** Deleting exactly the discarded keys leaves the pruned dictionary. */
  lemma WithoutDiscarded<V>(m: map<string, V>, prefix: string, isLora: string -> bool, d: set<string>)
    requires d == set k | k in m && Discarded(k, prefix, isLora)
    ensures Without(m, d) == Pruned(m, prefix, isLora)
  {
    assert Without(m, d).Keys == Pruned(m, prefix, isLora).Keys;
  }

  /** `_state_dict_hook`: collect the keys to discard, then delete them one by one. */
  method StateDictHook<V>(sd: StateDict<V>, prefix: string, isLora: string -> bool)
    modifies sd
    ensures sd.entries == Pruned(old(sd.entries), prefix, isLora)
  {
    var keysDiscard := set k | k in sd.entries && Discarded(k, prefix, isLora);
    ghost var original := sd.entries;
    ghost var discard, deleted: set<string> := keysDiscard, {};
    assert sd.entries == Without(original, deleted);
    while keysDiscard != {}
      invariant keysDiscard + deleted == discard
      invariant keysDiscard !! deleted
      invariant sd.entries == Without(original, deleted)
      decreases |keysDiscard|
    {
      var k :| k in keysDiscard;
      WithoutOneMore(original, deleted, k);
      MoveKey(keysDiscard, deleted, k);
      sd.entries := sd.entries - {k};
      keysDiscard := keysDiscard - {k};
      deleted := deleted + {k};
    }
    assert deleted == discard;
    WithoutDiscarded(original, prefix, isLora, deleted);
  }
}
