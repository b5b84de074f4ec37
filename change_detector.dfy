/**
 The change detector the component puts in front of each form's value stream:
 it compares every control of the emitted form value with a snapshot of the
 previous value, reports the controls that differ, and advances the snapshot.
 */
module ChangeDetector {

  /** The sparse change record: exactly the keys whose value differs from the
      snapshot (or that the snapshot lacks), carrying the new values. */
  function Diff<K(!new), V(==)>(snapshot: map<K, V>, values: map<K, V>): (changes: map<K, V>)
    ensures forall k :: k in changes <==> k in values && (k !in snapshot || snapshot[k] != values[k])
    ensures forall k :: k in changes ==> changes[k] == values[k]
  {
    map k | k in values && (k !in snapshot || snapshot[k] != values[k]) :: values[k]
  }

  /** One pass over the keys of `values`, as the component's `for … in` loop
      does: a key whose value differs from the snapshot is copied into the
      change record and written into the snapshot. */
  method ChangesOf<K(!new), V(==)>(snapshot: map<K, V>, values: map<K, V>)
    returns (changes: map<K, V>, updated: map<K, V>)
    ensures changes == Diff(snapshot, values)
    ensures updated == snapshot + values
  {
    changes, updated := map[], snapshot;
    var todo := values.Keys;
    while todo != {}
      invariant todo <= values.Keys
      invariant updated.Keys == snapshot.Keys + (values.Keys - todo)
      invariant forall k :: k in updated ==> updated[k] == if k in values && k !in todo then values[k] else snapshot[k]
      invariant forall k :: k in changes <==> k in values && k !in todo && (k !in snapshot || snapshot[k] != values[k])
      invariant forall k :: k in changes ==> changes[k] == values[k]
      decreases todo
    {
      var k :| k in todo;
      if k !in updated || updated[k] != values[k] {
        changes := changes[k := values[k]];
        updated := updated[k := values[k]];
      }
      todo := todo - {k};
    }
  }

  /** Once the snapshot has been advanced, a second emission of the same
      values reports nothing. */
  lemma DiffAfterAdvanceIsEmpty<K(!new), V>(snapshot: map<K, V>, values: map<K, V>)
    ensures Diff(snapshot + values, values) == map[]
  {
  }

  /** Nothing is reported exactly when every emitted key is already in the
      snapshot with the same value. */
  lemma DiffEmptyIff<K(!new), V>(snapshot: map<K, V>, values: map<K, V>)
    ensures Diff(snapshot, values) == map[] <==> forall k :: k in values ==> k in snapshot && snapshot[k] == values[k]
  {
  }

  /** A write to one control of a form whose snapshot is up to date reports
      that control alone, and only if its value really changed. */
  lemma DiffOfSingleWrite<K(!new), V>(snapshot: map<K, V>, k: K, x: V)
    requires k in snapshot
    ensures Diff(snapshot, snapshot[k := x]) == if snapshot[k] == x then map[] else map[k := x]
  {
  }
}
