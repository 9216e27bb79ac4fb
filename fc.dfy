/** Package fc: `FlatContext`, a context whose values live in one mutable
    map in front of a replaceable parent context. Deadline, Done and Err
    are answered by the parent; Value asks the local map first and the
    parent on a miss; WithValue writes the map in place and returns the
    same object; WithContext swaps the parent. */
module Fc {
  import opened Contexts
  import opened Overlays

  class FlatContext<K(==), V> {
    var parent: Scope<K, V>
    var values: map<K, Option<V>>
    /** Every write ever made to `values`, oldest first. */
    ghost var writes: seq<Write<K, V>>

    /** `values` is exactly what the history of writes leaves behind. */
    ghost predicate Valid()
      reads this
    {
      values == Apply(writes)
    }

    /** `New(parent)`: the given parent and an empty overlay. */
    constructor New(parent: Scope<K, V>)
      ensures Valid()
      ensures this.parent == parent && values == map[] && writes == []
    {
      this.parent := parent;
      values := map[];
      writes := [];
    }

    /** `Background()`: `context.Background()` as parent and an empty overlay. */
    constructor Background()
      ensures Valid()
      ensures parent == Contexts.Background() && values == map[] && writes == []
    {
      parent := Contexts.Background();
      values := map[];
      writes := [];
    }

    /** Replaces the parent; the overlay is left as it was. */
    method WithContext(ctx: Scope<K, V>)
      requires Valid()
      modifies this
      ensures Valid()
      ensures parent == ctx
      ensures values == old(values) && writes == old(writes)
      ensures forall k | k in values && old(allocated(k)) :: Value(k) == old(Value(k))
    {
      parent := ctx;
    }

    /** The parent's deadline and whether it has one, passed through
        unchanged. */
    function Deadline(): (r: (Time, bool))
      reads this
      ensures r == parent.deadline
    {
      parent.deadline
    }

    /** The parent's Done channel. */
    function Done(): (r: Option<Signal>)
      reads this
      ensures r == parent.done
    {
      parent.done
    }

    /** The parent's error. */
    function Err(): (r: ErrKind)
      reads this
      ensures r == parent.err
    {
      parent.err
    }

    /** The local entry for `key` if there is one, even a nil one; otherwise
        the parent's answer. */
    function Value(key: K): (r: Option<V>)
      reads this
      ensures key in values ==> r == values[key]
      ensures key !in values ==> r == parent.Value(key)
    {
      if key in values then values[key] else parent.Value(key)
    }

    /** Inserts or overwrites `key` in this context's own map and returns this
        very context, so every holder of it sees the write. */
    method WithValue(key: K, value: Option<V>) returns (c: FlatContext<K, V>)
      requires Valid()
      modifies this
      ensures Valid()
      ensures c == this
      ensures values == old(values)[key := value] && parent == old(parent)
      ensures writes == old(writes) + [Write(key, value)]
      ensures Value(key) == value
      ensures forall k | k != key && old(allocated(k)) :: Value(k) == old(Value(k))
      ensures Deadline() == old(Deadline()) && Done() == old(Done()) && Err() == old(Err())
    {
      values := values[key := value];
      writes := writes + [Write(key, value)];
      assert writes[..|writes| - 1] == old(writes);
      c := this;
    }
  }

  /** A key that has been written answers the value of its last write,
      whatever the parent holds. */
  lemma ValueIsLastWrite<K, V>(c: FlatContext<K, V>, key: K, i: int)
    requires c.Valid() && LastWriteAt(c.writes, key, i)
    ensures c.Value(key) == c.writes[i].value
  {
    ApplyFindsLastWrite(c.writes, key, i);
  }

  /** A key that was never written answers exactly what the parent answers. */
  lemma ValueOfUnwrittenKey<K, V>(c: FlatContext<K, V>, key: K)
    requires c.Valid() && Unwritten(c.writes, key)
    ensures c.Value(key) == c.parent.Value(key)
  {
  }

  /** Once written, a key stays in the overlay: its answer no longer
      depends on the parent. */
  lemma WrittenKeyShadowsParent<K, V>(c: FlatContext<K, V>, key: K, i: int)
    requires c.Valid() && 0 <= i < |c.writes| && c.writes[i].key == key
    ensures key in c.values
    ensures exists j :: i <= j < |c.writes| && c.Value(key) == c.writes[j].value
  {
    assert !Unwritten(c.writes, key);
    LastWriteExists(c.writes, key);
    var j :| LastWriteAt(c.writes, key, j);
    assert i <= j;
    ValueIsLastWrite(c, key, j);
  }
}
