/** Clients of `Fc.FlatContext` that replay, for all inputs, the situations
    the package's tests exercise. Each is proved from the contracts of
    `FlatContext` alone. */
module FcScenarios {
  import opened Contexts
  import opened Fc

  /** A context built by `New(p)` answers every key exactly as `p` does. */
  method FreshContextDefersToParent<K(==), V>(p: Scope<K, V>, key: K) returns (r: Option<V>)
    ensures r == p.Value(key)
  {
    var c := new FlatContext.New(p);
    r := c.Value(key);
  }

  /** `Background()` has no deadline (zero time, not set), no error, a nil
      Done channel and no values. */
  method BackgroundQueries<K(==), V>(key: K) returns (deadline: Time, ok: bool, err: ErrKind, done: Option<Signal>, v: Option<V>)
    ensures !ok && deadline.IsZero()
    ensures err == NoErr && done == None && v == None
  {
    var c := new FlatContext<K, V>.Background();
    deadline, ok := c.Deadline().0, c.Deadline().1;
    err := c.Err();
    done := c.Done();
    v := c.Value(key);
  }

  /** Read-your-write, over any parent. */
  method ReadYourWrite<K(==), V>(p: Scope<K, V>, key: K, value: Option<V>) returns (r: Option<V>)
    ensures r == value
  {
    var c := new FlatContext.New(p);
    var _ := c.WithValue(key, value);
    r := c.Value(key);
  }

  /** Overwriting a key: the second write is what is read back. */
  method LastWriteWins<K(==), V>(key: K, v1: Option<V>, v2: Option<V>) returns (first: Option<V>, second: Option<V>)
    ensures first == v1 && second == v2
  {
    var c := new FlatContext<K, V>.Background();
    var _ := c.WithValue(key, v1);
    first := c.Value(key);
    var _ := c.WithValue(key, v2);
    second := c.Value(key);
  }

  /** A local entry hides the parent's value for the same key, even when the
      local entry is nil. */
  method OverlayShadowsParent<K(==), V>(key: K, local: Option<V>, upstream: V) returns (r: Option<V>)
    ensures r == local
  {
    var p := Contexts.WithValue(Contexts.Background(), key, Some(upstream));
    var c := new FlatContext.New(p);
    var _ := c.WithValue(key, local);
    r := c.Value(key);
  }

  /** Writing `k1`, then swapping in a parent that binds `k2` on top of any
      scope `p`: `k1` still answers its local value, and `k2`, unless it is
      `k1`, is found in the new parent. */
  method ParentSwapKeepsOverlay<K(==), V>(k1: K, v1: Option<V>, k2: K, v2: Option<V>, p: Scope<K, V>)
    returns (r1: Option<V>, r2: Option<V>)
    ensures r1 == v1
    ensures r2 == if k2 == k1 then v1 else v2
  {
    var c := new FlatContext<K, V>.Background();
    var _ := c.WithValue(k1, v1);
    c.WithContext(Contexts.WithValue(p, k2, v2));
    r1 := c.Value(k1);
    r2 := c.Value(k2);
  }

  /** Deadline follows the current parent: none under Background, the
      timeout's deadline once a timeout parent is swapped in. */
  method DeadlineFollowsParent<K(==), V>(t: Time, timeout: Scope<K, V>)
    returns (before: (Time, bool), after: (Time, bool))
    requires timeout.deadline == (t, true)
    ensures !before.1 && before.0.IsZero()
    ensures after == (t, true)
  {
    var c := new FlatContext<K, V>.Background();
    before := c.Deadline();
    c.WithContext(timeout);
    after := c.Deadline();
  }

  /** Err and Done follow the current parent: nil under Background, the
      cancelled parent's reason and channel once it is swapped in. */
  method CancellationFollowsParent<K(==), V>(cancelled: Scope<K, V>)
    returns (before: ErrKind, after: ErrKind, done: Option<Signal>)
    requires cancelled.err == Canceled
    ensures before == NoErr && after == Canceled
    ensures done == cancelled.done
  {
    var c := new FlatContext<K, V>.Background();
    before := c.Err();
    c.WithContext(cancelled);
    after := c.Err();
    done := c.Done();
  }

  /** `WithValue` returns the receiver: the context it returns and the one
      it was called on are one object, so a write through either is seen
      through both, and the earlier value stays visible. */
  method WithValueAliases<K(==), V>(k1: K, v1: Option<V>, k2: K, v2: Option<V>)
    returns (same: bool, seenByOriginal: Option<V>, keptByNew: Option<V>)
    requires k1 != k2
    ensures same
    ensures seenByOriginal == v2 && keptByNew == v1
  {
    var original := new FlatContext<K, V>.Background();
    var _ := original.WithValue(k1, v1);
    var derived := original.WithValue(k2, v2);
    same := derived == original;
    seenByOriginal := original.Value(k2);
    keptByNew := derived.Value(k1);
  }
}
