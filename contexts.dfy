/** The upstream scope a FlatContext delegates to: Go's `context.Context`,
    seen only through what its four queries answer. The standard library's
    own machinery (cancellation trees, timers, channel closing) is not
    modelled; a scope is the value of those four answers. */
module Contexts {

  datatype Option<+T> = None | Some(value: T)

  /** A point in time; `ZeroTime` is Go's zero `time.Time`, the value a
      scope without a deadline reports. */
  datatype Time = Time(nanos: int) {
    predicate IsZero() { nanos == 0 }
  }

  const ZeroTime := Time(0)

  /** The reason a scope ended: Go's nil error, `context.Canceled` or
      `context.DeadlineExceeded`. */
  datatype ErrKind = NoErr | Canceled | DeadlineExceeded

  /** An opaque token standing for the channel a scope's `Done` returns;
      a nil channel is `None`. */
  datatype Signal = Signal(id: nat)

  /** A parent context. `deadline` is the pair its `Deadline()` returns (the
      time, and whether a deadline is set), as given: nothing ties the time
      to the flag. `lookup` answers `Value(key)`, with Go's nil as `None`. */
  datatype Scope<!K, V> = Scope(
    deadline: (Time, bool),
    done: Option<Signal>,
    err: ErrKind,
    lookup: K -> Option<V>)
  {
    function Value(key: K): Option<V> {
      lookup(key)
    }
  }

  /** `context.Background()`: never cancelled, no deadline (zero time, not
      set), no values, and a nil `Done` channel. */
  function Background<K, V>(): Scope<K, V> {
    Scope((ZeroTime, false), None, NoErr, _ => None)
  }

  /** `context.WithValue(parent, key, value)`: an immutable child scope that
      answers `key` itself and asks `parent` for every other key. */
  function WithValue<K(==), V>(parent: Scope<K, V>, key: K, value: Option<V>): Scope<K, V> {
    parent.(lookup := k => if k == key then value else parent.lookup(k))
  }
}
