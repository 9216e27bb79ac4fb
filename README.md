# FlatContext, modelled in Dafny

Package `fc` provides `FlatContext`, a Go `context.Context` made of two parts.
The first is a mutable map of key/value pairs owned by the context. The second is a
parent context that can be replaced at any time. `Deadline`, `Done` and `Err`
return whatever the current parent returns. `Value(key)` looks in the local map
first and asks the parent only on a miss. `WithValue(key, value)` inserts or
overwrites the key in the map *in place* and returns the same object, not a copy.
`WithContext(ctx)` replaces the parent and leaves the map alone.

The model has four modules:

- `Contexts` (contexts.dfy) is the parent context as the model sees it. A `Scope` is an
  immutable value holding the `(time, ok)` pair its `Deadline()` returns, an optional `Done` signal
  token, an error kind (`NoErr`, `Canceled`, `DeadlineExceeded`) and a lookup
  function. Go's nil is `None`. `Contexts.Background()` stands for
  `context.Background()`. `Contexts.WithValue` stands for `context.WithValue`,
  the standard library's immutable layering, which the tests use to build parents.
- `Overlays` (overlays.dfy) describes the local map by its history: the
  sequence of writes made to it. `Apply` is the map those writes leave behind.
  Its contract says its keys are exactly the keys written, and its lemmas
  say that each key holds the value of its *last* write.
- `Fc` (fc.dfy) is the `FlatContext` class. Its fields are `parent` and
  `values`, plus a ghost `writes` history. `Valid()` ties them together:
  `values == Apply(writes)`. `New` and `Background` are constructors.
  `WithValue` and `WithContext` are methods with `modifies this` that state
  the whole new state. `Deadline`, `Done`, `Err` and `Value` are functions
  that read `this`.
- `FcScenarios` (fc_scenarios.dfy) holds clients that replay the situations in
  fc_test.go for all inputs. Each is proved from the class contracts alone.

A nil value written with `WithValue(key, nil)` is a local entry like any
other. It hides the parent's value for that key, because fc.go:71 tests the
map's `ok` flag and not the value. The model stores `Option<V>` in the map to
keep this case: `OverlayShadowsParent` writes `None` over a parent binding and
reads back `None`.

Three notes on the code and its tests:

- `Value` does not release its read lock before asking the parent:
  fc.go:70 defers the unlock, so the lock is held across the parent call.
  The model is sequential, so this makes no difference to it.
- fc_test.go:186-205 expects `WithValue` to leave the original context
  unchanged. fc.go:81-87 mutates in place and returns the receiver. The model
  follows fc.go. `WithValueAliases` proves that the original does see the new
  key, so that test's expectation cannot hold.
- fc_test.go:76 expects a non-nil `Done` channel under `context.Background()`.
  The standard library's background context returns a nil channel.
  `Contexts.Background()` has `done == None` to match, and `BackgroundQueries`
  states it.

## Model

| member | source | states |
|---|---|---|
| `Fc.FlatContext.New` | fc.go:21-26 | the new context has exactly the given parent and an empty overlay (empty history), so it is valid |
| `Fc.FlatContext.Background` | fc.go:30-35 | the new context has `context.Background()` as parent and an empty overlay |
| `Fc.FlatContext.WithContext` | fc.go:39-41 | the parent becomes `ctx`; the overlay and its history are unchanged, so every overlay key answers as before |
| `Fc.FlatContext.Deadline` | fc.go:46-48 | is exactly the `(time, ok)` pair the current parent's `Deadline()` returns, whatever time it pairs with `ok` false, with no local override |
| `Fc.FlatContext.Done` | fc.go:53-55 | is the current parent's Done signal, with no local override |
| `Fc.FlatContext.Err` | fc.go:60-62 | is the current parent's error, with no local override |
| `Fc.FlatContext.Value` | fc.go:68-76 | a key in the overlay answers the overlay's entry, even a nil one, whatever the parent holds; a missing key answers exactly the parent's `Value` |
| `Fc.FlatContext.WithValue` | fc.go:83-88 | returns the receiver itself; `values` gains or overwrites exactly `key`; the parent is unchanged; `Value(key)` is now `value`; every other key and Deadline, Done and Err answer as before |
| `Overlays.Apply` | fc.go:86 | the keys of the overlay left by a history of writes are exactly the keys written |
| `Overlays.ApplyFindsLastWrite` | fc.go:86 | last write wins: the overlay holds the value of the last write to a key, whatever came earlier |
| `Overlays.LastWriteExists` | fc.go:86 | every key that was written at least once has a last write in the history |
| `Fc.ValueIsLastWrite` | fc.go:68-88 | on a valid context, `Value(key)` is the value of the last `WithValue` to that key |
| `Fc.ValueOfUnwrittenKey` | fc.go:71-75 | on a valid context, a key never written answers exactly what the parent answers |
| `Fc.WrittenKeyShadowsParent` | fc.go:83-88 | a key written once stays in the overlay (no deletion), and its answer is the value of a write at or after that one, not the parent's |
| `FcScenarios.FreshContextDefersToParent` | fc.go:21-26 | a context from `New(p)` answers every key as `p` does |
| `FcScenarios.BackgroundQueries` | fc_test.go:45-55 | `Background()` gives zero time with no deadline, no error, a nil Done channel and no value for any key |
| `FcScenarios.ReadYourWrite` | fc_test.go:139-147 | after `WithValue(k, v)` under any parent, `Value(k)` returns `v` |
| `FcScenarios.LastWriteWins` | fc_test.go:149-153 | after writing `v1` and then `v2` to one key, the reads return `v1` and then `v2` |
| `FcScenarios.OverlayShadowsParent` | fc.go:71-73 | a local entry, even a nil one, hides the parent's binding for the same key |
| `FcScenarios.ParentSwapKeepsOverlay` | fc_test.go:116-136 | after a parent swap the earlier local key keeps its value and a key bound only by the new parent is found there |
| `FcScenarios.DeadlineFollowsParent` | fc_test.go:45-68 | no deadline under Background; after swapping in a parent with deadline `t`, the result is `(t, true)` |
| `FcScenarios.CancellationFollowsParent` | fc_test.go:99-114 | `Err` is nil under Background and `Canceled` after a cancelled parent is swapped in; `Done` is that parent's signal |
| `FcScenarios.WithValueAliases` | fc.go:81-88 | the context returned by `WithValue` is the receiver, so the original sees the new key and the returned one keeps the earlier key |

## Left out

- The `sync.RWMutex` (fc.go:15, 69-70, 84-85) and concurrent use (fc_test.go:156-183). The model is sequential, so each call is atomic in it, and the lock has nothing to add. Races between `WithContext` and the delegated queries are not modelled.
- The standard library's context machinery: timers, `WithTimeout`, `WithCancel`, and closing of the Done channel. A parent is the value of its four answers. `Done` is an opaque token.
- A parent whose state changes after it is attached, such as a cancellation arriving later. A `Scope` is a value, so the model covers every parent state, but not the passage from one state to the next inside one parent.
- A `FlatContext` used as another context's parent. The parent is an immutable `Scope`, so writes made later to a `FlatContext` used as a parent are not seen through the child.
- Time arithmetic. Time is an integer timestamp, and zero is Go's zero `time.Time`.
- A nil parent, whether passed to `New` (fc.go:21) or to `WithContext` (fc.go:39-41), which both accept it. A `Scope` value cannot be nil, so the model has no such state. In Go, after a nil parent `Deadline`, `Done` and `Err` panic (fc.go:47, 54, 61), and `Value` panics on an overlay miss (fc.go:75) while a key in the overlay still answers (fc.go:71-73).
- Keys of types Go cannot compare, which make the map access panic. Keys in the model have equality (`K(==)`).
