/** The local overlay of a FlatContext described by its history: the
    sequence of `WithValue` writes made to it. `Apply` is the map those
    writes leave behind; the lemmas say that it holds, for every key, the
    value of the LAST write to that key and nothing for keys never written.
    There is no deletion, so a written key stays present. */
module Overlays {
  import opened Contexts

  datatype Write<K, V> = Write(key: K, value: Option<V>)

  /** The keys a history has written. */
  ghost function WrittenKeys<K, V>(ws: seq<Write<K, V>>): set<K> {
    set i | 0 <= i < |ws| :: ws[i].key
  }

  /** Position `i` holds the last write to `key`. */
  ghost predicate LastWriteAt<K, V>(ws: seq<Write<K, V>>, key: K, i: int) {
    0 <= i < |ws| && ws[i].key == key &&
    forall j | i < j < |ws| :: ws[j].key != key
  }

  ghost predicate Unwritten<K, V>(ws: seq<Write<K, V>>, key: K) {
    forall i | 0 <= i < |ws| :: ws[i].key != key
  }

  /** The overlay left by performing the writes of `ws` in order on an
      empty map, each one inserting or overwriting its key. */
  function Apply<K(==), V>(ws: seq<Write<K, V>>): (m: map<K, Option<V>>)
    ensures m.Keys == WrittenKeys(ws)
    decreases |ws|
  {
    if ws == [] then map[]
    else
      var w := ws[|ws| - 1];
      var m := Apply(ws[..|ws| - 1])[w.key := w.value];
      assert WrittenKeys(ws) == WrittenKeys(ws[..|ws| - 1]) + {w.key} by {
        forall k | k in WrittenKeys(ws) ensures k in WrittenKeys(ws[..|ws| - 1]) + {w.key} {
          var i :| 0 <= i < |ws| && ws[i].key == k;
          if i < |ws| - 1 { assert ws[..|ws| - 1][i] == ws[i]; }
        }
      }
      m
  }

  /** Last write wins: the overlay holds the value of the last write to a key. */
  lemma {:induction false} ApplyFindsLastWrite<K, V>(ws: seq<Write<K, V>>, key: K, i: int)
    requires LastWriteAt(ws, key, i)
    ensures key in Apply(ws) && Apply(ws)[key] == ws[i].value
    decreases |ws|
  {
    var n := |ws| - 1;
    if i < n {
      assert ws[n].key != key;
      assert LastWriteAt(ws[..n], key, i) by {
        forall j | i < j < n ensures ws[..n][j].key != key {
          assert ws[..n][j] == ws[j];
        }
      }
      ApplyFindsLastWrite(ws[..n], key, i);
    }
  }

  /** Every written key has a last write. */
  lemma {:induction false} LastWriteExists<K, V>(ws: seq<Write<K, V>>, key: K)
    requires !Unwritten(ws, key)
    ensures exists i :: LastWriteAt(ws, key, i)
    decreases |ws|
  {
    var n := |ws| - 1;
    if ws[n].key == key {
      assert LastWriteAt(ws, key, n);
    } else {
      var i :| 0 <= i < |ws| && ws[i].key == key;
      assert i < n;
      assert ws[..n][i] == ws[i];
      LastWriteExists(ws[..n], key);
      var i' :| LastWriteAt(ws[..n], key, i');
      forall j | i' < j < |ws| ensures ws[j].key != key {
        if j < n { assert ws[..n][j] == ws[j]; }
      }
      assert LastWriteAt(ws, key, i');
    }
  }
}
