/** String-keyed maps that remember insertion order: a JavaScript object whose
    keys are not array indices, and a JavaScript `Map` with string keys. Both
    enumerate keys in the order each key was FIRST inserted; writing an
    existing key replaces its value and keeps its place. */
module OrderedMaps {
  import opened Wrappers

  datatype OrderedMap<V> = OrderedMap(keys: seq<string>, table: map<string, V>)

  /** Keys are listed once each, and exactly the keys of the table are listed. */
  ghost predicate Valid<V>(m: OrderedMap<V>)
  {
    && (forall i, j :: 0 <= i < j < |m.keys| ==> m.keys[i] != m.keys[j])
    && (forall k :: k in m.table <==> k in m.keys)
  }

  function Empty<V>(): (m: OrderedMap<V>)
    ensures Valid(m) && m.keys == [] && m.table == map[]
  {
    OrderedMap([], map[])
  }

  /** `obj[k] = v`, `map.set(k, v)`. */
  function Set<V>(m: OrderedMap<V>, k: string, v: V): (r: OrderedMap<V>)
    ensures r.table == m.table[k := v]
    ensures r.keys == if k in m.table then m.keys else m.keys + [k]
  {
    if k in m.table then OrderedMap(m.keys, m.table[k := v])
    else OrderedMap(m.keys + [k], m.table[k := v])
  }

  /** A run of steps performed one after the other, in order; each step either
      writes `(key, value)` or writes nothing. */
  function SetAll<V>(m: OrderedMap<V>, ws: seq<Option<(string, V)>>): OrderedMap<V>
    decreases |ws|
  {
    if ws == [] then m
    else Step(SetAll(m, ws[..|ws| - 1]), ws[|ws| - 1])
  }

  /** One step of a run: its write, if it makes one. */
  function Step<V>(m: OrderedMap<V>, w: Option<(string, V)>): OrderedMap<V>
  {
    if w.Some? then Set(m, w.value.0, w.value.1) else m
  }

  /** Writing keeps every key listed once and the listing in step with the table. */
  lemma SetValid<V>(m: OrderedMap<V>, k: string, v: V)
    requires Valid(m)
    ensures Valid(Set(m, k, v))
  {
  }

  lemma {:induction false} SetAllValid<V>(m: OrderedMap<V>, ws: seq<Option<(string, V)>>)
    requires Valid(m)
    ensures Valid(SetAll(m, ws))
    decreases |ws|
  {
    if ws != [] {
      SetAllValid(m, ws[..|ws| - 1]);
      if ws[|ws| - 1].Some? {
        SetValid(SetAll(m, ws[..|ws| - 1]), ws[|ws| - 1].value.0, ws[|ws| - 1].value.1);
      }
    }
  }

  /** `Object.values(obj)`, `[...map.values()]`. */
  function Values<V>(m: OrderedMap<V>): seq<V>
    requires Valid(m)
  {
    seq(|m.keys|, i requires 0 <= i < |m.keys| => m.table[m.keys[i]])
  }

  predicate WrittenAt<V>(ws: seq<Option<(string, V)>>, k: string, j: int)
  {
    0 <= j < |ws| && ws[j].Some? && ws[j].value.0 == k
  }

  /** `j` is the last write of key `k` in `ws`. */
  predicate LastWriteAt<V>(ws: seq<Option<(string, V)>>, k: string, j: int)
  {
    WrittenAt(ws, k, j) && forall j' :: j < j' < |ws| ==> !WrittenAt(ws, k, j')
  }

  /** The position of the first write of `k` in `ws`, or `|ws|` when there is none. */
  function FirstWrite<V>(ws: seq<Option<(string, V)>>, k: string): (r: nat)
    ensures r <= |ws|
    ensures r < |ws| ==> WrittenAt(ws, k, r)
    ensures forall j :: 0 <= j < r ==> !WrittenAt(ws, k, j)
  {
    if ws == [] then 0
    else if WrittenAt(ws, k, 0) then 0
    else
      assert forall j :: 0 < j < |ws| ==> (WrittenAt(ws, k, j) <==> WrittenAt(ws[1..], k, j - 1));
      1 + FirstWrite(ws[1..], k)
  }

  /** After a run of writes, a key is present iff it was present before or
      was written; its value is the one from its last write, or the old one
      when it was not written. */
  lemma SetAllAt<V>(m: OrderedMap<V>, ws: seq<Option<(string, V)>>, k: string)
    ensures k in SetAll(m, ws).table <==> k in m.table || exists j :: WrittenAt(ws, k, j)
    ensures (exists j :: WrittenAt(ws, k, j)) ==> exists j :: LastWriteAt(ws, k, j)
    ensures forall j :: LastWriteAt(ws, k, j) ==> SetAll(m, ws).table[k] == ws[j].value.1
    ensures (forall j :: !WrittenAt(ws, k, j)) && k in m.table ==> SetAll(m, ws).table[k] == m.table[k]
  {
    SetAllHas(m, ws, k);
    LastWriteExists(ws, k);
    SetAllLastWrite(m, ws, k);
    if (forall j :: !WrittenAt(ws, k, j)) && k in m.table {
      SetAllUnwritten(m, ws, k);
    }
  }

  lemma {:induction false} SetAllHas<V>(m: OrderedMap<V>, ws: seq<Option<(string, V)>>, k: string)
    ensures k in SetAll(m, ws).table <==> k in m.table || exists j :: WrittenAt(ws, k, j)
    decreases |ws|
  {
    if ws != [] {
      var n := |ws| - 1;
      SetAllHas(m, ws[..n], k);
      assert forall j :: WrittenAt(ws[..n], k, j) <==> WrittenAt(ws, k, j) && j < n;
      var t, t' := SetAll(m, ws[..n]).table, SetAll(m, ws).table;
      assert k in t' <==> k in t || WrittenAt(ws, k, n);
    }
  }

  /** A key written somewhere in a run has a last write in it. */
  lemma {:induction false} LastWriteExists<V>(ws: seq<Option<(string, V)>>, k: string)
    ensures (exists j :: WrittenAt(ws, k, j)) ==> exists j :: LastWriteAt(ws, k, j)
    decreases |ws|
  {
    if ws != [] {
      var n := |ws| - 1;
      if WrittenAt(ws, k, n) {
        assert LastWriteAt(ws, k, n);
      } else {
        LastWriteExists(ws[..n], k);
        assert forall j :: WrittenAt(ws[..n], k, j) <==> WrittenAt(ws, k, j) && j < n;
        assert forall j :: LastWriteAt(ws[..n], k, j) ==> LastWriteAt(ws, k, j);
      }
    }
  }

  lemma {:induction false} SetAllLastWrite<V>(m: OrderedMap<V>, ws: seq<Option<(string, V)>>, k: string)
    ensures forall j :: LastWriteAt(ws, k, j) ==> k in SetAll(m, ws).table && SetAll(m, ws).table[k] == ws[j].value.1
    decreases |ws|
  {
    if ws != [] {
      var n := |ws| - 1;
      if !WrittenAt(ws, k, n) {
        SetAllLastWrite(m, ws[..n], k);
        forall j | LastWriteAt(ws, k, j) ensures LastWriteAt(ws[..n], k, j) {
          assert forall j' :: WrittenAt(ws[..n], k, j') ==> WrittenAt(ws, k, j');
          assert ws[..n][j] == ws[j];
        }
      } else {
        assert forall j :: LastWriteAt(ws, k, j) ==> j == n;
      }
    }
  }

  lemma {:induction false} SetAllUnwritten<V>(m: OrderedMap<V>, ws: seq<Option<(string, V)>>, k: string)
    requires forall j :: !WrittenAt(ws, k, j)
    requires k in m.table
    ensures k in SetAll(m, ws).table && SetAll(m, ws).table[k] == m.table[k]
    decreases |ws|
  {
    if ws != [] {
      var n := |ws| - 1;
      assert !WrittenAt(ws, k, n);
      assert forall j :: WrittenAt(ws[..n], k, j) ==> WrittenAt(ws, k, j);
      SetAllUnwritten(m, ws[..n], k);
    }
  }

  /** Keys already present keep their positions: writes only append keys. */
  lemma {:induction false} SetAllKeepsPositions<V>(m: OrderedMap<V>, ws: seq<Option<(string, V)>>)
    ensures |m.keys| <= |SetAll(m, ws).keys|
    ensures SetAll(m, ws).keys[..|m.keys|] == m.keys
    decreases |ws|
  {
    if ws != [] {
      SetAllKeepsPositions(m, ws[..|ws| - 1]);
    }
  }

  /** Among keys that a run of writes added, enumeration order is the order
      in which each key was first written, whatever was written later. */
  lemma {:induction false} SetAllFirstInsertionOrder<V>(m: OrderedMap<V>, ws: seq<Option<(string, V)>>, i: int, j: int)
    requires |m.keys| <= i < j < |SetAll(m, ws).keys|
    ensures FirstWrite(ws, SetAll(m, ws).keys[i]) < FirstWrite(ws, SetAll(m, ws).keys[j]) < |ws|
    decreases |ws|
  {
    var r := SetAll(m, ws);
    SetAllKeepsPositions(m, ws);
    if ws != [] {
      var n := |ws| - 1;
      var front := ws[..n];
      var r' := SetAll(m, front);
      SetAllKeepsPositions(m, front);
      NewKeyWasWritten(m, front, i);
      FirstWriteOfPrefix(ws, n, r'.keys[i]);
      if j < |r'.keys| {
        SetAllFirstInsertionOrder(m, front, i, j);
        FirstWriteOfPrefix(ws, n, r'.keys[j]);
      } else {
        var k := ws[n].value.0;
        assert k !in r'.table && r.keys[j] == k;
        SetAllAt(m, front, k);
        assert forall q :: 0 <= q < n ==> !WrittenAt(ws, k, q) by {
          assert forall q :: 0 <= q < n ==> (WrittenAt(front, k, q) <==> WrittenAt(ws, k, q));
        }
        assert WrittenAt(ws, k, n);
      }
    }
  }

  /** A key that a run of writes added to the listing was written by it. */
  lemma {:induction false} NewKeyWasWritten<V>(m: OrderedMap<V>, ws: seq<Option<(string, V)>>, i: int)
    requires |m.keys| <= i < |SetAll(m, ws).keys|
    ensures FirstWrite(ws, SetAll(m, ws).keys[i]) < |ws|
    decreases |ws|
  {
    var n := |ws| - 1;
    var r' := SetAll(m, ws[..n]);
    SetAllKeepsPositions(m, ws[..n]);
    if i < |r'.keys| {
      NewKeyWasWritten(m, ws[..n], i);
      FirstWriteOfPrefix(ws, n, r'.keys[i]);
    } else {
      assert WrittenAt(ws, SetAll(m, ws).keys[i], n);
    }
  }

  lemma FirstWriteOfPrefix<V>(ws: seq<Option<(string, V)>>, n: nat, k: string)
    requires n <= |ws|
    ensures FirstWrite(ws[..n], k) < n ==> FirstWrite(ws, k) == FirstWrite(ws[..n], k)
    ensures FirstWrite(ws[..n], k) == n ==> FirstWrite(ws, k) >= n
  {
    var a, b := FirstWrite(ws[..n], k), FirstWrite(ws, k);
    assert forall j :: 0 <= j < n ==> (WrittenAt(ws[..n], k, j) <==> WrittenAt(ws, k, j));
    if a < n {
      assert WrittenAt(ws, k, a);
    }
  }

  /** The steps of `Object.assign(target, m)`: one write per entry of `m`, in enumeration order. */
  function EntryWrites<V>(m: OrderedMap<V>): seq<Option<(string, V)>>
    requires Valid(m)
  {
    seq(|m.keys|, i requires 0 <= i < |m.keys| => Some((m.keys[i], m.table[m.keys[i]])))
  }

  /** `Object.assign({}, m)`: copying every entry of a map into an empty one,
      in enumeration order, reproduces the map, order included. */
  lemma AssignIntoEmpty<V>(m: OrderedMap<V>)
    requires Valid(m)
    ensures SetAll(Empty(), EntryWrites(m)) == m
  {
    var es := EntryWrites(m);
    AssignKeys(m, |es|);
    assert es[..|es|] == es && m.keys[..|es|] == m.keys;
    AssignTable(m);
  }

  lemma AssignTable<V>(m: OrderedMap<V>)
    requires Valid(m)
    requires SetAll(Empty(), EntryWrites(m)).keys == m.keys
    ensures SetAll(Empty(), EntryWrites(m)).table == m.table
  {
    var t := SetAll(Empty(), EntryWrites(m)).table;
    SetAllValid(Empty(), EntryWrites(m));
    forall k | k in m.table ensures k in t && t[k] == m.table[k] {
      AssignValue(m, k);
    }
    assert t.Keys == m.table.Keys;
  }

  lemma AssignValue<V>(m: OrderedMap<V>, k: string)
    requires Valid(m) && k in m.table
    ensures k in SetAll(Empty(), EntryWrites(m)).table
    ensures SetAll(Empty(), EntryWrites(m)).table[k] == m.table[k]
  {
    var es := EntryWrites(m);
    var p :| 0 <= p < |m.keys| && m.keys[p] == k;
    assert WrittenAt(es, k, p);
    assert forall j :: p < j < |es| ==> !WrittenAt(es, k, j);
    assert LastWriteAt(es, k, p);
    SetAllAt(Empty(), es, k);
  }

  lemma {:induction false} AssignKeys<V>(m: OrderedMap<V>, n: nat)
    requires Valid(m) && n <= |m.keys|
    ensures SetAll(Empty(), EntryWrites(m)[..n]).keys == m.keys[..n]
    ensures forall k :: k in SetAll(Empty(), EntryWrites(m)[..n]).table <==> k in m.keys[..n]
  {
    if n > 0 {
      var es := EntryWrites(m)[..n];
      assert es[..n - 1] == EntryWrites(m)[..n - 1];
      AssignKeys(m, n - 1);
      assert m.keys[..n] == m.keys[..n - 1] + [m.keys[n - 1]];
    }
  }
}
