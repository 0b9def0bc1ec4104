/**
  Unordered tables of distinct 16-bit keys, as services 11 and 19 keep them: appended at the end,
  searched linearly, packed by moving the last row into a hole. Each stands for a finite map.
  */
module KeyedTable {
  import opened Bytes

  datatype Row<V> = Row(key: u16, value: V)

  ghost predicate Distinct<V>(t: seq<Row<V>>) {
    forall i, j | 0 <= i < j < |t| :: t[i].key != t[j].key
  }

  /** The map a table stands for. */
  function AsMap<V>(t: seq<Row<V>>): map<u16, V> {
    if t == [] then map[] else AsMap(t[..|t| - 1])[t[|t| - 1].key := t[|t| - 1].value]
  }

  lemma {:induction false} MapKeys<V>(t: seq<Row<V>>, k: u16)
    ensures k in AsMap(t) <==> exists i :: 0 <= i < |t| && t[i].key == k
  {
    if t != [] {
      var n := |t| - 1;
      MapKeys(t[..n], k);
      if k in AsMap(t[..n]) {
        var i :| 0 <= i < n && t[..n][i].key == k;
        assert t[i].key == k;
      }
    }
  }

  lemma {:induction false} MapValue<V>(t: seq<Row<V>>, i: nat)
    requires Distinct(t) && i < |t|
    ensures t[i].key in AsMap(t) && AsMap(t)[t[i].key] == t[i].value
  {
    var n := |t| - 1;
    if i < n {
      MapValue(t[..n], i);
      assert t[i].key != t[n].key;
    }
  }

  lemma MapAll<V>(t: seq<Row<V>>)
    requires Distinct(t)
    ensures forall i | 0 <= i < |t| :: t[i].key in AsMap(t) && AsMap(t)[t[i].key] == t[i].value
    ensures forall k: u16 | k in AsMap(t) :: exists i :: 0 <= i < |t| && t[i].key == k
  {
    forall i | 0 <= i < |t| ensures t[i].key in AsMap(t) && AsMap(t)[t[i].key] == t[i].value {
      MapValue(t, i);
    }
    forall k: u16 | k in AsMap(t) ensures exists i :: 0 <= i < |t| && t[i].key == k {
      MapKeys(t, k);
    }
  }

  /** A linear search for a key finds it exactly if the map has it. */
  lemma FirstRow<V>(t: seq<Row<V>>, key: u16, k: nat)
    requires Distinct(t) && k <= |t| && (forall i | 0 <= i < k :: t[i].key != key)
    requires k < |t| ==> t[k].key == key
    ensures k < |t| <==> key in AsMap(t)
    ensures k < |t| ==> AsMap(t)[key] == t[k].value
  {
    MapKeys(t, key);
    if k < |t| {
      MapValue(t, k);
    }
  }

  lemma {:induction false} MapSize<V>(t: seq<Row<V>>)
    requires Distinct(t)
    ensures |AsMap(t)| == |t|
  {
    if t != [] {
      var n := |t| - 1;
      MapSize(t[..n]);
      MapKeys(t[..n], t[n].key);
    }
  }

  lemma Append<V>(t: seq<Row<V>>, r: Row<V>)
    requires Distinct(t) && r.key !in AsMap(t)
    ensures Distinct(t + [r]) && AsMap(t + [r]) == AsMap(t)[r.key := r.value]
  {
    assert (t + [r])[..|t|] == t;
    MapAll(t);
  }

  lemma Replace<V>(t: seq<Row<V>>, i: nat, v: V)
    requires Distinct(t) && i < |t|
    ensures Distinct(t[i := Row(t[i].key, v)])
    ensures AsMap(t[i := Row(t[i].key, v)]) == AsMap(t)[t[i].key := v]
  {
    var t' := t[i := Row(t[i].key, v)];
    SameKeys(t, i, v);
    MapAll(t);
    MapAll(t');
    ReplacedRows(t, i, v, AsMap(t));
    SameMap(AsMap(t'), AsMap(t)[t[i].key := v], t');
  }

  lemma SameKeys<V>(t: seq<Row<V>>, i: nat, v: V)
    requires Distinct(t) && i < |t|
    ensures Distinct(t[i := Row(t[i].key, v)])
  {
  }

  lemma ReplacedRows<V>(t: seq<Row<V>>, i: nat, v: V, m: map<u16, V>)
    requires Distinct(t) && i < |t|
    requires forall k: u16 | k in m :: exists j :: 0 <= j < |t| && t[j].key == k
    requires forall j | 0 <= j < |t| :: t[j].key in m && m[t[j].key] == t[j].value
    ensures var r, n := t[i := Row(t[i].key, v)], m[t[i].key := v];
      && (forall k: u16 | k in n :: exists j :: 0 <= j < |r| && r[j].key == k)
      && forall j | 0 <= j < |r| :: r[j].key in n && n[r[j].key] == r[j].value
  {
    var r, n := t[i := Row(t[i].key, v)], m[t[i].key := v];
    forall k: u16 | k in n ensures exists j :: 0 <= j < |r| && r[j].key == k {
      var j :| 0 <= j < |t| && t[j].key == k;
      assert r[j].key == k;
    }
  }

  /** Two maps that both give every row of a table and no other key are equal. */
  lemma SameMap<V>(m: map<u16, V>, n: map<u16, V>, t: seq<Row<V>>)
    requires forall k: u16 | k in m :: exists i :: 0 <= i < |t| && t[i].key == k
    requires forall k: u16 | k in n :: exists i :: 0 <= i < |t| && t[i].key == k
    requires forall i | 0 <= i < |t| :: t[i].key in m && m[t[i].key] == t[i].value
    requires forall i | 0 <= i < |t| :: t[i].key in n && n[t[i].key] == t[i].value
    ensures m == n
  {
    assert m.Keys == n.Keys by {
      forall k: u16 | k in m ensures k in n {
      }
      forall k: u16 | k in n ensures k in m {
      }
    }
    forall k: u16 | k in m ensures m[k] == n[k] {
      var i :| 0 <= i < |t| && t[i].key == k;
    }
  }

  /** The last row moved over row i, and the table shortened. */
  function SwapRemove<V>(t: seq<Row<V>>, i: nat): (r: seq<Row<V>>)
    requires i < |t|
    ensures |r| == |t| - 1
  {
    t[i := t[|t| - 1]][..|t| - 1]
  }

  /** Row j of a packed table is row Source(j) of the original. */
  function Source(last: nat, i: nat, j: nat): nat {
    if j == i then last else j
  }

  lemma Packed<V>(t: seq<Row<V>>, i: nat)
    requires i < |t|
    ensures forall j | 0 <= j < |t| - 1 :: SwapRemove(t, i)[j] == t[Source(|t| - 1, i, j)]
  {
  }

  /** Packing a table this way loses exactly the removed key. */
  lemma Remove<V>(t: seq<Row<V>>, i: nat)
    requires Distinct(t) && i < |t|
    ensures Distinct(SwapRemove(t, i))
    ensures AsMap(SwapRemove(t, i)) == AsMap(t) - {t[i].key}
  {
    var r := SwapRemove(t, i);
    PackedDistinct(t, i);
    MapAll(t);
    MapAll(r);
    PackedRows(t, i, AsMap(t) - {t[i].key});
    SameMap(AsMap(r), AsMap(t) - {t[i].key}, r);
  }

  lemma PackedDistinct<V>(t: seq<Row<V>>, i: nat)
    requires Distinct(t) && i < |t|
    ensures Distinct(SwapRemove(t, i))
  {
    Packed(t, i);
  }

  lemma PackedRows<V>(t: seq<Row<V>>, i: nat, m: map<u16, V>)
    requires Distinct(t) && i < |t|
    requires forall k: u16 | k in m :: k != t[i].key && exists j :: 0 <= j < |t| && t[j].key == k
    requires forall j | 0 <= j < |t| && j != i :: t[j].key in m && m[t[j].key] == t[j].value
    ensures var r := SwapRemove(t, i);
      && (forall k: u16 | k in m :: exists j :: 0 <= j < |r| && r[j].key == k)
      && forall j | 0 <= j < |r| :: r[j].key in m && m[r[j].key] == r[j].value
  {
    Packed(t, i);
    var r := SwapRemove(t, i);
    forall k: u16 | k in m ensures exists j :: 0 <= j < |r| && r[j].key == k {
      var j :| 0 <= j < |t| && t[j].key == k;
      assert r[if j == |r| then i else j].key == k;
    }
  }
}
