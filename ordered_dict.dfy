/** An insertion-ordered dictionary, as Python's `dict` is: a sequence of keys in
    the order they were first inserted and a map holding the current value of
    each key. Writing a key that is already present replaces its value and keeps
    its position; writing a new key appends it. */
module OrderedDict {

  datatype ODict<V> = ODict(keys: seq<string>, values: map<string, V>)

  /** No key is listed twice. */
  predicate Distinct(ks: seq<string>)
  {
    forall i, j :: 0 <= i < j < |ks| ==> ks[i] != ks[j]
  }

  /** The key order lists exactly the keys of the map, each once. */
  ghost predicate Valid<V>(d: ODict<V>)
  {
    && Distinct(d.keys)
    && d.values.Keys == KeySet(d.keys)
  }

  function KeySet(ks: seq<string>): set<string> { set k | k in ks }

  /** The empty dictionary `{}`. */
  function Empty<V>(): (d: ODict<V>)
    ensures Valid(d) && d.keys == [] && d.values == map[]
  {
    ODict([], map[])
  }

  /** `d[k] = v`. */
  function Put<V>(d: ODict<V>, k: string, v: V): (r: ODict<V>)
    ensures Valid(d) ==> Valid(r)
    ensures r.values == d.values[k := v]
    ensures k in d.values ==> r.keys == d.keys
    ensures k !in d.values ==> r.keys == d.keys + [k]
  {
    ODict(if k in d.values then d.keys else d.keys + [k], d.values[k := v])
  }

  /** The keys of a list of pairs, in order. */
  function KeysOf<V>(items: seq<(string, V)>): (ks: seq<string>)
    ensures |ks| == |items|
    ensures forall i :: 0 <= i < |items| ==> ks[i] == items[i].0
  {
    seq(|items|, i requires 0 <= i < |items| => items[i].0)
  }

  /** `d.update(items)`: every pair written in turn, the last write to a key winning. */
  function PutAll<V>(d: ODict<V>, items: seq<(string, V)>): (r: ODict<V>)
    requires Valid(d)
    ensures Valid(r)
    decreases |items|
  {
    if items == [] then d
    else
      var last := items[|items| - 1];
      Put(PutAll(d, items[..|items| - 1]), last.0, last.1)
  }

  /** `dict(items)`. */
  function FromItems<V>(items: seq<(string, V)>): (r: ODict<V>)
    ensures Valid(r)
  {
    PutAll(Empty(), items)
  }

  /** `d.items()`: the pairs in key order. */
  function Items<V>(d: ODict<V>): (items: seq<(string, V)>)
    requires Valid(d)
    ensures |items| == |d.keys|
    ensures forall i :: 0 <= i < |items| ==> items[i] == (d.keys[i], d.values[d.keys[i]])
  {
    seq(|d.keys|, i requires 0 <= i < |d.keys| => (d.keys[i], d.values[d.keys[i]]))
  }

  /** Maps every value of a dictionary through `f`, keeping keys and order. */
  function MapValues<V, W>(d: ODict<V>, f: V -> W): (r: ODict<W>)
    requires Valid(d)
    ensures Valid(r) && r.keys == d.keys
    ensures forall k :: k in r.values ==> k in d.values && r.values[k] == f(d.values[k])
  {
    ODict(d.keys, map k | k in d.values :: f(d.values[k]))
  }

  /** Writing `a` and then `b` is writing `a + b`. */
  lemma {:induction false} PutAllConcat<V>(d: ODict<V>, a: seq<(string, V)>, b: seq<(string, V)>)
    requires Valid(d)
    ensures PutAll(d, a + b) == PutAll(PutAll(d, a), b)
    decreases |b|
  {
    if b == [] {
      assert a + b == a;
    } else {
      var n := |b| - 1;
      assert (a + b)[..|a + b| - 1] == a + b[..n];
      assert (a + b)[|a + b| - 1] == b[n];
      PutAllConcat(d, a, b[..n]);
    }
  }

  /** A key is present after the writes exactly when it was present before or
      one of the pairs carries it. */
  lemma {:induction false} PutAllHasKey<V>(d: ODict<V>, items: seq<(string, V)>, k: string)
    requires Valid(d)
    ensures k in PutAll(d, items).values <==> k in d.values || k in KeysOf(items)
    decreases |items|
  {
    if items != [] {
      var n := |items| - 1;
      PutAllHasKey(d, items[..n], k);
      assert KeysOf(items) == KeysOf(items[..n]) + [items[n].0];
      assert PutAll(d, items).values == PutAll(d, items[..n]).values[items[n].0 := items[n].1];
    }
  }

  /** The value of a key is the one written last; with no write, the old one. */
  lemma {:induction false} PutAllLastWins<V>(d: ODict<V>, items: seq<(string, V)>, j: int, k: string)
    requires Valid(d)
    requires -1 <= j < |items|
    requires j >= 0 ==> items[j].0 == k
    requires j < 0 ==> k in d.values
    requires forall i :: j < i < |items| ==> items[i].0 != k
    ensures k in PutAll(d, items).values
    ensures PutAll(d, items).values[k] == if j >= 0 then items[j].1 else d.values[k]
    decreases |items|
  {
    if items != [] {
      var n := |items| - 1;
      var m := PutAll(d, items[..n]);
      assert PutAll(d, items) == Put(m, items[n].0, items[n].1);
      if j < n {
        PutAllLastWins(d, items[..n], j, k);
        assert items[n].0 != k;
      }
    }
  }

  /** Writing a list can only add as many keys as it has pairs. */
  lemma {:induction false} PutAllSize<V>(d: ODict<V>, items: seq<(string, V)>)
    requires Valid(d)
    ensures |PutAll(d, items).keys| <= |d.keys| + |items|
    decreases |items|
  {
    if items != [] {
      PutAllSize(d, items[..|items| - 1]);
    }
  }

  /** The keys of `ks` in the order of their first occurrence, each once. */
  function FirstOccurrences(ks: seq<string>): (r: seq<string>)
    ensures Distinct(r)
    ensures forall k :: k in r <==> k in ks
    decreases |ks|
  {
    if ks == [] then []
    else
      var pre := FirstOccurrences(ks[..|ks| - 1]);
      if ks[|ks| - 1] in ks[..|ks| - 1] then pre else pre + [ks[|ks| - 1]]
  }

  /** The index of the first occurrence of `k` in `ks`. */
  function FirstIndex(ks: seq<string>, k: string): (i: nat)
    requires k in ks
    ensures i < |ks| && ks[i] == k
    ensures k !in ks[..i]
    decreases |ks|
  {
    if k in ks[..|ks| - 1] then FirstIndex(ks[..|ks| - 1], k)
    else |ks| - 1
  }

  /** `FirstOccurrences` lists the keys by the place of their first occurrence. */
  lemma {:induction false} FirstOccurrencesOrder(ks: seq<string>)
    ensures forall i, j :: 0 <= i < j < |FirstOccurrences(ks)| ==>
      FirstIndex(ks, FirstOccurrences(ks)[i]) < FirstIndex(ks, FirstOccurrences(ks)[j])
    decreases |ks|
  {
    if ks != [] {
      var n := |ks| - 1;
      var pre := FirstOccurrences(ks[..n]);
      FirstOccurrencesOrder(ks[..n]);
      forall k | k in ks[..n]
        ensures FirstIndex(ks, k) == FirstIndex(ks[..n], k)
      {
      }
      if ks[n] !in ks[..n] {
        assert FirstIndex(ks, ks[n]) == n;
        forall i | 0 <= i < |pre|
          ensures pre[i] in ks[..n] && FirstIndex(ks, pre[i]) < n
        {
        }
      }
    }
  }

  /** `dict(items)` lists each key at the place of its first pair. */
  lemma {:induction false} FromItemsKeyOrder<V>(items: seq<(string, V)>)
    ensures FromItems(items).keys == FirstOccurrences(KeysOf(items))
    decreases |items|
  {
    if items != [] {
      var n := |items| - 1;
      FromItemsKeyOrder(items[..n]);
      PutAllHasKey(Empty(), items[..n], items[n].0);
      assert KeysOf(items)[..n] == KeysOf(items[..n]);
    }
  }

  /** Rebuilding a dictionary from its own items gives it back. */
  lemma {:induction false} FromItemsOfItems<V>(d: ODict<V>)
    requires Valid(d)
    ensures FromItems(Items(d)) == d
    decreases |d.keys|
  {
    if d.keys == [] {
      assert d.values == map[];
    } else {
      var n := |d.keys| - 1;
      var k, v := d.keys[n], d.values[d.keys[n]];
      var d' := DropLast(d);
      ItemsAppend(d', k, v);
      FromItemsOfItems(d');
      assert Items(d)[..n] == Items(d');
    }
  }

  /** A dictionary without its last key: putting that key back gives the
      dictionary again. */
  lemma DropLast<V>(d: ODict<V>) returns (d': ODict<V>)
    requires Valid(d) && d.keys != []
    ensures Valid(d') && d'.keys == d.keys[..|d.keys| - 1]
    ensures d.keys[|d.keys| - 1] !in d'.values
    ensures Put(d', d.keys[|d.keys| - 1], d.values[d.keys[|d.keys| - 1]]) == d
  {
    var n := |d.keys| - 1;
    var k, v := d.keys[n], d.values[d.keys[n]];
    d' := ODict(d.keys[..n], d.values - {k});
    forall x | x in d'.values ensures x in d'.keys {
      var i :| 0 <= i < |d.keys| && d.keys[i] == x;
      assert d'.keys[i] == x;
    }
    assert d'.keys + [k] == d.keys;
    assert d'.values[k := v] == d.values;
  }

  /** Adding a new key adds one pair at the end of the items. */
  lemma ItemsAppend<V>(d: ODict<V>, k: string, v: V)
    requires Valid(d) && k !in d.values
    ensures Items(Put(d, k, v)) == Items(d) + [(k, v)]
  {
  }

  /** Writing two different keys in either order gives the same dictionary,
      provided the first was already present. */
  lemma PutCommute<V>(d: ODict<V>, k: string, v: V, j: string, w: V)
    requires Valid(d) && k in d.values && j != k
    ensures Put(Put(d, k, v), j, w) == Put(Put(d, j, w), k, v)
  {
    assert d.values[k := v][j := w] == d.values[j := w][k := v];
  }

  /** Replacing the value of a pair whose key is not written again later is the
      same as writing the new value over the old result. */
  lemma {:induction false} PutAllReplace<V>(d: ODict<V>, a: seq<(string, V)>, k: string, v0: V, v: V, b: seq<(string, V)>)
    requires Valid(d)
    requires forall i :: 0 <= i < |b| ==> b[i].0 != k
    ensures PutAll(d, a + [(k, v)] + b) == Put(PutAll(d, a + [(k, v0)] + b), k, v)
    decreases |b|
  {
    if b == [] {
      PutTwice(PutAll(d, a), k, v0, v);
      PutAllSnoc(d, a, (k, v));
      PutAllSnoc(d, a, (k, v0));
      assert a + [(k, v)] + b == a + [(k, v)];
      assert a + [(k, v0)] + b == a + [(k, v0)];
    } else {
      var n := |b| - 1;
      var x := a + [(k, v0)] + b[..n];
      var x' := a + [(k, v)] + b[..n];
      assert a + [(k, v)] + b == x' + [b[n]];
      assert a + [(k, v0)] + b == x + [b[n]];
      PutAllSnoc(d, x', b[n]);
      PutAllSnoc(d, x, b[n]);
      PutAllReplace(d, a, k, v0, v, b[..n]);
      assert k in PutAll(d, x).values by {
        PutAllHasKey(d, x, k);
        assert KeysOf(x)[|a|] == k;
      }
      PutCommute(PutAll(d, x), k, v, b[n].0, b[n].1);
    }
  }

  /** Writing one more pair is one more `Put`. */
  lemma PutAllSnoc<V>(d: ODict<V>, a: seq<(string, V)>, p: (string, V))
    requires Valid(d)
    ensures PutAll(d, a + [p]) == Put(PutAll(d, a), p.0, p.1)
  {
    assert (a + [p])[..|a|] == a;
  }

  /** Writing a key twice keeps only the second value. */
  lemma PutTwice<V>(d: ODict<V>, k: string, v0: V, v: V)
    requires Valid(d)
    ensures Put(Put(d, k, v0), k, v) == Put(d, k, v)
  {
    assert d.values[k := v0][k := v] == d.values[k := v];
  }

  /** Writing the items of `dict(y)` is the same as writing `y` itself: the
      duplicates that `dict` dropped would have been overwritten anyway. */
  lemma {:induction false} PutAllFromItems<V>(d: ODict<V>, y: seq<(string, V)>)
    requires Valid(d)
    ensures PutAll(d, Items(FromItems(y))) == PutAll(d, y)
    decreases |y|
  {
    if y != [] {
      var n := |y| - 1;
      var k, v := y[n].0, y[n].1;
      var f' := FromItems(y[..n]);
      assert y == y[..n] + [y[n]];
      PutAllSnoc(Empty(), y[..n], y[n]);
      PutAllSnoc(d, y[..n], y[n]);
      PutAllFromItems(d, y[..n]);
      if k in f'.values {
        PutAllFromItemsPresent(d, f', k, v);
      } else {
        ItemsAppend(f', k, v);
        PutAllSnoc(d, Items(f'), (k, v));
      }
    }
  }

  /** The step of PutAllFromItems for a key that `dict` already holds. */
  lemma PutAllFromItemsPresent<V>(d: ODict<V>, f: ODict<V>, k: string, v: V)
    requires Valid(d) && Valid(f) && k in f.values
    ensures PutAll(d, Items(Put(f, k, v))) == Put(PutAll(d, Items(f)), k, v)
  {
    var i :| 0 <= i < |f.keys| && f.keys[i] == k;
    var its, its' := Items(f), Items(Put(f, k, v));
    var before, after := ItemsAround(f, i);
    ItemsUpdate(f, i, v);
    assert its'[..i] == before && its'[i + 1..] == after;
    SplitAt(its', i, (k, v));
    PutAllReplace(d, before, k, f.values[k], v, after);
  }

  /** The pairs of a dictionary before and after its `i`-th key, which no
      later pair has. */
  lemma ItemsAround<V>(f: ODict<V>, i: int) returns (before: seq<(string, V)>, after: seq<(string, V)>)
    requires Valid(f) && 0 <= i < |f.keys|
    ensures before == Items(f)[..i] && after == Items(f)[i + 1..]
    ensures Items(f) == before + [(f.keys[i], f.values[f.keys[i]])] + after
    ensures forall t :: 0 <= t < |after| ==> after[t].0 != f.keys[i]
  {
    var its := Items(f);
    before, after := its[..i], its[i + 1..];
    SplitAt(its, i, (f.keys[i], f.values[f.keys[i]]));
    forall t | 0 <= t < |after| ensures after[t].0 != f.keys[i] {
      assert after[t].0 == f.keys[i + 1 + t];
    }
  }

  /** Overwriting a present key changes its pair in place. */
  lemma ItemsUpdate<V>(d: ODict<V>, i: int, v: V)
    requires Valid(d) && 0 <= i < |d.keys|
    ensures Items(Put(d, d.keys[i], v)) == Items(d)[i := (d.keys[i], v)]
  {
  }

  /** A sequence is its part before `i`, its element at `i` and its part after. */
  lemma SplitAt<T>(s: seq<T>, i: int, x: T)
    requires 0 <= i < |s| && s[i] == x
    ensures s == s[..i] + [x] + s[i + 1..]
  {
  }

  /** A value in `dict(items)` is the value of one of the pairs with its key. */
  lemma {:induction false} FromItemsValueOrigin<V>(items: seq<(string, V)>, k: string)
    requires k in FromItems(items).values
    ensures exists j :: 0 <= j < |items| && items[j] == (k, FromItems(items).values[k])
    decreases |items|
  {
    var n := |items| - 1;
    assert items == items[..n] + [items[n]];
    PutAllSnoc(Empty(), items[..n], items[n]);
    assert FromItems(items) == Put(FromItems(items[..n]), items[n].0, items[n].1);
    if items[n].0 != k {
      FromItemsValueOrigin(items[..n], k);
      var j :| 0 <= j < n && items[..n][j] == (k, FromItems(items[..n]).values[k]);
      assert items[j] == items[..n][j];
    } else {
      assert items[n] == (k, FromItems(items).values[k]);
    }
  }
}
