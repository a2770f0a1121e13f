/**
 * A plain JavaScript object used as a dictionary from a key to a list, filled by
 * `if (!lib[k]) lib[k] = []; lib[k].push(v)` and read back with
 * `Object.entries`, which lists keys in first-insertion order. It is modelled as
 * an association list of buckets.
 */
module OrderedMap {
  import opened Opt

  datatype Bucket<K, V> = Bucket(key: K, items: seq<V>)

  /** The position of key `k`, if it is present: the first bucket with that key. */
  function IndexOf<K(==), V>(lib: seq<Bucket<K, V>>, k: K): (r: Option<nat>)
    ensures r.Some? ==> r.value < |lib| && lib[r.value].key == k
    ensures r.Some? ==> forall j :: 0 <= j < r.value ==> lib[j].key != k
    ensures r.None? ==> forall j :: 0 <= j < |lib| ==> lib[j].key != k
  {
    if lib == [] then None
    else if lib[0].key == k then Some(0)
    else match IndexOf(lib[1..], k)
      case None => None
      case Some(j) => Some(j + 1)
  }

  /** Appends `v` to the list under `k`, creating the key at the end when it is new. */
  function Push<K(==), V>(lib: seq<Bucket<K, V>>, k: K, v: V): seq<Bucket<K, V>>
  {
    match IndexOf(lib, k)
    case Some(i) => lib[i := Bucket(k, lib[i].items + [v])]
    case None => lib + [Bucket(k, [v])]
  }

  /** The dictionary built by pushing every element of `xs` under `key(x)`, in order. */
  function GroupBy<K(==), V>(xs: seq<V>, key: V -> K): seq<Bucket<K, V>>
  {
    if xs == [] then []
    else Push(GroupBy(xs[..|xs| - 1], key), key(xs[|xs| - 1]), xs[|xs| - 1])
  }

  // ---------------------------------------------------------------------------
  // Reference definitions the grouping is compared with.

  function Keys<K, V>(lib: seq<Bucket<K, V>>): seq<K>
  {
    seq(|lib|, i requires 0 <= i < |lib| => lib[i].key)
  }

  function KeysOf<K, V>(xs: seq<V>, key: V -> K): seq<K>
  {
    seq(|xs|, i requires 0 <= i < |xs| => key(xs[i]))
  }

  /** The elements of `xs` whose key is `k`, in their input order. */
  function Select<K(==), V>(xs: seq<V>, key: V -> K, k: K): seq<V>
  {
    if xs == [] then []
    else Select(xs[..|xs| - 1], key, k) + (if key(xs[|xs| - 1]) == k then [xs[|xs| - 1]] else [])
  }

  /** The distinct elements of `ks`, each at the place of its first occurrence. */
  function Distinct<K(==)>(ks: seq<K>): seq<K>
  {
    if ks == [] then []
    else
      var d := Distinct(ks[..|ks| - 1]);
      if ks[|ks| - 1] in d then d else d + [ks[|ks| - 1]]
  }

  predicate NoDuplicates<K(==)>(ks: seq<K>)
  {
    forall i, j :: 0 <= i < j < |ks| ==> ks[i] != ks[j]
  }

  /** The position of the first occurrence of `k` in `ks`. */
  function FirstIndex<K(==)>(ks: seq<K>, k: K): (r: nat)
    requires k in ks
    ensures r < |ks| && ks[r] == k && k !in ks[..r]
  {
    if ks[0] == k then 0 else FirstIndex(ks[1..], k) + 1
  }

  function Flatten<K, V>(lib: seq<Bucket<K, V>>): seq<V>
  {
    if lib == [] then [] else lib[0].items + Flatten(lib[1..])
  }

  // ---------------------------------------------------------------------------
  // Distinct

  lemma {:induction false} DistinctProperties<K>(ks: seq<K>)
    ensures NoDuplicates(Distinct(ks))
    ensures forall k :: k in Distinct(ks) <==> k in ks
    ensures |Distinct(ks)| <= |ks|
  {
    if ks != [] {
      DistinctProperties(ks[..|ks| - 1]);
      assert ks == ks[..|ks| - 1] + [ks[|ks| - 1]];
    }
  }

  lemma DistinctMember<K>(ks: seq<K>, i: nat)
    requires i < |Distinct(ks)|
    ensures Distinct(ks)[i] in ks
  {
    DistinctProperties(ks);
    assert Distinct(ks)[i] in Distinct(ks);
  }

  lemma FirstIndexUnique<K>(ks: seq<K>, k: K, r: nat)
    requires r < |ks| && ks[r] == k && k !in ks[..r]
    ensures FirstIndex(ks, k) == r
  {
  }

  lemma FirstIndexAppend<K>(ks: seq<K>, x: K, k: K)
    requires k in ks
    ensures k in ks + [x] && FirstIndex(ks + [x], k) == FirstIndex(ks, k)
  {
    var i := FirstIndex(ks, k);
    assert (ks + [x])[..i] == ks[..i];
    FirstIndexUnique(ks + [x], k, i);
  }

  /** Every element of `d` occurs in `ks`, and earlier in `d` means first seen earlier in `ks`. */
  predicate InFirstOccurrenceOrder<K(==)>(d: seq<K>, ks: seq<K>)
  {
    && (forall i :: 0 <= i < |d| ==> d[i] in ks)
    && (forall i, j :: 0 <= i < j < |d| ==> FirstIndex(ks, d[i]) < FirstIndex(ks, d[j]))
  }

  /** Distinct keeps the order in which the keys first occur. */
  lemma {:induction false} DistinctFirstOccurrenceOrder<K>(ks: seq<K>)
    ensures InFirstOccurrenceOrder(Distinct(ks), ks)
  {
    if ks != [] {
      var init, x := ks[..|ks| - 1], ks[|ks| - 1];
      assert ks == init + [x];
      var d := Distinct(init);
      DistinctFirstOccurrenceOrder(init);
      DistinctProperties(init);
      OrderExtends(d, init, x);
      if x !in d {
        forall i | 0 <= i < |d|
          ensures d[i] in init
        {
          DistinctMember(init, i);
        }
        OrderAppendNew(d, init, x);
      }
    }
  }

  /** Appending to `ks` does not move the first occurrence of anything already in it. */
  lemma OrderExtends<K>(d: seq<K>, ks: seq<K>, x: K)
    requires InFirstOccurrenceOrder(d, ks)
    ensures InFirstOccurrenceOrder(d, ks + [x])
  {
    forall i | 0 <= i < |d|
      ensures d[i] in ks + [x] && FirstIndex(ks + [x], d[i]) == FirstIndex(ks, d[i])
    {
      FirstIndexAppend(ks, x, d[i]);
    }
  }

  /** A key seen for the first time goes after every key seen before it. */
  lemma OrderAppendNew<K>(d: seq<K>, ks: seq<K>, x: K)
    requires InFirstOccurrenceOrder(d, ks + [x])
    requires forall i :: 0 <= i < |d| ==> d[i] in ks
    requires x !in ks
    ensures InFirstOccurrenceOrder(d + [x], ks + [x])
  {
    assert (ks + [x])[..|ks|] == ks;
    FirstIndexUnique(ks + [x], x, |ks|);
    forall i | 0 <= i < |d|
      ensures FirstIndex(ks + [x], d[i]) < |ks|
    {
      FirstIndexAppend(ks, x, d[i]);
    }
    var e := d + [x];
    forall i | 0 <= i < |e|
      ensures e[i] in ks + [x]
    {
      if i < |d| {
        assert e[i] == d[i];
      }
    }
    forall i, j | 0 <= i < j < |e|
      ensures FirstIndex(ks + [x], e[i]) < FirstIndex(ks + [x], e[j])
    {
      assert e[i] == d[i];
      if j < |d| {
        assert e[j] == d[j];
      }
    }
  }

  // ---------------------------------------------------------------------------
  // GroupBy against the reference definitions

  lemma KeysPush<K, V>(lib: seq<Bucket<K, V>>, k: K, v: V)
    ensures Keys(Push(lib, k, v)) == if k in Keys(lib) then Keys(lib) else Keys(lib) + [k]
  {
    match IndexOf(lib, k)
    case Some(i) =>
      assert Keys(lib)[i] == k;
    case None =>
      assert k !in Keys(lib);
  }

  /** The keys of the dictionary are the input keys in first-occurrence order. */
  lemma {:induction false} GroupByKeys<K, V>(xs: seq<V>, key: V -> K)
    ensures Keys(GroupBy(xs, key)) == Distinct(KeysOf(xs, key))
  {
    if xs != [] {
      var init := xs[..|xs| - 1];
      GroupByKeys(init, key);
      KeysPush(GroupBy(init, key), key(xs[|xs| - 1]), xs[|xs| - 1]);
      assert KeysOf(xs, key)[..|xs| - 1] == KeysOf(init, key);
    }
  }

  /** Everything selected under `k` has key `k`. */
  lemma {:induction false} SelectHasKey<K, V>(xs: seq<V>, key: V -> K, k: K)
    ensures forall j :: 0 <= j < |Select(xs, key, k)| ==> key(Select(xs, key, k)[j]) == k
  {
    if xs != [] {
      SelectHasKey(xs[..|xs| - 1], key, k);
    }
  }

  /** The bucket keys depend on the inputs only through their keys. */
  lemma {:induction false} GroupByKeysOnlyDependOnKeys<K, V>(xs: seq<V>, ys: seq<V>, key: V -> K)
    requires KeysOf(xs, key) == KeysOf(ys, key)
    ensures Keys(GroupBy(xs, key)) == Keys(GroupBy(ys, key))
  {
    GroupByKeys(xs, key);
    GroupByKeys(ys, key);
  }

  lemma SelectAppend<K, V>(xs: seq<V>, key: V -> K, k: K, v: V)
    ensures Select(xs + [v], key, k) == Select(xs, key, k) + (if key(v) == k then [v] else [])
  {
    assert (xs + [v])[..|xs + [v]| - 1] == xs;
  }

  /** Each bucket holds exactly the inputs with its key, in input order. */
  lemma {:induction false} GroupByItems<K, V>(xs: seq<V>, key: V -> K)
    ensures forall i :: 0 <= i < |GroupBy(xs, key)| ==>
      GroupBy(xs, key)[i].items == Select(xs, key, GroupBy(xs, key)[i].key)
  {
    if xs != [] {
      var init, v := xs[..|xs| - 1], xs[|xs| - 1];
      assert xs == init + [v];
      var lib := GroupBy(init, key);
      GroupByItems(init, key);
      GroupByKeys(init, key);
      DistinctProperties(KeysOf(init, key));
      assert NoDuplicates(Keys(lib));
      assert GroupBy(xs, key) == Push(lib, key(v), v);
      forall i | 0 <= i < |GroupBy(xs, key)|
        ensures GroupBy(xs, key)[i].items == Select(xs, key, GroupBy(xs, key)[i].key)
      {
        SelectAppend(init, key, GroupBy(xs, key)[i].key, v);
        match IndexOf(lib, key(v))
        case Some(idx) =>
          if i != idx {
            assert Keys(lib)[i] == lib[i].key && Keys(lib)[idx] == key(v);
          }
        case None =>
          if i == |lib| {
            assert Select(init, key, key(v)) == [] by {
              assert key(v) !in Keys(lib);
              SelectEmpty(init, key, key(v));
            }
          }
      }
    }
  }

  /** No element has a key that is absent from the dictionary's keys. */
  lemma {:induction false} SelectEmpty<K, V>(xs: seq<V>, key: V -> K, k: K)
    requires k !in KeysOf(xs, key)
    ensures Select(xs, key, k) == []
  {
    if xs != [] {
      var init := xs[..|xs| - 1];
      assert KeysOf(xs, key)[..|xs| - 1] == KeysOf(init, key);
      assert key(xs[|xs| - 1]) == KeysOf(xs, key)[|xs| - 1];
      SelectEmpty(init, key, k);
    }
  }

  lemma FlattenAppend<K, V>(lib: seq<Bucket<K, V>>, b: Bucket<K, V>)
    ensures Flatten(lib + [b]) == Flatten(lib) + b.items
  {
    if lib != [] {
      assert (lib + [b])[1..] == lib[1..] + [b];
      FlattenAppend(lib[1..], b);
    }
  }

  /** Appending `v` to one bucket adds exactly one `v` to the flattened contents. */
  lemma {:induction false} FlattenPushAt<K, V>(lib: seq<Bucket<K, V>>, i: nat, v: V)
    requires i < |lib|
    ensures multiset(Flatten(lib[i := Bucket(lib[i].key, lib[i].items + [v])]))
         == multiset(Flatten(lib)) + multiset{v}
  {
    var lib' := lib[i := Bucket(lib[i].key, lib[i].items + [v])];
    assert Flatten(lib') == lib'[0].items + Flatten(lib'[1..]);
    assert Flatten(lib) == lib[0].items + Flatten(lib[1..]);
    if i == 0 {
      assert lib'[1..] == lib[1..];
    } else {
      var tail := lib[1..];
      assert tail[i - 1] == lib[i];
      assert lib'[1..] == tail[i - 1 := Bucket(tail[i - 1].key, tail[i - 1].items + [v])];
      FlattenPushAt(tail, i - 1, v);
    }
  }

  lemma PushAddsOne<K, V>(lib: seq<Bucket<K, V>>, k: K, v: V)
    ensures multiset(Flatten(Push(lib, k, v))) == multiset(Flatten(lib)) + multiset{v}
  {
    match IndexOf(lib, k)
    case Some(i) =>
      FlattenPushAt(lib, i, v);
    case None =>
      FlattenAppend(lib, Bucket(k, [v]));
  }

  /** The buckets together hold every input exactly as often as it occurs. */
  lemma {:induction false} GroupByPermutation<K, V>(xs: seq<V>, key: V -> K)
    ensures multiset(Flatten(GroupBy(xs, key))) == multiset(xs)
  {
    if xs != [] {
      var init, v := xs[..|xs| - 1], xs[|xs| - 1];
      assert xs == init + [v];
      GroupByPermutation(init, key);
      PushAddsOne(GroupBy(init, key), key(v), v);
    }
  }

  /** Every bucket is non-empty, and there are at most as many buckets as inputs. */
  lemma {:induction false} GroupBySize<K, V>(xs: seq<V>, key: V -> K)
    ensures |GroupBy(xs, key)| <= |xs|
    ensures xs != [] ==> |GroupBy(xs, key)| >= 1
    ensures forall i :: 0 <= i < |GroupBy(xs, key)| ==> GroupBy(xs, key)[i].items != []
  {
    if xs != [] {
      GroupBySize(xs[..|xs| - 1], key);
    }
  }

  // ---------------------------------------------------------------------------
  // The imperative push, as the source writes it.

  /** `if (!lib[k]) { lib[k] = []; } lib[k].push(v);` */
  method PushItem<K(==), V>(lib: seq<Bucket<K, V>>, k: K, v: V) returns (updated: seq<Bucket<K, V>>)
    ensures updated == Push(lib, k, v)
  {
    var i := 0;
    while i < |lib| && lib[i].key != k
      invariant 0 <= i <= |lib|
      invariant forall j :: 0 <= j < i ==> lib[j].key != k
    {
      i := i + 1;
    }
    if i == |lib| {
      updated := lib + [Bucket(k, [v])];
    } else {
      updated := lib[i := Bucket(k, lib[i].items + [v])];
    }
  }
}
