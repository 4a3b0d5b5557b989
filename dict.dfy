/** A JavaScript object or `Map` with string keys: entries in insertion order,
    each key at most once. Assigning to an existing key keeps its position,
    assigning to a new key appends, `delete` removes the entry. */
module Dict {
  import opened Wrappers

  datatype Entry<V> = Entry(key: string, value: V)

  type Dict<V> = seq<Entry<V>>

  /** `Object.keys(d)`. */
  function Keys<V>(d: Dict<V>): (ks: seq<string>)
    ensures |ks| == |d| && forall i :: 0 <= i < |d| ==> ks[i] == d[i].key
  {
    seq(|d|, i requires 0 <= i < |d| => d[i].key)
  }

  /** `Object.values(d)`. */
  function Values<V>(d: Dict<V>): (vs: seq<V>)
    ensures |vs| == |d| && forall i :: 0 <= i < |d| ==> vs[i] == d[i].value
  {
    seq(|d|, i requires 0 <= i < |d| => d[i].value)
  }

  /** No key occurs twice. */
  predicate WellFormed<V>(d: Dict<V>) {
    forall i, j :: 0 <= i < j < |d| ==> d[i].key != d[j].key
  }

  predicate HasKey<V>(d: Dict<V>, k: string) {
    exists i :: 0 <= i < |d| && d[i].key == k
  }

  /** `d[k]`, `None` standing for `undefined`. */
  function Get<V>(d: Dict<V>, k: string): (r: Option<V>)
    ensures r.None? <==> !HasKey(d, k)
    ensures r.Some? ==> exists i :: 0 <= i < |d| && d[i] == Entry(k, r.value)
  {
    if d == [] then None
    else if d[0].key == k then Some(d[0].value)
    else
      var r := Get(d[1..], k);
      assert r.Some? ==> d[1..][0..] == d[1..];
      r
  }

  /** `d[k] = v`. */
  function Put<V>(d: Dict<V>, k: string, v: V): (r: Dict<V>)
    ensures HasKey(d, k) ==> Keys(r) == Keys(d)
    ensures !HasKey(d, k) ==> Keys(r) == Keys(d) + [k]
  {
    if d == [] then [Entry(k, v)]
    else if d[0].key == k then [Entry(k, v)] + d[1..]
    else
      assert HasKey(d[1..], k) ==> HasKey(d, k);
      assert HasKey(d, k) ==> HasKey(d[1..], k) by {
        if HasKey(d, k) {
          var i :| 0 <= i < |d| && d[i].key == k;
          assert d[1..][i - 1].key == k;
        }
      }
      [d[0]] + Put(d[1..], k, v)
  }

  /** After `d[k] = v`, reading `k` gives `v` and every other key reads as before. */
  lemma {:induction false} GetPut<V>(d: Dict<V>, k: string, v: V, k': string)
    ensures Get(Put(d, k, v), k') == if k' == k then Some(v) else Get(d, k')
  {
    if d != [] && d[0].key != k {
      GetPut(d[1..], k, v, k');
    }
  }

  /** Assignment keeps the keys distinct. */
  lemma PutWellFormed<V>(d: Dict<V>, k: string, v: V)
    requires WellFormed(d)
    ensures WellFormed(Put(d, k, v))
  {
    var r := Put(d, k, v);
    assert forall i :: 0 <= i < |r| ==> r[i].key == Keys(r)[i];
    assert forall i :: 0 <= i < |d| ==> d[i].key == Keys(d)[i];
  }

  /** With distinct keys, reading an entry's key gives that entry's value. */
  lemma {:induction false} GetAt<V>(d: Dict<V>, i: nat)
    requires WellFormed(d) && i < |d|
    ensures Get(d, d[i].key) == Some(d[i].value)
  {
    if i > 0 {
      assert d[1..][i - 1] == d[i];
      assert d[0].key != d[i].key;
      GetAt(d[1..], i - 1);
    }
  }

  /** Keeps the entries whose key satisfies `keep`, in order: a run of `delete`. */
  function KeepKeys<V>(d: Dict<V>, keep: string -> bool): (r: Dict<V>)
    ensures |r| <= |d|
    ensures forall i :: 0 <= i < |r| ==> keep(r[i].key)
  {
    if d == [] then []
    else if keep(d[0].key) then [d[0]] + KeepKeys(d[1..], keep)
    else KeepKeys(d[1..], keep)
  }

  /** A key survives `KeepKeys` with its value exactly when it passes the test. */
  lemma {:induction false} GetKeepKeys<V>(d: Dict<V>, keep: string -> bool, k: string)
    ensures Get(KeepKeys(d, keep), k) == if keep(k) then Get(d, k) else None
  {
    if d != [] {
      GetKeepKeys(d[1..], keep, k);
    }
  }

  /** `delete d[k]`. */
  function Remove<V>(d: Dict<V>, k: string): (r: Dict<V>) {
    KeepKeys(d, key => key != k)
  }

  /** Keys kept by `KeepKeys` stay distinct. */
  lemma {:induction false} KeepKeysWellFormed<V>(d: Dict<V>, keep: string -> bool)
    requires WellFormed(d)
    ensures WellFormed(KeepKeys(d, keep))
  {
    if d != [] {
      KeepKeysWellFormed(d[1..], keep);
      var rest := KeepKeys(d[1..], keep);
      forall i | 0 <= i < |rest|
        ensures rest[i].key != d[0].key
      {
        KeepKeysSubset(d[1..], keep, i);
      }
    }
  }

  /** Each kept entry is an entry of the original. */
  lemma {:induction false} KeepKeysSubset<V>(d: Dict<V>, keep: string -> bool, i: nat)
    requires i < |KeepKeys(d, keep)|
    ensures KeepKeys(d, keep)[i] in d
  {
    if keep(d[0].key) {
      if i > 0 {
        KeepKeysSubset(d[1..], keep, i - 1);
      }
    } else {
      KeepKeysSubset(d[1..], keep, i);
    }
  }

  /** Two successive `KeepKeys` keep what passes both tests. */
  lemma {:induction false} KeepKeysTwice<V>(d: Dict<V>, p: string -> bool, q: string -> bool)
    ensures KeepKeys(KeepKeys(d, p), q) == KeepKeys(d, x => p(x) && q(x))
  {
    if d != [] {
      KeepKeysTwice(d[1..], p, q);
    }
  }

  /** `KeepKeys` depends only on the test's answers for the keys present. */
  lemma {:induction false} KeepKeysExt<V>(d: Dict<V>, p: string -> bool, q: string -> bool)
    requires forall i :: 0 <= i < |d| ==> p(d[i].key) == q(d[i].key)
    ensures KeepKeys(d, p) == KeepKeys(d, q)
  {
    if d != [] {
      KeepKeysExt(d[1..], p, q);
    }
  }

  /** A test every key passes keeps everything. */
  lemma {:induction false} KeepKeysAll<V>(d: Dict<V>, p: string -> bool)
    requires forall i :: 0 <= i < |d| ==> p(d[i].key)
    ensures KeepKeys(d, p) == d
  {
    if d != [] {
      KeepKeysAll(d[1..], p);
    }
  }

  /** Assigning a key not yet present appends its entry. */
  lemma {:induction false} PutNew<V>(d: Dict<V>, k: string, v: V)
    requires !HasKey(d, k)
    ensures Put(d, k, v) == d + [Entry(k, v)]
  {
    if d != [] {
      assert forall i :: 0 <= i < |d[1..]| ==> d[1..][i].key == d[i + 1].key;
      PutNew(d[1..], k, v);
      assert d == [d[0]] + d[1..];
    }
  }

  /** `KeepKeys` over one more entry at the end. */
  lemma {:induction false} KeepKeysSnoc<V>(d: Dict<V>, e: Entry<V>, keep: string -> bool)
    ensures KeepKeys(d + [e], keep) == KeepKeys(d, keep) + (if keep(e.key) then [e] else [])
  {
    if d == [] {
      assert d + [e] == [e];
    } else {
      assert (d + [e])[1..] == d[1..] + [e];
      KeepKeysSnoc(d[1..], e, keep);
    }
  }

  /** `new Map(entries)`: each pair is set in turn. */
  function FromEntries<V>(entries: seq<Entry<V>>): (d: Dict<V>)
    ensures WellFormed(d)
  {
    if entries == [] then []
    else
      var e := entries[|entries| - 1];
      var before := FromEntries(entries[..|entries| - 1]);
      PutWellFormed(before, e.key, e.value);
      Put(before, e.key, e.value)
  }

  /** The value of the last pair with key `k`. */
  function LastValue<V>(entries: seq<Entry<V>>, k: string): Option<V> {
    if entries == [] then None
    else if entries[|entries| - 1].key == k then Some(entries[|entries| - 1].value)
    else LastValue(entries[..|entries| - 1], k)
  }

  /** A `Map` built from pairs answers with the last pair for each key. */
  lemma {:induction false} FromEntriesLastWins<V>(entries: seq<Entry<V>>, k: string)
    ensures Get(FromEntries(entries), k) == LastValue(entries, k)
  {
    if entries != [] {
      var e := entries[|entries| - 1];
      FromEntriesLastWins(entries[..|entries| - 1], k);
      GetPut(FromEntries(entries[..|entries| - 1]), e.key, e.value, k);
    }
  }

  /** A key carried by exactly one pair maps to that pair's value. */
  lemma {:induction false} LastValueUnique<V>(entries: seq<Entry<V>>, i: nat)
    requires i < |entries|
    requires forall j :: 0 <= j < |entries| && j != i ==> entries[j].key != entries[i].key
    ensures LastValue(entries, entries[i].key) == Some(entries[i].value)
  {
    var n := |entries| - 1;
    if i < n {
      LastValueUnique(entries[..n], i);
    }
  }

  /** No pair carries the key exactly when there is no last one. */
  lemma {:induction false} LastValueNone<V>(entries: seq<Entry<V>>, k: string)
    ensures LastValue(entries, k).None? <==> forall i :: 0 <= i < |entries| ==> entries[i].key != k
  {
    if entries != [] {
      var init := entries[..|entries| - 1];
      LastValueNone(init, k);
      assert forall i :: 0 <= i < |init| ==> init[i] == entries[i];
    }
  }

  /** Pairs with distinct keys make an object holding exactly them, in order. */
  lemma {:induction false} FromEntriesDistinct<V>(entries: seq<Entry<V>>)
    requires WellFormed(entries)
    ensures FromEntries(entries) == entries
  {
    if entries != [] {
      var init := entries[..|entries| - 1];
      var e := entries[|entries| - 1];
      FromEntriesDistinct(init);
      forall i | 0 <= i < |init|
        ensures init[i].key != e.key
      {
        assert init[i] == entries[i];
      }
      PutNew(init, e.key, e.value);
      assert init + [e] == entries;
    }
  }
}
