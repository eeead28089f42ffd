/** A bounded cache of the most recently put keys: a list in order of recency, and a map from each key to its place in
    the list. */
module LruList {
  import opened Wrappers

  datatype Entry<K, V> = Entry(key: K, value: V)

  /** An entry at a place of the list that stays the same while it is there. */
  datatype Item<K, V> = Item(place: nat, entry: Entry<K, V>)

  function Without<K(==), V>(es: seq<Entry<K, V>>, k: K): seq<Entry<K, V>> {
    if es == [] then [] else (if es[0].key == k then [] else [es[0]]) + Without(es[1..], k)
  }

  /** At most `max` entries, or all if there is no maximum. */
  function Limited<T>(s: seq<T>, max: nat): seq<T> {
    if max == 0 || |s| <= max then s else s[..max]
  }

  /** The contents after one more put. */
  function AfterPut<K(==), V>(es: seq<Entry<K, V>>, max: nat, e: Entry<K, V>): seq<Entry<K, V>> {
    Limited([e] + Without(es, e.key), max)
  }

  /** The contents after these puts, from an empty list. */
  function AfterPuts<K(==), V>(puts: seq<Entry<K, V>>, max: nat): seq<Entry<K, V>> {
    if puts == [] then [] else AfterPut(AfterPuts(puts[..|puts| - 1], max), max, puts[|puts| - 1])
  }

  // ---------------------------------------------------------------------------------------------
  // The most recently put keys
  // ---------------------------------------------------------------------------------------------

  /** The last put of a key; the number of puts if there is none. */
  function LastPut<K(==), V>(puts: seq<Entry<K, V>>, k: K): nat {
    if puts == [] then 0
    else if puts[|puts| - 1].key == k then |puts| - 1
    else var n := LastPut(puts[..|puts| - 1], k); if n == |puts| - 1 then n + 1 else n
  }

  lemma {:induction false} LastPutOk<K, V>(puts: seq<Entry<K, V>>, k: K)
    ensures var n := LastPut(puts, k);
            && n <= |puts| && (n < |puts| ==> puts[n].key == k) && (forall i | n < i < |puts| :: puts[i].key != k)
            && (n == |puts| ==> forall i | 0 <= i < |puts| :: puts[i].key != k)
  {
    if puts != [] {
      LastPutOk(puts[..|puts| - 1], k);
    }
  }

  /** Later puts come first. */
  predicate Descending<K(==), V>(es: seq<Entry<K, V>>, puts: seq<Entry<K, V>>) {
    forall i, k | 0 <= i < k < |es| :: LastPut(puts, es[k].key) < LastPut(puts, es[i].key)
  }

  lemma DescendingFirst<K, V>(e: Entry<K, V>, rest: seq<Entry<K, V>>, puts: seq<Entry<K, V>>)
    requires Descending(rest, puts) && forall j | 0 <= j < |rest| :: LastPut(puts, rest[j].key) < LastPut(puts, e.key)
    ensures Descending([e] + rest, puts)
  {
    hide LastPut;
    var all := [e] + rest;
    forall i, k | 0 <= i < k < |all| ensures LastPut(puts, all[k].key) < LastPut(puts, all[i].key) {
      assert all[k] == rest[k - 1];
      assert all[i] == if i == 0 then e else rest[i - 1];
    }
  }

  /** Every key put, latest first, with its latest value. */
  ghost predicate IsRecent<K, V>(es: seq<Entry<K, V>>, puts: seq<Entry<K, V>>) {
    && (forall i | 0 <= i < |es| :: LastPut(puts, es[i].key) < |puts| && es[i] == puts[LastPut(puts, es[i].key)])
    && Descending(es, puts)
    && (forall j | 0 <= j < |puts| :: HasKey(es, puts[j].key))
  }

  predicate HasKey<K(==), V>(es: seq<Entry<K, V>>, k: K) {
    exists i :: 0 <= i < |es| && es[i].key == k
  }

  predicate DistinctKeys<K(==), V>(es: seq<Entry<K, V>>) {
    forall i, k | 0 <= i < k < |es| :: es[i].key != es[k].key
  }

  lemma {:induction false} WithoutOk<K, V>(es: seq<Entry<K, V>>, k: K)
    ensures forall i | 0 <= i < |Without(es, k)| :: Without(es, k)[i] in es && Without(es, k)[i].key != k
    ensures forall i | 0 <= i < |es| && es[i].key != k :: es[i] in Without(es, k)
  {
    if es != [] {
      WithoutOk(es[1..], k);
      forall i | 0 <= i < |es| && es[i].key != k ensures es[i] in Without(es, k) {
        if i > 0 {
          assert es[i] == es[1..][i - 1];
        }
      }
    }
  }

  /** Taking entries out keeps the order of the rest. */
  lemma {:induction false} WithoutInOrder<K, V>(es: seq<Entry<K, V>>, puts: seq<Entry<K, V>>, k: K)
    requires Descending(es, puts)
    ensures Descending(Without(es, k), puts)
  {
    hide LastPut;
    if es != [] {
      var rest := Without(es[1..], k);
      DescendingRest(es, puts);
      WithoutInOrder(es[1..], puts, k);
      WithoutOk(es[1..], k);
      hide Descending;
      forall j | 0 <= j < |rest| ensures LastPut(puts, rest[j].key) < LastPut(puts, es[0].key) {
        assert rest[j] in es[1..];
      }
      DescendingFirst(es[0], rest, puts);
      assert [] + rest == rest;
    }
  }

  lemma DescendingRest<K, V>(es: seq<Entry<K, V>>, puts: seq<Entry<K, V>>)
    requires Descending(es, puts) && es != []
    ensures Descending(es[1..], puts)
    ensures forall e | e in es[1..] :: LastPut(puts, e.key) < LastPut(puts, es[0].key)
  {
    hide LastPut;
    var rest := es[1..];
    forall i, k | 0 <= i < k < |rest| ensures LastPut(puts, rest[k].key) < LastPut(puts, rest[i].key) {
      assert rest[k] == es[k + 1] && rest[i] == es[i + 1];
    }
    forall e | e in rest ensures LastPut(puts, e.key) < LastPut(puts, es[0].key) {
      var k :| 0 <= k < |rest| && rest[k] == e;
      assert es[k + 1] == e;
    }
  }

  lemma LastPutNext<K, V>(puts: seq<Entry<K, V>>, e: Entry<K, V>, k: K)
    ensures LastPut(puts + [e], k)
         == if e.key == k then |puts| else if LastPut(puts, k) == |puts| then |puts| + 1 else LastPut(puts, k)
  {
    assert (puts + [e])[..|puts|] == puts;
  }

  /** One more put leaves the last puts of the other keys as they are. */
  lemma RecentKept<K, V>(es: seq<Entry<K, V>>, puts: seq<Entry<K, V>>, e: Entry<K, V>, x: Entry<K, V>)
    requires x in es && x.key != e.key
    requires forall i | 0 <= i < |es| :: LastPut(puts, es[i].key) < |puts| && es[i] == puts[LastPut(puts, es[i].key)]
    ensures LastPut(puts + [e], x.key) == LastPut(puts, x.key) < |puts| && x == puts[LastPut(puts, x.key)]
  {
    hide LastPut;
    LastPutNext(puts, e, x.key);
    var i :| 0 <= i < |es| && es[i] == x;
  }

  lemma RecentNext<K, V>(es: seq<Entry<K, V>>, puts: seq<Entry<K, V>>, e: Entry<K, V>)
    requires IsRecent(es, puts)
    ensures IsRecent([e] + Without(es, e.key), puts + [e])
  {
    hide LastPut, Without, HasKey, Descending;
    var rest, puts' := Without(es, e.key), puts + [e];
    var es' := [e] + rest;
    WithoutOk(es, e.key);
    WithoutInOrder(es, puts, e.key);
    forall i | 0 <= i < |rest|
      ensures LastPut(puts', rest[i].key) == LastPut(puts, rest[i].key) < |puts|
      ensures rest[i] == puts[LastPut(puts, rest[i].key)]
    {
      RecentKept(es, puts, e, rest[i]);
    }
    LastPutNext(puts, e, e.key);
    SameDescending(rest, puts, puts');
    DescendingFirst(e, rest, puts');
    forall i | 0 <= i < |es'|
        ensures LastPut(puts', es'[i].key) < |puts'| && es'[i] == puts'[LastPut(puts', es'[i].key)] {
      assert es'[i] == if i == 0 then e else rest[i - 1];
    }
    forall j | 0 <= j < |puts'| ensures HasKey(es', puts'[j].key) {
      RecentHas(es, puts, e, j);
    }
  }

  lemma SameDescending<K, V>(es: seq<Entry<K, V>>, puts: seq<Entry<K, V>>, puts': seq<Entry<K, V>>)
    requires Descending(es, puts) && forall i | 0 <= i < |es| :: LastPut(puts', es[i].key) == LastPut(puts, es[i].key)
    ensures Descending(es, puts')
  {
    hide LastPut;
    forall i, k | 0 <= i < k < |es| ensures LastPut(puts', es[k].key) < LastPut(puts', es[i].key) {
      assert LastPut(puts, es[k].key) < LastPut(puts, es[i].key);
    }
  }

  lemma RecentHas<K, V>(es: seq<Entry<K, V>>, puts: seq<Entry<K, V>>, e: Entry<K, V>, j: nat)
    requires j < |puts| + 1 && forall i | 0 <= i < |puts| :: HasKey(es, puts[i].key)
    ensures HasKey([e] + Without(es, e.key), (puts + [e])[j].key)
  {
    var es' := [e] + Without(es, e.key);
    WithoutOk(es, e.key);
    if (puts + [e])[j].key == e.key {
      assert es'[0].key == e.key;
    } else {
      var i :| 0 <= i < |es| && es[i].key == puts[j].key;
      var m :| 0 <= m < |Without(es, e.key)| && Without(es, e.key)[m] == es[i];
      assert es'[m + 1].key == puts[j].key;
    }
  }

  /** Without a maximum, the contents are every key put, latest first, with its latest value. */
  lemma {:induction false} AllPutsRecent<K, V>(puts: seq<Entry<K, V>>)
    ensures IsRecent(AfterPuts(puts, 0), puts) && DistinctKeys(AfterPuts(puts, 0))
  {
    if puts != [] {
      var n := |puts| - 1;
      AllPutsRecent(puts[..n]);
      RecentNext(AfterPuts(puts[..n], 0), puts[..n], puts[n]);
      assert puts == puts[..n] + [puts[n]];
    }
    RecentDistinct(AfterPuts(puts, 0), puts);
  }

  lemma RecentDistinct<K, V>(es: seq<Entry<K, V>>, puts: seq<Entry<K, V>>)
    requires IsRecent(es, puts)
    ensures DistinctKeys(es)
  {
    hide LastPut;
    forall i, k | 0 <= i < k < |es| ensures es[i].key != es[k].key {
      assert LastPut(puts, es[k].key) < LastPut(puts, es[i].key);
    }
  }

  // ---------------------------------------------------------------------------------------------
  // The maximum
  // ---------------------------------------------------------------------------------------------

  lemma {:induction false} WithoutShorter<K, V>(es: seq<Entry<K, V>>, k: K)
    requires DistinctKeys(es)
    ensures |Without(es, k)| == if HasKey(es, k) then |es| - 1 else |es|
    ensures !HasKey(es, k) ==> Without(es, k) == es
  {
    if es != [] {
      WithoutShorter(es[1..], k);
      HasKeyFirst(es, k);
    }
  }

  lemma HasKeyFirst<K, V>(es: seq<Entry<K, V>>, k: K)
    requires es != []
    ensures HasKey(es, k) <==> es[0].key == k || HasKey(es[1..], k)
    ensures DistinctKeys(es) && es[0].key == k ==> !HasKey(es[1..], k)
  {
    if HasKey(es[1..], k) {
      var i :| 0 <= i < |es[1..]| && es[1..][i].key == k;
      assert es[i + 1].key == k;
    }
  }

  lemma DistinctParts<K, V>(es: seq<Entry<K, V>>, n: nat)
    requires DistinctKeys(es) && 0 < n <= |es|
    ensures DistinctKeys(es[1..]) && DistinctKeys(es[..n]) && es[..n][1..] == es[1..][..n - 1]
  {
  }

  lemma WithoutFirst<K, V>(es: seq<Entry<K, V>>, k: K)
    requires es != []
    ensures Without(es, k) == if es[0].key == k then Without(es[1..], k) else [es[0]] + Without(es[1..], k)
  {
  }

  lemma TakeAfter<T>(x: T, s: seq<T>, n: nat)
    requires n <= |s|
    ensures ([x] + s)[..n + 1] == [x] + s[..n]
  {
  }

  /** Forgetting all but `n` entries makes no difference to the first `n` after another put. */
  lemma {:induction false} ForgetFirst<K, V>(es: seq<Entry<K, V>>, n: nat, k: K)
    requires DistinctKeys(es) && 0 < n < |es|
    ensures n - 1 <= |Without(es, k)| && n - 1 <= |Without(es[..n], k)|
    ensures Without(es[..n], k)[..n - 1] == Without(es, k)[..n - 1]
  {
    hide DistinctKeys, HasKey, Without;
    DistinctParts(es, n);
    WithoutShorter(es, k);
    WithoutShorter(es[..n], k);
    WithoutFirst(es, k);
    WithoutFirst(es[..n], k);
    if es[0].key == k {
      HasKeyFirst(es, k);
      WithoutShorter(es[1..], k);
      WithoutPrefix(es[1..], k, n - 1);
    } else if n > 1 {
      ForgetFirst(es[1..], n - 1, k);
      TakeAfter(es[0], Without(es[1..], k), n - 2);
      TakeAfter(es[0], Without(es[1..][..n - 1], k), n - 2);
    }
  }

  lemma {:induction false} WithoutPrefix<K, V>(es: seq<Entry<K, V>>, k: K, n: nat)
    requires !HasKey(es, k) && n <= |es| && DistinctKeys(es)
    ensures Without(es[..n], k) == es[..n]
  {
    NoSuchKey(es[..n], k);
  }

  lemma PutLimited<K, V>(es: seq<Entry<K, V>>, max: nat, e: Entry<K, V>)
    requires DistinctKeys(es)
    ensures AfterPut(Limited(es, max), max, e) == Limited([e] + Without(es, e.key), max)
  {
    if 0 < max < |es| {
      ForgetFirst(es, max, e.key);
      var a, b := Without(es[..max], e.key), Without(es, e.key);
      assert ([e] + a)[..max] == [e] + a[..max - 1];
      assert ([e] + b)[..max] == [e] + b[..max - 1];
      WithoutShorter(es[..max], e.key);
      WithoutShorter(es, e.key);
    }
  }

  /** After any puts, the list holds the `max` most recently put keys, latest first, with their latest values. */
  lemma {:induction false} HoldsMostRecent<K, V>(puts: seq<Entry<K, V>>, max: nat)
    ensures AfterPuts(puts, max) == Limited(AfterPuts(puts, 0), max) && IsRecent(AfterPuts(puts, 0), puts)
  {
    AllPutsRecent(puts);
    if puts != [] {
      var n := |puts| - 1;
      HoldsMostRecent(puts[..n], max);
      AllPutsRecent(puts[..n]);
      PutLimited(AfterPuts(puts[..n], 0), max, puts[n]);
    }
  }

  // ---------------------------------------------------------------------------------------------
  // The list and the map
  // ---------------------------------------------------------------------------------------------

  function Entries<K, V>(items: seq<Item<K, V>>): seq<Entry<K, V>> {
    seq(|items|, i requires 0 <= i < |items| => items[i].entry)
  }

  /** The list without what is at a place. */
  function Erased<K, V>(items: seq<Item<K, V>>, place: nat): seq<Item<K, V>> {
    if items == [] then [] else (if items[0].place == place then [] else [items[0]]) + Erased(items[1..], place)
  }

  predicate DistinctPlaces<K, V>(items: seq<Item<K, V>>, next: nat) {
    && (forall i | 0 <= i < |items| :: items[i].place < next)
    && (forall i, k | 0 <= i < k < |items| :: items[i].place != items[k].place)
  }

  /** The map leads from each key in the list, and no other, to its place. */
  predicate Indexed<K(==), V>(items: seq<Item<K, V>>, index: map<K, nat>) {
    && (forall i | 0 <= i < |items| :: items[i].entry.key in index && index[items[i].entry.key] == items[i].place)
    && (forall k | k in index :: HasItem(items, k))
  }

  predicate HasItem<K(==), V>(items: seq<Item<K, V>>, k: K) {
    exists i :: 0 <= i < |items| && items[i].entry.key == k
  }

  lemma {:induction false} ErasedOk<K, V>(items: seq<Item<K, V>>, place: nat)
    ensures forall i | 0 <= i < |Erased(items, place)| ::
              Erased(items, place)[i] in items
              && Erased(items, place)[i].place != place
    ensures forall i | 0 <= i < |items| && items[i].place != place :: items[i] in Erased(items, place)
  {
    if items != [] {
      ErasedOk(items[1..], place);
      forall i | 0 <= i < |items| && items[i].place != place ensures items[i] in Erased(items, place) {
        if i > 0 {
          assert items[i] == items[1..][i - 1];
        }
      }
    }
  }

  lemma {:induction false} ErasedDistinct<K, V>(items: seq<Item<K, V>>, next: nat, place: nat)
    requires DistinctPlaces(items, next)
    ensures DistinctPlaces(Erased(items, place), next)
  {
    if items != [] {
      ErasedDistinct(items[1..], next, place);
      ErasedOk(items[1..], place);
      var rest := Erased(items[1..], place);
      forall i | 0 <= i < |rest| ensures rest[i].place != items[0].place {
        assert rest[i] in items[1..];
      }
    }
  }

  /** Erasing the place of a key takes out its entry and nothing else. */
  lemma {:induction false} ErasedEntries<K, V>(items: seq<Item<K, V>>, place: nat, k: K)
    requires forall i | 0 <= i < |items| :: items[i].place == place <==> items[i].entry.key == k
    ensures Entries(Erased(items, place)) == Without(Entries(items), k)
  {
    if items == [] {
      assert Entries(items) == [];
    } else {
      ErasedEntries(items[1..], place, k);
      assert Entries(items)[1..] == Entries(items[1..]);
    }
  }

  /** A place stands for its key. */
  lemma PlaceIsKey<K, V>(items: seq<Item<K, V>>, index: map<K, nat>, next: nat, k: K)
    requires Indexed(items, index) && DistinctPlaces(items, next) && k in index
    ensures forall i | 0 <= i < |items| :: items[i].place == index[k] <==> items[i].entry.key == k
  {
    var j :| 0 <= j < |items| && items[j].entry.key == k;
  }

  /** What pushing an entry first and erasing the old one leaves. */
  lemma PushedFront<K, V>(items: seq<Item<K, V>>, index: map<K, nat>, next: nat, e: Entry<K, V>)
    requires Indexed(items, index) && DistinctPlaces(items, next)
    ensures var all := [Item(next, e)] + items; var items' := if e.key in index then Erased(all, index[e.key]) else all;
            && DistinctPlaces(items', next + 1) && Indexed(items', index[e.key := next])
            && Entries(items') == [e] + Without(Entries(items), e.key)
  {
    hide DistinctPlaces, Indexed, Entries, Erased, Without;
    if e.key in index {
      var rest := Erased(items, index[e.key]);
      ErasedAfter(items, index, next, e);
      ErasedDistinct(items, next, index[e.key]);
      PlaceIsKey(items, index, next, e.key);
      ErasedEntries(items, index[e.key], e.key);
      ErasedIndexed(items, index, next, e.key);
      FrontIndexed(rest, map l | l in index && l != e.key :: index[l], next, e);
      assert (map l | l in index && l != e.key :: index[l])[e.key := next] == index[e.key := next];
    } else {
      NotThere(items, index, e.key);
      FrontIndexed(items, index, next, e);
    }
  }

  lemma ErasedAfter<K, V>(items: seq<Item<K, V>>, index: map<K, nat>, next: nat, e: Entry<K, V>)
    requires Indexed(items, index) && DistinctPlaces(items, next) && e.key in index
    ensures Erased([Item(next, e)] + items, index[e.key]) == [Item(next, e)] + Erased(items, index[e.key])
  {
    var i :| 0 <= i < |items| && items[i].entry.key == e.key;
    assert ([Item(next, e)] + items)[1..] == items;
  }

  lemma FrontIndexed<K, V>(items: seq<Item<K, V>>, index: map<K, nat>, next: nat, e: Entry<K, V>)
    requires Indexed(items, index) && DistinctPlaces(items, next) && e.key !in index
    ensures var items' := [Item(next, e)] + items;
            && DistinctPlaces(items', next + 1) && Indexed(items', index[e.key := next])
                && Entries(items') == [e] + Entries(items)
  {
    var items', index' := [Item(next, e)] + items, index[e.key := next];
    forall l | l in index' ensures HasItem(items', l) {
      if l == e.key {
        assert items'[0].entry.key == l;
      } else {
        var i :| 0 <= i < |items| && items[i].entry.key == l;
        assert items'[i + 1].entry.key == l;
      }
    }
  }

  lemma KeysDistinct<K, V>(items: seq<Item<K, V>>, index: map<K, nat>, next: nat)
    requires Indexed(items, index) && DistinctPlaces(items, next)
    ensures DistinctKeys(Entries(items)) && |Entries(items)| == |items|
  {
  }

  /** The map has as many keys as the list has entries. */
  lemma {:induction false} IndexSize<K, V>(items: seq<Item<K, V>>, index: map<K, nat>, next: nat)
    requires Indexed(items, index) && DistinctPlaces(items, next)
    ensures |index| == |items|
  {
    if items == [] {
      assert index.Keys == {};
      assert |index| == |index.Keys|;
    } else {
      var k := items[0].entry.key;
      var rest, index' := items[1..], map l | l in index && l != k :: index[l];
      FirstIndexed(items, index, next);
      IndexSize(rest, index', next);
      assert index.Keys == index'.Keys + {k};
      assert |index| == |index.Keys| && |index'| == |index'.Keys|;
    }
  }

  lemma FirstKeyOnce<K, V>(items: seq<Item<K, V>>, index: map<K, nat>, next: nat)
    requires Indexed(items, index) && DistinctPlaces(items, next) && items != []
    ensures forall i | 0 < i < |items| :: items[i].entry.key != items[0].entry.key
    ensures DistinctPlaces(items[1..], next)
  {
  }

  lemma FirstIndexed<K, V>(items: seq<Item<K, V>>, index: map<K, nat>, next: nat)
    requires Indexed(items, index) && DistinctPlaces(items, next) && items != []
    ensures DistinctPlaces(items[1..], next)
    ensures Indexed(items[1..], map l | l in index && l != items[0].entry.key :: index[l])
  {
    hide DistinctPlaces;
    FirstKeyOnce(items, index, next);
    var k, rest := items[0].entry.key, items[1..];
    var index' := map l | l in index && l != k :: index[l];
    forall i | 0 <= i < |rest| ensures rest[i].entry.key in index' && index'[rest[i].entry.key] == rest[i].place {
      assert rest[i] == items[i + 1];
    }
    forall l | l in index' ensures HasItem(rest, l) {
      var i :| 0 <= i < |items| && items[i].entry.key == l;
      assert rest[i - 1].entry.key == l;
    }
  }

  lemma Missing<K, V>(items: seq<Item<K, V>>, index: map<K, nat>, k: K)
    requires Indexed(items, index) && k !in index
    ensures !HasKey(Entries(items), k)
  {
  }

  lemma NotThere<K, V>(items: seq<Item<K, V>>, index: map<K, nat>, k: K)
    requires Indexed(items, index) && k !in index
    ensures Without(Entries(items), k) == Entries(items)
  {
    NoSuchKey(Entries(items), k);
  }

  lemma {:induction false} NoSuchKey<K, V>(es: seq<Entry<K, V>>, k: K)
    requires forall i | 0 <= i < |es| :: es[i].key != k
    ensures Without(es, k) == es
  {
    if es != [] {
      NoSuchKey(es[1..], k);
    }
  }

  lemma ErasedIndexed<K, V>(items: seq<Item<K, V>>, index: map<K, nat>, next: nat, k: K)
    requires Indexed(items, index) && DistinctPlaces(items, next) && k in index
    ensures Indexed(Erased(items, index[k]), map l | l in index && l != k :: index[l])
  {
    var items', index' := Erased(items, index[k]), map l | l in index && l != k :: index[l];
    PlaceIsKey(items, index, next, k);
    ErasedOk(items, index[k]);
    forall l | l in index' ensures HasItem(items', l) {
      var i :| 0 <= i < |items| && items[i].entry.key == l;
      var j :| 0 <= j < |items'| && items'[j] == items[i];
    }
  }

  lemma PoppedIndexed<K, V>(items: seq<Item<K, V>>, index: map<K, nat>, next: nat)
    requires Indexed(items, index) && DistinctPlaces(items, next) && items != []
    ensures var n := |items| - 1; var key := items[n].entry.key;
            Indexed(items[..n], map l | l in index && l != key :: index[l]) && DistinctPlaces(items[..n], next)
  {
    var n := |items| - 1;
    var index' := map l | l in index && l != items[n].entry.key :: index[l];
    forall l | l in index' ensures HasItem(items[..n], l) {
      var i :| 0 <= i < |items| && items[i].entry.key == l;
      assert items[..n][i].entry.key == l;
    }
  }

  class Cache<K(==), V> {
    var maxSize: nat
    var items: seq<Item<K, V>>
    var index: map<K, nat>
    var next: nat

    ghost predicate Valid()
      reads this
    {
      DistinctPlaces(items, next) && Indexed(items, index)
    }

    ghost function Contents(): seq<Entry<K, V>>
      reads this
    {
      Entries(items)
    }

    constructor (maxSize: nat)
      ensures Valid() && Contents() == [] && this.maxSize == maxSize
    {
      this.maxSize := maxSize;
      items, index, next := [], map[], 0;
    }

    /** The value of a key, if it is there; asking does not make it more recent. */
    method GetValue(k: K) returns (v: Option<V>)
      requires Valid()
      ensures v.Some? <==> HasKey(Contents(), k)
      ensures v.Some? ==> Entry(k, v.value) in Contents()
    {
      if k !in index {
        Missing(items, index, k);
        return None;
      }
      var i := 0;
      PlaceIsKey(items, index, next, k);
      while items[i].place != index[k]
        invariant 0 <= i < |items| && exists j :: i <= j < |items| && items[j].place == index[k]
        decreases |items| - i
      {
        i := i + 1;
      }
      assert Contents()[i] == items[i].entry;
      return Some(items[i].entry.value);
    }

    /** Puts a key first with a value, taking out its old entry, or else the last one if there are too many. */
    method Put(k: K, v: V) returns (evicted: nat)
      requires Valid() && (maxSize == 0 || |items| <= maxSize)
      modifies this
      ensures Valid() && (maxSize == 0 || |items| <= maxSize) && maxSize == old(maxSize)
      ensures Contents() == AfterPut(old(Contents()), maxSize, Entry(k, v))
      ensures evicted == if maxSize != 0 && old(|items|) == maxSize && !old(HasKey(Contents(), k)) then 1 else 0
    {
      ghost var es := Contents();
      KeysDistinct(items, index, next);
      WithoutShorter(es, k);
      PushFront(k, v);
      evicted := 0;
      if maxSize != 0 && |index| > maxSize {
        PopBack();
        evicted := 1;
      }
    }

    /** The entry goes first, and the one its key had before goes. */
    method PushFront(k: K, v: V)
      requires Valid()
      modifies this
      ensures Valid() && maxSize == old(maxSize) && Contents() == [Entry(k, v)] + Without(old(Contents()), k)
      ensures |index| == |items|
    {
      hide DistinctPlaces, Indexed, Entries, Erased, Without;
      PushedFront(items, index, next, Entry(k, v));
      var place := next;
      items := [Item(place, Entry(k, v))] + items;
      next := next + 1;
      if k in index {
        items := Erased(items, index[k]);
      }
      index := index[k := place];
      IndexSize(items, index, next);
    }

    method PopBack()
      requires Valid() && items != []
      modifies this
      ensures Valid() && maxSize == old(maxSize) && Contents() == old(Contents())[..old(|items|) - 1]
    {
      hide Indexed, DistinctPlaces;
      PoppedIndexed(items, index, next);
      var last := items[|items| - 1];
      index := map l | l in index && l != last.entry.key :: index[l];
      items := items[..|items| - 1];
    }

    /** Takes out what is at the place of a key. */
    method EraseElement(k: K)
      requires Valid()
      modifies this
      ensures Valid() && Contents() == Without(old(Contents()), k) && maxSize == old(maxSize) && next == old(next)
      ensures k !in index && index.Keys == old(index).Keys - {k}
    {
      if k !in index {
        NotThere(items, index, k);
        return;
      }
      PlaceIsKey(items, index, next, k);
      ErasedEntries(items, index[k], k);
      ErasedDistinct(items, next, index[k]);
      ErasedIndexed(items, index, next, k);
      items := Erased(items, index[k]);
      index := map l | l in index && l != k :: index[l];
    }
  }
}
