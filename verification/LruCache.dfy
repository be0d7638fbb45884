/** The byte-budget LRU cache of decrypted S3 objects and the loader on top of it. Each
    operation is atomic; file names are ideal hashes of keys, so a file is found by its key. */
module LruCache {
  import opened Options

  type Key = string

  type Data = string

  // ---------------------------------------------------------------- the abstract LRU

  function SizeOf(sizes: map<Key, nat>, k: Key): nat {
    if k in sizes then sizes[k] else 0
  }

  function Total(list: seq<Key>, sizes: map<Key, nat>): nat {
    if list == [] then 0 else SizeOf(sizes, list[0]) + Total(list[1..], sizes)
  }

  /** The longest prefix, most recent first, that fits the budget. */
  function Fit(list: seq<Key>, sizes: map<Key, nat>, budget: nat): seq<Key> {
    if list == [] || SizeOf(sizes, list[0]) > budget then []
    else [list[0]] + Fit(list[1..], sizes, budget - SizeOf(sizes, list[0]))
  }

  function Without(list: seq<Key>, k: Key): seq<Key> {
    if list == [] then [] else (if list[0] == k then [] else [list[0]]) + Without(list[1..], k)
  }

  /** Most recently used first. */
  function Touch(list: seq<Key>, k: Key): seq<Key> {
    [k] + Without(list, k)
  }

  ghost predicate Distinct(list: seq<Key>) {
    forall i, j :: 0 <= i < j < |list| ==> list[i] != list[j]
  }

  /** `Fit` is a prefix that fits, and no longer prefix does. */
  lemma {:induction false} FitIsLongest(list: seq<Key>, sizes: map<Key, nat>, budget: nat)
    ensures var f := Fit(list, sizes, budget);
            && f <= list && Total(f, sizes) <= budget
            && forall n :: |f| < n <= |list| ==> Total(list[..n], sizes) > budget
  {
    if list != [] {
      var head := SizeOf(sizes, list[0]);
      forall n | 1 <= n <= |list| ensures Total(list[..n], sizes) == head + Total(list[1..][..n - 1], sizes) {
        assert list[..n][1..] == list[1..][..n - 1];
      }
      if head <= budget {
        FitIsLongest(list[1..], sizes, budget - head);
        var g := Fit(list[1..], sizes, budget - head);
        assert ([list[0]] + g)[1..] == g;
      }
    }
  }

  /** The prefix of length n is `Fit` when it fits and one more element would not. */
  lemma FitIs(list: seq<Key>, sizes: map<Key, nat>, budget: nat, n: nat)
    requires n <= |list| && (n == 0 || Total(list[..n], sizes) <= budget)
    requires n == |list| || Total(list[..n + 1], sizes) > budget
    ensures Fit(list, sizes, budget) == list[..n]
  {
    FitIsLongest(list, sizes, budget);
    var f := Fit(list, sizes, budget);
    assert f == list[..|f|];
    if n < |f| {
      assert f[..n + 1] == list[..n + 1];
      PrefixTotals(f, n + 1, sizes);
    }
  }

  lemma {:induction false} PrefixTotals(list: seq<Key>, n: nat, sizes: map<Key, nat>)
    requires n <= |list|
    ensures Total(list[..n], sizes) <= Total(list, sizes)
  {
    if n > 0 {
      PrefixTotals(list[1..], n - 1, sizes);
      assert list[..n][1..] == list[1..][..n - 1];
    }
  }

  lemma {:induction false} TotalSnoc(list: seq<Key>, k: Key, sizes: map<Key, nat>)
    ensures Total(list + [k], sizes) == Total(list, sizes) + SizeOf(sizes, k)
  {
    if list != [] {
      TotalSnoc(list[1..], k, sizes);
      assert (list + [k])[1..] == list[1..] + [k];
    }
  }

  /** Totals depend only on the sizes of the listed keys. */
  lemma {:induction false} TotalSame(list: seq<Key>, sizes: map<Key, nat>, other: map<Key, nat>)
    requires forall k :: k in list ==> SizeOf(sizes, k) == SizeOf(other, k)
    ensures Total(list, sizes) == Total(list, other)
  {
    if list != [] {
      TotalSame(list[1..], sizes, other);
    }
  }

  lemma {:induction false} WithoutIs(list: seq<Key>, k: Key, sizes: map<Key, nat>)
    requires Distinct(list)
    ensures Distinct(Without(list, k)) && (forall j :: j in Without(list, k) <==> j in list && j != k)
    ensures Total(Without(list, k), sizes) == Total(list, sizes) - (if k in list then SizeOf(sizes, k) else 0)
  {
    if list != [] {
      WithoutIs(list[1..], k, sizes);
      var rest := Without(list[1..], k);
      assert forall j :: j in list <==> j == list[0] || j in list[1..];
      assert list[0] !in list[1..];
      if list[0] != k {
        assert ([list[0]] + rest)[1..] == rest;
      } else {
        assert Without(list, k) == rest;
      }
    }
  }

  lemma {:induction false} WithoutAbsent(list: seq<Key>, k: Key)
    requires k !in list
    ensures Without(list, k) == list
  {
    if list != [] {
      WithoutAbsent(list[1..], k);
    }
  }

  lemma {:induction false} WithoutConcat(a: seq<Key>, b: seq<Key>, k: Key)
    ensures Without(a + b, k) == Without(a, k) + Without(b, k)
  {
    if a == [] {
      assert a + b == b;
    } else {
      WithoutConcat(a[1..], b, k);
      var head := if a[0] == k then [] else [a[0]];
      var x, y := Without(a[1..], k), Without(b, k);
      assert (a + b)[0] == a[0] && (a + b)[1..] == a[1..] + b;
      assert head + (x + y) == head + x + y;
    }
  }

  // ---------------------------------------------------------------- a whole run

  /** A hit only moves the key to the front; a miss puts it there and evicts. */
  function Request(list: seq<Key>, k: Key, sizes: map<Key, nat>, budget: nat): seq<Key> {
    if k in list then Touch(list, k) else Fit(Touch(list, k), sizes, budget)
  }

  /** The cache after a list of successful loads, under a budget. */
  function Serve(requests: seq<Key>, sizes: map<Key, nat>, budget: nat): seq<Key> {
    if requests == [] then []
    else
      Request(Serve(requests[..|requests| - 1], sizes, budget), requests[|requests| - 1], sizes, budget)
  }

  /** Every key ever asked for, most recent first. */
  function Recency(requests: seq<Key>): seq<Key> {
    if requests == [] then [] else Touch(Recency(requests[..|requests| - 1]), requests[|requests| - 1])
  }

  lemma {:induction false} RecencyDistinct(requests: seq<Key>)
    ensures Distinct(Recency(requests))
  {
    if requests != [] {
      RecencyDistinct(requests[..|requests| - 1]);
      WithoutIs(Recency(requests[..|requests| - 1]), requests[|requests| - 1], map[]);
    }
  }

  /** The last use of `a` is later than any use of `b`. */
  ghost predicate UsedAfter(requests: seq<Key>, a: Key, b: Key) {
    exists p :: 0 <= p < |requests| && requests[p] == a && b !in requests[p..]
  }

  lemma {:induction false} WithoutOrder(list: seq<Key>, k: Key, i: nat, j: nat) returns (i': nat, j': nat)
    requires i < j < |Without(list, k)|
    ensures i' < j' < |list| && list[i'] == Without(list, k)[i] && list[j'] == Without(list, k)[j]
    decreases |list|
  {
    var rest := Without(list[1..], k);
    if list[0] == k {
      i', j' := WithoutOrder(list[1..], k, i, j);
      i', j' := i' + 1, j' + 1;
    } else if i == 0 {
      i' := 0;
      j' := WithoutAt(list[1..], k, j - 1);
      j' := j' + 1;
    } else {
      i', j' := WithoutOrder(list[1..], k, i - 1, j - 1);
      i', j' := i' + 1, j' + 1;
    }
  }

  lemma {:induction false} WithoutAt(list: seq<Key>, k: Key, i: nat) returns (i': nat)
    requires i < |Without(list, k)|
    ensures i' < |list| && list[i'] == Without(list, k)[i]
    decreases |list|
  {
    if list[0] != k && i == 0 {
      i' := 0;
    } else {
      i' := WithoutAt(list[1..], k, if list[0] == k then i else i - 1);
      i' := i' + 1;
    }
  }

  /** The recency list holds exactly the keys ever asked for, by their last use. */
  lemma {:induction false} RecencyIs(requests: seq<Key>)
    ensures forall k :: k in Recency(requests) <==> k in requests
    ensures forall i, j :: 0 <= i < j < |Recency(requests)| ==>
      UsedAfter(requests, Recency(requests)[i], Recency(requests)[j])
    decreases |requests|
  {
    if requests != [] {
      var n := |requests| - 1;
      var before, k := requests[..n], requests[n];
      RecencyIs(before);
      RecencyDistinct(before);
      WithoutIs(Recency(before), k, map[]);
      assert requests == before + [k];
      var now := Recency(requests);
      forall i, j | 0 <= i < j < |now| ensures UsedAfter(requests, now[i], now[j]) {
        TouchOrder(before, k, Recency(before), i, j);
      }
    }
  }

  lemma TouchOrder(before: seq<Key>, k: Key, list: seq<Key>, i: nat, j: nat)
    requires forall i', j' :: 0 <= i' < j' < |list| ==> UsedAfter(before, list[i'], list[j'])
    requires k !in Without(list, k) && i < j < |Touch(list, k)|
    ensures UsedAfter(before + [k], Touch(list, k)[i], Touch(list, k)[j])
  {
    hide UsedAfter, Without;
    var now, rest := Touch(list, k), Without(list, k);
    assert now[j] == rest[j - 1] && now[j] in rest;
    if i == 0 {
      LatestUse(before, k, now[j]);
    } else {
      var i', j' := WithoutOrder(list, k, i - 1, j - 1);
      LaterStill(before, k, now[i], now[j]);
    }
  }

  lemma LatestUse(before: seq<Key>, k: Key, b: Key)
    requires b != k
    ensures UsedAfter(before + [k], k, b)
  {
    assert (before + [k])[|before|] == k && (before + [k])[|before|..] == [k];
  }

  lemma LaterStill(before: seq<Key>, k: Key, a: Key, b: Key)
    requires UsedAfter(before, a, b) && b != k
    ensures UsedAfter(before + [k], a, b)
  {
    var p :| 0 <= p < |before| && before[p] == a && b !in before[p..];
    assert (before + [k])[p..] == before[p..] + [k];
  }

  lemma TouchTotal(list: seq<Key>, k: Key, sizes: map<Key, nat>)
    requires Distinct(list)
    ensures Total(Touch(list, k), sizes) == Total(list, sizes) + (if k in list then 0 else SizeOf(sizes, k))
  {
    WithoutIs(list, k, sizes);
    assert Touch(list, k)[1..] == Without(list, k);
  }

  /** One request: the cache stays the fitting prefix of the recency list. */
  lemma RequestStep(recency: seq<Key>, k: Key, sizes: map<Key, nat>, budget: nat)
    requires Distinct(recency)
    ensures var cache := Fit(recency, sizes, budget);
            && Fit(Touch(recency, k), sizes, budget) == Fit(Touch(cache, k), sizes, budget)
            && (k in cache ==> Fit(Touch(cache, k), sizes, budget) == Touch(cache, k))
  {
    hide Fit, Total, Without, SizeOf;
    FitIsLongest(recency, sizes, budget);
    var cache := Fit(recency, sizes, budget);
    var rest := recency[|cache|..];
    assert recency == cache + rest;
    assert k in cache ==> k !in rest;
    WithoutConcat(cache, rest, k);
    TouchTotal(cache, k, sizes);
    var kept := Touch(cache, k);
    assert Touch(recency, k) == kept + Without(rest, k);
    if k in cache {
      assert kept[..|kept|] == kept;
      FitIs(kept, sizes, budget, |kept|);
      WithoutAbsent(rest, k);
      Overflow(cache, rest, kept, rest, sizes, budget);
    } else if rest == [] {
      WithoutAbsent(rest, k);
      assert kept + rest == kept;
    } else if rest[0] != k {
      WithoutHead(rest, k);
      Overflow(cache, rest, kept, Without(rest, k), sizes, budget);
    } else {
      assert recency[..|cache| + 1] == cache + [k];
      TotalSnoc(cache, k, sizes);
      FitOfLonger(kept, Without(rest, k), sizes, budget);
    }
  }

  lemma WithoutHead(list: seq<Key>, k: Key)
    requires list != [] && list[0] != k
    ensures Without(list, k) != [] && Without(list, k)[0] == list[0]
  {
  }

  /** When `kept` weighs at least what the cache weighs, the first element beyond the cache
      does not fit behind it either. */
  lemma Overflow(cache: seq<Key>, rest: seq<Key>, kept: seq<Key>, more: seq<Key>, sizes: map<Key, nat>, budget: nat)
    requires Fit(cache + rest, sizes, budget) == cache && Total(kept, sizes) >= Total(cache, sizes)
    requires (if rest == [] then more == [] else more != [] && more[0] == rest[0])
    ensures Fit(kept + more, sizes, budget) == Fit(kept, sizes, budget)
  {
    FitIsLongest(cache + rest, sizes, budget);
    hide Fit, Total, SizeOf;
    if rest == [] {
      assert kept + more == kept;
    } else {
      assert (cache + rest)[..|cache| + 1] == cache + [rest[0]];
      TotalSnoc(cache, rest[0], sizes);
      TotalSnoc(kept, rest[0], sizes);
      FitOfLonger(kept, more, sizes, budget);
    }
  }

  /** Appending changes nothing once the list plus its next element is over budget. */
  lemma FitOfLonger(list: seq<Key>, more: seq<Key>, sizes: map<Key, nat>, budget: nat)
    requires Total(list, sizes) > budget || (more != [] && Total(list + [more[0]], sizes) > budget)
    ensures Fit(list + more, sizes, budget) == Fit(list, sizes, budget)
  {
    FitIsLongest(list, sizes, budget);
    var n := |Fit(list, sizes, budget)|;
    assert (list + more)[..n] == list[..n] == Fit(list, sizes, budget);
    if n < |list| {
      assert (list + more)[..n + 1] == list[..n + 1];
    } else {
      assert list[..n] == list;
      assert (list + more)[..n + 1] == list + [more[0]];
    }
    FitIs(list + more, sizes, budget, n);
  }

  /** The cache always holds the longest prefix of the recency list that fits its budget. */
  lemma {:induction false} ServeIsRecencyPrefix(requests: seq<Key>, sizes: map<Key, nat>, budget: nat)
    ensures Serve(requests, sizes, budget) == Fit(Recency(requests), sizes, budget)
  {
    if requests != [] {
      var before := requests[..|requests| - 1];
      ServeIsRecencyPrefix(before, sizes, budget);
      RecencyDistinct(before);
      RequestStep(Recency(before), requests[|requests| - 1], sizes, budget);
    }
  }

  /** A larger budget never turns a hit into a miss. */
  lemma LargerBudgetKeepsHits(requests: seq<Key>, sizes: map<Key, nat>, small: nat, large: nat)
    requires small <= large
    ensures Serve(requests, sizes, small) <= Serve(requests, sizes, large)
  {
    ServeIsRecencyPrefix(requests, sizes, small);
    ServeIsRecencyPrefix(requests, sizes, large);
    FitGrows(Recency(requests), sizes, small, large);
  }

  lemma {:induction false} FitGrows(list: seq<Key>, sizes: map<Key, nat>, small: nat, large: nat)
    requires small <= large
    ensures Fit(list, sizes, small) <= Fit(list, sizes, large)
  {
    if list != [] && SizeOf(sizes, list[0]) <= small {
      FitGrows(list[1..], sizes, small - SizeOf(sizes, list[0]), large - SizeOf(sizes, list[0]));
    }
  }

  // ---------------------------------------------------------------- the program

  /** How writing a file went: done, or failed with nothing or with `junk` left in its place. */
  datatype Write = Written | Untouched | Torn(junk: Data)

  /** Every listed key has the size of its object, and its file, if still there, its content. */
  ghost predicate Faithful(entries: map<Key, nat>, files: map<Key, Data>, origin: map<Key, Data>) {
    forall k :: k in entries ==>
      k in origin && entries[k] == |origin[k]| && (k in files ==> files[k] == origin[k])
  }

  function Sizes(origin: map<Key, Data>): map<Key, nat> {
    map k | k in origin :: |origin[k]|
  }

  /** A failed write of a cache file does no harm exactly when the key is not listed (which
      is so in `Load`, after a miss), or the content it leaves is the right one. */
  lemma TornWriteHarmlessIff(entries: map<Key, nat>, files: map<Key, Data>, origin: map<Key, Data>, key: Key,
      junk: Data)
    requires Faithful(entries, files, origin)
    ensures Faithful(entries, files[key := junk], origin) <==> (key in entries ==> junk == origin[key])
  {
    if key in entries && Faithful(entries, files[key := junk], origin) {
      assert files[key := junk][key] == junk;
    }
  }

  lemma {:induction false} FitSame(list: seq<Key>, sizes: map<Key, nat>, other: map<Key, nat>, budget: nat)
    requires forall k :: k in list ==> SizeOf(sizes, k) == SizeOf(other, k)
    ensures Fit(list, sizes, budget) == Fit(list, other, budget)
  {
    if list != [] && SizeOf(sizes, list[0]) <= budget {
      FitSame(list[1..], sizes, other, budget - SizeOf(sizes, list[0]));
    }
  }

  /** The files of the listed keys stay; nothing new appears. */
  ghost predicate FilesKept(was: map<Key, Data>, files: map<Key, Data>, order: seq<Key>) {
    && (forall k :: k in order ==> (k in files <==> k in was))
    && (forall k :: k in files ==> k in was && files[k] == was[k])
  }

  /** Of the evicted keys, only those whose file could not be removed still have one. */
  ghost predicate Leaked(files: map<Key, Data>, start: seq<Key>, order: seq<Key>, stuck: set<Key>) {
    forall k :: k in files && k in start ==> k in order || k in stuck
  }

  lemma DropFile(was: map<Key, Data>, files: map<Key, Data>, start: seq<Key>, order: seq<Key>, stuck: set<Key>)
    requires order != [] && Distinct(order) && FilesKept(was, files, order) && Leaked(files, start, order, stuck)
    ensures var last, rest := order[|order| - 1], order[..|order| - 1];
            var left := if last !in stuck then files - {last} else files;
            FilesKept(was, left, rest) && Leaked(left, start, rest, stuck)
  {
    assert forall k :: k in order ==> k in order[..|order| - 1] || k == order[|order| - 1];
  }

  lemma DropLast(list: seq<Key>, n: nat, sizes: map<Key, nat>)
    requires 0 < n <= |list| && Distinct(list)
    ensures Total(list[..n], sizes) == Total(list[..n - 1], sizes) + SizeOf(sizes, list[n - 1])
    ensures forall k :: k in list[..n - 1] <==> k in list[..n] && k != list[n - 1]
    ensures list[..n][..n - 1] == list[..n - 1]
  {
    assert list[..n] == list[..n - 1] + [list[n - 1]];
    TotalSnoc(list[..n - 1], list[n - 1], sizes);
  }

  /** Listing a key first, under a new size. */
  lemma Relisted(list: seq<Key>, key: Key, sizes: map<Key, nat>, n: nat)
    requires Distinct(list) && forall k :: k in list <==> k in sizes
    ensures var order := Touch(list, key);
            && Distinct(order) && (forall k :: k in order <==> k in sizes[key := n])
            && Total(order, sizes[key := n]) == Total(list, sizes) - (if key in sizes then sizes[key] else 0) + n
  {
    WithoutIs(list, key, sizes);
    TotalSame(Without(list, key), sizes, sizes[key := n]);
    assert Touch(list, key)[1..] == Without(list, key);
  }

  /** Everything cut off so far had to go. */
  ghost predicate Cut(start: seq<Key>, order: seq<Key>, sizes: map<Key, nat>, budget: nat) {
    order <= start && (|order| == |start| || Total(start[..|order| + 1], sizes) > budget)
  }

  lemma CutOneMore(start: seq<Key>, order: seq<Key>, sizes: map<Key, nat>, budget: nat)
    requires Cut(start, order, sizes, budget) && order != [] && Total(order, sizes) > budget
    ensures Cut(start, order[..|order| - 1], sizes, budget)
  {
    assert start[..|order|] == order;
  }

  lemma CutIsFit(start: seq<Key>, order: seq<Key>, sizes: map<Key, nat>, budget: nat)
    requires Cut(start, order, sizes, budget) && (order == [] || Total(order, sizes) <= budget)
    ensures Fit(start, sizes, budget) == order && Total(order, sizes) <= budget
  {
    assert start[..|order|] == order;
    FitIs(start, sizes, budget, |order|);
  }

  lemma SameTotal(list: seq<Key>, sizes: map<Key, nat>, entries: map<Key, nat>)
    requires forall k :: k in list ==> k in sizes && k in entries && entries[k] == sizes[k]
    ensures Total(list, sizes) == Total(list, entries)
  {
    TotalSame(list, sizes, entries);
  }

  class Cache {
    const maxBytes: nat
    var entries: map<Key, nat>
    var order: seq<Key>
    var curBytes: int
    var files: map<Key, Data>

    /** Map and list agree, and curBytes is what the listed entries weigh. */
    ghost predicate Consistent()
      reads this
    {
      Distinct(order) && (forall k :: k in order <==> k in entries) && curBytes == Total(order, entries)
    }

    ghost predicate Valid()
      reads this
    {
      Consistent() && curBytes <= maxBytes
    }

    /** `NewCache` wipes the directory. */
    constructor (maxBytes: nat)
      ensures Valid() && this.maxBytes == maxBytes && order == [] && files == map[]
    {
      this.maxBytes := maxBytes;
      entries, order, curBytes, files := map[], [], 0, map[];
    }

    /** `removeLocked` */
    method Remove(key: Key)
      requires Valid()
      modifies this`entries, this`order, this`curBytes
      ensures Valid() && order == Without(old(order), key) && entries == old(entries) - {key}
    {
      WithoutIs(order, key, entries);
      if key in entries {
        curBytes := curBytes - entries[key];
        TotalSame(Without(order, key), entries, entries - {key});
      } else {
        WithoutAbsent(order, key);
        assert entries - {key} == entries;
      }
      order := Without(order, key);
      entries := entries - {key};
    }

    /** One round of the loop in `evictLocked`; removing the file may fail. */
    method DropBack(removed: bool)
      requires Consistent() && |order| > 0
      modifies this`entries, this`order, this`curBytes, this`files
      ensures Consistent() && order == old(order)[..|old(order)| - 1]
      ensures forall k :: k in order ==> k in old(entries) && entries[k] == old(entries)[k]
      ensures var last := old(order)[|old(order)| - 1];
              files == if removed then old(files) - {last} else old(files)
    {
      var last := order[|order| - 1];
      ghost var sizes := entries;
      DropLast(order, |order|, sizes);
      assert order[..|order|] == order;
      curBytes := curBytes - entries[last];
      order := order[..|order| - 1];
      entries := entries - {last};
      SameTotal(order, sizes, entries);
      if removed {
        files := files - {last};
      }
    }

    /** `evictLocked`: from the back until the rest fits. */
    method Evict(stuck: set<Key>)
      requires Consistent()
      modifies this`entries, this`order, this`curBytes, this`files
      ensures Valid() && order == Fit(old(order), old(entries), maxBytes)
      ensures forall k :: k in order ==> k in old(entries) && entries[k] == old(entries)[k]
      ensures FilesKept(old(files), files, order) && Leaked(files, old(order), order, stuck)
    {
      ghost var start, sizes := order, entries;
      assert Cut(start, order, sizes, maxBytes) && FilesKept(old(files), files, order) &&
        Leaked(files, start, order, stuck);
      hide Total, Fit, SizeOf, FilesKept, Leaked, Cut;
      while curBytes > maxBytes && |order| > 0
        invariant Cut(start, order, sizes, maxBytes) && Consistent()
        invariant forall k :: k in order ==> k in sizes && entries[k] == sizes[k]
        invariant FilesKept(old(files), files, order) && Leaked(files, start, order, stuck)
        decreases |order|
      {
        SameTotal(order, sizes, entries);
        CutOneMore(start, order, sizes, maxBytes);
        DropFile(old(files), files, start, order, stuck);
        DropBack(order[|order| - 1] !in stuck);
      }
      SameTotal(order, sizes, entries);
      CutIsFit(start, order, sizes, maxBytes);
    }

    /** A miss also drops a key whose file has disappeared. */
    method Get(key: Key, readable: bool) returns (data: Option<Data>)
      requires Valid()
      modifies this`entries, this`order, this`curBytes
      ensures Valid()
      ensures data == if key in old(entries) && key in files && readable then Some(files[key]) else None
      ensures data.Some? ==> order == Touch(old(order), key) && entries == old(entries)
      ensures data.None? ==> order == Without(old(order), key) && entries == old(entries) - {key}
    {
      if key !in entries {
        WithoutAbsent(order, key);
        return None;
      }
      TouchTotal(order, key, entries);
      WithoutIs(order, key, entries);
      ghost var before := order;
      order := Touch(order, key);
      if key in files && readable {
        return Some(files[key]);
      }
      Remove(key);
      assert Touch(before, key)[1..] == Without(before, key);
      WithoutAbsent(Without(before, key), key);
      data := None;
    }

    /** Write the file, list the key first, evict. */
    method Put(key: Key, data: Data, write: Write, stuck: set<Key>) returns (ok: bool)
      requires Valid()
      modifies this`entries, this`order, this`curBytes, this`files
      ensures Valid() && ok == write.Written?
      ensures ok ==> order == Fit(Touch(old(order), key), old(entries)[key := |data|], maxBytes)
      ensures ok ==> forall k :: k in order ==> if k == key then entries[k] == |data|
        else k in old(entries) && entries[k] == old(entries)[k]
      ensures ok ==> FilesKept(old(files)[key := data], files, order)
      ensures !ok ==> order == old(order) && entries == old(entries)
      ensures !ok ==> files == if write.Torn? then old(files)[key := write.junk] else old(files)
    {
      match write
      case Untouched => return false;
      case Torn(junk) => files := files[key := junk]; return false;
      case Written =>
      files := files[key := data];
      Relisted(order, key, entries, |data|);
      hide Total, Fit, Without;
      if key in entries {
        curBytes := curBytes + |data| - entries[key];
      } else {
        curBytes := curBytes + |data|;
      }
      entries := entries[key := |data|];
      order := Touch(order, key);
      FitIsLongest(order, entries, maxBytes);
      Evict(stuck);
      ok := true;
    }

    /** `LazyLoader.Load`; `direct` is what a direct download and decryption gives (None for
        an error), and `origin` the unchanging content of the bucket. */
    method Load(key: Key, direct: Option<Data>, readable: bool, write: Write, stuck: set<Key>,
        ghost origin: map<Key, Data>)
      returns (r: Option<Data>)
      requires Valid() && Faithful(entries, files, origin)
      requires direct.Some? ==> key in origin && direct.value == origin[key]
      modifies this
      ensures Valid() && Faithful(entries, files, origin)
      ensures r.Some? ==> key in origin && r.value == origin[key]
      ensures r.Some? <==> direct.Some? || (key in old(entries) && key in old(files) && readable)
      ensures direct.Some? && write.Written? && (key in old(entries) ==> key in old(files) && readable) ==>
                order == Request(old(order), key, Sizes(origin), maxBytes)
    {
      hide Total, Fit, Without;
      r := Get(key, readable);
      if r.Some? || direct.None? { return; }
      WithoutIs(old(order), key, entries);
      WithoutAbsent(order, key);
      ghost var before, sizes := order, entries[key := |direct.value|];
      var _ := Put(key, direct.value, write, stuck);
      FitSame(Touch(before, key), sizes, Sizes(origin), maxBytes);
      FitIsLongest(Touch(before, key), sizes, maxBytes);
      r := direct;
    }
  }
}
