/** code/lib/hash.cc and hash.h: a chained hash table that grows, and its iterator, against a finite map.  A bucket is
    the sequence of items on its list. */
module HashTables {
  import opened Common
  import opened Lists

  const INITIAL_BUCKETS := 4
  const RESIZE_RATIO := 3
  const INCREASE_SIZE_BY := 4

  /** The bucket for a hash value. */
  function Slot(h: nat, n: nat): (b: nat)
    requires n > 0
    ensures b < n
  {
    h % n
  }

  /** The items in the buckets are the values of `m`: each is in the bucket of its key, once. */
  ghost predicate Holds<Key(!new), T>(bs: seq<seq<T>>, m: map<Key, T>, getKey: T -> Key, hash: Key -> nat) {
    && |bs| > 0
    && (forall b, i :: 0 <= b < |bs| && 0 <= i < |bs[b]| ==> Placed(bs[b][i], b, |bs|, m, getKey, hash))
    && (forall k :: k in m ==> getKey(m[k]) == k && m[k] in bs[Slot(hash(k), |bs|)])
    && (forall b :: 0 <= b < |bs| ==> NoDuplicates(bs[b]))
  }

  ghost predicate Placed<Key, T>(item: T, b: nat, n: nat, m: map<Key, T>, getKey: T -> Key, hash: Key -> nat)
    requires n > 0
  {
    getKey(item) in m && m[getKey(item)] == item && Slot(hash(getKey(item)), n) == b
  }

  lemma AppendHolds<Key(!new), T>(bs: seq<seq<T>>, m: map<Key, T>, getKey: T -> Key, hash: Key -> nat, item: T)
    requires Holds(bs, m, getKey, hash) && getKey(item) !in m
    ensures var b := Slot(hash(getKey(item)), |bs|);
            Holds(bs[b := bs[b] + [item]], m[getKey(item) := item], getKey, hash) && item !in bs[b]
  {
  }

  lemma RemoveHolds<Key(!new), T>(bs: seq<seq<T>>, m: map<Key, T>, getKey: T -> Key, hash: Key -> nat, b: nat, i: nat)
    requires Holds(bs, m, getKey, hash) && b < |bs| && i < |bs[b]|
    ensures Holds(bs[b := Without(bs[b], i)], m - {getKey(bs[b][i])}, getKey, hash)
    ensures getKey(bs[b][i]) in m && m[getKey(bs[b][i])] == bs[b][i]
  {
  }

  // ----- All items, bucket after bucket -----

  function Flatten<T>(bs: seq<seq<T>>): seq<T> {
    if bs == [] then [] else bs[0] + Flatten(bs[1..])
  }

  lemma {:induction false} FlattenSplit<T>(bs: seq<seq<T>>, b: nat)
    requires b <= |bs|
    ensures Flatten(bs) == Flatten(bs[..b]) + Flatten(bs[b..])
  {
    if b == 0 {
      assert bs[..0] == [] && bs[0..] == bs;
    } else {
      FlattenSplit(bs[1..], b - 1);
      assert bs[1..][..b - 1] == bs[..b][1..] && bs[1..][b - 1..] == bs[b..];
    }
  }

  /** Bucket `b` within the whole. */
  lemma FlattenAt<T>(bs: seq<seq<T>>, b: nat)
    requires b < |bs|
    ensures Flatten(bs) == Flatten(bs[..b]) + bs[b] + Flatten(bs[b + 1..])
    ensures Flatten(bs[..b + 1]) == Flatten(bs[..b]) + bs[b]
  {
    FlattenSplit(bs, b);
    FirstBucket(bs[b..]);
    FlattenSplit(bs[..b + 1], b);
    FirstBucket(bs[..b + 1][b..]);
    hide Flatten;
    assert bs[b..][1..] == bs[b + 1..];
    assert bs[..b + 1][..b] == bs[..b] && bs[..b + 1][b..] == [bs[b]];
    assert [bs[b]][1..] == [];
  }

  lemma FirstBucket<T>(bs: seq<seq<T>>)
    requires bs != []
    ensures Flatten(bs) == bs[0] + Flatten(bs[1..]) && Flatten<T>([]) == []
  {
  }

  lemma FlattenUpdate<T>(bs: seq<seq<T>>, b: nat, x: seq<T>)
    requires b < |bs|
    ensures |Flatten(bs[b := x])| == |Flatten(bs)| - |bs[b]| + |x|
  {
    FlattenAt(bs, b);
    FlattenAt(bs[b := x], b);
    assert bs[b := x][..b] == bs[..b] && bs[b := x][b + 1..] == bs[b + 1..];
  }

  lemma {:induction false} InFlatten<T>(bs: seq<seq<T>>, x: T)
    ensures x in Flatten(bs) <==> exists b :: 0 <= b < |bs| && x in bs[b]
  {
    if bs != [] {
      InFlatten(bs[1..], x);
      forall b | 0 < b < |bs|
        ensures bs[b] == bs[1..][b - 1]
      {
      }
    }
  }

  /** Going through the buckets meets every item of the map, and none twice. */
  lemma EveryItemOnce<Key(!new), T>(bs: seq<seq<T>>, m: map<Key, T>, getKey: T -> Key, hash: Key -> nat)
    requires Holds(bs, m, getKey, hash)
    ensures EachOnce(Flatten(bs), m, getKey)
  {
    hide NoDuplicates, Slot;
    SuffixOnce(bs, m, getKey, hash, 0);
    assert bs[0..] == bs;
    forall x | x in Flatten(bs)
      ensures getKey(x) in m && m[getKey(x)] == x
    {
      InFlatten(bs, x);
      var b, i :| 0 <= b < |bs| && 0 <= i < |bs[b]| && bs[b][i] == x;
      assert Placed(bs[b][i], b, |bs|, m, getKey, hash);
    }
    forall k | k in m
      ensures m[k] in Flatten(bs)
    {
      InFlatten(bs, m[k]);
      assert m[k] in bs[Slot(hash(k), |bs|)];
    }
  }

  /** The sequence lists the values of the map, each once. */
  ghost predicate EachOnce<Key(!new), T>(s: seq<T>, m: map<Key, T>, getKey: T -> Key) {
    && NoDuplicates(s)
    && (forall x :: x in s ==> getKey(x) in m && m[getKey(x)] == x)
    && (forall k :: k in m ==> m[k] in s)
  }

  lemma {:induction false} SuffixOnce<Key(!new), T>(bs: seq<seq<T>>, m: map<Key, T>, getKey: T -> Key,
                                                    hash: Key -> nat, b: nat)
    requires Holds(bs, m, getKey, hash) && b <= |bs|
    ensures NoDuplicates(Flatten(bs[b..]))
    decreases |bs| - b
  {
    if b < |bs| {
      SuffixOnce(bs, m, getKey, hash, b + 1);
      var rest := Flatten(bs[b + 1..]);
      assert Flatten(bs[b..]) == bs[b] + rest by { assert bs[b..][0] == bs[b] && bs[b..][1..] == bs[b + 1..]; }
      forall i, j | 0 <= i < |bs[b]| && 0 <= j < |rest|
        ensures bs[b][i] != rest[j]
      {
        assert Placed(bs[b][i], b, |bs|, m, getKey, hash);
        InFlatten(bs[b + 1..], rest[j]);
        var c, k :| 0 <= c < |bs[b + 1..]| && 0 <= k < |bs[b + 1..][c]| && bs[b + 1..][c][k] == rest[j];
        assert Placed(bs[b + 1 + c][k], b + 1 + c, |bs|, m, getKey, hash);
      }
    }
  }

  // ----- The table -----

  class HashTable<Key(==, !new), T(==)> {
    const getKey: T -> Key
    const hash: Key -> nat
    var buckets: array<seq<T>>
    var numItems: nat
    ghost var contents: map<Key, T>

    /** What SanityCheck tests, that the table is the map `contents`, and that it is not too full. */
    ghost predicate Valid()
      reads this, buckets
    {
      && buckets.Length > 0
      && Holds(buckets[..], contents, getKey, hash)
      && numItems == |contents| && numItems == |Flatten(buckets[..])|
      && numItems <= RESIZE_RATIO * buckets.Length
    }

    constructor (get: T -> Key, hFunc: Key -> nat)
      ensures Valid() && fresh(buckets) && getKey == get && hash == hFunc && contents == map[]
    {
      getKey, hash, numItems, contents := get, hFunc, 0, map[];
      buckets := new seq<T>[INITIAL_BUCKETS](_ => []);
      new;
      EmptyHolds(buckets[..], getKey, hash);
    }

    method FindInBucket(bucket: nat, key: Key) returns (found: Option<T>)
      requires bucket < buckets.Length
      ensures found.Some? ==> found.value in buckets[bucket] && getKey(found.value) == key
      ensures found.None? ==> forall i :: 0 <= i < |buckets[bucket]| ==> getKey(buckets[bucket][i]) != key
    {
      for i := 0 to |buckets[bucket]|
        invariant forall k :: 0 <= k < i ==> getKey(buckets[bucket][k]) != key
      {
        if key == getKey(buckets[bucket][i]) {
          return Some(buckets[bucket][i]);
        }
      }
      return None;
    }

    method Find(key: Key) returns (found: Option<T>)
      requires Valid()
      ensures found == if key in contents then Some(contents[key]) else None
    {
      hide Slot, NoDuplicates, Flatten;
      var bucket := Slot(hash(key), buckets.Length);
      found := FindInBucket(bucket, key);
      if found.Some? {
        ghost var i := IndexOf(buckets[bucket], found.value);
        assert Placed(buckets[..][bucket][i], bucket, buckets.Length, contents, getKey, hash);
      }
    }

    method Append(item: T)
      requires buckets.Length > 0 && Holds(buckets[..], contents, getKey, hash) && getKey(item) !in contents
      modifies buckets
      ensures Holds(buckets[..], contents[getKey(item) := item], getKey, hash)
      ensures |Flatten(buckets[..])| == |Flatten(old(buckets[..]))| + 1
    {
      hide Holds, Slot, Flatten;
      var b := Slot(hash(getKey(item)), buckets.Length);
      AppendHolds(buckets[..], contents, getKey, hash, item);
      FlattenUpdate(buckets[..], b, buckets[b] + [item]);
      buckets[b] := buckets[b] + [item];
      assert buckets[..] == old(buckets[..])[b := old(buckets[..])[b] + [item]];
    }

    /** One item moves from the front of an old bucket to its new one. */
    method MoveFront(oldTable: array<seq<T>>, i: nat, ghost left: map<Key, T>, ghost all: map<Key, T>)
      requires i < oldTable.Length && oldTable[i] != [] && oldTable != buckets && buckets.Length > 0
      requires Moving(oldTable[..], buckets[..], left, contents, all, getKey, hash)
      modifies this`contents, buckets, oldTable
      ensures oldTable[..] == old(oldTable[..])[i := old(oldTable[..])[i][1..]]
      ensures Moving(oldTable[..], buckets[..], left - {getKey(old(oldTable[i])[0])}, contents, all, getKey, hash)
    {
      hide Moving, Slot;
      var item := oldTable[i][0];
      MoveOne(oldTable[..], buckets[..], left, contents, all, getKey, hash, i);
      oldTable[i] := oldTable[i][1..];
      var b := Slot(hash(getKey(item)), buckets.Length);
      buckets[b] := buckets[b] + [item];
      contents := contents[getKey(item) := item];
      assert oldTable[..] == old(oldTable[..])[i := old(oldTable[..])[i][1..]];
      assert buckets[..] == old(buckets[..])[b := old(buckets[..])[b] + [item]];
    }

    /** The inner loop: a bucket is emptied from its front. */
    method MoveBucket(oldTable: array<seq<T>>, i: nat, ghost before: map<Key, T>, ghost all: map<Key, T>)
      returns (ghost left: map<Key, T>)
      requires i < oldTable.Length && oldTable != buckets && buckets.Length > 0
      requires Moving(oldTable[..], buckets[..], before, contents, all, getKey, hash)
      modifies this`contents, buckets, oldTable
      ensures oldTable[..] == old(oldTable[..])[i := []]
      ensures Moving(oldTable[..], buckets[..], left, contents, all, getKey, hash)
    {
      hide Moving;
      left := before;
      while oldTable[i] != []
        invariant Moving(oldTable[..], buckets[..], left, contents, all, getKey, hash)
        invariant oldTable[..] == old(oldTable[..])[i := oldTable[i]]
        decreases |oldTable[i]|
      {
        ghost var key := getKey(oldTable[i][0]);
        MoveFront(oldTable, i, left, all);
        left := left - {key};
      }
    }

    /** A table four times as large, into which all items move. */
    method ReHash()
      requires Valid()
      modifies this, buckets
      ensures Valid() && fresh(buckets) && buckets.Length == INCREASE_SIZE_BY * old(buckets.Length)
      ensures contents == old(contents) && numItems == old(numItems)
    {
      hide Moving, Holds, Flatten;
      ghost var all, left := contents, contents;
      var oldTable := buckets;
      buckets, contents := new seq<T>[buckets.Length * INCREASE_SIZE_BY](_ => []), map[];
      MoveStart(oldTable[..], buckets[..], all, getKey, hash);
      for i := 0 to oldTable.Length
        invariant fresh(buckets) && buckets.Length == INCREASE_SIZE_BY * oldTable.Length && numItems == old(numItems)
        invariant Moving(oldTable[..], buckets[..], left, contents, all, getKey, hash)
        invariant forall b :: 0 <= b < i ==> oldTable[..][b] == []
      {
        left := MoveBucket(oldTable, i, left, all);
      }
      MoveEnd(oldTable[..], buckets[..], left, contents, all, getKey, hash);
    }

    method Insert(item: T)
      requires Valid() && getKey(item) !in contents
      modifies this, buckets
      ensures Valid() && contents == old(contents)[getKey(item) := item]
      ensures buckets == old(buckets) || fresh(buckets)
    {
      hide Holds, Flatten;
      Full(numItems, buckets.Length);
      if numItems / buckets.Length >= RESIZE_RATIO {
        ReHash();
      }
      Append(item);
      numItems, contents := numItems + 1, contents[getKey(item) := item];
    }

    method Remove(key: Key) returns (item: T)
      requires Valid() && key in contents
      modifies this, buckets
      ensures Valid() && item == old(contents)[key] && contents == old(contents) - {key}
      ensures buckets == old(buckets)
    {
      hide Holds, Slot, NoDuplicates, Flatten, Without, IndexOf;
      var bucket := Slot(hash(key), buckets.Length);
      var found := Find(key);
      item := found.value;
      ItemIsInBucket(buckets[..], contents, getKey, hash, key);
      var i := IndexOf(buckets[bucket], item);
      RemoveHolds(buckets[..], contents, getKey, hash, bucket, i);
      FlattenUpdate(buckets[..], bucket, Without(buckets[bucket], i));
      OneLess(contents, key);
      buckets[bucket] := Without(buckets[bucket], i);
      assert buckets[..] == old(buckets[..])[bucket := Without(old(buckets[..])[bucket], i)];
      numItems, contents := numItems - 1, contents - {key};
    }

    /** The first bucket from `start` on that is not empty. */
    method FindNextFullBucket(start: nat) returns (bucket: nat)
      requires start <= buckets.Length
      ensures start <= bucket <= buckets.Length && (bucket < buckets.Length ==> buckets[bucket] != [])
      ensures forall b :: start <= b < bucket ==> buckets[b] == []
    {
      bucket := start;
      while bucket < buckets.Length && buckets[bucket] == []
        invariant start <= bucket <= buckets.Length && forall b :: start <= b < bucket ==> buckets[b] == []
      {
        bucket := bucket + 1;
      }
    }
  }

  // ----- The iterator -----

  /** Empty buckets hold nothing back. */
  lemma {:induction false} SkipEmpty<T>(bs: seq<seq<T>>, lo: nat, hi: nat)
    requires lo <= hi <= |bs| && forall b :: lo <= b < hi ==> bs[b] == []
    ensures Flatten(bs[..hi]) == Flatten(bs[..lo])
    decreases hi
  {
    if lo < hi {
      SkipEmpty(bs, lo, hi - 1);
      FlattenAt(bs, hi - 1);
    }
  }

  class HashIterator<Key(==, !new), T(==)> {
    const table: HashTable<Key, T>
    var bucket: nat
    var at: nat

    /** The iterator stands at item number `n`, counting through the buckets in order. */
    ghost predicate Stands(n: nat)
      reads this, table, table.buckets
    {
      && bucket <= table.buckets.Length
      && (bucket < table.buckets.Length ==> at < |table.buckets[bucket]|)
      && n == |Flatten(table.buckets[..][..bucket])| + if bucket < table.buckets.Length then at else 0
    }

    constructor (tbl: HashTable<Key, T>)
      ensures table == tbl && Stands(0)
    {
      table := tbl;
      at := 0;
      var b := tbl.FindNextFullBucket(0);
      bucket := b;
      SkipEmpty(tbl.buckets[..], 0, b);
      assert tbl.buckets[..][..0] == [];
    }

    method IsDone(ghost n: nat) returns (done: bool)
      requires Stands(n)
      ensures done == (n == |Flatten(table.buckets[..])|) && n <= |Flatten(table.buckets[..])|
    {
      done := bucket == table.buckets.Length;
      assert table.buckets[..][..table.buckets.Length] == table.buckets[..];
      if !done {
        FlattenAt(table.buckets[..], bucket);
      }
    }

    method Item(ghost n: nat) returns (item: T)
      requires Stands(n) && n < |Flatten(table.buckets[..])|
      ensures item == Flatten(table.buckets[..])[n]
    {
      assert table.buckets[..][..table.buckets.Length] == table.buckets[..];
      FlattenAt(table.buckets[..], bucket);
      item := table.buckets[bucket][at];
    }

    method Next(ghost n: nat)
      requires Stands(n) && n < |Flatten(table.buckets[..])|
      modifies this
      ensures Stands(n + 1)
    {
      assert table.buckets[..][..table.buckets.Length] == table.buckets[..];
      FlattenAt(table.buckets[..], bucket);
      at := at + 1;
      if at == |table.buckets[bucket]| {
        var next := bucket + 1;
        bucket := table.FindNextFullBucket(next);
        at := 0;
        SkipEmpty(table.buckets[..], next, bucket);
      }
    }
  }

  /** The loop that the header recommends sees every item of the table exactly once. */
  method VisitAll<Key(==, !new), T(==)>(table: HashTable<Key, T>) returns (seen: seq<T>)
    requires table.Valid()
    ensures |seen| == |table.contents| && EachOnce(seen, table.contents, table.getKey)
  {
    hide Holds, Flatten, EachOnce;
    EveryItemOnce(table.buckets[..], table.contents, table.getKey, table.hash);
    ghost var all := Flatten(table.buckets[..]);
    var iter := new HashIterator(table);
    seen := [];
    var done := iter.IsDone(0);
    while !done
      invariant iter.Stands(|seen|) && iter.table == table && fresh(iter)
      invariant seen <= all == Flatten(table.buckets[..]) && done == (|seen| == |all|)
      decreases |all| - |seen|
    {
      var item := iter.Item(|seen|);
      iter.Next(|seen|);
      seen := seen + [item];
      done := iter.IsDone(|seen|);
    }
    assert seen == all;
  }

  lemma ItemIsInBucket<Key(!new), T>(bs: seq<seq<T>>, m: map<Key, T>, getKey: T -> Key, hash: Key -> nat, key: Key)
    requires Holds(bs, m, getKey, hash) && key in m
    ensures m[key] in bs[Slot(hash(key), |bs|)] && getKey(m[key]) == key
  {
  }

  lemma OneLess<Key, T>(m: map<Key, T>, key: Key)
    requires key in m
    ensures |m - {key}| == |m| - 1
  {
  }

  lemma EmptyHolds<Key(!new), T>(bs: seq<seq<T>>, getKey: T -> Key, hash: Key -> nat)
    requires |bs| > 0 && forall b :: 0 <= b < |bs| ==> bs[b] == []
    ensures Holds(bs, map[], getKey, hash) && Flatten(bs) == []
  {
  }

  /** A rehash under way: what is left in the old table and what has moved are together all there was. */
  ghost predicate Moving<Key(!new), T>(old_: seq<seq<T>>, bs: seq<seq<T>>, left: map<Key, T>, moved: map<Key, T>,
                                       all: map<Key, T>, getKey: T -> Key, hash: Key -> nat)
  {
    && Holds(old_, left, getKey, hash) && Holds(bs, moved, getKey, hash)
    && left.Keys !! moved.Keys && left + moved == all
    && |Flatten(bs)| == |moved|
  }

  lemma MoveStart<Key(!new), T>(old_: seq<seq<T>>, bs: seq<seq<T>>, all: map<Key, T>, getKey: T -> Key,
                                hash: Key -> nat)
    requires Holds(old_, all, getKey, hash) && |bs| > 0 && forall b :: 0 <= b < |bs| ==> bs[b] == []
    ensures Moving(old_, bs, all, map[], all, getKey, hash)
  {
    EmptyHolds(bs, getKey, hash);
    hide Holds;
  }

  lemma MoveOne<Key(!new), T>(old_: seq<seq<T>>, bs: seq<seq<T>>, left: map<Key, T>, moved: map<Key, T>,
                              all: map<Key, T>, getKey: T -> Key, hash: Key -> nat, i: nat)
    requires Moving(old_, bs, left, moved, all, getKey, hash) && i < |old_| && old_[i] != [] && |bs| > 0
    ensures var item := old_[i][0]; var key := getKey(item); var b := Slot(hash(key), |bs|);
            Moving(old_[i := old_[i][1..]], bs[b := bs[b] + [item]], left - {key}, moved[key := item], all, getKey, hash)
  {
    hide Holds, Flatten, NoDuplicates, Slot, Without;
    var item := old_[i][0];
    var key := getKey(item);
    var b := Slot(hash(key), |bs|);
    RemoveHolds(old_, left, getKey, hash, i, 0);
    WithoutFirst(old_[i]);
    AppendHolds(bs, moved, getKey, hash, item);
    FlattenUpdate(bs, b, bs[b] + [item]);
    MoveKey(left, moved, key);
  }

  lemma MoveKey<Key, T>(left: map<Key, T>, moved: map<Key, T>, key: Key)
    requires left.Keys !! moved.Keys && key in left
    ensures (left - {key}).Keys !! moved[key := left[key]].Keys
    ensures (left - {key}) + moved[key := left[key]] == left + moved
    ensures |moved[key := left[key]]| == |moved| + 1
  {
  }

  lemma MoveEnd<Key(!new), T>(old_: seq<seq<T>>, bs: seq<seq<T>>, left: map<Key, T>, moved: map<Key, T>,
                              all: map<Key, T>, getKey: T -> Key, hash: Key -> nat)
    requires Moving(old_, bs, left, moved, all, getKey, hash) && forall b :: 0 <= b < |old_| ==> old_[b] == []
    ensures moved == all && Holds(bs, all, getKey, hash) && |Flatten(bs)| == |all|
  {
  }

  lemma WithoutFirst<T>(s: seq<T>)
    requires s != []
    ensures Without(s, 0) == s[1..]
  {
  }

  lemma Full(numItems: nat, numBuckets: nat)
    requires numBuckets > 0
    ensures numItems / numBuckets >= RESIZE_RATIO <==> numItems >= RESIZE_RATIO * numBuckets
  {
  }
}
