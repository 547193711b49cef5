/** core/tx_list.go, txSortedMap: a nonce -> transaction map with a heap of its nonces and a cached
    sort. Every operation is specified by the plain map it leaves behind. */
module SortedMap {
  import opened Basics
  import opened Transactions
  import Heap

  /** nonceHeap orders nonces by value. */
  const BY_NONCE: nat -> int := (n: nat) => n

  /** `index` holds exactly the given nonces, each once. */
  ghost predicate Indexes(index: seq<nat>, keys: set<nat>) {
    multiset(index) == multiset(keys)
  }

  lemma IndexPush(h: seq<nat>, r: seq<nat>, keys: set<nat>, x: nat)
    requires Indexes(h, keys) && x !in keys && multiset(r) == multiset(h) + multiset{x}
    ensures Indexes(r, keys + {x})
  {}

  lemma IndexPop(h: seq<nat>, r: seq<nat>, keys: set<nat>, x: nat)
    requires Indexes(h, keys) && multiset(h) == multiset(r) + multiset{x}
    ensures x in keys && Indexes(r, keys - {x})
    ensures |r| == |h| - 1
  {
    assert x in multiset(h);
    assert |multiset(h)| == |multiset(r)| + 1;
    assert multiset(keys - {x}) == multiset(keys) - multiset{x};
    assert multiset(r) == multiset(h) - multiset{x};
  }

  /** The root of the index is the lowest nonce. */
  lemma IndexRoot(h: seq<nat>, keys: set<nat>)
    requires Indexes(h, keys) && Heap.IsHeap(h, BY_NONCE)
    ensures if |h| == 0 then keys == {} else keys != {} && h[0] == MinKey(keys)
  {
    if |h| == 0 {
      assert forall k :: k in keys ==> k in multiset(h);
    } else {
      assert h[0] in multiset(h);
      forall k | k in keys ensures h[0] <= k {
        assert k in multiset(h);
        var i :| 0 <= i < |h| && h[i] == k;
        Heap.RootIsLeast(h, BY_NONCE, i);
      }
    }
  }

  // ---------- what taking out the lowest nonce does to the plain map ----------

  lemma NothingBelow(m: map<nat, Tx>)
    ensures Below(m, 0) == map[] && From(m, 0) == m
  {}

  lemma OneSorted(n: nat, tx: Tx)
    ensures Sorted(map[n := tx]) == [tx]
  {
    var m := map[n := tx];
    assert m.Keys == {n} && MinKey({n}) == n;
    assert SortedKeys({n}) == [n];
  }

  /** The maps around the lowest entry from `t` up. */
  lemma CutAtLowest(m: map<nat, Tx>, t: nat, nonce: nat)
    requires From(m, t) != map[] && nonce == MinKey(From(m, t).Keys)
    ensures nonce in m && t <= nonce && nonce in From(m, t) && From(m, t)[nonce] == m[nonce]
    ensures From(m, t) - {nonce} == From(m, nonce + 1)
    ensures Below(Below(m, nonce + 1), nonce) == Below(m, t)
    ensures From(Below(m, nonce + 1), nonce) == map[nonce := m[nonce]]
  {
    assert nonce in From(m, t).Keys;
    assert forall k :: k in m && t <= k ==> k in From(m, t).Keys;
  }

  /** Taking out the lowest entry from `t` up extends the sorted lower part by one. */
  lemma PassLowest(m: map<nat, Tx>, t: nat, nonce: nat)
    requires From(m, t) != map[] && nonce == MinKey(From(m, t).Keys)
    ensures nonce in m && t <= nonce && nonce in From(m, t) && From(m, t)[nonce] == m[nonce]
    ensures From(m, t) - {nonce} == From(m, nonce + 1)
    ensures Sorted(Below(m, nonce + 1)) == Sorted(Below(m, t)) + [m[nonce]]
  {
    hide *;
    CutAtLowest(m, t, nonce);
    SplitSorted(Below(m, nonce + 1), nonce);
    OneSorted(nonce, m[nonce]);
  }

  /** With nothing between `t` and `u` it makes no difference where to cut. */
  lemma PassGap(m: map<nat, Tx>, t: nat, u: nat)
    requires t <= u && (From(m, t) != map[] ==> MinKey(From(m, t).Keys) >= u)
    ensures From(m, t) == From(m, u) && Below(m, t) == Below(m, u)
  {
    assert forall k :: k in m && t <= k ==> k in From(m, t).Keys;
  }

  lemma KeyedPut(m: map<nat, Tx>, tx: Tx)
    requires Keyed(m)
    ensures Keyed(m[tx.nonce := tx])
  {}

  lemma KeyedMinus(m: map<nat, Tx>, s: set<nat>)
    requires Keyed(m)
    ensures Keyed(m - s)
  {}

  class TxSortedMap {
    var items: map<nat, Tx>
    var index: seq<nat>
    var cache: Option<seq<Tx>>

    /** The index is a duplicate-free heap of exactly the keys. */
    ghost predicate Indexed()
      reads this
    {
      Keyed(items) && Heap.IsHeap(index, BY_NONCE) && Indexes(index, items.Keys)
    }

    /** Moreover a cached order is the sorted contents. */
    ghost predicate Valid()
      reads this
    {
      Indexed() && (cache.Some? ==> cache.value == Sorted(items))
    }

    constructor ()
      ensures Valid() && items == map[]
    {
      items, index, cache := map[], [], None;
    }

    method Get(nonce: nat) returns (tx: Option<Tx>)
      requires Valid()
      ensures tx == if nonce in items then Some(items[nonce]) else None
    {
      tx := if nonce in items then Some(items[nonce]) else None;
    }

    method Put(tx: Tx)
      requires Valid()
      modifies this
      ensures Valid() && items == old(items)[tx.nonce := tx]
    {
      hide Indexes, Heap.IsHeap, Sorted, Keyed;
      if tx.nonce !in items {
        index := Heap.Push(index, BY_NONCE, tx.nonce);
        IndexPush(old(index), index, items.Keys, tx.nonce);
        assert items[tx.nonce := tx].Keys == items.Keys + {tx.nonce};
      } else {
        assert items[tx.nonce := tx].Keys == items.Keys;
      }
      items, cache := items[tx.nonce := tx], None;
      KeyedPut(old(items), tx);
    }

    /** heap.Pop on the index together with the deletion of the popped entry. */
    method TakeLowest() returns (tx: Tx)
      requires Indexed() && |index| > 0
      modifies this`index, this`items
      ensures old(index)[0] in old(items) && tx == old(items)[old(index)[0]]
      ensures items == old(items) - {old(index)[0]}
      ensures Indexed() && |index| == old(|index|) - 1
    {
      hide Indexes, Heap.IsHeap, Keyed;
      KeyedMinus(items, {index[0]});
      items, index, tx := PopRoot(items, index);
    }

    method Forward(threshold: nat) returns (removed: seq<Tx>)
      requires Valid()
      modifies this
      ensures Valid() && items == From(old(items), threshold)
      ensures removed == Sorted(Below(old(items), threshold))
    {
      hide Indexes, Heap.IsHeap, Sorted, Below, From, MinKey, Keyed;
      removed := [];
      ghost var t: nat := 0;
      NothingBelow(items);
      EmptySorted();
      while |index| > 0 && index[0] < threshold
        invariant t <= threshold && items == From(old(items), t)
        invariant removed == Sorted(Below(old(items), t))
        invariant Indexed()
        invariant cache == old(cache)
        decreases |index|
      {
        var nonce := index[0];
        IndexRoot(index, items.Keys);
        PassLowest(old(items), t, nonce);
        t := nonce + 1;
        var tx := TakeLowest();
        removed := removed + [tx];
      }
      IndexRoot(index, items.Keys);
      PassGap(old(items), t, threshold);
      if cache.Some? {
        SplitSorted(old(items), threshold);
        cache := Some(cache.value[|removed|..]);
      }
    }

    method Filter(p: Tx -> bool) returns (removed: seq<Tx>)
      requires Valid()
      modifies this
      ensures Valid() && items == Without(old(items), p)
      ensures Enumerates(removed, Matching(old(items), p))
    {
      hide Indexes, Heap.IsHeap, Sorted, Enumerates;
      items, removed := Extract(items, p);
      NothingMatches(removed, old(items), p);
      if |removed| > 0 {
        Reindex();
        cache := None;
      }
    }

    /** The collecting loop of Filter, visiting the entries in any order. */
    static method Extract(m: map<nat, Tx>, p: Tx -> bool) returns (kept: map<nat, Tx>, removed: seq<Tx>)
      requires Keyed(m)
      ensures kept == Without(m, p) && Enumerates(removed, Matching(m, p))
    {
      hide Enumerates;
      kept, removed := m, [];
      var todo := m.Keys;
      ghost var dropped: map<nat, Tx> := map[];
      NothingEnumerated();
      while todo != {}
        invariant todo <= m.Keys && kept.Keys == m.Keys - dropped.Keys
        invariant dropped.Keys <= m.Keys - todo
        invariant forall n :: n in dropped ==> p(m[n]) && dropped[n] == m[n]
        invariant forall n :: n in kept ==> kept[n] == m[n] && (n in todo || !p(m[n]))
        invariant Enumerates(removed, dropped)
        decreases todo
      {
        var nonce :| nonce in todo;
        todo := todo - {nonce};
        var tx := kept[nonce];
        if p(tx) {
          EnumerateOneMore(removed, dropped, nonce, tx);
          removed, dropped := removed + [tx], dropped[nonce := tx];
          kept := kept - {nonce};
        }
      }
      assert dropped == Matching(m, p) && kept == Without(m, p);
    }

    /** Rebuild the index from the keys, in whatever order they come, and heap.Init it. */
    method Reindex()
      requires Keyed(items)
      modifies this`index
      ensures Indexed()
    {
      hide Heap.IsHeap, Indexes;
      var nonces: seq<nat>, todo := [], items.Keys;
      NothingIndexed();
      assert items.Keys - todo == {};
      while todo != {}
        invariant todo <= items.Keys && Indexes(nonces, items.Keys - todo)
        decreases todo
      {
        var nonce :| nonce in todo;
        IndexPush(nonces, nonces + [nonce], items.Keys - todo, nonce);
        assert items.Keys - todo + {nonce} == items.Keys - (todo - {nonce});
        nonces, todo := nonces + [nonce], todo - {nonce};
      }
      assert items.Keys - todo == items.Keys;
      index := Heap.Init(nonces, BY_NONCE);
      SameIndex(nonces, index, items.Keys);
    }

    /** Drops the highest nonces, highest first. */
    method Cap(threshold: nat) returns (drops: seq<Tx>)
      requires Valid()
      modifies this
      ensures Valid() && items == CapTo(old(items), threshold)
      ensures |drops| == |old(items)| - |items| && HighestFirst(drops, old(items))
    {
      hide Indexes, Heap.IsHeap, Sorted, SortedKeys, CapTo, Keyed, HighestFirst;
      drops := [];
      if |items| <= threshold {
        CapNothing(items, threshold);
        NothingFirst(items);
        return;
      }
      SortIndex();
      items, drops := DropHighest(items, index, threshold);
      CapIndex(old(items), threshold);
      index := Heap.Init(index[..threshold], BY_NONCE);
      SortedIndexes(items.Keys);
      SameIndex(SortedKeys(items.Keys), index, items.Keys);
      if cache.Some? {
        CapSorted(old(items), threshold);
        cache := Some(cache.value[..|cache.value| - |drops|]);
      }
    }

    /** The dropping loop of Cap, over the sorted index. */
    static method DropHighest(m: map<nat, Tx>, index: seq<nat>, threshold: nat)
      returns (items: map<nat, Tx>, drops: seq<Tx>)
      requires Keyed(m) && index == SortedKeys(m.Keys) && threshold <= |m|
      ensures Keyed(items) && items == CapTo(m, threshold) && |drops| == |m| - threshold && HighestFirst(drops, m)
    {
      hide Sorted, SortedKeys, CapTo, Keyed;
      items, drops := m, [];
      var size := |m|;
      CapNothing(m, size);
      while size > threshold
        invariant threshold <= size <= |m| && items == CapTo(m, size) && Keyed(items)
        invariant |drops| == |m| - size
        invariant forall i :: 0 <= i < |drops| ==> drops[i] == Sorted(m)[|m| - 1 - i]
      {
        KeyedMinus(items, {index[size - 1]});
        CapOneMore(m, size);
        drops := drops + [items[index[size - 1]]];
        items := items - {index[size - 1]};
        size := size - 1;
      }
    }

    /** sort.Sort on the index. */
    method SortIndex()
      requires Indexed()
      modifies this`index
      ensures index == SortedKeys(items.Keys)
    {
      IndexElements(index, items.Keys);
      index := SortedKeys(set i | 0 <= i < |index| :: index[i]);
    }

    method Remove(nonce: nat) returns (found: bool)
      requires Valid()
      modifies this
      ensures Valid() && items == old(items) - {nonce}
      ensures found == (nonce in old(items))
    {
      hide Indexes, Heap.IsHeap, Sorted, Keyed;
      KeyedMinus(items, {nonce});
      if nonce !in items {
        assert items - {nonce} == items;
        return false;
      }
      IndexElements(index, items.Keys);
      var i := 0;
      while index[i] != nonce
        invariant 0 <= i < |index| && exists j :: i <= j < |index| && index[j] == nonce
        decreases |index| - i
      {
        i := i + 1;
      }
      var x;
      index, x := Heap.Remove(index, BY_NONCE, i);
      IndexPop(old(index), index, items.Keys, nonce);
      assert (items - {nonce}).Keys == items.Keys - {nonce};
      items, cache := items - {nonce}, None;
      return true;
    }

    method Ready(start: nat) returns (ready: seq<Tx>)
      requires Valid()
      modifies this
      ensures Valid() && items == old(items) - ReadyRun(old(items), start).Keys
      ensures ready == Sorted(ReadyRun(old(items), start))
    {
      hide Indexes, Heap.IsHeap, Sorted, ReadyRun, RunEnd, MinKey;
      IndexRoot(index, items.Keys);
      if |index| == 0 || index[0] > start {
        EmptySorted();
        NothingReady(items, start);
        return [];
      }
      ghost var end;
      items, index, ready, end := TakeRun(items, index);
      ReadyTaken(old(items), start, end);
      cache := None;
    }

    /** heap.Pop on an index together with the deletion of the popped entry. */
    static method PopRoot(m: map<nat, Tx>, index: seq<nat>) returns (items: map<nat, Tx>, rest: seq<nat>, tx: Tx)
      requires Heap.IsHeap(index, BY_NONCE) && Indexes(index, m.Keys) && |index| > 0
      ensures index[0] in m && tx == m[index[0]] && items == m - {index[0]} && |rest| == |index| - 1
      ensures Heap.IsHeap(rest, BY_NONCE) && Indexes(rest, items.Keys)
    {
      hide Indexes, Heap.IsHeap;
      var nonce;
      rest, nonce := Heap.Pop(index, BY_NONCE);
      IndexPop(index, rest, m.Keys, nonce);
      tx, items := m[nonce], m - {nonce};
      assert items.Keys == m.Keys - {nonce};
    }

    /** The loop of Ready: pops consecutive nonces as long as the root continues the run. */
    static method TakeRun(m: map<nat, Tx>, index: seq<nat>)
      returns (items: map<nat, Tx>, rest: seq<nat>, ready: seq<Tx>, ghost end: nat)
      requires Heap.IsHeap(index, BY_NONCE) && Indexes(index, m.Keys) && |index| > 0
      ensures Heap.IsHeap(rest, BY_NONCE) && Indexes(rest, items.Keys)
      ensures m != map[] && end == RunEnd(m, MinKey(m.Keys))
      ensures items == From(m, end) && ready == Sorted(Below(m, end))
    {
      hide *;
      ghost var first := index[0];
      RunStarts(m, index);
      var left, heap, taken, next := m, index, [], index[0];
      while |heap| > 0 && heap[0] == next
        invariant left == From(m, next) && taken == Sorted(Below(m, next))
        invariant RunEnd(m, first) == RunEnd(m, next)
        invariant Heap.IsHeap(heap, BY_NONCE) && Indexes(heap, left.Keys)
        decreases |heap|
      {
        RunGoesOn(m, next, heap);
        var tx;
        left, heap, tx := PopRoot(left, heap);
        taken := taken + [tx];
        next := next + 1;
      }
      RunStops(m, next, heap);
      return left, heap, taken, next;
    }

    method Flatten() returns (txs: seq<Tx>)
      requires Valid()
      modifies this`cache
      ensures Valid() && txs == Sorted(items)
    {
      if cache.None? {
        cache := Some(Sorted(items));
      }
      txs := cache.value;
    }
  }

  // ---------- filtering ----------

  lemma NothingEnumerated()
    ensures Enumerates([], map[])
  {}

  lemma EnumerateOneMore(s: seq<Tx>, m: map<nat, Tx>, n: nat, tx: Tx)
    requires Enumerates(s, m) && n !in m && tx.nonce == n
    ensures Enumerates(s + [tx], m[n := tx])
  {
    var r := m[n := tx];
    forall k | k in r ensures r[k] in s + [tx] {
      if k != n { assert m[k] in s; }
    }
  }

  /** When the filter matches nothing, nothing changes. */
  lemma NothingMatches(s: seq<Tx>, m: map<nat, Tx>, p: Tx -> bool)
    requires Keyed(m) && Enumerates(s, Matching(m, p))
    ensures |s| == 0 ==> Without(m, p) == m
    ensures Keyed(Without(m, p))
  {
    assert forall n :: n in Matching(m, p) ==> m[n] in s;
  }

  // ---------- the sorted index ----------

  lemma IndexElements(index: seq<nat>, keys: set<nat>)
    requires Indexes(index, keys)
    ensures (set i | 0 <= i < |index| :: index[i]) == keys
  {
    assert forall k :: k in keys <==> k in multiset(index);
  }

  lemma NothingIndexed()
    ensures Indexes([], {})
  {}

  lemma SameIndex(h: seq<nat>, r: seq<nat>, keys: set<nat>)
    requires Indexes(h, keys) && multiset(r) == multiset(h)
    ensures Indexes(r, keys)
  {}

  lemma {:induction false} SortedIndexes(keys: set<nat>)
    ensures Indexes(SortedKeys(keys), keys)
  {
    if keys != {} {
      var low := MinKey(keys);
      SortedIndexes(keys - {low});
      IndexPush(SortedKeys(keys - {low}), SortedKeys(keys), keys - {low}, low);
      assert keys - {low} + {low} == keys;
    }
  }

  // ---------- capping ----------

  /** `drops` holds the highest nonces of `m`, highest first. */
  ghost predicate HighestFirst(drops: seq<Tx>, m: map<nat, Tx>) {
    |drops| <= |m| && forall i :: 0 <= i < |drops| ==> drops[i] == Sorted(m)[|m| - 1 - i]
  }

  lemma NothingFirst(m: map<nat, Tx>)
    ensures HighestFirst([], m)
  {}

  lemma CapNothing(m: map<nat, Tx>, n: nat)
    requires |m| <= n
    ensures CapTo(m, n) == m
  {}

  lemma {:induction false} CapNested(m: map<nat, Tx>, n: nat)
    requires 0 < n <= |m|
    ensures CapTo(m, n - 1) == CapTo(CapTo(m, n), n - 1)
    decreases |m|
  {
    if |m| > n {
      var rest := m - {MaxKey(m.Keys)};
      assert rest.Keys == m.Keys - {MaxKey(m.Keys)};
      CapNested(rest, n);
    }
  }

  /** Lowering the cap by one drops the next highest nonce. */
  lemma CapOneMore(m: map<nat, Tx>, n: nat)
    requires 0 < n <= |m|
    ensures var x := SortedKeys(m.Keys)[n - 1];
            && x in CapTo(m, n) && CapTo(m, n)[x] == Sorted(m)[n - 1]
            && CapTo(m, n) - {x} == CapTo(m, n - 1)
  {
    var c := CapTo(m, n);
    CapNested(m, n);
    CapIndex(m, n);
    LastIsHighest(c.Keys);
    assert SortedKeys(m.Keys)[n - 1] == SortedKeys(m.Keys)[..n][n - 1] == MaxKey(c.Keys);
    var rest := c - {MaxKey(c.Keys)};
    assert rest.Keys == c.Keys - {MaxKey(c.Keys)};
    CapNothing(rest, n - 1);
  }

  lemma {:induction false} CapIndex(m: map<nat, Tx>, n: nat)
    requires n <= |m|
    ensures SortedKeys(CapTo(m, n).Keys) == SortedKeys(m.Keys)[..n]
    decreases |m|
  {
    if |m| > n {
      var rest := m - {MaxKey(m.Keys)};
      assert rest.Keys == m.Keys - {MaxKey(m.Keys)};
      assert CapTo(m, n) == CapTo(rest, n);
      hide CapTo, SortedKeys;
      CapIndex(rest, n);
      LastIsHighest(m.Keys);
    }
  }

  // ---------- the ready run ----------

  lemma NothingReady(m: map<nat, Tx>, start: nat)
    requires m == map[] || MinKey(m.Keys) > start
    ensures ReadyRun(m, start) == map[] && m - ReadyRun(m, start).Keys == m
  {}

  lemma RunStarts(m: map<nat, Tx>, index: seq<nat>)
    requires Heap.IsHeap(index, BY_NONCE) && Indexes(index, m.Keys) && |index| > 0
    ensures m != map[] && index[0] == MinKey(m.Keys)
    ensures From(m, index[0]) == m && Sorted(Below(m, index[0])) == []
  {
    hide Indexes, Heap.IsHeap;
    IndexRoot(index, m.Keys);
    assert Below(m, index[0]) == map[];
  }

  /** The root continues the run at `n`: popping it extends the run by one. */
  lemma RunGoesOn(m: map<nat, Tx>, n: nat, index: seq<nat>)
    requires Heap.IsHeap(index, BY_NONCE) && Indexes(index, From(m, n).Keys)
    requires |index| > 0 && index[0] == n
    ensures n in m && n in From(m, n) && From(m, n)[n] == m[n]
    ensures From(m, n) - {n} == From(m, n + 1)
    ensures Sorted(Below(m, n + 1)) == Sorted(Below(m, n)) + [m[n]]
    ensures RunEnd(m, n) == RunEnd(m, n + 1)
  {
    hide Sorted, Indexes, Heap.IsHeap, From, Below;
    IndexRoot(index, From(m, n).Keys);
    PassLowest(m, n, n);
  }

  /** The root does not continue the run at `n`: `n` is missing. */
  lemma RunStops(m: map<nat, Tx>, n: nat, index: seq<nat>)
    requires Heap.IsHeap(index, BY_NONCE) && Indexes(index, From(m, n).Keys)
    requires |index| == 0 || index[0] != n
    ensures RunEnd(m, n) == n
  {
    hide Indexes, Heap.IsHeap;
    IndexRoot(index, From(m, n).Keys);
    assert n in m ==> n in From(m, n).Keys;
  }

  lemma ReadyTaken(m: map<nat, Tx>, start: nat, end: nat)
    requires m != map[] && MinKey(m.Keys) <= start && end == RunEnd(m, MinKey(m.Keys))
    ensures ReadyRun(m, start) == Below(m, end)
    ensures m - ReadyRun(m, start).Keys == From(m, end)
  {}

  /** Ready hands out a gapless run of nonces from the lowest one, and the nonce after the run is
      missing; nothing is handed out exactly when the lowest nonce is above `start`. */
  lemma ReadyRunIsMaximal(m: map<nat, Tx>, start: nat)
    ensures ReadyRun(m, start) == map[] <==> m == map[] || MinKey(m.Keys) > start
    ensures m != map[] && MinKey(m.Keys) <= start ==>
              var low, end := MinKey(m.Keys), RunEnd(m, MinKey(m.Keys));
              && low < end && end !in m
              && (forall n :: n in ReadyRun(m, start) <==> low <= n < end)
              && (forall n :: low <= n < end ==> n in m && ReadyRun(m, start)[n] == m[n])
  {
    if m != map[] && MinKey(m.Keys) <= start {
      RunEndIsFirstGap(m, MinKey(m.Keys));
      assert MinKey(m.Keys) in ReadyRun(m, start);
    }
  }

  lemma EmptySorted()
    ensures Sorted(map[]) == []
  {}
}
