/** core/tx_list.go, txPricedList: a price heap over the pool's transactions that is cleaned lazily.
    The pool's lookup table is passed in as `all`. */
module Priced {
  import opened Basics
  import opened Transactions
  import Heap

  /** The order of priceHeap as one number: cheaper first, then higher nonce first. */
  function PriceKey(tx: Tx): int {
    tx.gasPrice * TWO64 - tx.nonce
  }

  const BY_PRICE: Tx -> int := (tx: Tx) => PriceKey(tx)

  predicate PriceLess(a: Tx, b: Tx) {
    if a.gasPrice != b.gasPrice then a.gasPrice < b.gasPrice else a.nonce > b.nonce
  }

  lemma PriceKeyOrder(a: Tx, b: Tx)
    ensures PriceLess(a, b) <==> PriceKey(a) < PriceKey(b)
    ensures PriceKey(a) <= PriceKey(b) ==> a.gasPrice <= b.gasPrice
  {}

  predicate IsLocal(tx: Tx, locals: set<Address>) {
    tx.signed && tx.sender in locals
  }

  /** Every pooled transaction has an entry in the heap, or is among those set `aside` to be
      dropped; `stales` counts at least the surplus entries. */
  ghost predicate Tracks(entries: multiset<Tx>, stales: int, all: set<Tx>, aside: multiset<Tx>) {
    && (forall tx :: tx in all ==> tx in entries || tx in aside)
    && stales >= |entries| + |aside| - |all|
  }

  /** The number of heap entries that are no longer pooled. */
  ghost function Dead(items: seq<Tx>, all: set<Tx>): nat {
    if items == [] then 0
    else Dead(items[1..], all) + if items[0] in all then 0 else 1
  }

  /** Pooled transactions with an entry are at most as many as live entries. */
  lemma {:induction false} LiveEntries(items: seq<Tx>, all: set<Tx>)
    ensures |set tx | tx in all && tx in items| <= |items| - Dead(items, all)
  {
    var found := set tx | tx in all && tx in items;
    if items == [] {
      assert found == {};
    } else {
      LiveEntries(items[1..], all);
      var rest := set tx | tx in all && tx in items[1..];
      if items[0] in all {
        assert found == rest + {items[0]};
      } else {
        assert found == rest;
      }
    }
  }

  /** `stales` never undercounts the dead entries; in particular it is not negative. */
  lemma StalesCoverDead(items: seq<Tx>, stales: int, all: set<Tx>)
    requires Tracks(multiset(items), stales, all, multiset{})
    ensures 0 <= Dead(items, all) <= stales
  {
    LiveEntries(items, all);
    assert (set tx | tx in all && tx in items) == all;
  }

  /** A transaction that was set aside leaves the pool, if it is still in it. */
  lemma DropAside(entries: multiset<Tx>, stales: int, all: set<Tx>, aside: multiset<Tx>, tx: Tx)
    requires Tracks(entries, stales, all, aside + multiset{tx})
    ensures Tracks(entries, stales, all - {tx}, aside)
  {}

  /** A transaction leaves the pool and its entry stays behind. */
  lemma LeaveBehind(entries: multiset<Tx>, stales: int, all: set<Tx>, tx: Tx)
    requires Tracks(entries, stales, all, multiset{})
    ensures Tracks(entries, stales + 1, all - {tx}, multiset{})
  {}

  /** A popped entry that is no longer pooled is counted off. */
  lemma PopDead(entries: multiset<Tx>, x: Tx, stales: int, all: set<Tx>, aside: multiset<Tx>)
    requires Tracks(entries + multiset{x}, stales, all, aside) && x !in all
    ensures Tracks(entries, stales - 1, all, aside)
  {}

  /** A popped entry that is still pooled is set aside, and may be pushed back later. */
  lemma PopLive(entries: multiset<Tx>, x: Tx, stales: int, all: set<Tx>, aside: multiset<Tx>)
    ensures Tracks(entries + multiset{x}, stales, all, aside) <==> Tracks(entries, stales, all, aside + multiset{x})
  {}

  class PricedList {
    var items: seq<Tx>
    var stales: int

    /** The heap is in order and tracks the pool, with some entries already set aside. */
    ghost predicate Follows(all: set<Tx>, aside: multiset<Tx>)
      reads this
    {
      Heap.IsHeap(items, BY_PRICE) && Tracks(multiset(items), stales, all, aside)
    }

    ghost predicate Valid(all: set<Tx>)
      reads this
    {
      Follows(all, multiset{})
    }

    /** A transaction that was set aside leaves the pool. */
    lemma Dropped(all: set<Tx>, aside: multiset<Tx>, tx: Tx)
      requires Follows(all, aside + multiset{tx})
      ensures Follows(all - {tx}, aside)
    {
      DropAside(multiset(items), stales, all, aside, tx);
    }

    constructor ()
      ensures Valid({}) && items == [] && stales == 0
    {
      items, stales := [], 0;
    }

    /** The pool adds `tx` to its table and then to the heap. */
    method Put(tx: Tx, ghost all: set<Tx>)
      requires Valid(all) && tx !in all
      modifies this
      ensures Valid(all + {tx}) && stales == old(stales)
      ensures multiset(items) == multiset(old(items)) + multiset{tx}
    {
      hide Heap.IsHeap;
      items := Heap.Push(items, BY_PRICE, tx);
    }

    /** The pool has dropped `tx`; `all` is what is left. At most a quarter of the heap is dead now. */
    method Removed(all: set<Tx>, ghost tx: Tx)
      requires Valid(all + {tx}) && tx !in all
      modifies this
      ensures Valid(all) && stales <= |items| / 4
      ensures Dead(items, all) <= |items| / 4
      ensures old(stales) < |old(items)| / 4 ==> items == old(items) && stales == old(stales) + 1
    {
      hide Heap.IsHeap, Dead;
      LeaveBehind(multiset(items), stales, all + {tx}, tx);
      assert all + {tx} - {tx} == all;
      stales := stales + 1;
      if stales > |items| / 4 {
        Reheap(all);
      }
      StalesCoverDead(items, stales, all);
    }

    method Reheap(all: set<Tx>)
      modifies this
      ensures Valid(all) && stales == 0
    {
      hide Heap.IsHeap;
      stales := 0;
      var entries: seq<Tx>, todo := [], all;
      while todo != {}
        invariant todo <= all && |entries| == |all| - |todo|
        invariant forall tx :: tx in all ==> tx in entries || tx in todo
        decreases todo
      {
        var tx :| tx in todo;
        entries, todo := entries + [tx], todo - {tx};
      }
      items := Heap.Init(entries, BY_PRICE);
      assert |multiset(items)| == |multiset(entries)|;
      assert forall tx :: tx in entries ==> tx in multiset(items);
    }

    /** Discards dead entries at the root and reports whether `tx` is no dearer than every pooled
        transaction: a full scan of `all`. */
    method Underpriced(tx: Tx, locals: set<Address>, all: set<Tx>) returns (under: bool)
      requires Valid(all)
      modifies this
      ensures Valid(all)
      ensures under <==> !IsLocal(tx, locals) && all != {} && forall t :: t in all ==> tx.gasPrice <= t.gasPrice
      ensures multiset(items) <= multiset(old(items))
    {
      hide Heap.IsHeap;
      if IsLocal(tx, locals) {
        return false;
      }
      while |items| > 0 && items[0] !in all
        invariant Valid(all) && multiset(items) <= multiset(old(items))
        decreases |items|
      {
        var head := PopEntry(all, multiset{});
      }
      assert forall t :: t in all ==> t in multiset(items);
      if |items| == 0 {
        return false;
      }
      CheapestFirst(items);
      under := items[0].gasPrice >= tx.gasPrice;
    }

    /** heap.Pop, counting off a dead entry and setting a live one aside. */
    method PopEntry(all: set<Tx>, ghost aside: multiset<Tx>) returns (tx: Tx)
      requires Heap.IsHeap(items, BY_PRICE) && Tracks(multiset(items), stales, all, aside) && |items| > 0
      modifies this
      ensures Heap.IsHeap(items, BY_PRICE) && |items| == old(|items|) - 1 && tx == old(items)[0]
      ensures Tracks(multiset(items), stales, all, if tx in all then aside + multiset{tx} else aside)
      ensures forall t :: t in items ==> t in old(items) && PriceKey(tx) <= PriceKey(t)
      ensures multiset(old(items)) == multiset(items) + multiset{tx}
    {
      hide Heap.IsHeap, Tracks;
      ghost var h := items;
      items, tx := Heap.Pop(items, BY_PRICE);
      assert |multiset(h)| == |multiset(items)| + 1;
      if tx !in all {
        PopDead(multiset(items), tx, stales, all, aside);
        stales := stales - 1;
      } else {
        PopLive(multiset(items), tx, stales, all, aside);
      }
      forall t | t in items ensures t in h && PriceKey(tx) <= PriceKey(t) {
        assert t in multiset(items) && t in multiset(h);
        assert BY_PRICE(t) >= BY_PRICE(tx);
      }
    }

    /** Pushes the saved transactions back. */
    method PushAll(save: seq<Tx>, ghost all: set<Tx>, ghost aside: multiset<Tx>)
      requires Heap.IsHeap(items, BY_PRICE) && Tracks(multiset(items), stales, all, aside + multiset(save))
      modifies this
      ensures Heap.IsHeap(items, BY_PRICE) && Tracks(multiset(items), stales, all, aside)
      ensures multiset(items) == multiset(old(items)) + multiset(save)
    {
      hide Heap.IsHeap, Tracks;
      assert save[0..] == save;
      for i := 0 to |save|
        invariant Heap.IsHeap(items, BY_PRICE) && Tracks(multiset(items), stales, all, aside + multiset(save[i..]))
        invariant multiset(items) == multiset(old(items)) + multiset(save[..i])
      {
        assert save[i..] == [save[i]] + save[i + 1..];
        assert save[..i + 1] == save[..i] + [save[i]];
        assert aside + multiset(save[i..]) == aside + multiset(save[i + 1..]) + multiset{save[i]};
        PopLive(multiset(items), save[i], stales, all, aside + multiset(save[i + 1..]));
        items := Heap.Push(items, BY_PRICE, save[i]);
      }
      assert aside + multiset(save[|save|..]) == aside;
      assert save[..|save|] == save;
    }

    /** Takes everything cheaper than `threshold` out of the heap, local transactions excepted. The
        result is still pooled: the caller drops it. */
    method Cap(threshold: nat, locals: set<Address>, all: set<Tx>) returns (drop: seq<Tx>)
      requires Valid(all)
      modifies this
      ensures Follows(all, multiset(drop))
      ensures forall tx :: tx in drop <==> tx in all && !IsLocal(tx, locals) && tx.gasPrice < threshold
    {
      hide Heap.IsHeap, Tracks;
      drop := [];
      var save: seq<Tx>, done := [], false;
      assert multiset{} == multiset(drop) + multiset(save);
      while !done && |items| > 0
        invariant Heap.IsHeap(items, BY_PRICE)
        invariant Tracks(multiset(items), stales, all, multiset(drop) + multiset(save))
        invariant forall tx :: tx in drop ==> tx in all && !IsLocal(tx, locals) && tx.gasPrice < threshold
        invariant forall tx :: tx in save ==> IsLocal(tx, locals) || tx.gasPrice >= threshold
        invariant done ==> forall tx :: tx in items ==> tx.gasPrice >= threshold
        decreases |items|
      {
        ghost var aside := multiset(drop) + multiset(save);
        var tx := PopEntry(all, aside);
        if tx in all {
          AsideOneMore(drop, save, tx);
          if tx.gasPrice >= threshold {
            DearerThan(tx, items);
            save, done := save + [tx], true;
          } else if IsLocal(tx, locals) {
            save := save + [tx];
          } else {
            drop := drop + [tx];
          }
        }
      }
      NoneLeft(multiset(items), stales, all, drop, save);
      PushAll(save, all, multiset(drop));
    }

    /** Takes the `count` cheapest non-local transactions out of the heap, or all of them. An entry
        counts once per occurrence, and the result is still pooled: the caller drops it. */
    method Discard(count: int, locals: set<Address>, all: set<Tx>) returns (drop: seq<Tx>)
      requires Valid(all)
      modifies this
      ensures Follows(all, multiset(drop))
      ensures forall tx :: tx in drop ==> tx in all && !IsLocal(tx, locals)
      ensures forall tx, t :: tx in drop && t in all && t !in drop && !IsLocal(t, locals) ==>
                PriceKey(tx) <= PriceKey(t)
      ensures if |drop| < count then forall tx :: tx in all && !IsLocal(tx, locals) ==> tx in drop
              else |drop| == if count < 0 then 0 else count
      ensures multiset(drop) <= multiset(old(items))
      ensures Divided(multiset(old(items)), multiset(items), multiset(drop), all)
      ensures forall tx, t :: tx in drop && t in items && !IsLocal(t, locals) ==> PriceKey(tx) <= PriceKey(t)
    {
      hide Heap.IsHeap, Tracks, Divided;
      NotDivided(multiset(items), all);
      drop := [];
      var save: seq<Tx>, left := [], count;
      assert multiset{} == multiset(drop) + multiset(save);
      while |items| > 0 && left > 0
        invariant Heap.IsHeap(items, BY_PRICE)
        invariant Tracks(multiset(items), stales, all, multiset(drop) + multiset(save))
        invariant count > 0 ==> left == count - |drop| >= 0
        invariant count <= 0 ==> left == count && drop == []
        invariant forall tx :: tx in drop ==> tx in all && !IsLocal(tx, locals)
        invariant forall tx :: tx in save ==> IsLocal(tx, locals)
        invariant forall tx, t :: tx in drop && t in items ==> PriceKey(tx) <= PriceKey(t)
        invariant multiset(items) + multiset(drop) <= multiset(old(items))
        invariant Divided(multiset(old(items)), multiset(items), multiset(drop) + multiset(save), all)
        decreases |items|
      {
        ghost var aside := multiset(drop) + multiset(save);
        ghost var before := items;
        var tx := PopEntry(all, aside);
        OneEntryFewer(multiset(before), multiset(items), drop, tx, multiset(old(items)));
        DividedFurther(multiset(old(items)), multiset(before), multiset(items), aside, all, tx);
        if tx in all {
          AsideOneMore(drop, save, tx);
          if IsLocal(tx, locals) {
            save := save + [tx];
          } else {
            drop, left := drop + [tx], left - 1;
          }
        }
      }
      NoneLeft(multiset(items), stales, all, drop, save);
      ghost var rest := items;
      PushAll(save, all, multiset(drop));
      PushedBack(rest, items, save, drop, locals);
      DividedBack(multiset(old(items)), multiset(rest), multiset(items), multiset(save), multiset(drop), all);
    }
  }

  /** Every entry of a pooled transaction is still in the heap or was handed out. */
  ghost predicate Divided(start: multiset<Tx>, entries: multiset<Tx>, out: multiset<Tx>, all: set<Tx>) {
    forall tx :: tx in all ==> entries[tx] + out[tx] == start[tx]
  }

  lemma NotDivided(entries: multiset<Tx>, all: set<Tx>)
    ensures Divided(entries, entries, multiset{} + multiset{}, all)
  {}

  lemma DividedFurther(start: multiset<Tx>, before: multiset<Tx>, after: multiset<Tx>, out: multiset<Tx>, all: set<Tx>,
                       tx: Tx)
    requires Divided(start, before, out, all) && before == after + multiset{tx}
    ensures if tx in all then Divided(start, after, out + multiset{tx}, all) else Divided(start, after, out, all)
  {}

  lemma DividedBack(start: multiset<Tx>, rest: multiset<Tx>, entries: multiset<Tx>, save: multiset<Tx>,
                    drop: multiset<Tx>, all: set<Tx>)
    requires Divided(start, rest, drop + save, all) && entries == rest + save
    ensures Divided(start, entries, drop, all)
  {}

  lemma PushedBack(rest: seq<Tx>, items: seq<Tx>, save: seq<Tx>, drop: seq<Tx>, locals: set<Address>)
    requires multiset(items) == multiset(rest) + multiset(save) && forall tx :: tx in save ==> IsLocal(tx, locals)
    requires forall tx, t :: tx in drop && t in rest ==> PriceKey(tx) <= PriceKey(t)
    ensures forall tx, t :: tx in drop && t in items && !IsLocal(t, locals) ==> PriceKey(tx) <= PriceKey(t)
  {
    forall t | t in items && !IsLocal(t, locals)
      ensures t in rest
    {
      assert t in multiset(items);
      assert t !in multiset(save);
    }
  }

  // ---------- two entries of one transaction ----------

  ghost predicate NoRepeats(txs: seq<Tx>) {
    forall i, j :: 0 <= i < j < |txs| ==> txs[i] != txs[j]
  }

  function Members(txs: seq<Tx>): set<Tx> {
    set tx | tx in txs
  }

  lemma MembersMore(txs: seq<Tx>, i: nat)
    requires i < |txs| && NoRepeats(txs)
    ensures Members(txs[..i + 1]) == Members(txs[..i]) + {txs[i]} && txs[i] !in Members(txs[..i])
    ensures multiset(txs[..i + 1]) == multiset(txs[..i]) + multiset{txs[i]}
  {
    assert txs[..i + 1] == txs[..i] + [txs[i]];
  }

  /** A list that the given transactions were put into one after the other. */
  method Filled(txs: seq<Tx>) returns (l: PricedList)
    requires NoRepeats(txs)
    ensures fresh(l) && l.Valid(Members(txs)) && multiset(l.items) == multiset(txs) && l.stales == 0
  {
    hide Heap.IsHeap, Tracks, NoRepeats;
    l := new PricedList();
    assert Members(txs[..0]) == {};
    for i := 0 to |txs|
      invariant fresh(l) && l.Valid(Members(txs[..i])) && multiset(l.items) == multiset(txs[..i]) && l.stales == 0
    {
      MembersMore(txs, i);
      l.Put(txs[i], Members(txs[..i]));
    }
    assert txs[..|txs|] == txs;
  }

  /** A transaction that is dropped and added again, among three others or more, has two entries in the heap. If it is
      the cheapest one, Discard hands it out twice: of the two transactions asked for, it finds one. */
  method HandedOutTwice(a: Tx, rest: seq<Tx>) returns (drop: seq<Tx>)
    requires NoRepeats(rest) && |rest| >= 3 && forall t :: t in rest ==> PriceKey(a) < PriceKey(t)
    ensures drop == [a, a]
  {
    hide Heap.IsHeap, Tracks, Dead, PriceKey, PricedList.Follows, NoRepeats;
    WithCheapest(a, rest);
    var l := Filled(rest + [a]);
    assert |multiset(l.items)| == |rest| + 1;
    l.Removed(Members(rest), a);
    l.Put(a, Members(rest));
    var items := l.items;
    drop := l.Discard(2, {}, Members(rest) + {a});
    assert |drop| == 2 by {
      TwoAreLeft(rest, drop);
    }
    BothEntries(multiset(items), l.items, drop, a, Members(rest) + {a});
  }

  lemma TwoAreLeft(rest: seq<Tx>, drop: seq<Tx>)
    requires NoRepeats(rest) && |rest| >= 2
    ensures |drop| < 2 ==> exists tx :: tx in Members(rest) && tx !in drop
  {
    assert rest[0] in Members(rest) && rest[1] in Members(rest) && rest[0] != rest[1];
  }

  lemma WithCheapest(a: Tx, rest: seq<Tx>)
    requires NoRepeats(rest) && forall t :: t in rest ==> PriceKey(a) < PriceKey(t)
    ensures NoRepeats(rest + [a]) && Members(rest + [a]) == Members(rest) + {a} && a !in Members(rest)
    ensures multiset(rest + [a])[a] == 1
  {
    assert a !in rest;
    assert a !in multiset(rest);
  }

  /** The two entries of the cheapest transaction go first. */
  lemma BothEntries(start: multiset<Tx>, items: seq<Tx>, drop: seq<Tx>, a: Tx, all: set<Tx>)
    requires Divided(start, multiset(items), multiset(drop), all) && a in all && start[a] == 2 && |drop| == 2
    requires forall tx :: tx in drop && tx != a ==> PriceKey(tx) > PriceKey(a)
    requires forall tx, t :: tx in drop && t in items ==> PriceKey(tx) <= PriceKey(t)
    ensures drop == [a, a]
  {
    assert drop == [drop[0], drop[1]] && drop[0] in drop && drop[1] in drop;
    assert multiset(items)[a] + multiset(drop)[a] == 2;
    assert multiset(items)[a] > 0 <==> a in items;
  }

  lemma OneEntryFewer(before: multiset<Tx>, after: multiset<Tx>, drop: seq<Tx>, tx: Tx, start: multiset<Tx>)
    requires before == after + multiset{tx} && before + multiset(drop) <= start
    ensures after + multiset(drop) <= start && after + multiset(drop + [tx]) <= start
  {
    assert after + multiset(drop + [tx]) == before + multiset(drop);
  }

  lemma AsideOneMore(drop: seq<Tx>, save: seq<Tx>, tx: Tx)
    ensures multiset(drop) + multiset(save) + multiset{tx} == multiset(drop + [tx]) + multiset(save)
    ensures multiset(drop) + multiset(save) + multiset{tx} == multiset(drop) + multiset(save + [tx])
  {}

  lemma DearerThan(tx: Tx, items: seq<Tx>)
    requires forall t :: t in items ==> PriceKey(tx) <= PriceKey(t)
    ensures forall t :: t in items ==> tx.gasPrice <= t.gasPrice
  {
    forall t | t in items ensures tx.gasPrice <= t.gasPrice {
      PriceKeyOrder(tx, t);
    }
  }

  /** A pooled transaction is in the heap, dropped or saved. */
  lemma NoneLeft(entries: multiset<Tx>, stales: int, all: set<Tx>, drop: seq<Tx>, save: seq<Tx>)
    requires Tracks(entries, stales, all, multiset(drop) + multiset(save))
    ensures forall tx :: tx in all ==> tx in entries || tx in drop || tx in save
  {}

  lemma CheapestFirst(items: seq<Tx>)
    requires |items| > 0 && Heap.IsHeap(items, BY_PRICE)
    ensures forall t :: t in items ==> items[0].gasPrice <= t.gasPrice
  {
    forall t | t in items ensures items[0].gasPrice <= t.gasPrice {
      var i :| 0 <= i < |items| && items[i] == t;
      Heap.RootIsLeast(items, BY_PRICE, i);
      PriceKeyOrder(items[0], t);
    }
  }
}
