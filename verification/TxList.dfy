/** core/tx_list.go, txList: one account's transactions, with cached upper bounds on cost and gas.
    `ListView` is the value a list stands for; the functions on it say what each operation means, and
    class TxList is proved to compute them. */
module TxLists {
  import opened Basics
  import opened Transactions
  import opened SortedMap

  datatype ListView = ListView(strict: bool, items: map<nat, Tx>, costcap: nat, gascap: nat)

  function EmptyList(strict: bool): ListView {
    ListView(strict, map[], 0, 0)
  }

  /** The caps bound every listed transaction. */
  ghost predicate Bounded(m: map<nat, Tx>, costcap: nat, gascap: nat) {
    forall n :: n in m ==> m[n].cost <= costcap && m[n].gas <= gascap
  }

  ghost predicate WellFormed(l: ListView) {
    Keyed(l.items) && Bounded(l.items, l.costcap, l.gascap)
  }

  // ---------- Add ----------

  /** The price a replacement has to reach: the bump in percent is added in signed 64-bit arithmetic. */
  function Threshold(price: nat, bump: nat): int {
    price * AsInt64((100 + bump) % TWO64) / 100
  }

  /** That is the bumped price for every price if and only if the sum does not wrap. */
  lemma ThresholdExactly(bump: Uint64)
    ensures (forall price: nat :: Threshold(price, bump) == price * (100 + bump) / 100) <==> bump < TWO63 - 100
  {
    if bump < TWO63 - 100 {
      forall price: nat
        ensures Threshold(price, bump) == price * (100 + bump) / 100
      {
        assert (100 + bump) % TWO64 == 100 + bump;
      }
    } else {
      Wrapped(bump);
    }
  }

  /** From there on the price 100 shows it. */
  lemma Wrapped(bump: Uint64)
    requires bump >= TWO63 - 100
    ensures Threshold(100, bump) == AsInt64((100 + bump) % TWO64) < 100 + bump == 100 * (100 + bump) / 100
  {}

  predicate Outbids(prev: Tx, tx: Tx, bump: nat) {
    prev.gasPrice < tx.gasPrice && Threshold(prev.gasPrice, bump) <= tx.gasPrice
  }

  /** As long as the sum does not wrap, a transaction is outbid exactly by a higher price that reaches its own price
      and the bump, rounded down. */
  lemma OutbidsExactly(prev: Tx, tx: Tx, bump: Uint64)
    requires bump < TWO63 - 100
    ensures Outbids(prev, tx, bump) <==>
              prev.gasPrice < tx.gasPrice && prev.gasPrice * (100 + bump) < 100 * (tx.gasPrice + 1)
  {
    ThresholdExactly(bump);
    assert Threshold(prev.gasPrice, bump) == prev.gasPrice * (100 + bump) / 100;
  }

  predicate Accepts(l: ListView, tx: Tx, bump: nat) {
    tx.nonce in l.items ==> Outbids(l.items[tx.nonce], tx, bump)
  }

  function Insert(l: ListView, tx: Tx): (r: ListView) {
    l.(items := l.items[tx.nonce := tx], costcap := Max(l.costcap, tx.cost), gascap := Max(l.gascap, tx.gas))
  }

  function Get(l: ListView, nonce: nat): Option<Tx> {
    if nonce in l.items then Some(l.items[nonce]) else None
  }

  // ---------- Filter ----------

  function Over(costLimit: nat, gasLimit: nat): Tx -> bool {
    (tx: Tx) => tx.cost > costLimit || tx.gas > gasLimit
  }

  function Beyond(nonce: nat): Tx -> bool {
    (tx: Tx) => tx.nonce > nonce
  }

  /** The transactions above either limit. */
  function Unpayable(m: map<nat, Tx>, costLimit: nat, gasLimit: nat): map<nat, Tx> {
    Matching(m, Over(costLimit, gasLimit))
  }

  /** What a full filter keeps: in a strict list, only what lies below the first unpayable nonce. */
  function Payable(m: map<nat, Tx>, strict: bool, costLimit: nat, gasLimit: nat): map<nat, Tx> {
    var gone := Unpayable(m, costLimit, gasLimit);
    if strict && gone != map[] then Below(m, MinKey(gone.Keys)) else m - gone.Keys
  }

  /** What a strict list loses besides: the payable transactions above the first unpayable nonce. */
  function Invalidated(m: map<nat, Tx>, strict: bool, costLimit: nat, gasLimit: nat): map<nat, Tx> {
    m - Unpayable(m, costLimit, gasLimit).Keys - Payable(m, strict, costLimit, gasLimit).Keys
  }

  /** The list after Filter. The caps are lowered to the limits unless the short circuit applies. */
  function Filtered(l: ListView, costLimit: nat, gasLimit: nat): ListView {
    if l.costcap <= costLimit && l.gascap <= gasLimit then l
    else ListView(l.strict, Payable(l.items, l.strict, costLimit, gasLimit), costLimit, gasLimit)
  }

  /** Filter's short circuit gives the same contents as a full filter, and the caps stay bounds. */
  lemma ShortCircuitIsSound(l: ListView, costLimit: nat, gasLimit: nat)
    requires WellFormed(l)
    ensures Filtered(l, costLimit, gasLimit).items == Payable(l.items, l.strict, costLimit, gasLimit)
    ensures l.costcap <= costLimit && l.gascap <= gasLimit ==>
              Unpayable(l.items, costLimit, gasLimit) == map[] &&
                Invalidated(l.items, l.strict, costLimit, gasLimit) == map[]
    ensures WellFormed(Filtered(l, costLimit, gasLimit))
  {
    var gone := Unpayable(l.items, costLimit, gasLimit);
    var kept := Payable(l.items, l.strict, costLimit, gasLimit);
    if l.costcap <= costLimit && l.gascap <= gasLimit {
      assert gone == map[];
      assert kept == l.items;
    } else {
      FilterPartitions(l.items, l.strict, costLimit, gasLimit);
      forall n | n in kept ensures kept[n].cost <= costLimit && kept[n].gas <= gasLimit {
        assert n !in gone;
      }
    }
  }

  /** Removed, invalidated and kept transactions partition the old list; none of the kept ones is
      above a limit, and in a strict list every lost nonce is above every kept one. */
  lemma FilterPartitions(m: map<nat, Tx>, strict: bool, costLimit: nat, gasLimit: nat)
    requires Keyed(m)
    ensures var gone := Unpayable(m, costLimit, gasLimit);
            var invalid := Invalidated(m, strict, costLimit, gasLimit);
            var kept := Payable(m, strict, costLimit, gasLimit);
            && gone.Keys !! invalid.Keys && gone.Keys !! kept.Keys && invalid.Keys !! kept.Keys
            && gone + invalid + kept == m
            && (!strict ==> invalid == map[])
            && (strict ==> forall n, k :: n in gone.Keys + invalid.Keys && k in kept ==> k < n)
  {
    var gone := Unpayable(m, costLimit, gasLimit);
    var kept := Payable(m, strict, costLimit, gasLimit);
    if strict && gone != map[] {
      var low := MinKey(gone.Keys);
      assert forall k :: k in kept ==> k in m && k < low;
      assert forall n :: n in m && n !in kept ==> n >= low;
    }
  }

  // ---------- Remove, Cap, Ready ----------

  function RemoveNonce(l: ListView, nonce: nat): ListView {
    l.(items := if l.strict && nonce in l.items then Below(l.items, nonce) else l.items - {nonce})
  }

  /** The transactions a strict list invalidates when `nonce` is removed. */
  function Above(l: ListView, nonce: nat): map<nat, Tx> {
    if l.strict && nonce in l.items then From(l.items, nonce + 1) else map[]
  }

  ghost predicate Interval(m: map<nat, Tx>, lo: nat, hi: nat) {
    lo <= hi && forall n :: n in m <==> lo <= n < hi
  }

  /** A strict list whose nonces are gapless stays a gapless prefix under Filter ... */
  lemma FilterStaysContiguous(l: ListView, lo: nat, hi: nat, costLimit: nat, gasLimit: nat) returns (end: nat)
    requires WellFormed(l) && l.strict && Interval(l.items, lo, hi)
    ensures end <= hi && Interval(Filtered(l, costLimit, gasLimit).items, lo, end)
  {
    var gone := Unpayable(l.items, costLimit, gasLimit);
    ShortCircuitIsSound(l, costLimit, gasLimit);
    if gone == map[] {
      end := hi;
    } else {
      end := MinKey(gone.Keys);
      assert end in l.items;
    }
  }

  /** ... and Remove ... */
  lemma RemoveStaysContiguous(l: ListView, lo: nat, hi: nat, nonce: nat)
    requires l.strict && Interval(l.items, lo, hi)
    ensures Interval(RemoveNonce(l, nonce).items, lo, if lo <= nonce < hi then nonce else hi)
  {
    assert nonce !in l.items ==> l.items - {nonce} == l.items;
  }

  /** ... and Cap, which cuts off its end. */
  lemma {:induction false} CapInterval(m: map<nat, Tx>, lo: nat, hi: nat, size: nat)
    requires Interval(m, lo, hi)
    ensures |m| == hi - lo
    ensures Interval(CapTo(m, size), lo, if hi - lo <= size then hi else lo + size)
    decreases hi
  {
    if lo == hi {
      assert m == map[];
    } else {
      assert hi - 1 in m;
      var rest := m - {hi - 1};
      assert rest.Keys == m.Keys - {hi - 1};
      CapInterval(rest, lo, hi - 1, size);
      assert MaxKey(m.Keys) == hi - 1;
    }
  }

  /** The sorted contents of a gapless list. */
  lemma {:induction false} SortedInterval(s: set<nat>, lo: nat, hi: nat)
    requires lo <= hi && forall n :: n in s <==> lo <= n < hi
    ensures |s| == hi - lo && forall i :: 0 <= i < |s| ==> SortedKeys(s)[i] == lo + i
    decreases hi - lo
  {
    if lo == hi {
      assert s == {};
    } else {
      assert lo in s && MinKey(s) == lo;
      SortedInterval(s - {lo}, lo + 1, hi);
    }
  }

  /** Ready hands out consecutive nonces, starting with the lowest. */
  lemma ReadyIsConsecutive(m: map<nat, Tx>, start: nat)
    requires Keyed(m)
    ensures var run := ReadyRun(m, start);
            forall i :: 0 <= i < |run| ==> m != map[] && Sorted(run)[i].nonce == MinKey(m.Keys) + i
    ensures forall n :: n in m && n !in ReadyRun(m, start) ==>
                n > if ReadyRun(m, start) == map[] then start else MinKey(m.Keys) + |ReadyRun(m, start)|
  {
    ReadyRunIsMaximal(m, start);
    var run := ReadyRun(m, start);
    if run != map[] {
      var low, end := MinKey(m.Keys), RunEnd(m, MinKey(m.Keys));
      SortedInterval(run.Keys, low, end);
      forall n | n in m && n !in run ensures n > end {
        assert n >= low && n != end;
      }
    }
  }

  class TxList {
    const strict: bool
    const txs: TxSortedMap
    var costcap: nat
    var gascap: nat

    ghost predicate Valid()
      reads this, txs
    {
      txs.Valid() && Bounded(txs.items, costcap, gascap)
    }

    ghost function View(): ListView
      reads this, txs
    {
      ListView(strict, txs.items, costcap, gascap)
    }

    constructor (strict: bool)
      ensures Valid() && View() == EmptyList(strict) && fresh(txs)
    {
      this.strict := strict;
      var m := new TxSortedMap();
      txs := m;
      costcap, gascap := 0, 0;
    }

    method Add(tx: Tx, priceBump: nat) returns (inserted: bool, replaced: Option<Tx>)
      requires Valid()
      modifies this, txs
      ensures Valid()
      ensures inserted == Accepts(old(View()), tx, priceBump)
      ensures View() == if inserted then Insert(old(View()), tx) else old(View())
      ensures replaced == if inserted then Get(old(View()), tx.nonce) else None
    {
      hide Threshold, TxSortedMap.Valid;
      var prev := txs.Get(tx.nonce);
      if prev.Some? {
        var threshold := Threshold(prev.value.gasPrice, priceBump);
        if prev.value.gasPrice >= tx.gasPrice || threshold > tx.gasPrice {
          return false, None;
        }
      }
      txs.Put(tx);
      if costcap < tx.cost {
        costcap := tx.cost;
      }
      if gascap < tx.gas {
        gascap := tx.gas;
      }
      return true, prev;
    }

    method Forward(threshold: nat) returns (removed: seq<Tx>)
      requires Valid()
      modifies this, txs
      ensures Valid()
      ensures View() == old(View()).(items := From(old(View()).items, threshold))
      ensures removed == Sorted(Below(old(View()).items, threshold))
    {
      hide TxSortedMap.Valid, Sorted;
      removed := txs.Forward(threshold);
    }

    method Filter(costLimit: nat, gasLimit: nat) returns (removed: seq<Tx>, invalids: seq<Tx>)
      requires Valid()
      modifies this, txs
      ensures Valid()
      ensures View() == Filtered(old(View()), costLimit, gasLimit)
      ensures Enumerates(removed, Unpayable(old(View()).items, costLimit, gasLimit))
      ensures Enumerates(invalids, Invalidated(old(View()).items, strict, costLimit, gasLimit))
    {
      hide Enumerates, Invalidated, Payable, Matching, Without;
      ghost var m := txs.items;
      ShortCircuitIsSound(View(), costLimit, gasLimit);
      NothingEnumerated();
      if costcap <= costLimit && gascap <= gasLimit {
        return [], [];
      }
      costcap, gascap := costLimit, gasLimit;
      removed := txs.Filter(Over(costLimit, gasLimit));
      invalids := [];
      SetAside(m, strict, costLimit, gasLimit, removed);
      if strict && |removed| > 0 {
        var lowest := Lowest(removed, m, costLimit, gasLimit);
        invalids := txs.Filter(Beyond(lowest));
        SetAsideStrict(m, costLimit, gasLimit, lowest);
      }
    }

    /** The loop of Filter that finds the lowest removed nonce. */
    static method Lowest(removed: seq<Tx>, ghost m: map<nat, Tx>, ghost costLimit: nat, ghost gasLimit: nat)
      returns (lowest: nat)
      requires |removed| > 0 && Keyed(m) && Enumerates(removed, Unpayable(m, costLimit, gasLimit))
      ensures var gone := Unpayable(m, costLimit, gasLimit); gone != map[] && lowest == MinKey(gone.Keys)
    {
      lowest := MAX_UINT64;
      for i := 0 to |removed|
        invariant forall j :: 0 <= j < i ==> lowest <= removed[j].nonce
        invariant if i == 0 then lowest == MAX_UINT64 else exists j :: 0 <= j < i && lowest == removed[j].nonce
      {
        if lowest > removed[i].nonce {
          lowest := removed[i].nonce;
        }
      }
      ghost var gone := Unpayable(m, costLimit, gasLimit);
      ghost var j :| 0 <= j < |removed| && lowest == removed[j].nonce;
      assert removed[j] in removed;
      forall n | n in gone ensures lowest <= n {
        assert gone[n] in removed;
      }
    }

    method Cap(threshold: nat) returns (drops: seq<Tx>)
      requires Valid()
      modifies this, txs
      ensures Valid()
      ensures View() == old(View()).(items := CapTo(old(View()).items, threshold))
      ensures |drops| == |old(View()).items| - |View().items| && HighestFirst(drops, old(View()).items)
    {
      hide TxSortedMap.Valid, Sorted, HighestFirst;
      drops := txs.Cap(threshold);
    }

    method Remove(tx: Tx) returns (found: bool, invalids: seq<Tx>)
      requires Valid()
      modifies this, txs
      ensures Valid() && found == (tx.nonce in old(View()).items)
      ensures View() == RemoveNonce(old(View()), tx.nonce)
      ensures Enumerates(invalids, Above(old(View()), tx.nonce))
    {
      ghost var l := View();
      assert Keyed(l.items);
      hide Enumerates, TxSortedMap.Valid, Keyed, Bounded, RemoveNonce, Above;
      RemoveMeans(l, tx.nonce);
      found := txs.Remove(tx.nonce);
      invalids := [];
      if found && strict {
        invalids := txs.Filter(Beyond(tx.nonce));
      }
    }

    method Ready(start: nat) returns (ready: seq<Tx>)
      requires Valid()
      modifies this, txs
      ensures Valid()
      ensures View() == old(View()).(items := old(View()).items - ReadyRun(old(View()).items, start).Keys)
      ensures ready == Sorted(ReadyRun(old(View()).items, start))
    {
      hide TxSortedMap.Valid, Sorted;
      ready := txs.Ready(start);
    }

    method Flatten() returns (all: seq<Tx>)
      requires Valid()
      modifies txs
      ensures Valid() && View() == old(View()) && all == Sorted(View().items)
    {
      all := txs.Flatten();
    }
  }

  lemma SetAside(m: map<nat, Tx>, strict: bool, costLimit: nat, gasLimit: nat, removed: seq<Tx>)
    requires Keyed(m) && Enumerates(removed, Unpayable(m, costLimit, gasLimit))
    ensures Matching(m, Over(costLimit, gasLimit)) == Unpayable(m, costLimit, gasLimit)
    ensures !strict || |removed| == 0 ==>
              && Without(m, Over(costLimit, gasLimit)) == Payable(m, strict, costLimit, gasLimit)
              && Invalidated(m, strict, costLimit, gasLimit) == map[]
  {
    assert forall n :: n in Unpayable(m, costLimit, gasLimit) ==> m[n] in removed;
  }

  lemma SetAsideStrict(m: map<nat, Tx>, costLimit: nat, gasLimit: nat, lowest: nat)
    requires Keyed(m)
    requires var gone := Unpayable(m, costLimit, gasLimit); gone != map[] && lowest == MinKey(gone.Keys)
    ensures var rest := Without(m, Over(costLimit, gasLimit));
            && Without(rest, Beyond(lowest)) == Payable(m, true, costLimit, gasLimit)
            && Matching(rest, Beyond(lowest)) == Invalidated(m, true, costLimit, gasLimit)
  {
    hide Without, Matching, Invalidated, Payable;
    KeptStrict(m, costLimit, gasLimit, lowest);
    LostStrict(m, costLimit, gasLimit, lowest);
  }

  lemma KeptStrict(m: map<nat, Tx>, costLimit: nat, gasLimit: nat, lowest: nat)
    requires Keyed(m)
    requires var gone := Unpayable(m, costLimit, gasLimit); gone != map[] && lowest == MinKey(gone.Keys)
    ensures Without(Without(m, Over(costLimit, gasLimit)), Beyond(lowest)) == Payable(m, true, costLimit, gasLimit)
  {
    var gone := Unpayable(m, costLimit, gasLimit);
    assert forall n :: n in m && n < lowest ==> n !in gone.Keys;
    assert lowest in gone.Keys;
  }

  lemma LostStrict(m: map<nat, Tx>, costLimit: nat, gasLimit: nat, lowest: nat)
    requires Keyed(m)
    requires var gone := Unpayable(m, costLimit, gasLimit); gone != map[] && lowest == MinKey(gone.Keys)
    ensures Matching(Without(m, Over(costLimit, gasLimit)), Beyond(lowest)) == Invalidated(m, true, costLimit, gasLimit)
  {
    var gone := Unpayable(m, costLimit, gasLimit);
    assert lowest in gone.Keys;
    assert forall n :: n in Payable(m, true, costLimit, gasLimit) <==> n in m && n < lowest;
  }

  lemma RemoveStrict(m: map<nat, Tx>, nonce: nat)
    requires Keyed(m) && nonce in m
    ensures Without(m - {nonce}, Beyond(nonce)) == Below(m, nonce)
    ensures Matching(m - {nonce}, Beyond(nonce)) == From(m, nonce + 1)
  {}

  /** What Remove leaves, in terms of the operations on the map. */
  lemma RemoveMeans(l: ListView, nonce: nat)
    requires WellFormed(l)
    ensures var r := RemoveNonce(l, nonce);
            && Bounded(r.items, l.costcap, l.gascap)
            && if nonce in l.items && l.strict then
                 && r == l.(items := Without(l.items - {nonce}, Beyond(nonce)))
                 && Above(l, nonce) == Matching(l.items - {nonce}, Beyond(nonce))
               else r == l.(items := l.items - {nonce}) && Enumerates([], Above(l, nonce))
  {
    if nonce in l.items && l.strict {
      RemoveStrict(l.items, nonce);
    }
  }
}
