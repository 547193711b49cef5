/** How the pool's two account tables and its lookup table fit together, and what moving a
    transaction between them preserves. */
module PoolLists {
  import opened Transactions
  import opened TxLists

  type Accounts = map<Address, ListView>

  /** `tx` is filed in `m` under its sender and nonce. */
  predicate Held(m: Accounts, tx: Tx) {
    tx.sender in m && tx.nonce in m[tx.sender].items && m[tx.sender].items[tx.nonce] == tx
  }

  /** `m` has nothing under the sender and nonce of `tx`. */
  predicate Free(m: Accounts, tx: Tx) {
    tx.sender in m ==> tx.nonce !in m[tx.sender].items
  }

  predicate SameSlot(s: Tx, t: Tx) {
    s.sender == t.sender && s.nonce == t.nonce
  }

  /** Every list is well formed and holds only its own account's transactions. */
  ghost predicate GoodLists(m: Accounts) {
    forall a :: a in m ==> WellFormed(m[a]) && forall n :: n in m[a].items ==> m[a].items[n].sender == a
  }

  ghost predicate AllStrict(m: Accounts, strict: bool) {
    forall a :: a in m ==> m[a].strict == strict
  }

  ghost predicate Disjoint(p: Accounts, q: Accounts) {
    forall a :: a in p && a in q ==> p[a].items.Keys !! q[a].items.Keys
  }

  /** The lookup table is exactly what the two tables hold, plus the transactions adrift. */
  ghost predicate Filed(p: Accounts, q: Accounts, all: set<Tx>, adrift: set<Tx>) {
    forall tx :: tx in all <==> Held(p, tx) || Held(q, tx) || tx in adrift
  }

  /** Transactions adrift between tables occupy slots of their own. */
  ghost predicate Floating(p: Accounts, q: Accounts, adrift: set<Tx>) {
    && (forall tx :: tx in adrift ==> Free(p, tx) && Free(q, tx))
    && (forall s, t :: s in adrift && t in adrift && SameSlot(s, t) ==> s == t)
  }

  /** The tables agree: `all` is exactly the contents of `p` and `q` and the transactions adrift,
      each transaction in one place only. */
  ghost predicate Agree(p: Accounts, q: Accounts, all: set<Tx>, adrift: set<Tx>) {
    GoodLists(p) && GoodLists(q) && Disjoint(p, q) && Filed(p, q, all, adrift) && Floating(p, q, adrift)
  }

  /** No stored list is empty, except possibly those of the accounts being worked on. */
  ghost predicate NonEmpty(m: Accounts, except: set<Address>) {
    forall a :: a in m && a !in except ==> m[a].items != map[]
  }

  lemma AgreeSwap(p: Accounts, q: Accounts, all: set<Tx>, adrift: set<Tx>)
    requires Agree(p, q, all, adrift)
    ensures Agree(q, p, all, adrift)
  {}

  /** Part of a list is taken out and is now adrift. */
  lemma TakeOut(p: Accounts, q: Accounts, all: set<Tx>, adrift: set<Tx>, a: Address, l: ListView)
    requires Agree(p, q, all, adrift) && a in p && WellFormed(l)
    requires l.items.Keys <= p[a].items.Keys && forall n :: n in l.items ==> l.items[n] == p[a].items[n]
    ensures Agree(p[a := l], q, all, adrift + (p[a].items - l.items.Keys).Values)
  {
    var gone := p[a].items - l.items.Keys;
    var r := p[a := l];
    forall tx ensures Held(p, tx) <==> Held(r, tx) || tx in gone.Values {
      if Held(p, tx) && !Held(r, tx) {
        assert gone[tx.nonce] == tx;
      }
    }
    forall tx | tx in gone.Values ensures Free(r, tx) && Free(q, tx) {
      var n :| n in gone && gone[n] == tx;
    }
    forall s, t | s in adrift + gone.Values && t in adrift + gone.Values && SameSlot(s, t) ensures s == t {
      assert s in gone.Values ==> Held(p, s);
      assert t in gone.Values ==> Held(p, t);
    }
    assert GoodLists(r) && Disjoint(r, q);
  }

  /** A transaction adrift is filed. */
  lemma PutIn(p: Accounts, q: Accounts, all: set<Tx>, adrift: set<Tx>, tx: Tx, l: ListView)
    requires Agree(p, q, all, adrift) && tx in adrift
    requires l == if tx.sender in p then p[tx.sender] else EmptyList(l.strict)
    ensures Agree(p[tx.sender := Insert(l, tx)], q, all, adrift - {tx})
  {
    assert Free(p, tx) && Free(q, tx);
    hide GoodLists, Disjoint, Held, Free, Insert;
    InsertGood(p, tx, l);
    InsertDisjoint(p, q, tx, l);
    InsertHolds(p, tx, l);
  }

  lemma InsertGood(p: Accounts, tx: Tx, l: ListView)
    requires GoodLists(p) && l == if tx.sender in p then p[tx.sender] else EmptyList(l.strict)
    ensures GoodLists(p[tx.sender := Insert(l, tx)])
  {}

  lemma InsertDisjoint(p: Accounts, q: Accounts, tx: Tx, l: ListView)
    requires Disjoint(p, q) && Free(q, tx) && l == if tx.sender in p then p[tx.sender] else EmptyList(l.strict)
    ensures Disjoint(p[tx.sender := Insert(l, tx)], q)
  {}

  /** The other transactions are where they were. */
  lemma InsertHolds(p: Accounts, tx: Tx, l: ListView)
    requires Free(p, tx) && l == if tx.sender in p then p[tx.sender] else EmptyList(l.strict)
    ensures var r := p[tx.sender := Insert(l, tx)];
            && (forall t :: Held(r, t) <==> Held(p, t) || t == tx)
            && (forall t :: Free(p, t) && !SameSlot(t, tx) ==> Free(r, t))
  {}

  /** A transaction new to the pool, with a slot of its own, enters it adrift. */
  lemma Admit(p: Accounts, q: Accounts, all: set<Tx>, adrift: set<Tx>, tx: Tx)
    requires Agree(p, q, all, adrift) && Free(p, tx) && Free(q, tx)
    requires forall t :: t in adrift ==> !SameSlot(t, tx)
    ensures tx !in all && Agree(p, q, all + {tx}, adrift + {tx})
  {}

  /** A transaction replaces the one in its slot. */
  lemma Replace(p: Accounts, q: Accounts, all: set<Tx>, tx: Tx)
    requires Agree(p, q, all, {}) && !Free(p, tx) && tx !in all
    ensures var l := p[tx.sender];
            var was := l.items[tx.nonce];
            was in all && Agree(p[tx.sender := Insert(l, tx)], q, all - {was} + {tx}, {})
  {
    var l := p[tx.sender];
    var was := l.items[tx.nonce];
    var r := p[tx.sender := Insert(l, tx)];
    assert Held(p, was);
    forall t ensures Held(r, t) <==> (Held(p, t) && t != was) || t == tx {}
    assert Free(q, tx);
    hide GoodLists, Disjoint, Held, Free, Insert;
    InsertGood(p, tx, l);
    InsertDisjoint(p, q, tx, l);
  }

  /** A transaction adrift leaves the pool. */
  lemma LetGo(p: Accounts, q: Accounts, all: set<Tx>, adrift: set<Tx>, tx: Tx)
    requires Agree(p, q, all, adrift) && tx in adrift
    ensures Agree(p, q, all - {tx}, adrift - {tx})
  {}

  /** An empty list is deleted. */
  lemma DeleteEmpty(p: Accounts, q: Accounts, all: set<Tx>, adrift: set<Tx>, a: Address)
    requires Agree(p, q, all, adrift) && a in p && p[a].items == map[]
    ensures Agree(p - {a}, q, all, adrift)
  {
    forall tx ensures Held(p - {a}, tx) <==> Held(p, tx) {}
  }

  /** Removal by sender and nonce removes the intended transaction. */
  lemma SlotIdentifies(p: Accounts, q: Accounts, all: set<Tx>, tx: Tx)
    requires Agree(p, q, all, {}) && tx in all
    ensures Free(p, tx) ==> Held(q, tx)
    ensures !Free(p, tx) ==> Held(p, tx) && Free(q, tx)
  {}

  /** Filing `tx` in the queue, when its slot in the pending table is free. */
  lemma Enqueued(p: Accounts, q: Accounts, all: set<Tx>, adrift: set<Tx>, tx: Tx, l: ListView)
    requires Agree(p, q, all, adrift) && Free(p, tx)
    requires if tx in all then tx in adrift else adrift == {}
    requires l == if tx.sender in q then q[tx.sender] else EmptyList(l.strict)
    ensures var r := q[tx.sender := Insert(l, tx)];
            if tx in all then Free(q, tx) && Agree(p, r, all, adrift - {tx})
            else if Free(q, tx) then Agree(p, r, all + {tx}, {})
            else var was := q[tx.sender].items[tx.nonce]; was in all && Agree(p, r, all - {was} + {tx}, {})
  {
    hide Agree;
    AgreeSwap(p, q, all, adrift);
    var r := q[tx.sender := Insert(l, tx)];
    if tx in all {
      AdriftIsFree(p, q, all, adrift, tx);
      PutIn(q, p, all, adrift, tx, l);
      AgreeSwap(r, p, all, adrift - {tx});
    } else if Free(q, tx) {
      Admit(q, p, all, {}, tx);
      assert {} + {tx} == {tx} && {tx} - {tx} == {};
      PutIn(q, p, all + {tx}, {tx}, tx, l);
      AgreeSwap(r, p, all + {tx}, {});
    } else {
      Replace(q, p, all, tx);
      AgreeSwap(r, p, all - {q[tx.sender].items[tx.nonce]} + {tx}, {});
    }
  }

  lemma AdriftIsFree(p: Accounts, q: Accounts, all: set<Tx>, adrift: set<Tx>, tx: Tx)
    requires Agree(p, q, all, adrift) && tx in adrift
    ensures Free(p, tx) && Free(q, tx) && tx in all
  {}

  /** Put a list back into its table, or delete the table entry if the list became empty. */
  function Store(m: Accounts, a: Address, l: ListView): Accounts {
    if l.items == map[] then m - {a} else m[a := l]
  }

  /** Part of a list is taken out; the list is deleted if nothing is left. */
  lemma StoreRest(p: Accounts, q: Accounts, all: set<Tx>, adrift: set<Tx>, a: Address, l: ListView)
    requires Agree(p, q, all, adrift) && a in p && WellFormed(l)
    requires l.items.Keys <= p[a].items.Keys && forall n :: n in l.items ==> l.items[n] == p[a].items[n]
    ensures Agree(Store(p, a, l), q, all, adrift + (p[a].items - l.items.Keys).Values)
  {
    hide Agree;
    TakeOut(p, q, all, adrift, a, l);
    if l.items == map[] {
      DeleteEmpty(p[a := l], q, all, adrift + (p[a].items - l.items.Keys).Values, a);
      assert p[a := l] - {a} == p - {a};
    }
  }

  /** Removing a pooled transaction from its list by nonce removes it from the pool; in a strict list
      the transactions above it are now adrift. */
  lemma Unfile(p: Accounts, q: Accounts, all: set<Tx>, tx: Tx)
    requires Agree(p, q, all, {}) && Held(p, tx)
    ensures var l := p[tx.sender];
            Agree(Store(p, tx.sender, RemoveNonce(l, tx.nonce)), q, all - {tx}, Above(l, tx.nonce).Values)
  {
    var a, l := tx.sender, p[tx.sender];
    var rest := RemoveNonce(l, tx.nonce);
    WellFormedRest(l, rest);
    StoreRest(p, q, all, {}, a, rest);
    var gone := l.items - rest.items.Keys;
    assert gone[tx.nonce] == tx;
    assert gone == Above(l, tx.nonce)[tx.nonce := tx];
    assert Above(l, tx.nonce).Values == gone.Values - {tx} by {
      forall t | t in Above(l, tx.nonce).Values ensures t in gone.Values && t != tx {
        var n :| n in Above(l, tx.nonce) && Above(l, tx.nonce)[n] == t;
        assert gone[n] == t && l.items[n].nonce == n;
      }
      forall t | t in gone.Values && t != tx ensures t in Above(l, tx.nonce).Values {
        var n :| n in gone && gone[n] == t;
        assert Above(l, tx.nonce)[n] == t;
      }
    }
    assert {} + gone.Values == gone.Values;
    LetGo(Store(p, a, rest), q, all, gone.Values, tx);
  }

  lemma WellFormedRest(l: ListView, rest: ListView)
    requires WellFormed(l) && rest.costcap == l.costcap && rest.gascap == l.gascap
    requires rest.items.Keys <= l.items.Keys && forall n :: n in rest.items ==> rest.items[n] == l.items[n]
    ensures WellFormed(rest)
  {}

  lemma StoreKeeps(m: Accounts, spare: set<Address>, a: Address, l: ListView, strict: bool)
    requires NonEmpty(m, spare) && AllStrict(m, strict) && l.strict == strict
    ensures NonEmpty(Store(m, a, l), spare - {a}) && AllStrict(Store(m, a, l), strict)
  {}

  // ---------- counting ----------

  function Len(m: Accounts, a: Address): nat {
    if a in m then |m[a].items| else 0
  }

  /** The number of transactions in a table. */
  function Total(m: Accounts): nat {
    if m == map[] then 0
    else
      var a := MinKey(m.Keys);
      assert (m - {a}).Keys < m.Keys;
      |m[a].items| + Total(m - {a})
  }

  lemma {:induction false} TotalWithout(m: Accounts, a: Address)
    requires a in m
    ensures Total(m) == Len(m, a) + Total(m - {a})
    decreases m.Keys
  {
    var low := MinKey(m.Keys);
    if a != low {
      var rest := m - {low};
      assert rest.Keys < m.Keys;
      TotalWithout(rest, a);
      var other := m - {a};
      assert low in other && MinKey(other.Keys) == low;
      assert other - {low} == rest - {a};
    }
  }

  /** Replacing one list changes the total by the difference of the lengths. */
  lemma TotalUpdate(m: Accounts, a: Address, l: ListView)
    requires a in m
    ensures Total(m[a := l]) == Total(m) - Len(m, a) + |l.items|
    ensures Total(Store(m, a, l)) == Total(m) - Len(m, a) + |l.items|
  {
    hide Total;
    TotalWithout(m, a);
    TotalWithout(m[a := l], a);
    assert m[a := l] - {a} == m - {a};
  }

  /** A list without its highest nonce. */
  function Shorter(l: ListView): ListView
    requires |l.items| > 0
  {
    l.(items := CapTo(l.items, |l.items| - 1))
  }

  lemma ShorterDropsHighest(l: ListView)
    requires |l.items| > 0
    ensures Shorter(l).items == l.items - {MaxKey(l.items.Keys)} && |Shorter(l).items| == |l.items| - 1
  {
    var rest := l.items - {MaxKey(l.items.Keys)};
    assert rest.Keys == l.items.Keys - {MaxKey(l.items.Keys)};
    assert CapTo(l.items, |l.items| - 1) == CapTo(rest, |rest|) == rest;
  }

  /** The lookup table has as many entries as the two tables together. */
  lemma {:induction false} CountsAgree(p: Accounts, q: Accounts, all: set<Tx>)
    requires Agree(p, q, all, {})
    ensures |all| == Total(p) + Total(q)
    decreases Total(p) + Total(q), |p| + |q|
  {
    hide Agree, Total;
    if p != map[] {
      CountOne(p, q, all);
    } else if q != map[] {
      AgreeSwap(p, q, all, {});
      CountOne(q, p, all);
    } else {
      NothingFiled(all);
    }
  }

  lemma CountOne(p: Accounts, q: Accounts, all: set<Tx>)
    requires Agree(p, q, all, {}) && p != map[]
    ensures |all| == Total(p) + Total(q)
    decreases Total(p) + Total(q), |p| + |q|, 0
  {
    hide Agree, Total;
    var a :| a in p;
    TotalWithout(p, a);
    assert (p - {a}).Keys == p.Keys - {a};
    if p[a].items == map[] {
      DeleteEmpty(p, q, all, {}, a);
      CountsAgree(p - {a}, q, all);
    } else {
      var n :| n in p[a].items;
      var tx := p[a].items[n];
      var rest := p[a].(items := p[a].items - {n});
      TakeOne(p, q, all, a, n);
      TotalUpdate(p, a, rest);
      assert rest.items.Keys == p[a].items.Keys - {n};
      CountsAgree(p[a := rest], q, all - {tx});
    }
  }

  lemma TakeOne(p: Accounts, q: Accounts, all: set<Tx>, a: Address, n: nat)
    requires Agree(p, q, all, {}) && a in p && n in p[a].items
    ensures var tx := p[a].items[n];
            tx in all && Agree(p[a := p[a].(items := p[a].items - {n})], q, all - {tx}, {})
  {
    var tx := p[a].items[n];
    var rest := p[a].(items := p[a].items - {n});
    WellFormedRest(p[a], rest);
    TakeOut(p, q, all, {}, a, rest);
    var gone := p[a].items - rest.items.Keys;
    assert gone == map[n := tx];
    assert gone[n] == tx;
    assert {} + gone.Values == {tx};
    LetGo(p[a := rest], q, all, {tx}, tx);
    assert {tx} - {tx} == {};
    assert Held(p, tx);
  }

  lemma NothingFiled(all: set<Tx>)
    requires Agree(map[], map[], all, {})
    ensures all == {} && Total(map[]) == 0
  {}
}
