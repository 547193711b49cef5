/** core/tx_pool.go: the transaction pool. Account lists are kept as the values that class TxList is
    proved to maintain. */
module Pool {
  import opened Basics
  import opened Transactions
  import opened TxLists
  import opened PoolLists
  import opened Priced
  import opened SortedMap
  import opened IntrinsicGas

  datatype PoolError =
    | KnownTransaction
    | OversizedData | NegativeValue | GasLimit | InvalidSender | InsufficientFunds | NonceTooLow
    | JoinNonceInvalid | JoinNonceMismatch | Underpriced | IntrinsicGas | UnsupportedType
    | ReplaceUnderpriced

  /** The result of adding a transaction: whether it replaced another one, or why it was refused. */
  datatype Outcome = Pooled(replaced: bool) | Refused(error: PoolError)

  /** What can happen to a pool: submissions, new chain heads, price changes and eviction ticks. */
  datatype PoolEvent =
    | Submit(txs: seq<Tx>, local: bool, now: int)
    | NewHead(found: bool, nonces: Address -> nat, balances: Address -> nat, joins: Address -> nat, gasLimit: nat,
              reinject: seq<Tx>, price: Option<nat>, isHomestead: bool, now: int)
    | SetPrice(limit: nat)
    | Tick(now: int)

  /** The managed nonce of an account: the one set last, or else the one in the state. */
  function NonceAt(managed: map<Address, nat>, state: Address -> nat, a: Address): nat {
    if a in managed then managed[a] else state(a)
  }

  /** No managed nonce has grown. */
  ghost predicate Receded(before: map<Address, nat>, after: map<Address, nat>, state: Address -> nat) {
    forall a: Address :: NonceAt(after, state, a) <= NonceAt(before, state, a)
  }

  lemma RecededNothing(managed: map<Address, nat>, state: Address -> nat)
    ensures Receded(managed, managed, state)
  {}

  lemma RecededOne(managed: map<Address, nat>, state: Address -> nat, a: Address, n: nat)
    requires n <= NonceAt(managed, state, a)
    ensures Receded(managed, managed[a := n], state)
  {}

  lemma RecededTwice(m: map<Address, nat>, n: map<Address, nat>, o: map<Address, nat>, state: Address -> nat)
    requires Receded(m, n, state) && Receded(n, o, state)
    ensures Receded(m, o, state)
  {
    forall a: Address ensures NonceAt(o, state, a) <= NonceAt(m, state, a) {
      assert NonceAt(n, state, a) <= NonceAt(m, state, a);
    }
  }

  /** Each account's pending nonces run without gap from its state nonce up to its managed nonce; the
      two are equal when nothing is pending. */
  ghost predicate Gapless(p: Accounts, managed: map<Address, nat>, state: Address -> nat) {
    forall a: Address ::
      if a in p then Interval(p[a].items, state(a), NonceAt(managed, state, a))
      else NonceAt(managed, state, a) == state(a)
  }

  /** The transaction can no longer be executed: its nonce is used, or its cost or gas is above a limit. */
  predicate Hopeless(tx: Tx, state: Address -> nat, balance: Address -> nat, gasLimit: nat) {
    tx.nonce < state(tx.sender) || tx.cost > balance(tx.sender) || tx.gas > gasLimit
  }

  /** Nothing is dropped but hopeless transactions, and remote ones of the accounts in `over` or, if the pool is
      `full`, of any account. */
  ghost predicate Excused(before: set<Tx>, after: set<Tx>, state: Address -> nat, balance: Address -> nat,
                          gasLimit: nat, locals: set<Address>, over: set<Address>, full: bool) {
    forall tx :: tx in before && tx !in after ==>
      Hopeless(tx, state, balance, gasLimit) || (tx.sender !in locals && (full || tx.sender in over))
  }

  lemma ExcusedTwice(a: set<Tx>, b: set<Tx>, c: set<Tx>, state: Address -> nat, balance: Address -> nat, gasLimit: nat,
                     locals: set<Address>, over: set<Address>, full: bool, more: set<Address>, fuller: bool)
    requires Excused(a, b, state, balance, gasLimit, locals, over, full) &&
             Excused(b, c, state, balance, gasLimit, locals, more, fuller)
    ensures Excused(a, c, state, balance, gasLimit, locals, over + more, full || fuller)
  {}

  lemma ExcusedNothing(all: set<Tx>, state: Address -> nat, balance: Address -> nat, gasLimit: nat,
                       locals: set<Address>, over: set<Address>)
    ensures Excused(all, all, state, balance, gasLimit, locals, over, false)
  {}

  lemma ExcusedWider(a: set<Tx>, b: set<Tx>, state: Address -> nat, balance: Address -> nat, gasLimit: nat,
                     locals: set<Address>, over: set<Address>, more: set<Address>, full: bool)
    requires Excused(a, b, state, balance, gasLimit, locals, over, full) && over <= more
    ensures Excused(a, b, state, balance, gasLimit, locals, more, full)
  {}

  /** A transaction of a local account leaves the pool only if it is hopeless or one of the given transactions
      takes its slot: local accounts are exempt from price and space constraints. */
  ghost predicate LocalsStay(before: set<Tx>, after: set<Tx>, state: Address -> nat, balance: Address -> nat,
                             gasLimit: nat, locals: set<Address>, txs: seq<Tx>) {
    forall tx :: tx in before && tx !in after && IsLocal(tx, locals) ==>
      Hopeless(tx, state, balance, gasLimit) || exists i :: 0 <= i < |txs| && SameSlot(tx, txs[i])
  }

  lemma LocalsStayed(all: set<Tx>, state: Address -> nat, balance: Address -> nat, gasLimit: nat, locals: set<Address>,
                     txs: seq<Tx>)
    ensures LocalsStay(all, all, state, balance, gasLimit, locals, txs)
  {}

  lemma LocalsStayAdd(a: set<Tx>, b: set<Tx>, c: set<Tx>, state: Address -> nat, balance: Address -> nat, gasLimit: nat,
                      locals: set<Address>, txs: seq<Tx>, i: nat, more: set<Address>)
    requires LocalsStay(a, b, state, balance, gasLimit, locals, txs) && i < |txs|
    requires locals <= more && forall t :: t in b && t !in c ==> !IsLocal(t, more) || SameSlot(t, txs[i])
    ensures LocalsStay(a, c, state, balance, gasLimit, locals, txs)
  {}

  lemma LocalsStayOn(a: set<Tx>, b: set<Tx>, c: set<Tx>, state: Address -> nat, balance: Address -> nat, gasLimit: nat,
                     locals: set<Address>, txs: seq<Tx>, more: set<Address>, over: set<Address>, full: bool)
    requires LocalsStay(a, b, state, balance, gasLimit, locals, txs) && locals <= more
    requires Excused(b, c, state, balance, gasLimit, more, over, full)
    ensures LocalsStay(a, c, state, balance, gasLimit, locals, txs)
  {}

  /** What an outcome of adding a transaction means, given the verdict of its validation: `before` and `after` are
      the lookup tables. A refused transaction changes nothing but may have made room in a full pool; a pooled one
      takes its slot, and has replaced one if the slot was taken. Only the transaction in that slot makes way, if it
      is outbid, and in a full pool remote ones, the cheapest first. */
  ghost predicate AddedAs(tx: Tx, before: set<Tx>, after: set<Tx>, verdict: Option<PoolError>, limit: nat,
                          locals: set<Address>, bump: nat, r: Outcome) {
    && (if tx in before then r == Refused(KnownTransaction) && after == before
        else if verdict.Some? then r == Refused(verdict.value) && after == before
        else if && |before| >= limit && before != {} && !IsLocal(tx, locals)
                && forall t :: t in before ==> tx.gasPrice <= t.gasPrice
        then r == Refused(PoolError.Underpriced) && after == before
        else if r.Pooled? then
          && tx in after && after <= before + {tx} && MadeWay(tx, before, after, limit, locals)
          && (forall t :: t in before && SameSlot(t, tx) ==> t !in after)
          && (r.replaced ==> exists t :: t in before && SameSlot(t, tx))
          && (!r.replaced && |before| < limit ==> forall t :: t in before ==> !SameSlot(t, tx))
        else
          && r == Refused(ReplaceUnderpriced) && after <= before && MadeWay(tx, before, after, limit, locals)
          && exists t :: t in after && SameSlot(t, tx) && !Outbids(t, tx, bump))
    && (forall t :: t in before && t !in after ==>
          || (|before| >= limit && !IsLocal(t, locals))
          || (r.Pooled? && SameSlot(t, tx) && Outbids(t, tx, bump)))
  }

  /** In a full pool that is not all local some remote transaction makes way, and outside the slot of the new one
      none that is dearer than a remote one that stays. */
  ghost predicate MadeWay(tx: Tx, before: set<Tx>, after: set<Tx>, limit: nat, locals: set<Address>) {
    |before| >= limit ==>
      && ((forall t :: t in before ==> IsLocal(t, locals)) ||
          exists t :: t in before && t !in after && !IsLocal(t, locals))
      && (forall t, s ::
            t in before && t !in after && !SameSlot(t, tx) && s in before && s in after && !IsLocal(s, locals) ==>
              PriceKey(t) <= PriceKey(s))
  }

  /** What making room does: a transaction is turned away exactly if it is remote and no dearer than any in a full
      pool; otherwise remote ones make way, the cheapest first, and only in a full pool. */
  ghost predicate RoomFor(tx: Tx, before: set<Tx>, room: set<Tx>, limit: nat, locals: set<Address>, ok: bool) {
    && room <= before
    && (!ok <==> |before| >= limit && before != {} && !IsLocal(tx, locals) &&
                 forall t :: t in before ==> tx.gasPrice <= t.gasPrice)
    && (!ok || |before| < limit ==> room == before)
    && (forall t :: t in before && t !in room ==> !IsLocal(t, locals))
    && (ok && |before| >= limit ==> room != before || forall t :: t in before ==> IsLocal(t, locals))
    && (forall t, s :: t in before && t !in room && s in room && !IsLocal(s, locals) ==> PriceKey(t) <= PriceKey(s))
  }

  /** What taking a place does: refused exactly if the slot is taken and not outbid; otherwise exactly the slot
      changes hands, and the outcome says whether it was taken. */
  ghost predicate Takes(tx: Tx, room: set<Tx>, after: set<Tx>, bump: nat, r: Outcome) {
    && (r.Refused? <==> exists t :: t in room && SameSlot(t, tx) && !Outbids(t, tx, bump))
    && (r.Refused? ==> r.error == ReplaceUnderpriced && after == room)
    && (r.Pooled? ==> after == (set t | t in room && !SameSlot(t, tx)) + {tx})
    && (r.Pooled? ==> (r.replaced <==> exists t :: t in room && SameSlot(t, tx)))
  }

  lemma RoomMade(tx: Tx, before: set<Tx>, room: set<Tx>, drop: seq<Tx>, limit: nat, locals: set<Address>)
    requires |before| >= limit && room == set t | t in before && t !in drop
    requires IsLocal(tx, locals) || before == {} || exists t :: t in before && tx.gasPrice > t.gasPrice
    requires forall t :: t in drop ==> t in before && !IsLocal(t, locals)
    requires forall t, s :: t in drop && s in before && s !in drop && !IsLocal(s, locals) ==> PriceKey(t) <= PriceKey(s)
    requires drop == [] ==> forall t :: t in before ==> IsLocal(t, locals)
    ensures RoomFor(tx, before, room, limit, locals, true)
  {
    hide PriceKey, IsLocal;
    if drop != [] {
      assert drop[0] in before && drop[0] !in room;
    }
  }

  lemma RoomIsLess(tx: Tx, before: set<Tx>, room: set<Tx>, limit: nat, locals: set<Address>, ok: bool)
    requires RoomFor(tx, before, room, limit, locals, ok)
    ensures room <= before
  {}

  lemma KnownAs(tx: Tx, all: set<Tx>, verdict: Option<PoolError>, limit: nat, locals: set<Address>, bump: nat)
    ensures tx in all ==> AddedAs(tx, all, all, verdict, limit, locals, bump, Refused(KnownTransaction))
    ensures tx !in all && verdict.Some? ==>
              AddedAs(tx, all, all, verdict, limit, locals, bump, Refused(verdict.value))
  {}

  /** Making room and taking a place together. */
  lemma PlacedAs(tx: Tx, before: set<Tx>, room: set<Tx>, after: set<Tx>, limit: nat, locals: set<Address>, bump: nat,
                 ok: bool, r: Outcome)
    requires tx !in before && RoomFor(tx, before, room, limit, locals, ok)
    requires if ok then Takes(tx, room, after, bump, r) else after == room && r == Refused(PoolError.Underpriced)
    ensures AddedAs(tx, before, after, None, limit, locals, bump, r)
  {
    hide Outbids, IsLocal, PriceKey;
  }

  lemma AddedFacts(tx: Tx, before: set<Tx>, after: set<Tx>, verdict: Option<PoolError>, limit: nat,
                   locals: set<Address>, bump: nat, r: Outcome)
    requires AddedAs(tx, before, after, verdict, limit, locals, bump, r)
    ensures after <= before + {tx}
    ensures forall t :: t in before && t !in after ==> !IsLocal(t, locals) || SameSlot(t, tx)
  {}

  /** The remote accounts above their queue allowance. */
  ghost function Crowded(q: Accounts, locals: set<Address>, allowance: nat): set<Address> {
    set a | a in q && a !in locals && Len(q, a) > allowance
  }

  /** The pooled transactions of an account. */
  ghost function Own(all: set<Tx>, a: Address): set<Tx> {
    set tx | tx in all && tx.sender == a
  }

  /** Of what was pooled nothing has left but hopeless transactions, and remote ones whose account had more pooled
      than a queue holds, or while the pool exceeded a global limit. */
  ghost predicate Stays(pooled: set<Tx>, after: set<Tx>, state: Address -> nat, balance: Address -> nat, gasLimit: nat,
                        locals: set<Address>, accountQueue: nat, globalSlots: nat, globalQueue: nat)
  {
    && after <= pooled
    && forall tx :: tx in pooled && tx !in after ==>
         || Hopeless(tx, state, balance, gasLimit)
         || (&& tx.sender !in locals
             && (|Own(pooled, tx.sender)| > accountQueue || |pooled| > globalSlots || |pooled| > globalQueue))
  }

  lemma StaysNothing(all: set<Tx>, state: Address -> nat, balance: Address -> nat, gasLimit: nat, locals: set<Address>,
                     accountQueue: nat, globalSlots: nat, globalQueue: nat)
    ensures Stays(all, all, state, balance, gasLimit, locals, accountQueue, globalSlots, globalQueue)
  {}

  lemma StaysHopeful(pooled: set<Tx>, b: set<Tx>, c: set<Tx>, state: Address -> nat, balance: Address -> nat,
                     gasLimit: nat, locals: set<Address>, accountQueue: nat, globalSlots: nat, globalQueue: nat)
    requires Stays(pooled, b, state, balance, gasLimit, locals, accountQueue, globalSlots, globalQueue) && c <= b
    requires Excused(b, c, state, balance, gasLimit, locals, {}, false)
    ensures Stays(pooled, c, state, balance, gasLimit, locals, accountQueue, globalSlots, globalQueue)
  {}

  /** What a promotion drops is accounted for by the numbers of what was pooled before. */
  lemma StaysOn(pooled: set<Tx>, p: Accounts, q: Accounts, b: set<Tx>, c: set<Tx>, state: Address -> nat,
                balance: Address -> nat, gasLimit: nat, locals: set<Address>, accountQueue: nat, globalSlots: nat,
                globalQueue: nat)
    requires Stays(pooled, b, state, balance, gasLimit, locals, accountQueue, globalSlots, globalQueue) && c <= b
    requires Agree(p, q, b, {})
    requires Excused(b, c, state, balance, gasLimit, locals, Crowded(q, locals, accountQueue),
                     |b| > globalSlots || Total(q) > globalQueue)
    ensures Stays(pooled, c, state, balance, gasLimit, locals, accountQueue, globalSlots, globalQueue)
  {
    hide Agree, Total, Hopeless;
    CountsAgree(p, q, b);
    Subset(b, pooled);
    forall tx | tx in b && tx !in c && tx.sender in Crowded(q, locals, accountQueue)
      ensures |Own(pooled, tx.sender)| > accountQueue
    {
      QueueIsOwn(p, q, b, tx.sender);
      Subset(Own(b, tx.sender), Own(pooled, tx.sender));
    }
  }

  lemma QueueIsOwn(p: Accounts, q: Accounts, all: set<Tx>, a: Address)
    requires Agree(p, q, all, {}) && a in q
    ensures Len(q, a) <= |Own(all, a)|
  {
    var items := q[a].items;
    ValuesCount(items);
    forall tx | tx in items.Values
      ensures tx in Own(all, a)
    {
      assert Held(q, tx);
    }
    Subset(items.Values, Own(all, a));
  }

  lemma {:induction false} ValuesCount(m: map<nat, Tx>)
    requires Keyed(m)
    ensures |m.Values| == |m|
    decreases |m|
  {
    if m == map[] {
      assert m.Values == {};
    } else {
      var n :| n in m;
      var rest := m - {n};
      assert rest.Keys == m.Keys - {n};
      ValuesCount(rest);
      assert m[n] !in rest.Values;
      assert forall tx :: tx in m.Values ==> tx == m[n] || tx in rest.Values by {
        assert forall k :: k in m && k != n ==> k in rest && rest[k] == m[k];
      }
      assert m.Values == rest.Values + {m[n]};
    }
  }

  /** Hopeful transactions are dropped only of the accounts in `done`, and their queues are still full. */
  ghost predicate Capped(before: set<Tx>, after: set<Tx>, state: Address -> nat, balance: Address -> nat, gasLimit: nat,
                         q: Accounts, done: set<Address>, allowance: nat) {
    forall tx :: tx in before && tx !in after && !Hopeless(tx, state, balance, gasLimit) ==>
      tx.sender in done && Len(q, tx.sender) == allowance
  }

  lemma CappedTurn(before: set<Tx>, mid: set<Tx>, after: set<Tx>, state: Address -> nat, balance: Address -> nat,
                   gasLimit: nat, locals: set<Address>, q: Accounts, a: Address, over: set<Address>, allowance: nat)
    requires Excused(before, mid, state, balance, gasLimit, locals, {}, false)
    requires Excused(mid, after, state, balance, gasLimit, locals, over, false) && over <= {a}
    requires after <= mid && (after != mid ==> Len(q, a) == allowance)
    ensures Capped(before, after, state, balance, gasLimit, q, {a}, allowance)
  {}

  lemma CappedNothing(all: set<Tx>, state: Address -> nat, balance: Address -> nat, gasLimit: nat, q: Accounts,
                      done: set<Address>, allowance: nat)
    ensures Capped(all, all, state, balance, gasLimit, q, done, allowance)
  {}

  lemma CappedOn(before: set<Tx>, mid: set<Tx>, after: set<Tx>, state: Address -> nat, balance: Address -> nat,
                 gasLimit: nat, q: Accounts, r: Accounts, done: set<Address>, a: Address, allowance: nat)
    requires Capped(before, mid, state, balance, gasLimit, q, done, allowance) && a !in done
    requires Capped(mid, after, state, balance, gasLimit, r, {a}, allowance) && SameElsewhere(q, r, a)
    ensures Capped(before, after, state, balance, gasLimit, r, done + {a}, allowance)
  {
    hide Hopeless;
    forall b | b != a
      ensures Len(r, b) == Len(q, b)
    {
      assert (b in r <==> b in r - {a}) && (b in q <==> b in q - {a});
    }
  }

  /** No hopeful transaction is dropped needlessly: its account's queue is still full, or the queue is, or the pending
      transactions exceed the slots but for one per account. */
  ghost predicate Needed(before: set<Tx>, after: set<Tx>, state: Address -> nat, balance: Address -> nat, gasLimit: nat,
                         p: Accounts, q: Accounts, accountQueue: nat, globalSlots: nat, globalQueue: nat) {
    forall tx :: tx in before && tx !in after && !Hopeless(tx, state, balance, gasLimit) ==>
      Len(q, tx.sender) == accountQueue || AtLimit(p, q, globalSlots, globalQueue)
  }

  lemma CappedIsNeeded(before: set<Tx>, mid: set<Tx>, after: set<Tx>, state: Address -> nat, balance: Address -> nat,
                       gasLimit: nat, was: Accounts, p: Accounts, q: Accounts, done: set<Address>, accountQueue: nat,
                       globalSlots: nat, globalQueue: nat)
    requires Capped(before, mid, state, balance, gasLimit, was, done, accountQueue)
    requires (q == was && after == mid) || AtLimit(p, q, globalSlots, globalQueue)
    ensures Needed(before, after, state, balance, gasLimit, p, q, accountQueue, globalSlots, globalQueue)
  {
    hide AtLimit, Hopeless;
  }

  lemma NeededFrom(before: set<Tx>, mid: set<Tx>, after: set<Tx>, state: Address -> nat, balance: Address -> nat,
                   gasLimit: nat, locals: set<Address>, p: Accounts, q: Accounts, accountQueue: nat, globalSlots: nat,
                   globalQueue: nat)
    requires Excused(before, mid, state, balance, gasLimit, locals, {}, false)
    requires Needed(mid, after, state, balance, gasLimit, p, q, accountQueue, globalSlots, globalQueue)
    ensures Needed(before, after, state, balance, gasLimit, p, q, accountQueue, globalSlots, globalQueue)
  {
    hide AtLimit, Hopeless;
  }

  ghost predicate AtLimit(p: Accounts, q: Accounts, globalSlots: nat, globalQueue: nat) {
    Total(q) >= globalQueue || Total(p) + |p| > globalSlots
  }

  /** No list has grown. */
  ghost predicate Shrunk(q: Accounts, r: Accounts) {
    forall a :: Len(r, a) <= Len(q, a)
  }

  class TxPool {
    const priceBump: nat
    const accountSlots: nat
    const globalSlots: nat
    const accountQueue: nat
    const globalQueue: nat
    const lifetime: nat

    var stateNonce: Address -> nat
    var balance: Address -> nat
    var joinNonce: Address -> nat
    var maxGas: nat
    var homestead: bool
    var gasPrice: nat

    var managed: map<Address, nat>
    var locals: set<Address>
    var pending: Accounts
    var queue: Accounts
    var beats: map<Address, int>
    var all: set<Tx>
    const priced: PricedList

    /** The tables agree, with some transactions adrift; only the spare accounts may have empty lists. */
    ghost predicate Tables(adrift: set<Tx>, spareP: set<Address>, spareQ: set<Address>)
      reads this`pending, this`queue, this`all
    {
      Agree(pending, queue, all, adrift) && Shape(spareP, spareQ)
    }

    ghost predicate Shape(spareP: set<Address>, spareQ: set<Address>)
      reads this`pending, this`queue
    {
      && AllStrict(pending, true) && AllStrict(queue, false)
      && NonEmpty(pending, spareP) && NonEmpty(queue, spareQ)
    }

    ghost predicate Valid()
      reads this`pending, this`queue, this`all, priced
    {
      accountSlots >= 1 && Tables({}, {}, {}) && priced.Valid(all)
    }

    ghost predicate Contiguous()
      reads this`pending, this`managed, this`stateNonce
    {
      Gapless(pending, managed, stateNonce)
    }

    /** Every pending transaction is current and payable in the present state. */
    ghost predicate PendingPayable()
      reads this`pending, this`stateNonce, this`balance, this`maxGas
    {
      PayableLists(pending, stateNonce, balance, maxGas)
    }

    constructor (priceBump: nat, accountSlots: nat, globalSlots: nat, accountQueue: nat, globalQueue: nat,
                 lifetime: nat, locals: set<Address>, priceLimit: nat,
                 stateNonce: Address -> nat, balance: Address -> nat, joinNonce: Address -> nat, maxGas: nat)
      requires accountSlots >= 1
      ensures Valid() && Contiguous() && all == {} && fresh(priced)
    {
      this.priceBump, this.accountSlots, this.globalSlots := priceBump, accountSlots, globalSlots;
      this.accountQueue, this.globalQueue, this.lifetime := accountQueue, globalQueue, lifetime;
      this.locals, this.gasPrice, this.homestead := locals, priceLimit, false;
      this.stateNonce, this.balance, this.joinNonce, this.maxGas := stateNonce, balance, joinNonce, maxGas;
      managed, pending, queue, beats, all := map[], map[], map[], map[], {};
      priced := new PricedList();
    }

    /** enqueueTx. A transaction already in the lookup table is one being demoted: filing it can
        neither fail nor displace another one. */
    method EnqueueTx(tx: Tx, ghost adrift: set<Tx>, ghost spareP: set<Address>, ghost spareQ: set<Address>)
      returns (r: Outcome)
      requires Tables(adrift, spareP, spareQ) && Free(pending, tx)
      requires if tx in all then tx in adrift else adrift == {} && priced.Valid(all)
      modifies this`queue, this`all, priced
      ensures tx in old(all) ==>
                && r == Pooled(false) && Tables(adrift - {tx}, spareP, spareQ)
                && all == old(all) && unchanged(priced)
      ensures tx !in old(all) ==> Tables({}, spareP, spareQ) && priced.Valid(all)
      ensures tx !in old(all) && r.Refused? ==>
                && r.error.ReplaceUnderpriced? && all == old(all) && queue == old(queue) && !Free(queue, tx)
                && !Outbids(queue[tx.sender].items[tx.nonce], tx, priceBump)
      ensures tx !in old(all) && r.Pooled? ==>
                && r.replaced == !old(Free(queue, tx)) && Held(queue, tx)
                && (r.replaced ==> Outbids(old(queue)[tx.sender].items[tx.nonce], tx, priceBump))
                && all == (if r.replaced then old(all) - {old(queue)[tx.sender].items[tx.nonce]} else old(all)) + {tx}
      ensures queue.Keys <= old(queue).Keys + {tx.sender}
    {
      hide Agree, Outbids, Insert, NonEmpty, PricedList.Valid;
      var list := if tx.sender in queue then queue[tx.sender] else EmptyList(false);
      Enqueued(pending, queue, all, adrift, tx, list);
      InsertedIsNonEmpty(queue, spareQ, tx, list);
      if !Accepts(list, tx, priceBump) {
        return Refused(ReplaceUnderpriced);
      }
      var prev := Get(list, tx.nonce);
      queue := queue[tx.sender := Insert(list, tx)];
      if prev.Some? {
        all := all - {prev.value};
        assert all + {prev.value} == old(all);
        priced.Removed(all, prev.value);
      }
      if tx !in all {
        all := all + {tx};
        priced.Put(tx, all - {tx});
      }
      r := Pooled(prev.Some?);
    }

    /** Files demoted transactions back into the queue, in any order. */
    method EnqueueAll(txs: set<Tx>, ghost spareP: set<Address>)
      requires Tables(txs, spareP, {})
      modifies this`queue, this`all, priced
      ensures Tables({}, spareP, {}) && all == old(all)
      ensures unchanged(priced)
    {
      hide Agree, NonEmpty;
      var todo := txs;
      while todo != {}
        invariant todo <= txs && Tables(todo, spareP, {}) && all == old(all) && pending == old(pending)
        invariant unchanged(priced)
        decreases todo
      {
        var tx :| tx in todo;
        AdriftIsFree(pending, queue, all, todo, tx);
        var r := EnqueueTx(tx, todo, spareP, {});
        todo := todo - {tx};
      }
    }

    /** removeTx. The price heap loses an entry now (outOfBound) or has lost it before, in which case
        the transaction is among those set aside. */
    method RemoveTx(tx: Tx, outOfBound: bool, ghost aside: multiset<Tx>)
      requires Tables({}, {}, {})
      requires if outOfBound then priced.Valid(all) else priced.Follows(all, aside + multiset{tx})
      modifies this`pending, this`queue, this`beats, this`managed, this`all, priced
      ensures Tables({}, {}, {}) && all == old(all) - {tx}
      ensures if outOfBound then priced.Valid(all) else priced.Follows(all, aside)
      ensures old(Contiguous()) ==> Contiguous()
      ensures old(Held(queue, tx)) ==>
                && pending == old(pending) && managed == old(managed) && beats == old(beats)
                && queue == Store(old(queue), tx.sender, RemoveNonce(old(queue)[tx.sender], tx.nonce))
    {
      hide Agree, NonEmpty, Gapless, PricedList.Valid, PricedList.Follows, AllStrict, Store, RemoveNonce;
      if tx !in all {
        assert all - {tx} == all;
        if !outOfBound {
          priced.Dropped(all, aside, tx);
        }
        NotHeld(pending, queue, all, tx);
        return;
      }
      SlotIdentifies(pending, queue, all, tx);
      if outOfBound {
        assert all - {tx} + {tx} == all;
        priced.Removed(all - {tx}, tx);
      } else {
        priced.Dropped(all, aside, tx);
      }
      all := all - {tx};
      assert all + {tx} == old(all);
      if tx.sender in pending && tx.nonce in pending[tx.sender].items {
        RemovePending(tx);
      } else {
        RemoveQueued(tx);
      }
    }

    /** The half of removeTx that deals with the queue. */
    method RemoveQueued(tx: Tx)
      requires Agree(pending, queue, all + {tx}, {}) && Shape({}, {}) && tx !in all && Held(queue, tx)
      modifies this`queue
      ensures Tables({}, {}, {})
      ensures queue == Store(old(queue), tx.sender, RemoveNonce(old(queue)[tx.sender], tx.nonce))
    {
      hide Agree, NonEmpty, AllStrict, Store;
      AgreeSwap(pending, queue, all + {tx}, {});
      Unfile(queue, pending, all + {tx}, tx);
      var rest := RemoveNonce(queue[tx.sender], tx.nonce);
      NothingAbove(queue, tx);
      StoreKeeps(queue, {}, tx.sender, rest, false);
      assert {} - {tx.sender} == {} && all + {tx} - {tx} == all;
      queue := Store(queue, tx.sender, rest);
      AgreeSwap(queue, pending, all, {});
    }

    /** The half of removeTx that deals with the pending table. */
    method RemovePending(tx: Tx)
      requires Agree(pending, queue, all + {tx}, {}) && Shape({}, {}) && tx !in all && Held(pending, tx)
      modifies this`pending, this`queue, this`beats, this`managed, this`all, priced
      ensures Tables({}, {}, {}) && all == old(all)
      ensures unchanged(priced)
      ensures old(Contiguous()) ==> Contiguous()
      ensures pending == Store(old(pending), tx.sender, RemoveNonce(old(pending)[tx.sender], tx.nonce))
      ensures beats == if tx.sender in pending then old(beats) else old(beats) - {tx.sender}
      ensures managed ==
                if NonceAt(old(managed), stateNonce, tx.sender) > tx.nonce then old(managed)[tx.sender := tx.nonce]
                else old(managed)
    {
      hide Agree, NonEmpty, Gapless, AllStrict;
      assert pending[tx.sender].strict by { StrictAt(pending, true, tx.sender); }
      var list := pending[tx.sender];
      var rest := RemoveNonce(list, tx.nonce);
      Unfile(pending, queue, all + {tx}, tx);
      assert all + {tx} - {tx} == all;
      StoreKeeps(pending, {}, tx.sender, rest, true);
      assert {} - {tx.sender} == {};
      GaplessRemove(pending, managed, stateNonce, tx);
      pending := Store(pending, tx.sender, rest);
      if rest.items == map[] {
        beats := beats - {tx.sender};
      }
      EnqueueAll(Above(list, tx.nonce).Values, {});
      if NonceAt(managed, stateNonce, tx.sender) > tx.nonce {
        managed := managed[tx.sender := tx.nonce];
      }
    }

    /** Drops transactions adrift from the pool, one by one in any order. */
    method DropAll(txs: set<Tx>, ghost rest: set<Tx>, ghost spareP: set<Address>, ghost spareQ: set<Address>)
      requires Tables(rest + txs, spareP, spareQ) && txs !! rest && priced.Valid(all)
      modifies this`all, priced
      ensures Tables(rest, spareP, spareQ) && all == old(all) - txs && priced.Valid(all)
    {
      hide Agree, NonEmpty, AllStrict, PricedList.Valid;
      var todo := txs;
      while todo != {}
        invariant todo <= txs && Tables(rest + todo, spareP, spareQ) && priced.Valid(all)
        invariant all == old(all) - (txs - todo)
        decreases todo
      {
        var tx :| tx in todo;
        LetGo(pending, queue, all, rest + todo, tx);
        assert rest + todo - {tx} == rest + (todo - {tx});
        assert all - {tx} + {tx} == all by { AdriftIsFree(pending, queue, all, rest + todo, tx); }
        all := all - {tx};
        priced.Removed(all, tx);
        todo := todo - {tx};
      }
      assert rest + todo == rest;
    }

    /** Replaces a queued list by a part of it and drops the other part from the pool. */
    method ShrinkQueue(a: Address, l: ListView)
      requires Tables({}, {}, {a}) && priced.Valid(all) && a in queue
      requires PartOf(l, queue[a])
      modifies this`queue, this`all, priced
      ensures Tables({}, {}, {a}) && priced.Valid(all)
      ensures queue == old(queue)[a := l] && all == old(all) - (old(queue)[a].items - l.items.Keys).Values
      ensures |l.items| <= |old(queue)[a].items|
    {
      hide Agree, NonEmpty, AllStrict, PricedList.Valid, WellFormed;
      PartLen(l, queue[a]);
      var gone := (queue[a].items - l.items.Keys).Values;
      AgreeSwap(pending, queue, all, {});
      TakeOut(queue, pending, all, {}, a, l);
      StrictAt(queue, false, a);
      UpdateKeeps(queue, a, l, false);
      queue := queue[a := l];
      assert {} + gone == gone;
      AgreeSwap(queue, pending, all, gone);
      DropAll(gone, {}, {}, {a});
    }

    /** promoteTx, for a transaction taken out of the queue. Its slot in the pending table is free, so
        neither the discard nor the replacement branch is ever taken, and the lookup table has it. */
    method PromoteTx(tx: Tx, now: int, ghost adrift: set<Tx>, ghost spareQ: set<Address>)
      requires Tables(adrift, {}, spareQ) && tx in adrift
      modifies this`pending, this`beats, this`managed
      ensures Tables(adrift - {tx}, {}, spareQ)
      ensures pending == old(pending)[tx.sender := Insert(ListAt(old(pending), tx.sender, true), tx)]
      ensures managed == old(managed)[tx.sender := tx.nonce + 1] && beats == old(beats)[tx.sender := now]
    {
      hide Agree, NonEmpty, AllStrict, Insert;
      var list := ListAt(pending, tx.sender, true);
      AdriftIsFree(pending, queue, all, adrift, tx);
      assert Accepts(list, tx, priceBump) && Get(list, tx.nonce) == None && tx in all;
      if tx.sender in pending {
        StrictAt(pending, true, tx.sender);
      }
      PutIn(pending, queue, all, adrift, tx, list);
      InsertedIsNonEmpty(pending, {}, tx, list);
      UpdateKeeps(pending, tx.sender, Insert(list, tx), true);
      pending := pending[tx.sender := Insert(list, tx)];
      beats := beats[tx.sender := now];
      managed := managed[tx.sender := tx.nonce + 1];
    }

    /** Gathers the executable transactions of a queued list and promotes them in nonce order. */
    method PromoteReady(a: Address, now: int)
      requires Tables({}, {}, {a}) && a in queue
      modifies this`pending, this`queue, this`beats, this`managed
      ensures Tables({}, {}, {a}) && a in queue && PartOf(queue[a], old(queue)[a])
      ensures old(Contiguous()) && Waiting(old(queue)[a].items, stateNonce(a), balance(a), maxGas) ==> Contiguous()
      ensures AllAbove(queue[a].items, NonceAt(managed, stateNonce, a))
      ensures queue == old(queue)[a := queue[a]] && SameElsewhere(old(pending), pending, a)
      ensures managed - {a} == old(managed) - {a}
      ensures old(PendingPayable()) && Waiting(old(queue)[a].items, stateNonce(a), balance(a), maxGas) ==>
                PendingPayable()
    {
      hide Agree, NonEmpty, AllStrict, ReadyRun, Sorted, Gapless, IsRun, SameElsewhere, Waiting, AllAbove, PartOf,
           PayableLists, AllPayable, Rest;
      var list := queue[a];
      var run := ReadyRun(list.items, NonceAt(managed, stateNonce, a));
      var rest := list.(items := list.items - run.Keys);
      ghost var low := ReadyMeans(pending, queue, all, managed, stateNonce, a, balance(a), maxGas);
      StrictAt(queue, false, a);
      UpdateKeeps(queue, a, rest, false);
      queue := queue[a := rest];
      PromoteRun(a, Sorted(run), low, now);
    }

    /** The promotion loop: consecutive nonces from `low` on. */
    method PromoteRun(a: Address, ready: seq<Tx>, ghost low: nat, now: int)
      requires Tables(Rest(ready, 0), {}, {a}) && IsRun(ready, a, low)
      modifies this`pending, this`beats, this`managed
      ensures Tables({}, {}, {a}) && SameElsewhere(old(pending), pending, a) && managed - {a} == old(managed) - {a}
      ensures NonceAt(managed, stateNonce, a) ==
                if |ready| > 0 then low + |ready| else old(NonceAt(managed, stateNonce, a))
      ensures old(Contiguous()) && (|ready| > 0 ==> low == old(NonceAt(managed, stateNonce, a))) ==> Contiguous()
      ensures old(PendingPayable()) && AllPayable(ready, stateNonce(a), balance(a), maxGas) ==> PendingPayable()
    {
      hide Agree, NonEmpty, AllStrict, Insert, Gapless, SameElsewhere, PayableLists;
      ghost var payable := PendingPayable() && AllPayable(ready, stateNonce(a), balance(a), maxGas);
      ghost var gapless := Contiguous() && (|ready| > 0 ==> low == NonceAt(managed, stateNonce, a));
      SameIsSame(pending, a);
      for i := 0 to |ready|
        invariant Tables(Rest(ready, i), {}, {a})
        invariant if i > 0 then NonceAt(managed, stateNonce, a) == low + i else managed == old(managed)
        invariant gapless ==> Contiguous()
        invariant payable ==> PendingPayable()
        invariant SameElsewhere(old(pending), pending, a) && managed - {a} == old(managed) - {a}
      {
        var tx := ready[i];
        RestStep(ready, i, a, low);
        if gapless {
          GaplessPromote(pending, managed, stateNonce, tx);
        }
        if payable {
          PayablePromote(pending, stateNonce, balance, maxGas, tx);
        }
        SameAfter(old(pending), pending, a, Insert(ListAt(pending, a, true), tx));
        PromoteTx(tx, now, Rest(ready, i), {a});
        assert managed - {a} == old(managed) - {a};
      }
      NoRest(ready);
    }

    /** Nothing left in the queue of `a` is stale, unpayable or executable, and a remote account is
        within its queue allowance. */
    ghost predicate Settled(a: Address)
      reads this`queue, this`managed, this`stateNonce, this`balance, this`maxGas, this`locals
    {
      a in queue ==>
        && Waiting(queue[a].items, stateNonce(a), balance(a), maxGas)
        && AllAbove(queue[a].items, NonceAt(managed, stateNonce, a))
        && (a !in locals ==> |queue[a].items| <= accountQueue)
    }

    /** One turn of the first loop of promoteExecutables. */
    method PromoteAccount(a: Address, now: int)
      requires Valid()
      modifies this`pending, this`queue, this`beats, this`managed, this`all, priced
      ensures Valid() && all <= old(all) && Settled(a)
      ensures old(Contiguous()) ==> Contiguous()
      ensures SameElsewhere(old(pending), pending, a) && SameElsewhere(old(queue), queue, a)
      ensures managed - {a} == old(managed) - {a} && (old(PendingPayable()) ==> PendingPayable())
      ensures Len(queue, a) <= Len(old(queue), a)
      ensures Capped(old(all), all, stateNonce, balance, maxGas, queue, {a}, accountQueue)
      ensures Excused(old(all), all, stateNonce, balance, maxGas, locals,
                      if a !in locals && Len(old(queue), a) > accountQueue then {a} else {}, false)
    {
      hide Agree, NonEmpty, AllStrict, Gapless, WellFormed, PricedList.Valid, Store, Waiting, AllAbove, PartOf,
           PayableLists, Excused, SameElsewhere, Capped;
      if a !in queue {
        ExcusedNothing(all, stateNonce, balance, maxGas, locals, {});
        CappedNothing(all, stateNonce, balance, maxGas, queue, {a}, accountQueue);
        SameIsSame(pending, a);
        SameIsSame(queue, a);
        return;
      }
      Spare(queue, a);
      PruneQueue(a);
      ghost var pruned, rest := queue[a], queue;
      PromoteReady(a, now);
      ghost var left, current, promoted := queue[a], all, queue;
      PartLen(left, pruned);
      SameAfter(old(queue), rest, a, left);
      PartsWait(left, pruned, stateNonce(a), balance(a), maxGas, 0);
      Curtail(a);
      SameChain(old(queue), promoted, queue, a);
      CappedTurn(old(all), current, all, stateNonce, balance, maxGas, locals, queue, a,
                 if a !in locals && |left.items| > accountQueue then {a} else {}, accountQueue);
      ExcusedTwice(old(all), current, all, stateNonce, balance, maxGas, locals, {}, false,
                   if a !in locals && |left.items| > accountQueue then {a} else {}, false);
      ExcusedWider(old(all), all, stateNonce, balance, maxGas, locals,
                   {} + (if a !in locals && |left.items| > accountQueue then {a} else {}),
                   if a !in locals && Len(old(queue), a) > accountQueue then {a} else {}, false);
    }

    /** The end of a turn: the allowance, and the deletion of an empty list. */
    method Curtail(a: Address)
      requires accountSlots >= 1 && Tables({}, {}, {a}) && priced.Valid(all) && a in queue
      requires Waiting(queue[a].items, stateNonce(a), balance(a), maxGas)
      requires AllAbove(queue[a].items, NonceAt(managed, stateNonce, a))
      modifies this`queue, this`all, priced
      ensures Valid() && all <= old(all) && Settled(a)
      ensures SameElsewhere(old(queue), queue, a) && Len(queue, a) <= |old(queue)[a].items|
      ensures all != old(all) ==> Len(queue, a) == accountQueue
      ensures Excused(old(all), all, stateNonce, balance, maxGas, locals,
                      if a !in locals && |old(queue)[a].items| > accountQueue then {a} else {}, false)
    {
      hide TxPool.Tables, PricedList.Valid, Store, Waiting, AllAbove, PartOf, Excused, SameElsewhere;
      CapQueue(a);
      ghost var capped := queue;
      PartsWait(capped[a], old(queue)[a], stateNonce(a), balance(a), maxGas, NonceAt(managed, stateNonce, a));
      StoreIsLocal(queue, a);
      StoreLen(queue, a);
      DropIfEmpty(a);
      SameChain(old(queue), capped, queue, a);
    }

    /** Drops the queued transactions of `a` that are too old or too costly. */
    method PruneQueue(a: Address)
      requires Tables({}, {}, {a}) && priced.Valid(all) && a in queue
      modifies this`queue, this`all, priced
      ensures Tables({}, {}, {a}) && priced.Valid(all) && a in queue && all <= old(all)
      ensures SameElsewhere(old(queue), queue, a) && |queue[a].items| <= |old(queue)[a].items|
      ensures Waiting(queue[a].items, stateNonce(a), balance(a), maxGas)
      ensures Excused(old(all), all, stateNonce, balance, maxGas, locals, {}, false)
    {
      hide Agree, NonEmpty, AllStrict, WellFormed, PricedList.Valid, Filtered, From, Excused;
      ListFacts(pending, queue, all, a);
      StrictAt(queue, false, a);
      StaleDropped(queue[a], all, a, stateNonce, balance, maxGas, locals);
      var recent := queue[a].(items := From(queue[a].items, stateNonce(a)));
      RecentPart(queue[a], stateNonce(a));
      SameAfter(queue, queue, a, recent);
      ShrinkQueue(a, recent);
      ghost var current, none: set<Address> := all, {};
      var payable := Filtered(recent, balance(a), maxGas);
      PayablePart(recent, balance(a), maxGas);
      SameAfter(queue, queue, a, payable);
      ListFacts(pending, queue, all, a);
      CostlyDropped(recent, all, a, stateNonce, balance, maxGas, locals);
      ShrinkQueue(a, payable);
      ExcusedTwice(old(all), current, all, stateNonce, balance, maxGas, locals, none, false, none, false);
      assert none + none == none;
    }

    /** Drops the queued transactions of a remote account beyond its allowance. */
    method CapQueue(a: Address)
      requires Tables({}, {}, {a}) && priced.Valid(all) && a in queue
      modifies this`queue, this`all, priced
      ensures Tables({}, {}, {a}) && priced.Valid(all) && a in queue && all <= old(all)
      ensures SameElsewhere(old(queue), queue, a) && PartOf(queue[a], old(queue)[a])
      ensures a !in locals ==> |queue[a].items| <= accountQueue
      ensures |queue[a].items| <= |old(queue)[a].items| && (all != old(all) ==> |queue[a].items| == accountQueue)
      ensures Excused(old(all), all, stateNonce, balance, maxGas, locals,
                      if a !in locals && |old(queue)[a].items| > accountQueue then {a} else {}, false)
    {
      hide Agree, NonEmpty, AllStrict, WellFormed, PricedList.Valid, CapTo, Excused;
      ListFacts(pending, queue, all, a);
      ExcusedNothing(all, stateNonce, balance, maxGas, locals, {});
      if a !in locals {
        SurplusDropped(queue[a], all, a, accountQueue, stateNonce, balance, maxGas, locals);
        var capped := queue[a].(items := CapTo(queue[a].items, accountQueue));
        CappedPart(queue[a], accountQueue);
        SameAfter(queue, queue, a, capped);
        ShrinkQueue(a, capped);
      }
    }

    /** Deletes the queue entry of `a` if it became empty. */
    method DropIfEmpty(a: Address)
      requires Tables({}, {}, {a}) && a in queue
      modifies this`queue
      ensures Tables({}, {}, {}) && queue == Store(old(queue), a, old(queue)[a])
    {
      hide Agree, NonEmpty, AllStrict;
      StrictAt(queue, false, a);
      StoreKeeps(queue, {a}, a, queue[a], false);
      assert {a} - {a} == {};
      assert queue[a := queue[a]] == queue;
      if queue[a].items == map[] {
        AgreeSwap(pending, queue, all, {});
        DeleteEmpty(queue, pending, all, {}, a);
        queue := queue - {a};
        AgreeSwap(queue, pending, all, {});
      }
    }

    /** Replaces a pending list by a part of it and drops part of the rest; what remains is adrift. */
    method ShrinkPending(a: Address, l: ListView, drops: set<Tx>, ghost demoted: set<Tx>)
      requires Tables({}, {a}, {}) && priced.Valid(all) && a in pending && PartOf(l, pending[a])
      requires (pending[a].items - l.items.Keys).Values == demoted + drops && demoted !! drops
      modifies this`pending, this`all, priced
      ensures Tables(demoted, {a}, {}) && priced.Valid(all)
      ensures pending == old(pending)[a := l] && all == old(all) - drops
    {
      hide Agree, NonEmpty, AllStrict, PricedList.Valid, WellFormed;
      TakeOut(pending, queue, all, {}, a, l);
      StrictAt(pending, true, a);
      UpdateKeeps(pending, a, l, true);
      assert {} + (demoted + drops) == demoted + drops;
      pending := pending[a := l];
      DropAll(drops, demoted, {a}, {});
    }

    /** Drops the pending transactions of `a` that are too old or too costly, and requeues those that
        the latter invalidate. */
    method PrunePending(a: Address)
      requires Tables({}, {a}, {}) && priced.Valid(all) && a in pending
      modifies this`pending, this`queue, this`all, priced
      ensures Tables({}, {a}, {}) && priced.Valid(all) && a in pending && all <= old(all)
      ensures pending == old(pending)[a := pending[a]]
      ensures Waiting(pending[a].items, stateNonce(a), balance(a), maxGas)
      ensures Consecutive(old(pending)[a].items) ==> Consecutive(pending[a].items)
      ensures Excused(old(all), all, stateNonce, balance, maxGas, locals, {}, false)
    {
      hide Agree, NonEmpty, AllStrict, PricedList.Valid, From, Waiting, Consecutive, Excused;
      ForwardPending(a);
      ghost var current, none: set<Address> := all, {};
      FilterPending(a);
      ExcusedTwice(old(all), current, all, stateNonce, balance, maxGas, locals, none, false, none, false);
      assert none + none == none;
    }

    /** Drops the pending transactions of `a` that are too old. */
    method ForwardPending(a: Address)
      requires Tables({}, {a}, {}) && priced.Valid(all) && a in pending
      modifies this`pending, this`all, priced
      ensures Tables({}, {a}, {}) && priced.Valid(all) && all <= old(all)
      ensures pending == old(pending)[a := old(pending)[a].(items := From(old(pending)[a].items, stateNonce(a)))]
      ensures forall n :: n in pending[a].items ==> n >= stateNonce(a)
      ensures Consecutive(old(pending)[a].items) ==> Consecutive(pending[a].items)
      ensures Excused(old(all), all, stateNonce, balance, maxGas, locals, {}, false)
    {
      hide Agree, NonEmpty, AllStrict, WellFormed, PricedList.Valid, From, PartOf, Consecutive, Excused;
      ListFactsP(pending, queue, all, a);
      var list := pending[a];
      StaleDropped(list, all, a, stateNonce, balance, maxGas, locals);
      var recent := list.(items := From(list.items, stateNonce(a)));
      RecentPart(list, stateNonce(a));
      ForwardRun(list.items, stateNonce(a));
      ShrinkPending(a, recent, (list.items - recent.items.Keys).Values, {});
    }

    /** Drops the pending transactions of `a` that are too costly and requeues those above them. */
    method FilterPending(a: Address)
      requires Tables({}, {a}, {}) && priced.Valid(all) && a in pending
      requires forall n :: n in pending[a].items ==> n >= stateNonce(a)
      modifies this`pending, this`queue, this`all, priced
      ensures Tables({}, {a}, {}) && priced.Valid(all) && all <= old(all)
      ensures pending == old(pending)[a := Filtered(old(pending)[a], balance(a), maxGas)]
      ensures Waiting(pending[a].items, stateNonce(a), balance(a), maxGas)
      ensures Consecutive(old(pending)[a].items) ==> Consecutive(pending[a].items)
      ensures Excused(old(all), all, stateNonce, balance, maxGas, locals, {}, false)
    {
      hide Agree, NonEmpty, AllStrict, WellFormed, PricedList.Valid, Filtered, PartOf, Waiting, Consecutive,
           Unpayable, Invalidated, Excused;
      ListFactsP(pending, queue, all, a);
      StrictAt(pending, true, a);
      var list := pending[a];
      UnpayableDropped(list, all, a, stateNonce, balance, maxGas, locals);
      var payable := Filtered(list, balance(a), maxGas);
      PayablePart(list, balance(a), maxGas);
      FilterSplits(list, balance(a), maxGas);
      FilterRun(list, stateNonce(a), balance(a), maxGas);
      var invalids := Invalidated(list.items, true, balance(a), maxGas).Values;
      ShrinkPending(a, payable, Unpayable(list.items, balance(a), maxGas).Values, invalids);
      EnqueueAll(invalids, {a});
    }

    /** One turn of demoteUnexecutables. */
    method DemoteAccount(a: Address)
      requires Valid() && a in pending
      modifies this`pending, this`queue, this`beats, this`all, priced
      ensures Valid() && all <= old(all) && SameElsewhere(old(pending), pending, a)
      ensures a in pending ==> Demotion(old(pending)[a], pending[a], stateNonce(a), balance(a), maxGas)
      ensures Excused(old(all), all, stateNonce, balance, maxGas, locals, {}, false)
      ensures beats == if a in pending then old(beats) else old(beats) - {a}
    {
      hide Agree, NonEmpty, AllStrict, WellFormed, PricedList.Valid, PartOf, Waiting, Consecutive, Excused;
      Spare(pending, a);
      PrunePending(a);
      SameAfter(old(pending), old(pending), a, pending[a]);
      if pending[a].items != map[] && stateNonce(a) !in pending[a].items {
        Postpone(a);
      }
      SameAfter(old(pending), pending, a, pending[a]);
      StrictAt(pending, true, a);
      StoreKeeps(pending, {a}, a, pending[a], true);
      assert {a} - {a} == {} && pending[a := pending[a]] == pending;
      if pending[a].items == map[] {
        DeleteEmpty(pending, queue, all, {}, a);
        pending, beats := pending - {a}, beats - {a};
      }
    }

    /** A gap in front of a pending list: all its transactions go back to the queue. */
    method Postpone(a: Address)
      requires Tables({}, {a}, {}) && priced.Valid(all) && a in pending
      modifies this`pending, this`queue, this`all, priced
      ensures Tables({}, {a}, {}) && priced.Valid(all) && all == old(all)
      ensures pending == old(pending)[a := old(pending)[a].(items := map[])]
    {
      hide Agree, NonEmpty, AllStrict, PricedList.Valid;
      var list := pending[a];
      var emptied := list.(items := map[]);
      assert PartOf(emptied, list);
      assert list.items - emptied.items.Keys == list.items && list.items.Values == list.items.Values + {};
      ShrinkPending(a, emptied, {}, list.items.Values);
      EnqueueAll(list.items.Values, {a});
    }

    /** demoteUnexecutables. */
    method DemoteUnexecutables()
      requires Valid()
      modifies this`pending, this`queue, this`beats, this`all, priced
      ensures Valid() && all <= old(all) && Demoted(old(pending), pending, {}, stateNonce, balance, maxGas)
      ensures Excused(old(all), all, stateNonce, balance, maxGas, locals, {}, false)
    {
      hide PricedList.Valid, TxPool.Tables, Excused, Demoted, Demotion, SameElsewhere;
      ghost var none: set<Address> := {};
      ExcusedNothing(all, stateNonce, balance, maxGas, locals, none);
      var todo := pending.Keys;
      NotDemoted(pending, stateNonce, balance, maxGas);
      while todo != {}
        invariant todo <= pending.Keys && Valid() && all <= old(all)
        invariant Demoted(old(pending), pending, todo, stateNonce, balance, maxGas)
        invariant Excused(old(all), all, stateNonce, balance, maxGas, locals, {}, false)
        decreases todo
      {
        var a :| a in todo;
        ghost var before, current := pending, all;
        DemoteAccount(a);
        DemotedOneMore(old(pending), before, pending, todo, stateNonce, balance, maxGas, a);
        ExcusedTwice(old(all), current, all, stateNonce, balance, maxGas, locals, none, false, none, false);
        assert none + none == none;
        todo := todo - {a};
      }
    }

    /** list.Cap(list.Len() - 1) on a pending list, with the bookkeeping for the dropped transaction. */
    method CapOne(a: Address)
      requires Valid() && Len(pending, a) > 1
      modifies this`pending, this`managed, this`all, priced
      ensures Valid() && all <= old(all) && (old(Contiguous()) ==> Contiguous())
      ensures pending == old(pending)[a := Shorter(old(pending)[a])]
      ensures Receded(old(managed), managed, stateNonce)
    {
      hide Agree, NonEmpty, AllStrict, PricedList.Valid, WellFormed, Gapless, PartOf, Shorter, Receded;
      RecededNothing(managed, stateNonce);
      var list := pending[a];
      var top := MaxKey(list.items.Keys);
      var tx := list.items[top];
      ListFactsP(pending, queue, all, a);
      ShorterPart(list);
      Spare(pending, a);
      if Contiguous() {
        GaplessCap(pending, managed, stateNonce, a);
      }
      StrictAt(pending, true, a);
      StoreKeeps(pending, {}, a, Shorter(list), true);
      assert {} - {a} == {};
      ShrinkPending(a, Shorter(list), {tx}, {});
      if NonceAt(managed, stateNonce, a) > tx.nonce {
        RecededOne(managed, stateNonce, a, tx.nonce);
        managed := managed[a := tx.nonce];
      }
    }

    /** One equalising round: every offender loses its highest nonce. */
    method Round(offenders: seq<Address>)
      requires Valid() && Distinct(offenders) && forall i :: 0 <= i < |offenders| ==> Len(pending, offenders[i]) > 1
      modifies this`pending, this`managed, this`all, priced
      ensures Valid() && all <= old(all) && (old(Contiguous()) ==> Contiguous())
      ensures Rounded(old(pending), pending, offenders, |offenders|)
      ensures Total(pending) == Total(old(pending)) - |offenders|
      ensures Receded(old(managed), managed, stateNonce)
    {
      hide TxPool.Valid, TxPool.Contiguous, Shorter, Total, Receded, Rounded, Distinct, Len;
      RecededNothing(managed, stateNonce);
      RoundStarts(pending, offenders);
      for i := 0 to |offenders|
        invariant Valid() && all <= old(all) && (old(Contiguous()) ==> Contiguous())
        invariant Rounded(old(pending), pending, offenders, i)
        invariant Total(pending) == Total(old(pending)) - i
        invariant Receded(old(managed), managed, stateNonce)
      {
        var a := offenders[i];
        ghost var nonces := managed;
        RoundStep(old(pending), pending, offenders, i);
        TotalUpdate(pending, a, Shorter(pending[a]));
        CapOne(a);
        RecededTwice(old(managed), nonces, managed, stateNonce);
      }
    }

    /** Rounds over the offenders, all of the same length, until the pool fits or they are down to
        `floor`. */
    method LevelDown(offenders: seq<Address>, floor: nat, total: nat) returns (count: nat)
      requires Valid() && |offenders| > 0 && Distinct(offenders) && total == Total(pending)
      requires Level(pending, offenders) && Len(pending, offenders[0]) >= floor >= 1
      modifies this`pending, this`managed, this`all, priced
      ensures Valid() && all <= old(all) && (old(Contiguous()) ==> Contiguous())
      ensures Receded(old(managed), managed, stateNonce)
      ensures count == Total(pending) && Lowered(old(pending), pending, offenders)
      ensures Level(pending, offenders) && Len(pending, offenders[0]) >= floor
      ensures count <= globalSlots || Len(pending, offenders[0]) == floor
      ensures total > globalSlots ==> count + |offenders| > globalSlots
    {
      hide TxPool.Valid, TxPool.Contiguous, Total, Shorter, Lowered, Rounded, Level, Receded;
      count := total;
      RecededNothing(managed, stateNonce);
      LevelAll(pending, offenders);
      LoweredNothing(pending, offenders);
      while count > globalSlots && Len(pending, offenders[|offenders| - 1]) > floor
        invariant Valid() && all <= old(all) && (old(Contiguous()) ==> Contiguous())
        invariant Receded(old(managed), managed, stateNonce)
        invariant count == Total(pending) && Lowered(old(pending), pending, offenders)
        invariant Level(pending, offenders) && Len(pending, offenders[0]) >= floor
        invariant forall i :: 0 <= i < |offenders| ==> Len(pending, offenders[i]) == Len(pending, offenders[0])
        invariant total > globalSlots ==> count + |offenders| > globalSlots
        decreases count
      {
        ghost var before, nonces := pending, managed;
        Round(offenders);
        RecededTwice(old(managed), nonces, managed, stateNonce);
        LoweredRound(old(pending), before, pending, offenders);
        LevelAgain(before, pending, offenders);
        LevelAll(pending, offenders);
        count := count - |offenders|;
      }
    }

    /** The pending half of the limits in promoteExecutables: equalise the allowances of the accounts
        above AccountSlots until the pool fits. */
    method EqualizePending() returns (offenders: seq<Address>)
      requires Valid()
      modifies this`pending, this`managed, this`all, priced
      ensures Valid() && all <= old(all) && (old(Contiguous()) ==> Contiguous())
      ensures Receded(old(managed), managed, stateNonce)
      ensures Lowered(old(pending), pending, offenders) && Distinct(offenders)
      ensures Total(old(pending)) <= globalSlots ==> offenders == []
      ensures Total(old(pending)) > globalSlots ==> Total(pending) + |offenders| > globalSlots
      ensures Leveled(pending, offenders, Total(pending) > globalSlots)
      ensures Fair(pending, offenders, locals, accountSlots, Total(pending) > globalSlots)
    {
      hide TxPool.Valid, TxPool.Contiguous, Total, Lowered, Receded, Ranked, Leveled, Level, Distinct, Fair,
           WithinSlots;
      offenders := [];
      HasSlots();
      LoweredNothing(pending, []);
      RecededNothing(managed, stateNonce);
      var count := CountTxs(pending);
      var spammers := set a | a in pending && a !in locals && Len(pending, a) > accountSlots;
      RankedStart(pending, spammers, locals, accountSlots);
      if count <= globalSlots {
        RankedEnd(pending, offenders, spammers, locals, accountSlots, false);
        return;
      }
      offenders, spammers, count := Gather(spammers, count);
      if count > globalSlots && |offenders| > 0 {
        ghost var before, nonces := pending, managed;
        LevelFacts(pending, offenders, accountSlots, locals);
        count := LevelDown(offenders, accountSlots, count);
        RankedLast(before, pending, offenders, locals, accountSlots);
        LoweredTwice(old(pending), before, pending, offenders);
        RecededTwice(old(managed), nonces, managed, stateNonce);
      }
      RankedEnd(pending, offenders, spammers, locals, accountSlots, count > globalSlots);
    }

    lemma HasSlots()
      requires Valid()
      ensures accountSlots >= 1
    {}

    /** The loop over the spammers, longest first. */
    method Gather(spammers0: set<Address>, total: nat)
      returns (offenders: seq<Address>, spammers: set<Address>, count: nat)
      requires Valid() && total == Total(pending) > globalSlots
      requires Ranked(pending, [], spammers0, locals, accountSlots) && Leveled(pending, [], true)
      modifies this`pending, this`managed, this`all, priced
      ensures Valid() && all <= old(all) && (old(Contiguous()) ==> Contiguous())
      ensures Receded(old(managed), managed, stateNonce) && Lowered(old(pending), pending, offenders)
      ensures Ranked(pending, offenders, spammers, locals, accountSlots)
      ensures count == Total(pending) && Leveled(pending, offenders, count > globalSlots)
      ensures count + |offenders| > globalSlots && (count > globalSlots ==> spammers == {})
    {
      hide TxPool.Valid, TxPool.Contiguous, Total, Lowered, Receded, Ranked, Leveled, Distinct, Len;
      offenders, spammers, count := [], spammers0, total;
      LoweredNothing(pending, []);
      RecededNothing(managed, stateNonce);
      while count > globalSlots && spammers != {}
        invariant Valid() && all <= old(all) && (old(Contiguous()) ==> Contiguous())
        invariant Receded(old(managed), managed, stateNonce)
        invariant count == Total(pending) && Lowered(old(pending), pending, offenders)
        invariant Ranked(pending, offenders, spammers, locals, accountSlots)
        invariant Leveled(pending, offenders, count > globalSlots)
        invariant count + |offenders| > globalSlots
        decreases spammers
      {
        RankedFacts(pending, offenders, spammers, locals, accountSlots);
        var offender := Largest(pending, spammers);
        count := JoinOffender(offenders, spammers, offender, count, old(pending), old(managed));
        offenders, spammers := offenders + [offender], spammers - {offender};
      }
    }

    /** One turn of the loop over the spammers: the offenders so far are leveled down towards the
        next one. */
    method JoinOffender(offenders: seq<Address>, ghost spammers: set<Address>, offender: Address, total: nat,
                        ghost pending0: Accounts, ghost managed0: map<Address, nat>) returns (count: nat)
      requires Valid() && total == Total(pending) && total > globalSlots
      requires Ranked(pending, offenders, spammers, locals, accountSlots) && Leveled(pending, offenders, true)
      requires offender in spammers && forall a :: a in spammers ==> Len(pending, a) <= Len(pending, offender)
      requires Lowered(pending0, pending, offenders) && Receded(managed0, managed, stateNonce)
      modifies this`pending, this`managed, this`all, priced
      ensures Valid() && all <= old(all) && (old(Contiguous()) ==> Contiguous())
      ensures Lowered(pending0, pending, offenders + [offender]) && Receded(managed0, managed, stateNonce)
      ensures count == Total(pending) && count + |offenders| + 1 > globalSlots
      ensures Ranked(pending, offenders + [offender], spammers - {offender}, locals, accountSlots)
      ensures Leveled(pending, offenders + [offender], count > globalSlots)
    {
      hide PricedList.Valid, TxPool.Tables, Gapless, Total, Lowered, Receded, Ranked, Leveled, Level, Distinct;
      ghost var before, nonces := pending, managed;
      RankedFacts(pending, offenders, spammers, locals, accountSlots);
      if |offenders| > 0 {
        JoinFacts(pending, offenders, spammers, locals, accountSlots, offender);
        count := LevelDown(offenders, Len(pending, offender), total);
      } else {
        count := total;
        RecededNothing(managed, stateNonce);
        LoweredNothing(pending, offenders);
        LevelNone(pending);
      }
      RankedNext(before, pending, offenders, spammers, locals, accountSlots, offender);
      LevelNext(before, pending, offenders, spammers, locals, accountSlots, offender, count > globalSlots);
      LoweredOnwards(pending0, before, pending, offenders, offender);
      RecededTwice(managed0, nonces, managed, stateNonce);
    }

    /** Removes every queued transaction of an account through removeTx, in any order. */
    method DropAccount(a: Address)
      requires Valid() && a in queue
      modifies this`pending, this`queue, this`beats, this`managed, this`all, priced
      ensures Valid() && all <= old(all) && pending == old(pending) && managed == old(managed) && beats == old(beats)
      ensures queue == old(queue) - {a}
    {
      hide Agree, PricedList.Valid, PricedList.Follows, Store, RemoveNonce, Gapless, AllStrict;
      while a in queue
        invariant Valid() && all <= old(all) && pending == old(pending) && managed == old(managed) &&
                  beats == old(beats)
        invariant queue - {a} == old(queue) - {a}
        decreases Len(queue, a)
      {
        ListFacts(pending, queue, all, a);
        StrictAt(queue, false, a);
        var n :| n in queue[a].items;
        var tx := queue[a].items[n];
        OneLess(queue, a, n);
        RemoveTx(tx, true, multiset{});
      }
      assert queue - {a} == queue;
    }

    /** Removes the highest queued nonces of an account through removeTx, highest first. */
    method DropTop(a: Address, count: nat)
      requires Valid() && a in queue && count < Len(queue, a)
      modifies this`pending, this`queue, this`beats, this`managed, this`all, priced
      ensures Valid() && all <= old(all) && pending == old(pending) && managed == old(managed) && beats == old(beats)
      ensures queue == old(queue)[a := Cut(old(queue)[a], Len(old(queue), a) - count)]
    {
      hide Agree, NonEmpty, PricedList.Valid, PricedList.Follows, Store, RemoveNonce, Gapless, AllStrict, Cut;
      NothingCut(queue, a);
      StrictAt(queue, false, a);
      for i := 0 to count
        invariant Valid() && all <= old(all) && pending == old(pending) && managed == old(managed) &&
                  beats == old(beats)
        invariant queue == old(queue)[a := Cut(old(queue)[a], Len(old(queue), a) - i)]
      {
        ListFacts(pending, queue, all, a);
        CutStep(old(queue), a, Len(old(queue), a) - i);
        var tx := queue[a].items[MaxKey(queue[a].items.Keys)];
        RemoveTx(tx, true, multiset{});
      }
    }

    /** The queue half of the limits in promoteExecutables: drop whole remote accounts, latest
        heartbeat first, and finally the highest nonces of one of them, until the queue fits. */
    method TrimQueue()
      requires Valid()
      modifies this`pending, this`queue, this`beats, this`managed, this`all, priced
      ensures Valid() && all <= old(all) && pending == old(pending) && managed == old(managed)
      ensures Total(old(queue)) <= globalQueue ==> queue == old(queue)
      ensures Total(old(queue)) > globalQueue ==>
                Total(queue) == globalQueue || (Total(queue) > globalQueue && forall a :: a in queue ==> a in locals)
      ensures Thinned(old(queue), queue, locals)
    {
      hide PricedList.Valid, TxPool.Tables, Total, Thinned;
      ThinnedNothing(queue, locals);
      var queued := CountTxs(queue);
      if queued <= globalQueue {
        return;
      }
      var todo := set a | a in queue && a !in locals;
      var drop := queued - globalQueue;
      while drop > 0 && todo != {}
        invariant Valid() && all <= old(all) && pending == old(pending) && managed == old(managed) &&
                  beats == old(beats)
        invariant 0 <= drop == Total(queue) - globalQueue && Thinned(old(queue), queue, locals)
        invariant forall a :: a in todo ==> a in queue && a !in locals && a in old(queue) && queue[a] == old(queue)[a]
        invariant drop > 0 ==> forall a :: a in queue ==> a in todo || a in locals
        decreases todo
      {
        var a := Latest(beats, todo);
        todo := todo - {a};
        drop := TrimAccount(a, drop, old(queue));
      }
    }

    /** Drops all queued transactions of an account, or as many as are in excess. */
    method TrimAccount(a: Address, excess: nat, ghost queue0: Accounts) returns (drop: nat)
      requires Valid() && a in queue && a !in locals && excess > 0 && excess <= Total(queue)
      requires Thinned(queue0, queue, locals) && a in queue0 && queue[a] == queue0[a]
      modifies this`pending, this`queue, this`beats, this`managed, this`all, priced
      ensures Valid() && all <= old(all) && pending == old(pending) && managed == old(managed) && beats == old(beats)
      ensures Thinned(queue0, queue, locals) && (drop > 0 ==> a !in queue)
      ensures queue.Keys <= old(queue).Keys
      ensures forall b :: b in old(queue) && b != a ==> b in queue && queue[b] == old(queue)[b]
      ensures drop <= excess && Total(queue) - drop == Total(old(queue)) - excess
    {
      hide PricedList.Valid, TxPool.Tables, Total, Thinned, Cut;
      var size := Len(queue, a);
      if size <= excess {
        TotalWithout(queue, a);
        ThinnedGone(queue0, queue, locals, a);
        DropAccount(a);
        drop := excess - size;
      } else {
        ghost var kept := Cut(queue[a], size - excess);
        CutLen(queue[a], size - excess);
        TotalUpdate(queue, a, kept);
        ThinnedStep(queue0, queue, locals, a, size - excess);
        DropTop(a, excess);
        drop := 0;
      }
    }

    /** The pool is within its limits: what is above them belongs to local accounts or, for pending
        transactions, to accounts within their slots. */
    ghost predicate WithinLimits()
      reads this`pending, this`queue, this`locals
    {
      && (Total(pending) <= globalSlots || WithinSlots(pending, locals, accountSlots))
      && (Total(queue) <= globalQueue || forall a :: a in queue ==> a in locals)
    }

    /** The second half of promoteExecutables. What it drops is remote, and it drops nothing unless a limit is
        exceeded. */
    method EnforceLimits(ghost all0: set<Tx>, ghost queue0: Accounts)
      requires Valid() && all <= all0 && Shrunk(queue0, queue)
      modifies this`pending, this`queue, this`beats, this`managed, this`all, priced
      ensures Valid() && all <= old(all) && (old(Contiguous()) ==> Contiguous())
      ensures WithinLimits() && (old(PendingPayable()) ==> PendingPayable())
      ensures Thinned(old(queue), queue, locals) && Receded(old(managed), managed, stateNonce)
      ensures Excused(old(all), all, stateNonce, balance, maxGas, locals, {},
                      |all0| > globalSlots || Total(queue0) > globalQueue)
      ensures (queue == old(queue) && all == old(all)) || AtLimit(pending, queue, globalSlots, globalQueue)
    {
      hide TxPool.Valid, TxPool.Contiguous, Total, Receded, Thinned, Lowered, PayableLists, Excused, Shrunk, Leveled,
           Distinct, Fair, AtLimit, WithinSlots;
      HasSlots();
      TablesAgree();
      ghost var before := pending;
      var offenders := EqualizePending();
      ghost var kept := all;
      TablesAgree();
      if PayableLists(before, stateNonce, balance, maxGas) {
        PayableLowered(before, pending, offenders, stateNonce, balance, maxGas);
      }
      TrimQueue();
      TablesAgree();
      ghost var over := Total(pending) > globalSlots;
      FairlyWithin(pending, offenders, locals, accountSlots, over);
      LimitReached(before, old(queue), old(all), pending, queue, all, offenders, locals, accountSlots, over,
                   globalSlots, globalQueue);
      Equalized(before, old(queue), old(all), pending, kept, offenders, all0, accountSlots, over, globalSlots,
                stateNonce, balance, maxGas, locals);
      Trimmed(pending, old(queue), kept, queue, all, queue0, globalQueue, stateNonce, balance, maxGas, locals);
      ExcusedFurther(old(all), kept, all, stateNonce, balance, maxGas, locals, |all0| > globalSlots,
                     Total(queue0) > globalQueue);
    }

    /** promoteExecutables, for the given accounts or for all queued ones. Transactions are dropped only if they
        are hopeless, or remote while their account or the pool exceeds a limit, and no more of them than a limit
        calls for. */
    method PromoteExecutables(accounts: Option<set<Address>>, now: int)
      requires Valid()
      modifies this`pending, this`queue, this`beats, this`managed, this`all, priced
      ensures Valid() && all <= old(all) && (old(Contiguous()) ==> Contiguous())
      ensures WithinLimits() && (old(PendingPayable()) ==> PendingPayable())
      ensures forall a :: (if accounts.Some? then a in accounts.value else true) ==> Settled(a)
      ensures Excused(old(all), all, stateNonce, balance, maxGas, locals, Crowded(old(queue), locals, accountQueue),
                      |old(all)| > globalSlots || Total(old(queue)) > globalQueue)
      ensures Needed(old(all), all, stateNonce, balance, maxGas, pending, queue, accountQueue, globalSlots, globalQueue)
    {
      hide PricedList.Valid, TxPool.Tables, Gapless, Total, Waiting, AllAbove, Receded, Thinned, PayableLists, Excused,
           Shrunk, Crowded, TxPool.WithinLimits, Capped, AtLimit, Needed;
      PromoteAccounts(if accounts.Some? then accounts.value else queue.Keys, now);
      ghost var before, nonces, current, none: set<Address> := queue, managed, all, {};
      EnforceLimits(old(all), old(queue));
      CappedIsNeeded(old(all), current, all, stateNonce, balance, maxGas, before, pending, queue,
                     if accounts.Some? then accounts.value else old(queue).Keys, accountQueue, globalSlots,
                     globalQueue);
      ghost var over := Crowded(old(queue), locals, accountQueue);
      ExcusedTwice(old(all), current, all, stateNonce, balance, maxGas, locals, over, false, none,
                   |old(all)| > globalSlots || Total(old(queue)) > globalQueue);
      assert over + none == over;
      forall a | (if accounts.Some? then a in accounts.value else true) && a in queue ensures Settled(a) {
        ThinnedAt(before, queue, locals, a);
        SettledPart(before[a], Len(queue, a), nonces, managed, stateNonce, a, balance(a), maxGas);
      }
    }

    /** The first loop of promoteExecutables. */
    method PromoteAccounts(accounts: set<Address>, now: int)
      requires Valid()
      modifies this`pending, this`queue, this`beats, this`managed, this`all, priced
      ensures Valid() && all <= old(all) && (old(Contiguous()) ==> Contiguous())
      ensures old(PendingPayable()) ==> PendingPayable()
      ensures queue.Keys <= old(queue).Keys + accounts && forall a :: a in accounts ==> Settled(a)
      ensures Shrunk(old(queue), queue)
      ensures Excused(old(all), all, stateNonce, balance, maxGas, locals, Crowded(old(queue), locals, accountQueue),
                      false)
      ensures Capped(old(all), all, stateNonce, balance, maxGas, queue, accounts, accountQueue)
    {
      hide TxPool.Valid, TxPool.Contiguous, TxPool.PendingPayable, Waiting, AllAbove, Excused, Shrunk, Crowded, Len,
           SameElsewhere, Capped;
      CappedNothing(all, stateNonce, balance, maxGas, queue, {}, accountQueue);
      ghost var over := Crowded(queue, locals, accountQueue);
      ExcusedNothing(all, stateNonce, balance, maxGas, locals, over);
      ShrunkNothing(queue);
      var todo := accounts;
      assert accounts - todo == {};
      while todo != {}
        invariant Valid() && all <= old(all) && (old(Contiguous()) ==> Contiguous())
        invariant todo <= accounts && forall a :: a in accounts && a !in todo ==> Settled(a)
        invariant old(PendingPayable()) ==> PendingPayable()
        invariant queue.Keys <= old(queue).Keys + accounts
        invariant Shrunk(old(queue), queue) && Excused(old(all), all, stateNonce, balance, maxGas, locals, over, false)
        invariant Capped(old(all), all, stateNonce, balance, maxGas, queue, accounts - todo, accountQueue)
        decreases todo
      {
        var a :| a in todo;
        ghost var before, nonces, current := queue, managed, all;
        PromoteAccount(a, now);
        SameLookup(before, queue, a);
        ghost var mine := if a !in locals && Len(before, a) > accountQueue then {a} else {};
        ShrunkOne(old(queue), before, queue, locals, accountQueue, a);
        ExcusedTwice(old(all), current, all, stateNonce, balance, maxGas, locals, over, false, mine, false);
        assert over + mine == over;
        SameNonces(nonces, managed, stateNonce, a);
        CappedOn(old(all), current, all, stateNonce, balance, maxGas, before, queue, accounts - todo, a, accountQueue);
        assert accounts - todo + {a} == accounts - (todo - {a});
        todo := todo - {a};
      }
      assert accounts - todo == accounts;
    }

    /** validateTx: why a transaction is refused, if it is. */
    function Validation(tx: Tx): Option<PoolError>
      reads this`maxGas, this`balance, this`stateNonce, this`joinNonce, this`gasPrice, this`homestead
    {
      if tx.size > 32 * 1024 then Some(OversizedData)
      else if tx.value < 0 then Some(NegativeValue)
      else if maxGas < tx.gas then Some(GasLimit)
      else if !tx.signed then Some(InvalidSender)
      else if balance(tx.sender) < tx.cost then Some(InsufficientFunds)
      else if stateNonce(tx.sender) > tx.nonce then Some(NonceTooLow)
      else match tx.kind
        case JoinTx(None) => Some(JoinNonceInvalid)
        case JoinTx(Some(n)) => if joinNonce(tx.sender) != n then Some(JoinNonceMismatch) else None
        case OtherTx => Some(UnsupportedType)
        case _ =>
          if gasPrice > tx.gasPrice then Some(PoolError.Underpriced)
          else match Intrinsic(tx.data, tx.creates, homestead)
            case None => Some(PoolError.IntrinsicGas)
            case Some(gas) => if tx.gas < gas then Some(PoolError.IntrinsicGas) else None
    }

    /** A transaction passes exactly if it is small, signed, payable, current and of a known type, a join carries the
        account's join nonce, and any other reaches the pool's price and covers its intrinsic gas. */
    lemma ValidationExactly(tx: Tx)
      ensures Validation(tx).None? <==>
                && tx.size <= 32768 && tx.value >= 0 && tx.gas <= maxGas && tx.signed
                && tx.cost <= balance(tx.sender) && tx.nonce >= stateNonce(tx.sender)
                && if tx.kind.JoinTx? then tx.kind.joinNonce == Some(joinNonce(tx.sender))
                   else
                     && (tx.kind.GeneralTx? || tx.kind.EthTx?) && tx.gasPrice >= gasPrice
                     && ExactGas(tx.data, tx.creates, homestead) <= Min(tx.gas, MAX_UINT64)
      ensures Validation(tx).None? ==> !Hopeless(tx, stateNonce, balance, maxGas)
    {
      hide ExactGas;
    }

    /** What an addition pooled stays, as long as none of the later ones takes its slot and the pool is not full or its
        account is local. */
    lemma {:induction false} AddedStays(txs: seq<Tx>, rs: seq<Outcome>, trace: seq<(set<Tx>, set<Address>)>, i: nat,
                                        n: nat)
      requires i < n && AddedUpTo(txs, n, rs, trace) && rs[i].Pooled?
      requires forall j :: i < j < n ==> !SameSlot(txs[i], txs[j])
      requires forall j :: i < j < n ==> |trace[j].0| < globalSlots + globalQueue || IsLocal(txs[i], trace[j].1)
      ensures txs[i] in trace[n].0
      decreases n
    {
      hide TxPool.Validation, MadeWay, Outbids, IsLocal;
      if n == i + 1 {
        assert AddedAs(txs[i], trace[i].0, trace[i + 1].0, Validation(txs[i]), globalSlots + globalQueue, trace[i].1,
                       priceBump, rs[i]);
      } else {
        AddedStays(txs, rs, trace, i, n - 1);
        assert AddedAs(txs[n - 1], trace[n - 1].0, trace[n].0, Validation(txs[n - 1]), globalSlots + globalQueue,
                       trace[n - 1].1, priceBump, rs[n - 1]);
      }
    }

    /** The first `n` of the transactions were added with the given outcomes; `trace` holds the lookup table and the
        local accounts before each addition and after the last. */
    ghost predicate AddedUpTo(txs: seq<Tx>, n: nat, rs: seq<Outcome>, trace: seq<(set<Tx>, set<Address>)>)
      reads this`maxGas, this`balance, this`stateNonce, this`joinNonce, this`gasPrice, this`homestead
    {
      && n <= |txs| && n <= |rs| && n < |trace|
      && forall i :: 0 <= i < n ==>
           AddedAs(txs[i], trace[i].0, trace[i + 1].0, Validation(txs[i]), globalSlots + globalQueue, trace[i].1,
                   priceBump, rs[i])
    }

    lemma NoneAdded(txs: seq<Tx>)
      ensures AddedUpTo(txs, 0, [], [(all, locals)])
    {}

    lemma AddedOneMore(txs: seq<Tx>, n: nat, rs: seq<Outcome>, trace: seq<(set<Tx>, set<Address>)>, r: Outcome,
                       all: set<Tx>, locals: set<Address>)
      requires AddedUpTo(txs, n, rs, trace) && n < |txs| && |rs| == n && |trace| == n + 1
      requires AddedAs(txs[n], trace[n].0, all, Validation(txs[n]), globalSlots + globalQueue, trace[n].1, priceBump, r)
      ensures AddedUpTo(txs, n + 1, rs + [r], trace + [(all, locals)])
    {
      hide AddedAs, TxPool.Validation;
      var rs', trace' := rs + [r], trace + [(all, locals)];
      forall i | 0 <= i < n + 1
        ensures AddedAs(txs[i], trace'[i].0, trace'[i + 1].0, Validation(txs[i]), globalSlots + globalQueue,
                        trace'[i].1, priceBump, rs'[i])
      {
        if i < n {
          assert trace'[i] == trace[i] && trace'[i + 1] == trace[i + 1] && rs'[i] == rs[i];
        }
      }
    }

    /** Removes transactions whose heap entries have been set aside. */
    method DropPriced(drop: seq<Tx>)
      requires accountSlots >= 1 && Tables({}, {}, {}) && priced.Follows(all, multiset(drop))
      modifies this`pending, this`queue, this`beats, this`managed, this`all, priced
      ensures Valid() && (old(Contiguous()) ==> Contiguous())
      ensures all == set tx | tx in old(all) && tx !in drop
    {
      hide Agree, NonEmpty, AllStrict, PricedList.Follows, Gapless;
      assert drop[0..] == drop;
      for i := 0 to |drop|
        invariant Tables({}, {}, {}) && priced.Follows(all, multiset(drop[i..]))
        invariant old(Contiguous()) ==> Contiguous()
        invariant all == set tx | tx in old(all) && tx !in drop[..i]
      {
        assert drop[i..] == [drop[i]] + drop[i + 1..];
        assert multiset(drop[i..]) == multiset(drop[i + 1..]) + multiset{drop[i]};
        RemoveTx(drop[i], false, multiset(drop[i + 1..]));
        assert drop[..i + 1] == drop[..i] + [drop[i]];
      }
      assert drop[..|drop|] == drop && multiset(drop[|drop|..]) == multiset{};
    }

    /** SetGasPrice: afterwards exactly the local transactions and those at or above the price are left. */
    method SetGasPrice(price: nat)
      requires Valid()
      modifies this`gasPrice, this`pending, this`queue, this`beats, this`managed, this`all, priced
      ensures Valid() && gasPrice == price && (old(Contiguous()) ==> Contiguous())
      ensures all == set tx | tx in old(all) && (IsLocal(tx, locals) || tx.gasPrice >= price)
    {
      hide Agree, NonEmpty, AllStrict, Gapless, PricedList.Follows;
      gasPrice := price;
      var drop := priced.Cap(price, locals, all);
      DropPriced(drop);
    }

    /** The head of add: when the pool is full, refuse an underpriced transaction or make room. `drop` is what the
        price heap hands out; the pool shrinks by the number of distinct transactions in it. */
    method MakeRoom(tx: Tx) returns (ok: bool, ghost drop: seq<Tx>)
      requires Valid()
      modifies this`pending, this`queue, this`beats, this`managed, this`all, priced
      ensures Valid() && (old(Contiguous()) ==> Contiguous())
      ensures RoomFor(tx, old(all), all, globalSlots + globalQueue, locals, ok)
      ensures ok && |old(all)| >= globalSlots + globalQueue ==>
                && |all| + |set t | t in drop| == |old(all)|
                && (|drop| == |old(all)| - (globalSlots + globalQueue - 1) ||
                    forall t :: t in all ==> IsLocal(t, locals))
                && (SingleEntries(old(priced.items), old(all)) ==> |set t | t in drop| == |drop|)
    {
      hide TxPool.Tables, Gapless, PricedList.Follows, PriceKey, IsLocal, Divided;
      drop := [];
      if |all| >= globalSlots + globalQueue {
        var under := priced.Underpriced(tx, locals, all);
        if under {
          return false, drop;
        }
        ghost var entries := priced.items;
        SingleFewer(old(priced.items), entries, all);
        var out := priced.Discard(|all| - (globalSlots + globalQueue - 1), locals, all);
        DropPriced(out);
        drop := out;
        RoomMade(tx, old(all), all, drop, globalSlots + globalQueue, locals);
        DropsDistinct(old(all), drop);
        if SingleEntries(entries, old(all)) {
          AllDropped(old(all), drop, entries);
        }
      }
      return true, drop;
    }

    /** The middle of add: the transaction's nonce is already pending. */
    method ReplacePending(tx: Tx) returns (r: Outcome)
      requires Valid() && tx !in all && !Free(pending, tx)
      modifies this`pending, this`all, priced
      ensures Valid() && (old(Contiguous()) ==> Contiguous())
      ensures var was := old(pending)[tx.sender].items[tx.nonce];
              if Outbids(was, tx, priceBump) then
                r == Pooled(true) && was in old(all) && all == old(all) - {was} + {tx} && Held(pending, tx)
              else r == Refused(ReplaceUnderpriced) && all == old(all) && pending == old(pending)
    {
      hide Agree, NonEmpty, AllStrict, PricedList.Valid, Outbids, Insert, Gapless;
      var list := pending[tx.sender];
      var was := list.items[tx.nonce];
      if !Accepts(list, tx, priceBump) {
        return Refused(ReplaceUnderpriced);
      }
      Replace(pending, queue, all, tx);
      InsertedIsNonEmpty(pending, {}, tx, list);
      StrictAt(pending, true, tx.sender);
      UpdateKeeps(pending, tx.sender, Insert(list, tx), true);
      if Contiguous() {
        GaplessReplace(pending, managed, stateNonce, tx);
      }
      pending := pending[tx.sender := Insert(list, tx)];
      all := all - {was};
      assert all + {was} == old(all);
      priced.Removed(all, was);
      all := all + {tx};
      priced.Put(tx, all - {tx});
      return Pooled(true);
    }

    /** add. */
    method Add(tx: Tx, local: bool) returns (r: Outcome)
      requires Valid()
      modifies this`locals, this`pending, this`queue, this`beats, this`managed, this`all, priced
      ensures Valid() && (old(Contiguous()) ==> Contiguous())
      ensures old(locals) <= locals <= old(locals) + if local then {tx.sender} else {}
      ensures AddedAs(tx, old(all), all, old(Validation(tx)), globalSlots + globalQueue, old(locals), priceBump, r)
    {
      hide TxPool.Valid, TxPool.Contiguous, IsLocal, SingleEntries, PriceKey, TxPool.Validation, AddedAs, RoomFor,
           Takes;
      KnownAs(tx, all, Validation(tx), globalSlots + globalQueue, locals, priceBump);
      if tx in all {
        return Refused(KnownTransaction);
      }
      var err := Validation(tx);
      if err.Some? {
        return Refused(err.value);
      }
      var ok, drop := MakeRoom(tx);
      ghost var room := all;
      RoomIsLess(tx, old(all), room, globalSlots + globalQueue, locals, ok);
      if ok {
        r := Place(tx, local);
      } else {
        r := Refused(PoolError.Underpriced);
      }
      PlacedAs(tx, old(all), room, all, globalSlots + globalQueue, old(locals), priceBump, ok, r);
    }

    /** The tail of add: replace a pending transaction or queue the new one. */
    method Place(tx: Tx, local: bool) returns (r: Outcome)
      requires Valid() && tx !in all
      modifies this`locals, this`pending, this`queue, this`all, priced
      ensures Valid() && (old(Contiguous()) ==> Contiguous()) && Takes(tx, old(all), all, priceBump, r)
      ensures locals == if r.Pooled? && local && old(Free(pending, tx)) then old(locals) + {tx.sender} else old(locals)
    {
      hide Agree, NonEmpty, AllStrict, PricedList.Valid, Gapless, Outbids;
      SlotFacts(pending, queue, all, tx);
      if !Free(pending, tx) {
        r := ReplacePending(tx);
        return;
      }
      r := EnqueueTx(tx, {}, {}, {});
      if r.Pooled? && local {
        locals := locals + {tx.sender};
      }
    }

    /** addTx. `added` is the lookup table before the promotion. */
    method AddTx(tx: Tx, local: bool, now: int) returns (r: Outcome, ghost added: set<Tx>)
      requires Valid()
      modifies this`locals, this`pending, this`queue, this`beats, this`managed, this`all, priced
      ensures Valid() && (old(Contiguous()) ==> Contiguous())
      ensures AddedAs(tx, old(all), added, old(Validation(tx)), globalSlots + globalQueue, old(locals), priceBump, r)
      ensures Stays(added, all, stateNonce, balance, maxGas, locals, accountQueue, globalSlots, globalQueue)
      ensures r != Pooled(false) ==> all == added
      ensures Needed(added, all, stateNonce, balance, maxGas, pending, queue, accountQueue, globalSlots, globalQueue)
      ensures r == Pooled(false) ==> Settled(tx.sender) && WithinLimits()
    {
      hide TxPool.Valid, TxPool.Contiguous, AddedAs, Excused, TxPool.Validation, Stays, TxPool.Settled,
           TxPool.WithinLimits, Crowded, Total, AtLimit;
      r := Add(tx, local);
      added := all;
      StaysNothing(all, stateNonce, balance, maxGas, locals, accountQueue, globalSlots, globalQueue);
      if r == Pooled(false) {
        ghost var p, q := pending, queue;
        TablesAgree();
        PromoteExecutables(Some({tx.sender}), now);
        StaysOn(added, p, q, added, all, stateNonce, balance, maxGas, locals, accountQueue, globalSlots, globalQueue);
      }
    }

    lemma TablesAgree()
      requires Valid()
      ensures Agree(pending, queue, all, {})
    {}

    /** addTxsLocked. `trace` holds the lookup table and the local accounts before each addition and after all. */
    method AddTxsLocked(txs: seq<Tx>, local: bool, now: int)
      returns (rs: seq<Outcome>, ghost trace: seq<(set<Tx>, set<Address>)>)
      requires Valid()
      modifies this`locals, this`pending, this`queue, this`beats, this`managed, this`all, priced
      ensures Valid() && (old(Contiguous()) ==> Contiguous()) && |rs| == |txs| && |trace| == |txs| + 1
      ensures trace[0] == (old(all), old(locals)) && AddedUpTo(txs, |txs|, rs, trace)
      ensures Stays(trace[|txs|].0, all, stateNonce, balance, maxGas, locals, accountQueue, globalSlots, globalQueue)
      ensures Needed(trace[|txs|].0, all, stateNonce, balance, maxGas, pending, queue, accountQueue, globalSlots,
                     globalQueue)
      ensures txs == [] ==> pending == old(pending) && queue == old(queue) && managed == old(managed) && all == old(all)
      ensures forall tx :: tx in all ==> tx in old(all) || tx in txs
      ensures old(locals) <= locals && LocalsStay(old(all), all, stateNonce, balance, maxGas, old(locals), txs)
    {
      hide TxPool.Valid, TxPool.Contiguous, Excused, LocalsStay, TxPool.AddedUpTo, Crowded, Total, Stays,
           TxPool.Settled, TxPool.WithinLimits, AtLimit;
      LocalsStayed(all, stateNonce, balance, maxGas, locals, txs);
      var dirty;
      rs, dirty, trace := AddEach(txs, local);
      StaysNothing(all, stateNonce, balance, maxGas, locals, accountQueue, globalSlots, globalQueue);
      if dirty != {} {
        ghost var before, waiting, listed := all, queue, pending;
        TablesAgree();
        PromoteExecutables(Some(dirty), now);
        StaysOn(before, listed, waiting, before, all, stateNonce, balance, maxGas, locals, accountQueue, globalSlots,
                globalQueue);
        LocalsStayOn(old(all), before, all, stateNonce, balance, maxGas, old(locals), txs, locals,
                     Crowded(waiting, locals, accountQueue), |before| > globalSlots || Total(waiting) > globalQueue);
      }
    }

    /** The loop of addTxsLocked. */
    method AddEach(txs: seq<Tx>, local: bool)
      returns (rs: seq<Outcome>, dirty: set<Address>, ghost trace: seq<(set<Tx>, set<Address>)>)
      requires Valid()
      modifies this`locals, this`pending, this`queue, this`beats, this`managed, this`all, priced
      ensures Valid() && (old(Contiguous()) ==> Contiguous()) && |rs| == |txs| && |trace| == |txs| + 1
      ensures trace[0] == (old(all), old(locals)) && all == trace[|txs|].0 && AddedUpTo(txs, |txs|, rs, trace)
      ensures dirty == set i | 0 <= i < |txs| && rs[i] == Pooled(false) :: txs[i].sender
      ensures txs == [] ==> pending == old(pending) && queue == old(queue) && managed == old(managed)
      ensures forall tx :: tx in all ==> tx in old(all) || tx in txs
      ensures old(locals) <= locals && LocalsStay(old(all), all, stateNonce, balance, maxGas, old(locals), txs)
    {
      hide TxPool.Tables, PricedList.Valid, Gapless, LocalsStay, AddedAs, TxPool.AddedUpTo, TxPool.Validation;
      NoneAdded(txs);
      LocalsStayed(all, stateNonce, balance, maxGas, locals, txs);
      rs, dirty, trace := [], {}, [(all, locals)];
      for i := 0 to |txs|
        invariant Valid() && (old(Contiguous()) ==> Contiguous()) && |rs| == i && |trace| == i + 1
        invariant trace[0] == (old(all), old(locals)) && trace[i] == (all, locals)
        invariant AddedUpTo(txs, i, rs, trace)
        invariant dirty == set k | 0 <= k < i && rs[k] == Pooled(false) :: txs[k].sender
        invariant i == 0 ==> pending == old(pending) && queue == old(queue) && managed == old(managed)
        invariant forall tx :: tx in all ==> tx in old(all) || tx in txs
        invariant old(locals) <= locals && LocalsStay(old(all), all, stateNonce, balance, maxGas, old(locals), txs)
      {
        ghost var before, localsBefore := all, locals;
        var r := Add(txs[i], local);
        AddedFacts(txs[i], before, all, Validation(txs[i]), globalSlots + globalQueue, localsBefore, priceBump, r);
        LocalsStayAdd(old(all), before, all, stateNonce, balance, maxGas, old(locals), txs, i, localsBefore);
        AddedOneMore(txs, i, rs, trace, r, all, locals);
        rs, trace := rs + [r], trace + [(all, locals)];
        if r == Pooled(false) {
          dirty := dirty + {txs[i].sender};
        }
      }
    }

    /** The eviction tick of the pool's loop: remote accounts silent for too long lose their queue. */
    method Evict(now: int)
      requires Valid()
      modifies this`pending, this`queue, this`beats, this`managed, this`all, priced
      ensures Valid() && all <= old(all) && pending == old(pending) && managed == old(managed)
      ensures queue ==
                map a | a in old(queue) && (a in locals || now - Beat(old(beats), a) <= lifetime) :: old(queue)[a]
    {
      hide TxPool.Tables, PricedList.Valid;
      var todo := queue.Keys;
      while todo != {}
        invariant Valid() && all <= old(all) && pending == old(pending) && managed == old(managed) &&
                  beats == old(beats)
        invariant todo <= queue.Keys
        invariant queue ==
                    map a | a in old(queue) && (a in todo || a in locals || now - Beat(beats, a) <= lifetime) ::
                      old(queue)[a]
        decreases todo
      {
        var a :| a in todo;
        todo := todo - {a};
        if a !in locals && now - Beat(beats, a) > lifetime {
          DropAccount(a);
        }
      }
    }

    /** reset, given the new head's state and the transactions that a reorganisation discarded. Each of those is
        added back with the outcome it has in the new state. The pool is afterwards valid with regard to that
        state, and has lost nothing but what is hopeless in it or above a limit. */
    method Reset(nonces: Address -> nat, balances: Address -> nat, joins: Address -> nat, gasLimit: nat,
                 reinject: seq<Tx>, now: int)
      returns (ghost rs: seq<Outcome>, ghost trace: seq<(set<Tx>, set<Address>)>)
      requires Valid()
      modifies this`stateNonce, this`balance, this`joinNonce, this`maxGas
      modifies this`locals, this`pending, this`queue, this`beats, this`managed, this`all, priced
      ensures Valid() && stateNonce == nonces && balance == balances && joinNonce == joins && maxGas == gasLimit
      ensures |rs| == |reinject| && |trace| == |reinject| + 1 && trace[0] == (old(all), old(locals))
      ensures AddedUpTo(reinject, |reinject|, rs, trace)
      ensures Stays(trace[|reinject|].0, all, nonces, balances, gasLimit, locals, accountQueue, globalSlots,
                    globalQueue)
      ensures reinject == [] ==>
                Needed(old(all), all, nonces, balances, gasLimit, pending, queue, accountQueue, globalSlots,
                       globalQueue)
      ensures old(Contiguous()) && reinject == [] ==> Contiguous()
      ensures WithinLimits() && PendingPayable() && forall a :: Settled(a)
      ensures forall tx :: tx in all ==> tx in old(all) || tx in reinject
      ensures LocalsStay(old(all), all, nonces, balances, gasLimit, old(locals), reinject)
    {
      hide TxPool.Valid, Gapless, ConsecutiveLists, TxPool.Settled, TxPool.WithinLimits, LocalsStay, TxPool.AddedUpTo,
           PayableLists, Stays, Needed;
      SetState(nonces, balances, joins, gasLimit);
      if old(Contiguous()) {
        GaplessAreConsecutive(pending, old(managed), old(stateNonce));
      }
      rs, trace := AddTxsLocked(reinject, false, now);
      Rearrange(trace[|reinject|].0, old(all), old(locals), reinject, now);
    }

    /** The last part of reset: the pool is put in order with regard to the new state. Whatever was kept of a
        former table, and of the local accounts' transactions in one, still is. */
    method Rearrange(ghost pooled: set<Tx>, ghost before: set<Tx>, ghost own: set<Address>, ghost txs: seq<Tx>,
                     now: int)
      requires Valid()
      requires Stays(pooled, all, stateNonce, balance, maxGas, locals, accountQueue, globalSlots, globalQueue)
      requires LocalsStay(before, all, stateNonce, balance, maxGas, own, txs) && own <= locals
      modifies this`pending, this`queue, this`beats, this`managed, this`all, priced
      ensures Valid() && all <= old(all) && WithinLimits() && PendingPayable() && forall a :: Settled(a)
      ensures Stays(pooled, all, stateNonce, balance, maxGas, locals, accountQueue, globalSlots, globalQueue)
      ensures LocalsStay(before, all, stateNonce, balance, maxGas, own, txs)
      ensures Needed(old(all), all, stateNonce, balance, maxGas, pending, queue, accountQueue, globalSlots, globalQueue)
      ensures old(managed) == map[] && ConsecutiveLists(old(pending)) ==> Contiguous()
    {
      hide TxPool.Valid, Gapless, Total, Waiting, AllAbove, ConsecutiveLists, TxPool.Settled, TxPool.WithinLimits,
           NoncesAfter, Excused, LocalsStay, Crowded, Demoted, PayableLists, Stays, AtLimit, Needed;
      DemoteUnexecutables();
      StaysHopeful(pooled, old(all), all, stateNonce, balance, maxGas, locals, accountQueue, globalSlots, globalQueue);
      LocalsStayOn(before, old(all), all, stateNonce, balance, maxGas, own, txs, locals, {}, false);
      DemotedIsPayable(old(pending), pending, stateNonce, balance, maxGas);
      ghost var demoted, waiting, ready := all, queue, pending;
      TablesAgree();
      SetNonces();
      if old(managed) == map[] && ConsecutiveLists(old(pending)) {
        GaplessAgain(old(pending), pending, stateNonce, balance, maxGas);
      }
      PromoteExecutables(None, now);
      LocalsStayOn(before, demoted, all, stateNonce, balance, maxGas, own, txs, locals,
                   Crowded(waiting, locals, accountQueue), |demoted| > globalSlots || Total(waiting) > globalQueue);
      StaysOn(pooled, ready, waiting, demoted, all, stateNonce, balance, maxGas, locals, accountQueue, globalSlots,
              globalQueue);
      NeededFrom(old(all), demoted, all, stateNonce, balance, maxGas, locals, pending, queue, accountQueue, globalSlots,
                 globalQueue);
    }

    /** The first part of reset: the new head's state, with nothing managed yet. */
    method SetState(nonces: Address -> nat, balances: Address -> nat, joins: Address -> nat, gasLimit: nat)
      requires Valid()
      modifies this`stateNonce, this`balance, this`joinNonce, this`maxGas, this`managed
      ensures Valid() && stateNonce == nonces && balance == balances && joinNonce == joins && maxGas == gasLimit
      ensures managed == map[]
    {
      hide Agree, NonEmpty, AllStrict, PricedList.Valid;
      stateNonce, balance, joinNonce, maxGas := nonces, balances, joins, gasLimit;
      managed := map[];
    }

    /** reset with its early returns: without a common ancestor of the two heads, or without the state of the new
        one, the pool stays as it is. */
    method OnHead(found: bool, nonces: Address -> nat, balances: Address -> nat, joins: Address -> nat, gasLimit: nat,
                  reinject: seq<Tx>, now: int)
      returns (ghost rs: seq<Outcome>, ghost trace: seq<(set<Tx>, set<Address>)>)
      requires Valid()
      modifies this`stateNonce, this`balance, this`joinNonce, this`maxGas
      modifies this`locals, this`pending, this`queue, this`beats, this`managed, this`all, priced
      ensures Valid() && (old(Contiguous()) && reinject == [] ==> Contiguous())
      ensures if found then
                && stateNonce == nonces && balance == balances && joinNonce == joins && maxGas == gasLimit
                && WithinLimits() && PendingPayable() && (forall a :: Settled(a))
                && |rs| == |reinject| && |trace| == |reinject| + 1 && trace[0] == (old(all), old(locals))
                && AddedUpTo(reinject, |reinject|, rs, trace)
                && Stays(trace[|reinject|].0, all, nonces, balances, gasLimit, locals, accountQueue, globalSlots,
                         globalQueue)
              else
                && stateNonce == old(stateNonce) && balance == old(balance) && joinNonce == old(joinNonce)
                && maxGas == old(maxGas) && all == old(all)
                && pending == old(pending) && queue == old(queue) && managed == old(managed) && locals == old(locals)
                && beats == old(beats) && unchanged(priced)
    {
      hide TxPool.Tables, PricedList.Valid, Gapless, Total, Waiting, AllAbove, TxPool.Settled, TxPool.WithinLimits,
           LocalsStay, PayableLists, TxPool.AddedUpTo, Stays;
      rs, trace := [], [];
      if found {
        rs, trace := Reset(nonces, balances, joins, gasLimit, reinject, now);
      }
    }

    /** The loop of reset that moves every account's managed nonce past its last pending transaction. */
    method SetNonces()
      requires Valid()
      modifies this`managed
      ensures Valid() && managed == old(managed) + NoncesAfter(pending, pending.Keys)
    {
      hide Agree, NonEmpty, AllStrict, PricedList.Valid, After, NoncesAfter;
      var todo := pending.Keys;
      NoNonces(managed, pending);
      while todo != {}
        invariant todo <= pending.Keys && Valid()
        invariant managed == old(managed) + NoncesAfter(pending, pending.Keys - todo)
        decreases todo
      {
        var a :| a in todo;
        OneMoreNonce(old(managed), pending, pending.Keys - todo, a);
        assert pending.Keys - todo + {a} == pending.Keys - (todo - {a});
        managed := managed[a := After(pending[a].items)];
        todo := todo - {a};
      }
      assert pending.Keys - todo == pending.Keys;
    }

    /** Any sequence of operations on the pool, as its event loop and its callers issue them. */
    method Run(events: seq<PoolEvent>)
      requires Valid()
      modifies this, priced
      ensures Valid() && |all| == Total(pending) + Total(queue)
      ensures old(Contiguous()) && (forall e :: e in events && e.NewHead? ==> e.reinject == []) ==> Contiguous()
    {
      hide Agree, NonEmpty, AllStrict, PricedList.Valid, Gapless, Total, Waiting, AllAbove;
      for i := 0 to |events|
        invariant Valid()
        invariant old(Contiguous()) && (forall e :: e in events && e.NewHead? ==> e.reinject == []) ==> Contiguous()
      {
        match events[i] {
          case Submit(txs, local, now) =>
            if |txs| == 1 {
              var r, added := AddTx(txs[0], local, now);
            } else {
              var rs, trace := AddTxsLocked(txs, local, now);
            }
          case NewHead(found, nonces, balances, joins, gasLimit, reinject, price, isHomestead, now) =>
            homestead := homestead || isHomestead;
            var rs, trace := OnHead(found, nonces, balances, joins, gasLimit, reinject, now);
            if price.Some? {
              SetGasPrice(price.value);
            }
          case SetPrice(limit) =>
            SetGasPrice(limit);
          case Tick(now) =>
            Evict(now);
        }
      }
      CountsAgree(pending, queue, all);
    }
  }

  lemma InsertedIsNonEmpty(m: Accounts, spare: set<Address>, tx: Tx, l: ListView)
    requires NonEmpty(m, spare)
    ensures NonEmpty(m[tx.sender := Insert(l, tx)], spare)
    ensures Insert(l, tx).strict == l.strict && Held(m[tx.sender := Insert(l, tx)], tx)
  {}

  lemma StrictAt(m: Accounts, strict: bool, a: Address)
    requires AllStrict(m, strict) && a in m
    ensures m[a].strict == strict
  {}

  lemma NotHeld(p: Accounts, q: Accounts, all: set<Tx>, tx: Tx)
    requires Agree(p, q, all, {}) && tx !in all
    ensures !Held(p, tx) && !Held(q, tx)
  {}

  lemma NothingAbove(m: Accounts, tx: Tx)
    requires AllStrict(m, false) && tx.sender in m
    ensures Above(m[tx.sender], tx.nonce).Values == {} && !RemoveNonce(m[tx.sender], tx.nonce).strict
  {}

  // ---------- gapless pending nonces ----------

  /** One account's list and managed nonce change together. */
  lemma GaplessUpdate(p: Accounts, managed: map<Address, nat>, state: Address -> nat, a: Address, l: ListView, hi: nat)
    requires Gapless(p, managed, state) && Interval(l.items, state(a), hi)
    ensures Gapless(Store(p, a, l), managed[a := hi], state)
  {
    assert state(a) < hi ==> state(a) in l.items;
  }

  lemma GaplessRemove(p: Accounts, managed: map<Address, nat>, state: Address -> nat, tx: Tx)
    requires Held(p, tx) && p[tx.sender].strict
    ensures Gapless(p, managed, state) ==>
              && NonceAt(managed, state, tx.sender) > tx.nonce
              && Gapless(Store(p, tx.sender, RemoveNonce(p[tx.sender], tx.nonce)), managed[tx.sender := tx.nonce],
                         state)
  {
    if Gapless(p, managed, state) {
      var l := p[tx.sender];
      RemoveStaysContiguous(l, state(tx.sender), NonceAt(managed, state, tx.sender), tx.nonce);
      GaplessUpdate(p, managed, state, tx.sender, RemoveNonce(l, tx.nonce), tx.nonce);
    }
  }

  // ---------- parts of lists ----------

  /** No pooled transaction has two entries in the price heap. */
  ghost predicate SingleEntries(items: seq<Tx>, all: set<Tx>) {
    forall tx :: tx in all ==> multiset(items)[tx] <= 1
  }

  lemma SingleFewer(items: seq<Tx>, fewer: seq<Tx>, all: set<Tx>)
    requires multiset(fewer) <= multiset(items)
    ensures SingleEntries(items, all) ==> SingleEntries(fewer, all)
  {}

  /** Dropping what a list names takes out its distinct members. */
  lemma DropsDistinct(all: set<Tx>, drop: seq<Tx>)
    requires forall tx :: tx in drop ==> tx in all
    ensures |set tx | tx in all && tx !in drop| + |set tx | tx in drop| == |all|
  {
    var gone, kept := set tx | tx in drop, set tx | tx in all && tx !in drop;
    assert gone + kept == all && gone !! kept;
  }

  /** Without double entries each entry dropped is another transaction. */
  lemma AllDropped(all: set<Tx>, drop: seq<Tx>, items: seq<Tx>)
    requires SingleEntries(items, all) && multiset(drop) <= multiset(items) && forall tx :: tx in drop ==> tx in all
    ensures |set tx | tx in drop| == |drop|
  {
    forall tx
      ensures multiset(drop)[tx] <= 1
    {
      assert multiset(drop)[tx] <= multiset(items)[tx];
      assert tx !in drop ==> tx !in multiset(drop);
    }
    DistinctMembers(drop);
  }

  lemma {:induction false} DistinctMembers(drop: seq<Tx>)
    requires forall tx :: multiset(drop)[tx] <= 1
    ensures |set tx | tx in drop| == |drop|
  {
    if drop == [] {
      assert (set tx | tx in drop) == {};
    } else {
      var last, rest := drop[|drop| - 1], drop[..|drop| - 1];
      assert drop == rest + [last];
      assert multiset(drop) == multiset(rest) + multiset{last};
      forall tx
        ensures multiset(rest)[tx] <= 1
      {
        assert multiset(drop)[tx] <= 1;
      }
      DistinctMembers(rest);
      assert multiset(drop)[last] == multiset(rest)[last] + 1;
      assert last !in multiset(rest);
      assert (set tx | tx in drop) == (set tx | tx in rest) + {last};
    }
  }

  lemma PartLen(part: ListView, l: ListView)
    requires PartOf(part, l)
    ensures |part.items| <= |l.items|
  {
    Subset(part.items.Keys, l.items.Keys);
  }

  lemma {:induction false} Subset<T>(s: set<T>, t: set<T>)
    requires s <= t
    ensures |s| <= |t|
  {
    if s != {} {
      var x :| x in s;
      Subset(s - {x}, t - {x});
    }
  }

  /** Transactions below the state nonce are hopeless ... */
  lemma StaleDropped(l: ListView, all: set<Tx>, a: Address, state: Address -> nat, balance: Address -> nat,
                     gasLimit: nat, locals: set<Address>)
    requires WellFormed(l) && forall n :: n in l.items ==> l.items[n].sender == a
    ensures Excused(all, all - (l.items - From(l.items, state(a)).Keys).Values, state, balance, gasLimit, locals, {},
                    false)
  {}

  /** ... and so are those above a limit. */
  lemma UnpayableDropped(l: ListView, all: set<Tx>, a: Address, state: Address -> nat, balance: Address -> nat,
                         gasLimit: nat, locals: set<Address>)
    requires WellFormed(l) && forall n :: n in l.items ==> l.items[n].sender == a
    ensures Excused(all, all - Unpayable(l.items, balance(a), gasLimit).Values, state, balance, gasLimit, locals, {},
                    false)
  {}

  lemma CostlyDropped(l: ListView, all: set<Tx>, a: Address, state: Address -> nat, balance: Address -> nat,
                      gasLimit: nat, locals: set<Address>)
    requires WellFormed(l) && !l.strict && forall n :: n in l.items ==> l.items[n].sender == a
    ensures Excused(all, all - (l.items - Filtered(l, balance(a), gasLimit).items.Keys).Values, state, balance,
                    gasLimit, locals, {}, false)
  {
    ShortCircuitIsSound(l, balance(a), gasLimit);
  }

  /** Capping a list drops only what is above the allowance. */
  lemma SurplusDropped(l: ListView, all: set<Tx>, a: Address, allowance: nat, state: Address -> nat,
                       balance: Address -> nat, gasLimit: nat, locals: set<Address>)
    requires a !in locals && forall n :: n in l.items ==> l.items[n].sender == a
    ensures Excused(all, all - (l.items - CapTo(l.items, allowance).Keys).Values, state, balance, gasLimit, locals,
                    if |l.items| > allowance then {a} else {}, false)
    ensures all - (l.items - CapTo(l.items, allowance).Keys).Values != all ==> |CapTo(l.items, allowance)| == allowance
  {
    if |l.items| <= allowance {
      CapNothing(l.items, allowance);
      assert l.items - l.items.Keys == map[];
    }
  }

  lemma StoreLen(m: Accounts, a: Address)
    requires a in m
    ensures Len(Store(m, a, m[a]), a) == Len(m, a)
  {}

  lemma ShrunkNothing(q: Accounts)
    ensures Shrunk(q, q)
  {}

  lemma ShrunkOne(q0: Accounts, q: Accounts, r: Accounts, locals: set<Address>, allowance: nat, a: Address)
    requires Shrunk(q0, q) && SameElsewhere(q, r, a) && Len(r, a) <= Len(q, a)
    ensures Shrunk(q0, r)
    ensures a !in locals && Len(q, a) > allowance ==> a in Crowded(q0, locals, allowance)
  {
    forall b
      ensures Len(r, b) <= Len(q0, b)
    {
      assert Len(q, b) <= Len(q0, b);
      assert b != a ==> (b in r <==> b in r - {a}) && (b in q <==> b in q - {a});
    }
  }

  lemma {:induction false} ShrunkTotal(q: Accounts, r: Accounts)
    requires Shrunk(q, r)
    ensures Total(r) <= Total(q)
    decreases r.Keys
  {
    if r != map[] {
      var a :| a in r;
      TotalWithout(r, a);
      if a in q {
        TotalWithout(q, a);
        forall b
          ensures Len(r - {a}, b) <= Len(q - {a}, b)
        {
          assert Len(r, b) <= Len(q, b);
        }
        ShrunkTotal(q - {a}, r - {a});
      } else {
        assert Len(r, a) <= Len(q, a) == 0;
        forall b
          ensures Len(r - {a}, b) <= Len(q, b)
        {
          assert Len(r, b) <= Len(q, b);
        }
        ShrunkTotal(q, r - {a});
      }
    }
  }

  /** Equalising drops only transactions of the offenders, and nothing unless the pool is full. */
  lemma Equalized(p: Accounts, q: Accounts, all: set<Tx>, p': Accounts, all': set<Tx>, offenders: seq<Address>,
                  all0: set<Tx>, accountSlots: nat, over: bool, slots: nat, state: Address -> nat,
                  balance: Address -> nat, gasLimit: nat, locals: set<Address>)
    requires Agree(p, q, all, {}) && Agree(p', q, all', {}) && Lowered(p, p', offenders) && all <= all0
    requires Fair(p', offenders, locals, accountSlots, over)
    requires Total(p) <= slots ==> offenders == []
    ensures Excused(all, all', state, balance, gasLimit, locals, {}, |all0| > slots)
  {
    CountsAgree(p, q, all);
    Subset(all, all0);
    forall tx | tx in all && tx !in all'
      ensures tx.sender in offenders
    {
      assert Held(p, tx) && !Held(p', tx);
    }
  }

  lemma FairlyWithin(p: Accounts, offenders: seq<Address>, locals: set<Address>, slots: nat, over: bool)
    requires Fair(p, offenders, locals, slots, over)
    ensures over ==> WithinSlots(p, locals, slots)
  {}

  lemma ExcusedFurther(a: set<Tx>, b: set<Tx>, c: set<Tx>, state: Address -> nat, balance: Address -> nat,
                       gasLimit: nat, locals: set<Address>, full: bool, fuller: bool)
    requires Excused(a, b, state, balance, gasLimit, locals, {}, full)
    requires Excused(b, c, state, balance, gasLimit, locals, {}, fuller)
    ensures Excused(a, c, state, balance, gasLimit, locals, {}, full || fuller)
  {}

  /** If the limits change anything, one of them is reached afterwards. */
  lemma LimitReached(p: Accounts, q: Accounts, all: set<Tx>, p': Accounts, q': Accounts, all': set<Tx>,
                     offenders: seq<Address>, locals: set<Address>, accountSlots: nat, over: bool, slots: nat,
                     queued: nat)
    requires Agree(p, q, all, {}) && Agree(p', q', all', {}) && Lowered(p, p', offenders) && Distinct(offenders)
    requires Fair(p', offenders, locals, accountSlots, over) && accountSlots >= 1
    requires Total(p) <= slots ==> offenders == []
    requires Total(p) > slots ==> Total(p') + |offenders| > slots
    requires Total(q) <= queued ==> q' == q
    requires Total(q) > queued ==> Total(q') >= queued
    ensures (q' == q && all' == all) || AtLimit(p', q', slots, queued)
  {
    hide Total;
    if Total(p) > slots {
      OffendersFit(p', offenders);
    } else if q' == q {
      assert p' == p;
      SameTables(p, q, all, all');
    }
  }

  lemma {:induction false} OffendersFit(p: Accounts, offenders: seq<Address>)
    requires Distinct(offenders) && forall i :: 0 <= i < |offenders| ==> offenders[i] in p
    ensures |offenders| <= |p|
  {
    if offenders != [] {
      var last := offenders[|offenders| - 1];
      OffendersFit(p - {last}, offenders[..|offenders| - 1]);
      assert (p - {last}).Keys == p.Keys - {last};
    }
  }

  lemma SameTables(p: Accounts, q: Accounts, all: set<Tx>, other: set<Tx>)
    requires Agree(p, q, all, {}) && Agree(p, q, other, {})
    ensures all == other
  {}

  /** Trimming the queue drops only remote transactions, and nothing unless the queue is too long. */
  lemma Trimmed(p: Accounts, q: Accounts, all: set<Tx>, q': Accounts, all': set<Tx>, q0: Accounts, slots: nat,
                state: Address -> nat, balance: Address -> nat, gasLimit: nat, locals: set<Address>)
    requires Agree(p, q, all, {}) && Agree(p, q', all', {}) && Thinned(q, q', locals) && Shrunk(q0, q)
    requires Total(q) <= slots ==> q' == q
    ensures Excused(all, all', state, balance, gasLimit, locals, {}, Total(q0) > slots)
  {
    ShrunkTotal(q0, q);
    forall tx | tx in all && tx !in all'
      ensures tx.sender !in locals && q' != q
    {
      assert Held(q, tx) && !Held(q', tx);
    }
  }

  ghost predicate PartOf(part: ListView, l: ListView) {
    && WellFormed(part) && part.strict == l.strict && part.items.Keys <= l.items.Keys
    && forall n :: n in part.items ==> part.items[n] == l.items[n]
  }

  lemma UpdateKeeps(m: Accounts, a: Address, l: ListView, strict: bool)
    requires AllStrict(m, strict) && l.strict == strict
    ensures AllStrict(m[a := l], strict)
    ensures forall spare :: NonEmpty(m, spare) && a in spare ==> NonEmpty(m[a := l], spare)
  {}

  function ListAt(m: Accounts, a: Address, strict: bool): ListView {
    if a in m then m[a] else EmptyList(strict)
  }

  /** Two tables differ at most in one account. */
  ghost predicate SameElsewhere(m: Accounts, n: Accounts, a: Address) {
    m - {a} == n - {a}
  }

  lemma SameIsSame(m: Accounts, a: Address)
    ensures SameElsewhere(m, m, a)
  {}

  lemma SameChain(m: Accounts, n: Accounts, o: Accounts, a: Address)
    requires SameElsewhere(m, n, a) && SameElsewhere(n, o, a)
    ensures SameElsewhere(m, o, a)
  {}

  lemma SameAfter(m: Accounts, n: Accounts, a: Address, l: ListView)
    requires SameElsewhere(m, n, a)
    ensures SameElsewhere(m, n[a := l], a) && SameElsewhere(m, n - {a}, a)
  {
    assert n[a := l] - {a} == n - {a} && n - {a} - {a} == n - {a};
  }

  /** The transactions of a sequence from position `i` on. */
  ghost function Rest(s: seq<Tx>, i: nat): set<Tx>
    requires i <= |s|
  {
    set k | i <= k < |s| :: s[k]
  }

  /** Consecutive transactions of one account. */
  ghost predicate IsRun(s: seq<Tx>, a: Address, low: nat) {
    forall i :: 0 <= i < |s| ==> s[i].sender == a && s[i].nonce == low + i
  }

  lemma RestStep(s: seq<Tx>, i: nat, a: Address, low: nat)
    requires i < |s| && IsRun(s, a, low)
    ensures s[i] in Rest(s, i) && Rest(s, i) - {s[i]} == Rest(s, i + 1)
  {}

  lemma NoRest(s: seq<Tx>)
    ensures Rest(s, |s|) == {}
  {}

  /** What taking the ready run out of a queued list gives, from the managed nonce on. */
  lemma ReadyMeans(p: Accounts, q: Accounts, all: set<Tx>, managed: map<Address, nat>, state: Address -> nat,
                   a: Address, costLimit: nat, gasLimit: nat)
    returns (low: nat)
    requires Agree(p, q, all, {}) && a in q
    ensures var start := NonceAt(managed, state, a);
            var run := ReadyRun(q[a].items, start);
            var ready := Sorted(run);
            var rest := q[a].(items := q[a].items - run.Keys);
            && Agree(p, q[a := rest], all, Rest(ready, 0)) && PartOf(rest, q[a])
            && IsRun(ready, a, low) && AllAbove(rest.items, if |ready| > 0 then low + |ready| else start)
            && (Waiting(q[a].items, state(a), costLimit, gasLimit) ==>
                  && AllPayable(ready, state(a), costLimit, gasLimit)
                  && (Gapless(p, managed, state) && |ready| > 0 ==> low == start))
  {
    hide Agree, ReadyRun, Sorted, Gapless, IsRun, Waiting, AllAbove, PartOf, MinKey, AllPayable, Rest;
    low := TakeReady(p, q, all, a, NonceAt(managed, state, a));
    if Waiting(q[a].items, state(a), costLimit, gasLimit) {
      KeyedAt(p, q, all, a);
      RunIsPayable(q[a].items, NonceAt(managed, state, a), state(a), costLimit, gasLimit);
      if Gapless(p, managed, state) && |Sorted(ReadyRun(q[a].items, NonceAt(managed, state, a)))| > 0 {
        StartsAtGap(p, q, all, managed, state, a, costLimit, gasLimit);
      }
    }
  }

  /** Taking the ready run out of a queued list sets its transactions adrift, in nonce order. */
  lemma TakeReady(p: Accounts, q: Accounts, all: set<Tx>, a: Address, start: nat) returns (low: nat)
    requires Agree(p, q, all, {}) && a in q
    ensures var run := ReadyRun(q[a].items, start);
            var ready := Sorted(run);
            var rest := q[a].(items := q[a].items - run.Keys);
            && Agree(p, q[a := rest], all, Rest(ready, 0)) && PartOf(rest, q[a])
            && IsRun(ready, a, low) && AllAbove(rest.items, if |ready| > 0 then low + |ready| else start)
            && (|ready| > 0 ==> run != map[] && q[a].items != map[] && low == MinKey(q[a].items.Keys))
  {
    hide Agree, ReadyRun, Sorted;
    var m := q[a].items;
    var run := ReadyRun(m, start);
    ListFacts(p, q, all, a);
    RunIsPart(m, start);
    ReadyIsConsecutive(m, start);
    SendersOf(run, a);
    SetAdrift(p, q, all, a, run);
    low := if run == map[] then 0 else MinKey(m.Keys);
  }

  /** Taking part of a queued list out sets its transactions adrift. */
  lemma SetAdrift(p: Accounts, q: Accounts, all: set<Tx>, a: Address, run: map<nat, Tx>)
    requires Agree(p, q, all, {}) && a in q && WellFormed(q[a])
    requires run.Keys <= q[a].items.Keys && Keyed(run) && forall n :: n in run ==> run[n] == q[a].items[n]
    ensures var rest := q[a].(items := q[a].items - run.Keys);
            Agree(p, q[a := rest], all, Rest(Sorted(run), 0)) && PartOf(rest, q[a])
  {
    hide Agree, Sorted, WellFormed, Rest, Keyed;
    var rest := q[a].(items := q[a].items - run.Keys);
    WellFormedRest(q[a], rest);
    WhatIsLeft(q[a].items, run);
    SortedValues(run);
    AgreeSwap(p, q, all, {});
    TakeOut(q, p, all, {}, a, rest);
    AgreeSwap(q[a := rest], p, all, {} + run.Values);
  }

  lemma WhatIsLeft(m: map<nat, Tx>, run: map<nat, Tx>)
    requires run.Keys <= m.Keys && forall n :: n in run ==> run[n] == m[n]
    ensures m - (m - run.Keys).Keys == run && {} + run.Values == run.Values
  {}

  lemma SendersOf(m: map<nat, Tx>, a: Address)
    requires Keyed(m) && forall n :: n in m ==> m[n].sender == a
    ensures forall i :: 0 <= i < |Sorted(m)| ==> Sorted(m)[i].sender == a
  {
    SortedEnumerates(m);
    assert forall i :: 0 <= i < |Sorted(m)| ==> Sorted(m)[i] in Sorted(m);
  }

  lemma ListFacts(p: Accounts, q: Accounts, all: set<Tx>, a: Address)
    requires Agree(p, q, all, {}) && a in q
    ensures WellFormed(q[a]) && forall n :: n in q[a].items ==> q[a].items[n].sender == a
  {}

  lemma KeyedAt(p: Accounts, q: Accounts, all: set<Tx>, a: Address)
    requires Agree(p, q, all, {}) && a in q
    ensures Keyed(q[a].items)
  {}

  lemma RunIsPart(m: map<nat, Tx>, start: nat)
    requires Keyed(m)
    ensures var run := ReadyRun(m, start);
            run.Keys <= m.Keys && Keyed(run) && forall n :: n in run ==> run[n] == m[n]
  {}

  lemma SortedValues(m: map<nat, Tx>)
    requires Keyed(m)
    ensures m.Values == Rest(Sorted(m), 0)
  {
    hide Sorted;
    SortedEnumerates(m);
    var s := Sorted(m);
    forall tx | tx in Rest(s, 0) ensures tx in m.Values {
      assert tx in s;
      assert m[tx.nonce] == tx;
    }
  }

  /** In a gapless pool the ready run starts exactly at the managed nonce. */
  lemma StartsAtGap(p: Accounts, q: Accounts, all: set<Tx>, managed: map<Address, nat>, state: Address -> nat,
                    a: Address, costLimit: nat, gasLimit: nat)
    requires Agree(p, q, all, {}) && a in q && ReadyRun(q[a].items, NonceAt(managed, state, a)) != map[]
    requires Gapless(p, managed, state) && Waiting(q[a].items, state(a), costLimit, gasLimit)
    ensures MinKey(q[a].items.Keys) == NonceAt(managed, state, a)
  {
    var low := MinKey(q[a].items.Keys);
    assert low in q[a].items;
    assert a in p ==> low !in p[a].items;
  }

  lemma GaplessPromote(p: Accounts, managed: map<Address, nat>, state: Address -> nat, tx: Tx)
    requires Gapless(p, managed, state) && tx.nonce == NonceAt(managed, state, tx.sender)
    ensures Gapless(p[tx.sender := Insert(ListAt(p, tx.sender, true), tx)], managed[tx.sender := tx.nonce + 1], state)
  {
    var a, l := tx.sender, ListAt(p, tx.sender, true);
    assert Interval(l.items, state(a), tx.nonce);
    assert Interval(Insert(l, tx).items, state(a), tx.nonce + 1);
    assert tx.nonce in Insert(l, tx).items;
    GaplessUpdate(p, managed, state, a, Insert(l, tx), tx.nonce + 1);
  }

  lemma Spare(m: Accounts, a: Address)
    requires NonEmpty(m, {})
    ensures NonEmpty(m, {a})
  {}

  lemma RecentPart(l: ListView, nonce: nat)
    requires WellFormed(l)
    ensures PartOf(l.(items := From(l.items, nonce)), l)
    ensures forall n :: n in From(l.items, nonce) ==> n >= nonce
  {}

  lemma CappedPart(l: ListView, size: nat)
    requires WellFormed(l)
    ensures PartOf(l.(items := CapTo(l.items, size)), l) && |CapTo(l.items, size)| <= size
  {}

  lemma PayablePart(l: ListView, costLimit: nat, gasLimit: nat)
    requires WellFormed(l)
    ensures var f := Filtered(l, costLimit, gasLimit);
            PartOf(f, l) && forall n :: n in f.items ==> f.items[n].cost <= costLimit && f.items[n].gas <= gasLimit
  {
    ShortCircuitIsSound(l, costLimit, gasLimit);
    FilterPartitions(l.items, l.strict, costLimit, gasLimit);
    assert forall n :: n in Payable(l.items, l.strict, costLimit, gasLimit) ==>
             n !in Unpayable(l.items, costLimit, gasLimit);
  }

  lemma StoreIsLocal(m: Accounts, a: Address)
    requires a in m
    ensures SameElsewhere(m, Store(m, a, m[a]), a)
    ensures a in Store(m, a, m[a]) ==> Store(m, a, m[a])[a] == m[a]
  {}

  /** Every transaction is from the given nonce on and within the limits. */
  ghost predicate Waiting(m: map<nat, Tx>, low: nat, costLimit: nat, gasLimit: nat) {
    forall n :: n in m ==> n >= low && m[n].cost <= costLimit && m[n].gas <= gasLimit
  }

  ghost predicate AllAbove(m: map<nat, Tx>, nonce: nat) {
    forall n :: n in m ==> n > nonce
  }

  lemma PartsWait(part: ListView, l: ListView, low: nat, costLimit: nat, gasLimit: nat, nonce: nat)
    requires PartOf(part, l)
    ensures Waiting(l.items, low, costLimit, gasLimit) ==> Waiting(part.items, low, costLimit, gasLimit)
    ensures AllAbove(l.items, nonce) ==> AllAbove(part.items, nonce)
  {}

  /** The nonces of a list are gapless. */
  ghost predicate Consecutive(m: map<nat, Tx>) {
    m != map[] ==> Interval(m, MinKey(m.Keys), MaxKey(m.Keys) + 1)
  }

  ghost predicate ConsecutiveLists(p: Accounts) {
    forall a :: a in p ==> Consecutive(p[a].items)
  }

  lemma IntervalIsConsecutive(m: map<nat, Tx>, lo: nat, hi: nat)
    requires Interval(m, lo, hi)
    ensures Consecutive(m) && (m != map[] ==> MinKey(m.Keys) == lo && MaxKey(m.Keys) + 1 == hi)
  {
    if m != map[] {
      assert MinKey(m.Keys) in m && MaxKey(m.Keys) in m;
      assert lo in m && hi - 1 in m;
    }
  }

  lemma ForwardRun(m: map<nat, Tx>, nonce: nat)
    ensures Consecutive(m) ==> Consecutive(From(m, nonce))
  {
    var r := From(m, nonce);
    if Consecutive(m) && r != map[] {
      var lo, hi := MinKey(m.Keys), MaxKey(m.Keys) + 1;
      assert MinKey(r.Keys) in m;
      IntervalIsConsecutive(r, if lo < nonce then nonce else lo, hi);
    }
  }

  lemma FilterRun(l: ListView, low: nat, costLimit: nat, gasLimit: nat)
    requires WellFormed(l) && l.strict
    ensures var f := Filtered(l, costLimit, gasLimit).items;
            && (Consecutive(l.items) ==> Consecutive(f))
            && ((forall n :: n in l.items ==> n >= low) ==> Waiting(f, low, costLimit, gasLimit))
  {
    PayablePart(l, costLimit, gasLimit);
    var f := Filtered(l, costLimit, gasLimit).items;
    if Consecutive(l.items) {
      if l.items == map[] {
        assert f == map[];
      } else {
        var lo := MinKey(l.items.Keys);
        var end := FilterStaysContiguous(l, lo, MaxKey(l.items.Keys) + 1, costLimit, gasLimit);
        IntervalIsConsecutive(f, lo, end);
      }
    }
  }

  lemma FilterSplits(l: ListView, costLimit: nat, gasLimit: nat)
    requires WellFormed(l)
    ensures var gone := Unpayable(l.items, costLimit, gasLimit).Values;
            var invalid := Invalidated(l.items, l.strict, costLimit, gasLimit).Values;
            && (l.items - Filtered(l, costLimit, gasLimit).items.Keys).Values == invalid + gone && invalid !! gone
  {
    var gone := Unpayable(l.items, costLimit, gasLimit);
    var invalid := Invalidated(l.items, l.strict, costLimit, gasLimit);
    var lost := l.items - Filtered(l, costLimit, gasLimit).items.Keys;
    ShortCircuitIsSound(l, costLimit, gasLimit);
    FilterPartitions(l.items, l.strict, costLimit, gasLimit);
    SplitValues(lost, invalid, gone);
  }

  lemma SplitValues(m: map<nat, Tx>, a: map<nat, Tx>, b: map<nat, Tx>)
    requires Keyed(m) && m.Keys == a.Keys + b.Keys && a.Keys !! b.Keys
    requires (forall n :: n in a ==> a[n] == m[n]) && forall n :: n in b ==> b[n] == m[n]
    ensures m.Values == a.Values + b.Values && a.Values !! b.Values
  {
    forall tx | tx in m.Values ensures tx in a.Values + b.Values {
      assert tx == if tx.nonce in a then a[tx.nonce] else b[tx.nonce];
    }
    forall tx | tx in a.Values ensures tx in m.Values && tx.nonce in a {
      assert m[tx.nonce] == tx;
    }
    forall tx | tx in b.Values ensures tx in m.Values && tx.nonce in b {
      assert m[tx.nonce] == tx;
    }
  }

  lemma ListFactsP(p: Accounts, q: Accounts, all: set<Tx>, a: Address)
    requires Agree(p, q, all, {}) && a in p
    ensures WellFormed(p[a]) && forall n :: n in p[a].items ==> p[a].items[n].sender == a
  {}

  lemma SameLookup(m: Accounts, n: Accounts, a: Address)
    requires SameElsewhere(m, n, a)
    ensures n.Keys <= m.Keys + {a}
    ensures forall b :: b != a ==> (b in m <==> b in n) && (b in m ==> m[b] == n[b])
  {
    forall b | b != a ensures (b in m <==> b in n) && (b in m ==> m[b] == n[b]) {
      assert b in m <==> b in m - {a};
      assert b in n <==> b in n - {a};
      assert b in m ==> (m - {a})[b] == m[b];
      assert b in n ==> (n - {a})[b] == n[b];
    }
  }

  // ---------- equalising ----------

  lemma ShorterPart(l: ListView)
    requires WellFormed(l) && |l.items| > 1
    ensures PartOf(Shorter(l), l) && Shorter(l).items != map[]
    ensures (l.items - Shorter(l).items.Keys).Values == {} + {l.items[MaxKey(l.items.Keys)]}
  {
    var top := MaxKey(l.items.Keys);
    ShorterDropsHighest(l);
    WellFormedRest(l, Shorter(l));
    var lost := l.items - Shorter(l).items.Keys;
    assert lost == map[top := l.items[top]];
    assert lost.Values == {l.items[top]} by {
      assert lost[top] == l.items[top];
    }
  }

  lemma GaplessCap(p: Accounts, managed: map<Address, nat>, state: Address -> nat, a: Address)
    requires Gapless(p, managed, state) && a in p && |p[a].items| > 1 && WellFormed(p[a])
    ensures var tx := p[a].items[MaxKey(p[a].items.Keys)];
            && NonceAt(managed, state, a) > tx.nonce
            && Gapless(p[a := Shorter(p[a])], managed[a := tx.nonce], state)
  {
    var top := MaxKey(p[a].items.Keys);
    ShorterDropsHighest(p[a]);
    IntervalIsConsecutive(p[a].items, state(a), NonceAt(managed, state, a));
    assert Interval(Shorter(p[a]).items, state(a), top);
    GaplessUpdate(p, managed, state, a, Shorter(p[a]), top);
  }

  /** The first `k` of the given accounts have lost their highest nonce; nothing else changed. */
  ghost predicate Rounded(p: Accounts, r: Accounts, offenders: seq<Address>, k: nat)
    requires k <= |offenders|
  {
    && r.Keys == p.Keys
    && (forall i :: 0 <= i < |offenders| ==> Len(p, offenders[i]) > 1)
    && (forall i :: 0 <= i < k ==> r[offenders[i]] == Shorter(p[offenders[i]]))
    && (forall b :: b in p && b !in offenders[..k] ==> r[b] == p[b])
  }

  lemma RoundStarts(p: Accounts, offenders: seq<Address>)
    requires forall i :: 0 <= i < |offenders| ==> Len(p, offenders[i]) > 1
    ensures Rounded(p, p, offenders, 0)
  {}

  lemma RoundStep(p: Accounts, r: Accounts, offenders: seq<Address>, i: nat)
    requires i < |offenders| && Rounded(p, r, offenders, i)
    requires Distinct(offenders)
    ensures offenders[i] in r && |r[offenders[i]].items| > 0 && Len(r, offenders[i]) > 1
    ensures Rounded(p, r[offenders[i] := Shorter(r[offenders[i]])], offenders, i + 1)
    ensures |Shorter(r[offenders[i]]).items| == Len(r, offenders[i]) - 1
  {
    hide Shorter, CapTo, Rounded;
    Untouched(p, r, offenders, i);
    RoundedMore(p, r, offenders, i);
    ShorterDropsHighest(r[offenders[i]]);
  }

  lemma Untouched(p: Accounts, r: Accounts, offenders: seq<Address>, i: nat)
    requires i < |offenders| && Rounded(p, r, offenders, i) && Distinct(offenders)
    ensures offenders[i] in r && Len(r, offenders[i]) > 1 && r[offenders[i]] == p[offenders[i]]
  {
    hide Shorter;
    assert offenders[i] !in offenders[..i];
  }

  lemma RoundedMore(p: Accounts, r: Accounts, offenders: seq<Address>, i: nat)
    requires i < |offenders| && Rounded(p, r, offenders, i) && Distinct(offenders)
    requires offenders[i] in r && |r[offenders[i]].items| > 0 && r[offenders[i]] == p[offenders[i]]
    ensures Rounded(p, r[offenders[i] := Shorter(r[offenders[i]])], offenders, i + 1)
  {
    hide Shorter;
    assert offenders[..i + 1] == offenders[..i] + [offenders[i]];
  }

  ghost predicate Distinct(s: seq<Address>) {
    forall i, j :: 0 <= i < j < |s| ==> s[i] != s[j]
  }

  /** All given accounts have lists of the same length. */
  ghost predicate Level(p: Accounts, s: seq<Address>) {
    forall i, j :: 0 <= i < j < |s| ==> Len(p, s[i]) == Len(p, s[j])
  }

  /** All accounts but the last are level and the last is not longer; `exactly` makes it level too. */
  ghost predicate Leveled(p: Accounts, s: seq<Address>, exactly: bool) {
    && (exactly ==> Level(p, s))
    && (|s| > 0 ==> Level(p, s[..|s| - 1]) && forall i :: 0 <= i < |s| ==> Len(p, s[|s| - 1]) <= Len(p, s[i]))
  }

  lemma LevelAgain(p: Accounts, r: Accounts, s: seq<Address>)
    requires Level(p, s) && forall i :: 0 <= i < |s| ==> Len(r, s[i]) == Len(p, s[i]) - 1
    ensures Level(r, s)
  {}

  lemma LevelAll(p: Accounts, s: seq<Address>)
    requires Level(p, s)
    ensures forall i :: 0 <= i < |s| ==> Len(p, s[i]) == Len(p, s[0])
  {}

  /** `r` is `p` with the given accounts' lists cut from the top. */
  ghost predicate Lowered(p: Accounts, r: Accounts, offenders: seq<Address>) {
    && r.Keys == p.Keys
    && (forall a :: a in p && a !in offenders ==> r[a] == p[a])
    && (forall a :: a in p && a in offenders ==>
          Len(r, a) <= Len(p, a) && r[a] == p[a].(items := CapTo(p[a].items, Len(r, a))))
  }

  lemma LoweredLen(p: Accounts, r: Accounts, s: seq<Address>)
    requires Lowered(p, r, s)
    ensures r.Keys == p.Keys && forall a :: Len(r, a) <= Len(p, a) && (a !in s ==> Len(r, a) == Len(p, a))
  {}

  lemma LoweredNothing(p: Accounts, s: seq<Address>)
    ensures Lowered(p, p, s)
  {
    forall a | a in p ensures CapTo(p[a].items, Len(p, a)) == p[a].items {}
  }

  lemma {:induction false} CapTwice(m: map<nat, Tx>, j: nat, k: nat)
    requires k <= j <= |m|
    ensures CapTo(CapTo(m, j), k) == CapTo(m, k)
    decreases |m|
  {
    if |m| > j {
      var rest := m - {MaxKey(m.Keys)};
      assert rest.Keys == m.Keys - {MaxKey(m.Keys)};
      CapTwice(rest, j, k);
    }
  }

  lemma LoweredTwice(p: Accounts, q: Accounts, r: Accounts, s: seq<Address>)
    requires Lowered(p, q, s) && Lowered(q, r, s)
    ensures Lowered(p, r, s)
  {
    forall a | a in p && a in s
      ensures Len(r, a) <= Len(p, a) && r[a] == p[a].(items := CapTo(p[a].items, Len(r, a)))
    {
      CapTwice(p[a].items, Len(q, a), Len(r, a));
    }
  }

  lemma LoweredMore(p: Accounts, r: Accounts, s: seq<Address>, o: Address)
    requires Lowered(p, r, s)
    ensures Lowered(p, r, s + [o])
  {
    forall a | a in p && a in s + [o]
      ensures Len(r, a) <= Len(p, a) && r[a] == p[a].(items := CapTo(p[a].items, Len(r, a)))
    {
      if a !in s {
        assert CapTo(p[a].items, Len(p, a)) == p[a].items;
      }
    }
  }

  lemma LoweredOnwards(p: Accounts, q: Accounts, r: Accounts, s: seq<Address>, o: Address)
    requires Lowered(p, q, s) && Lowered(q, r, s)
    ensures Lowered(p, r, s + [o])
  {
    LoweredTwice(p, q, r, s);
    LoweredMore(p, r, s, o);
  }

  lemma LoweredRound(p: Accounts, q: Accounts, r: Accounts, s: seq<Address>)
    requires Lowered(p, q, s) && Rounded(q, r, s, |s|)
    ensures Lowered(p, r, s)
    ensures forall i :: 0 <= i < |s| ==> Len(r, s[i]) == Len(q, s[i]) - 1
  {
    assert s[..|s|] == s;
    assert Lowered(q, r, s) by {
      forall a | a in q && a in s
        ensures Len(r, a) <= Len(q, a) && r[a] == q[a].(items := CapTo(q[a].items, Len(r, a)))
      {
        ShorterDropsHighest(q[a]);
      }
    }
    forall i | 0 <= i < |s| ensures Len(r, s[i]) == Len(q, s[i]) - 1 {
      assert s[i] in s;
      ShorterDropsHighest(q[s[i]]);
    }
    LoweredTwice(p, q, r, s);
  }

  /** The accounts above their slots are the offenders so far and the spammers still to come, which
      are no longer than any offender. */
  ghost predicate Ranked(p: Accounts, offenders: seq<Address>, spammers: set<Address>, locals: set<Address>, slots: nat)
  {
    && Distinct(offenders)
    && (forall i :: 0 <= i < |offenders| ==>
          offenders[i] in p && offenders[i] !in locals && offenders[i] !in spammers && Len(p, offenders[i]) >= slots)
    && (forall a :: a in spammers ==> a in p && a !in locals && Len(p, a) > slots)
    && (forall a :: a in p && a !in locals && Len(p, a) > slots ==> a in spammers || a in offenders)
    && (forall a, i :: a in spammers && 0 <= i < |offenders| ==> Len(p, a) <= Len(p, offenders[i]))
  }

  lemma RankedStart(p: Accounts, spammers: set<Address>, locals: set<Address>, slots: nat)
    requires spammers == set a | a in p && a !in locals && Len(p, a) > slots
    ensures Ranked(p, [], spammers, locals, slots) && Leveled(p, [], true) && Leveled(p, [], false) && Distinct([])
  {}

  lemma LevelNone(p: Accounts)
    ensures Level(p, [])
  {}

  lemma RankedFacts(p: Accounts, offenders: seq<Address>, spammers: set<Address>, locals: set<Address>, slots: nat)
    requires Ranked(p, offenders, spammers, locals, slots)
    ensures spammers <= p.Keys && Distinct(offenders)
  {}

  lemma LevelFacts(p: Accounts, offenders: seq<Address>, slots: nat, locals: set<Address>)
    requires Ranked(p, offenders, {}, locals, slots) && Leveled(p, offenders, true) && |offenders| > 0
    ensures Level(p, offenders) && Distinct(offenders) && Len(p, offenders[0]) >= slots
  {}

  lemma JoinFacts(p: Accounts, offenders: seq<Address>, spammers: set<Address>, locals: set<Address>, slots: nat,
                  o: Address)
    requires Ranked(p, offenders, spammers, locals, slots) && Leveled(p, offenders, true) && |offenders| > 0 &&
             o in spammers
    ensures Level(p, offenders) && Len(p, offenders[0]) >= Len(p, o) > slots
  {}

  ghost predicate WithinSlots(p: Accounts, locals: set<Address>, slots: nat) {
    forall a :: a in p && a !in locals ==> Len(p, a) <= slots
  }

  /** The offenders are remote and keep their slots; a remote account above its slots is not longer than any of
      them; and there is none if the pool is still over its limit. */
  ghost predicate Fair(p: Accounts, offenders: seq<Address>, locals: set<Address>, slots: nat, over: bool) {
    && (forall i :: 0 <= i < |offenders| ==> offenders[i] !in locals && Len(p, offenders[i]) >= slots)
    && (forall a, i :: a in p && a !in locals && a !in offenders && 0 <= i < |offenders| ==>
          Len(p, a) <= Len(p, offenders[i]) || Len(p, a) <= slots)
    && (over ==> WithinSlots(p, locals, slots))
  }

  lemma RankedEnd(p: Accounts, offenders: seq<Address>, spammers: set<Address>, locals: set<Address>, slots: nat,
                  over: bool)
    requires Ranked(p, offenders, spammers, locals, slots)
    requires over ==> spammers == {} && (offenders == [] || WithinSlots(p, locals, slots))
    ensures Distinct(offenders) && Fair(p, offenders, locals, slots, over)
  {}

  /** The next offender joins once the others are level with it ... */
  lemma RankedNext(p: Accounts, r: Accounts, offenders: seq<Address>, spammers: set<Address>, locals: set<Address>,
                   slots: nat, o: Address)
    requires Ranked(p, offenders, spammers, locals, slots) && Lowered(p, r, offenders)
    requires o in spammers && forall a :: a in spammers ==> Len(p, a) <= Len(p, o)
    requires Level(r, offenders) && (|offenders| > 0 ==> Len(r, offenders[0]) >= Len(p, o))
    ensures Ranked(r, offenders + [o], spammers - {o}, locals, slots)
  {
    hide Lowered, Len;
    var next := offenders + [o];
    LoweredLen(p, r, offenders);
    assert forall a :: a in spammers ==> a !in offenders && Len(r, a) == Len(p, a);
    assert forall i :: 0 <= i < |offenders| ==> Len(r, offenders[i]) >= Len(p, o);
    forall a | a in r && a !in locals && Len(r, a) > slots ensures a in spammers - {o} || a in next {
      assert Len(p, a) > slots;
    }
  }

  /** ... and then all are level, unless the pool came to fit before that. */
  lemma LevelNext(p: Accounts, r: Accounts, offenders: seq<Address>, spammers: set<Address>, locals: set<Address>,
                  slots: nat, o: Address, full: bool)
    requires Ranked(p, offenders, spammers, locals, slots) && Lowered(p, r, offenders) && o in spammers
    requires Level(r, offenders) && (|offenders| > 0 ==> Len(r, offenders[0]) >= Len(p, o))
    requires full && |offenders| > 0 ==> Len(r, offenders[0]) == Len(p, o)
    ensures Leveled(r, offenders + [o], full)
  {
    hide Ranked, Lowered, Len;
    var next := offenders + [o];
    IsNew(p, offenders, spammers, locals, slots, o);
    LoweredLen(p, r, offenders);
    assert Len(r, o) == Len(p, o);
    assert next[..|next| - 1] == offenders;
    LevelAll(r, offenders);
  }

  lemma IsNew(p: Accounts, offenders: seq<Address>, spammers: set<Address>, locals: set<Address>, slots: nat,
              o: Address)
    requires Ranked(p, offenders, spammers, locals, slots) && o in spammers
    ensures o !in offenders
  {}

  /** Once no spammers are left, leveling down to the slots leaves no account above them. */
  lemma RankedLast(p: Accounts, r: Accounts, offenders: seq<Address>, locals: set<Address>, slots: nat)
    requires Ranked(p, offenders, {}, locals, slots) && Lowered(p, r, offenders) && |offenders| > 0
    requires Level(r, offenders) && Len(r, offenders[0]) >= slots
    ensures Ranked(r, offenders, {}, locals, slots) && Leveled(r, offenders, true)
    ensures Leveled(r, offenders, false)
    ensures Len(r, offenders[0]) == slots ==> WithinSlots(r, locals, slots)
  {
    forall a | a in r && a !in locals && Len(r, a) > slots ensures a in offenders {
      assert Len(p, a) > slots;
    }
  }

  method CountTxs(m: Accounts) returns (n: nat)
    ensures n == Total(m)
  {
    n := 0;
    var todo := m;
    while todo != map[]
      invariant n + Total(todo) == Total(m)
      decreases todo.Keys
    {
      var a :| a in todo;
      TotalWithout(todo, a);
      assert (todo - {a}).Keys < todo.Keys;
      n, todo := n + |todo[a].items|, todo - {a};
    }
  }

  /** prque.Pop: an account with a longest list. */
  method Largest(p: Accounts, s: set<Address>) returns (o: Address)
    requires s != {} && s <= p.Keys
    ensures o in s && forall a :: a in s ==> Len(p, a) <= Len(p, o)
  {
    o :| o in s;
    var todo := s - {o};
    while todo != {}
      invariant o in s && todo <= s && forall a :: a in s && a !in todo ==> Len(p, a) <= Len(p, o)
      decreases todo
    {
      var a :| a in todo;
      todo := todo - {a};
      if Len(p, a) > Len(p, o) {
        o := a;
      }
    }
  }

  // ---------- trimming the queue ----------

  /** A list capped at `n` entries. */
  function Cut(l: ListView, n: nat): ListView {
    l.(items := CapTo(l.items, n))
  }

  lemma CutLen(l: ListView, n: nat)
    requires n <= |l.items|
    ensures |Cut(l, n).items| == n
  {}

  lemma NothingCut(q: Accounts, a: Address)
    requires a in q
    ensures q[a := Cut(q[a], Len(q, a))] == q
  {
    assert CapTo(q[a].items, Len(q, a)) == q[a].items;
  }

  /** Removing any one nonce of a list that is not strict. */
  lemma OneLess(q: Accounts, a: Address, n: nat)
    requires a in q && n in q[a].items && !q[a].strict
    ensures var r := Store(q, a, RemoveNonce(q[a], n)); Len(r, a) < Len(q, a) && r - {a} == q - {a}
  {
    var rest := RemoveNonce(q[a], n);
    assert rest.items.Keys == q[a].items.Keys - {n};
    assert Store(q, a, rest) - {a} == q - {a};
  }

  /** Removing the highest nonce of a capped list caps it by one more. */
  lemma CutStep(q: Accounts, a: Address, n: nat)
    requires a in q && !q[a].strict && 1 < n <= Len(q, a)
    ensures var r := q[a := Cut(q[a], n)];
            && r[a].items != map[]
            && Store(r, a, RemoveNonce(r[a], MaxKey(r[a].items.Keys))) == q[a := Cut(q[a], n - 1)]
  {
    var l := Cut(q[a], n);
    CutLen(q[a], n);
    ShorterDropsHighest(l);
    CapTwice(q[a].items, n, n - 1);
    assert RemoveNonce(l, MaxKey(l.items.Keys)) == Cut(q[a], n - 1);
    assert |Cut(q[a], n - 1).items| > 0;
  }

  /** Local accounts are untouched; every other list is as before, cut from the top, or gone. */
  ghost predicate Thinned(q: Accounts, r: Accounts, locals: set<Address>) {
    && r.Keys <= q.Keys
    && (forall a :: a in q && a in locals ==> a in r && r[a] == q[a])
    && (forall a :: a in r ==> Len(r, a) <= Len(q, a) && r[a] == Cut(q[a], Len(r, a)))
  }

  lemma ThinnedNothing(q: Accounts, locals: set<Address>)
    ensures Thinned(q, q, locals)
  {
    forall a | a in q ensures CapTo(q[a].items, Len(q, a)) == q[a].items {}
  }

  lemma ThinnedStep(q: Accounts, r: Accounts, locals: set<Address>, a: Address, n: nat)
    requires Thinned(q, r, locals) && a in q && a !in locals && n <= Len(q, a)
    ensures Thinned(q, r[a := Cut(q[a], n)], locals)
  {
    hide Cut;
    CutLen(q[a], n);
  }

  lemma ThinnedGone(q: Accounts, r: Accounts, locals: set<Address>, a: Address)
    requires Thinned(q, r, locals) && a !in locals
    ensures Thinned(q, r - {a}, locals)
  {}

  /** The last address in heartbeat order. */
  method Latest(beats: map<Address, int>, s: set<Address>) returns (o: Address)
    requires s != {}
    ensures o in s && forall a :: a in s ==> Beat(beats, a) <= Beat(beats, o)
  {
    o :| o in s;
    var todo := s - {o};
    while todo != {}
      invariant o in s && todo <= s && forall a :: a in s && a !in todo ==> Beat(beats, a) <= Beat(beats, o)
      decreases todo
    {
      var a :| a in todo;
      todo := todo - {a};
      if Beat(beats, a) > Beat(beats, o) {
        o := a;
      }
    }
  }

  /** The last heartbeat of an account; the zero time if it has none. */
  function Beat(beats: map<Address, int>, a: Address): int {
    if a in beats then beats[a] else 0
  }

  lemma SameNonces(m: map<Address, nat>, n: map<Address, nat>, state: Address -> nat, a: Address)
    requires m - {a} == n - {a}
    ensures forall b :: b != a ==> NonceAt(m, state, b) == NonceAt(n, state, b)
  {
    forall b | b != a ensures NonceAt(m, state, b) == NonceAt(n, state, b) {
      assert b in m <==> b in m - {a};
      assert b in n <==> b in n - {a};
      assert b in m ==> (m - {a})[b] == m[b];
      assert b in n ==> (n - {a})[b] == n[b];
    }
  }

  lemma ThinnedAt(q: Accounts, r: Accounts, locals: set<Address>, a: Address)
    requires Thinned(q, r, locals) && a in r
    ensures a in q && Len(r, a) <= Len(q, a) && r[a] == Cut(q[a], Len(r, a))
  {}

  lemma SettledPart(l: ListView, n: nat, before: map<Address, nat>, after: map<Address, nat>, state: Address -> nat,
                    a: Address, costLimit: nat, gasLimit: nat)
    requires Receded(before, after, state) && Waiting(l.items, state(a), costLimit, gasLimit)
    requires AllAbove(l.items, NonceAt(before, state, a))
    ensures Waiting(Cut(l, n).items, state(a), costLimit, gasLimit)
    ensures AllAbove(Cut(l, n).items, NonceAt(after, state, a))
  {}

  lemma GaplessReplace(p: Accounts, managed: map<Address, nat>, state: Address -> nat, tx: Tx)
    requires Gapless(p, managed, state) && !Free(p, tx)
    ensures Gapless(p[tx.sender := Insert(p[tx.sender], tx)], managed, state)
  {
    assert Insert(p[tx.sender], tx).items.Keys == p[tx.sender].items.Keys;
  }

  /** Whatever occupies the slot of `tx` has its sender and nonce. */
  lemma SlotFacts(p: Accounts, q: Accounts, all: set<Tx>, tx: Tx)
    requires Agree(p, q, all, {})
    ensures !Free(p, tx) ==> SameSlot(p[tx.sender].items[tx.nonce], tx)
    ensures !Free(q, tx) ==> SameSlot(q[tx.sender].items[tx.nonce], tx)
    ensures !Free(p, tx) ==> p[tx.sender].items[tx.nonce] in all
    ensures !Free(q, tx) ==> q[tx.sender].items[tx.nonce] in all
    ensures forall t :: t in all && SameSlot(t, tx) ==>
              if Free(p, tx) then !Free(q, tx) && t == q[tx.sender].items[tx.nonce]
              else t == p[tx.sender].items[tx.nonce]
  {}

  // ---------- validity with regard to the state ----------

  ghost predicate PayableLists(p: Accounts, state: Address -> nat, balance: Address -> nat, gasLimit: nat) {
    forall a :: a in p ==> Waiting(p[a].items, state(a), balance(a), gasLimit)
  }

  ghost predicate AllPayable(s: seq<Tx>, low: nat, costLimit: nat, gasLimit: nat) {
    forall i :: 0 <= i < |s| ==> s[i].nonce >= low && s[i].cost <= costLimit && s[i].gas <= gasLimit
  }

  lemma PayablePromote(p: Accounts, state: Address -> nat, balance: Address -> nat, gasLimit: nat, tx: Tx)
    requires PayableLists(p, state, balance, gasLimit)
    requires tx.nonce >= state(tx.sender) && tx.cost <= balance(tx.sender) && tx.gas <= gasLimit
    ensures PayableLists(p[tx.sender := Insert(ListAt(p, tx.sender, true), tx)], state, balance, gasLimit)
  {}

  lemma RunIsPayable(m: map<nat, Tx>, start: nat, low: nat, costLimit: nat, gasLimit: nat)
    requires Keyed(m) && Waiting(m, low, costLimit, gasLimit)
    ensures AllPayable(Sorted(ReadyRun(m, start)), low, costLimit, gasLimit)
  {
    var run := ReadyRun(m, start);
    RunIsPart(m, start);
    SortedEnumerates(run);
    assert forall i :: 0 <= i < |Sorted(run)| ==> Sorted(run)[i] in Sorted(run);
  }

  lemma PayableLowered(p: Accounts, r: Accounts, s: seq<Address>, state: Address -> nat, balance: Address -> nat,
                       gasLimit: nat)
    requires PayableLists(p, state, balance, gasLimit) && Lowered(p, r, s)
    ensures PayableLists(r, state, balance, gasLimit)
  {}

  /** The nonce after the last transaction of a list; the list is never empty when this matters. */
  function After(m: map<nat, Tx>): nat {
    if m == map[] then 0 else MaxKey(m.Keys) + 1
  }

  function NoncesAfter(p: Accounts, s: set<Address>): map<Address, nat> {
    map a | a in s && a in p :: After(p[a].items)
  }

  lemma NoNonces(managed: map<Address, nat>, p: Accounts)
    ensures managed + NoncesAfter(p, p.Keys - p.Keys) == managed
  {}

  lemma OneMoreNonce(managed: map<Address, nat>, p: Accounts, s: set<Address>, a: Address)
    requires a in p
    ensures (managed + NoncesAfter(p, s))[a := After(p[a].items)] == managed + NoncesAfter(p, s + {a})
  {}

  lemma GaplessAreConsecutive(p: Accounts, managed: map<Address, nat>, state: Address -> nat)
    requires Gapless(p, managed, state)
    ensures ConsecutiveLists(p)
  {
    forall a | a in p ensures Consecutive(p[a].items) {
      IntervalIsConsecutive(p[a].items, state(a), NonceAt(managed, state, a));
    }
  }

  /** A list that starts at the state nonce, holds only current and payable transactions, and is gapless if it
      was. */
  ghost predicate Demotion(was: ListView, l: ListView, low: nat, costLimit: nat, gasLimit: nat) {
    && low in l.items && Waiting(l.items, low, costLimit, gasLimit)
    && (Consecutive(was.items) ==> Consecutive(l.items))
  }

  /** Every list is trimmed, except those still to do. */
  ghost predicate Demoted(was: Accounts, p: Accounts, todo: set<Address>, state: Address -> nat,
                          balance: Address -> nat, gasLimit: nat) {
    && todo <= p.Keys <= was.Keys
    && forall a :: a in p ==>
         if a in todo then p[a] == was[a] else Demotion(was[a], p[a], state(a), balance(a), gasLimit)
  }

  lemma NotDemoted(p: Accounts, state: Address -> nat, balance: Address -> nat, gasLimit: nat)
    ensures Demoted(p, p, p.Keys, state, balance, gasLimit)
  {}

  lemma DemotedOneMore(was: Accounts, p: Accounts, q: Accounts, todo: set<Address>, state: Address -> nat,
                       balance: Address -> nat, gasLimit: nat, a: Address)
    requires Demoted(was, p, todo, state, balance, gasLimit) && a in todo && SameElsewhere(p, q, a)
    requires a in q ==> Demotion(p[a], q[a], state(a), balance(a), gasLimit)
    ensures Demoted(was, q, todo - {a}, state, balance, gasLimit) && todo - {a} <= q.Keys
  {
    hide Demotion, SameElsewhere;
    SameLookup(p, q, a);
  }

  lemma DemotedIsPayable(was: Accounts, p: Accounts, state: Address -> nat, balance: Address -> nat, gasLimit: nat)
    requires Demoted(was, p, {}, state, balance, gasLimit)
    ensures PayableLists(p, state, balance, gasLimit)
  {
    hide Waiting, Consecutive;
  }

  /** Demoted lists that were gapless make the pool gapless again. */
  lemma GaplessAgain(was: Accounts, p: Accounts, state: Address -> nat, balance: Address -> nat, gasLimit: nat)
    requires Demoted(was, p, {}, state, balance, gasLimit) && ConsecutiveLists(was)
    ensures Gapless(p, map[] + NoncesAfter(p, p.Keys), state)
  {
    var managed := map[] + NoncesAfter(p, p.Keys);
    forall a: Address
      ensures if a in p then Interval(p[a].items, state(a), NonceAt(managed, state, a))
              else NonceAt(managed, state, a) == state(a)
    {
      if a in p {
        assert state(a) in p[a].items;
        assert MinKey(p[a].items.Keys) == state(a);
      }
    }
  }
}
