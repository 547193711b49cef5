/** Transactions and nonce-keyed transaction maps: the vocabulary of the pool's specifications. */
module Transactions {
  import opened Basics

  /** Account nonces. EIP-2681 keeps them below 2^64 - 1, so `nonce + 1` never wraps. */
  type Nonce = n: nat | n < MAX_UINT64

  type Address = nat

  datatype TxKind = JoinTx(joinNonce: Option<nat>) | GeneralTx | EthTx | OtherTx

  /** A signed transaction. Hashing is taken to be injective, so the transaction itself stands for
      its hash. `cost` is value + gas price * gas limit. */
  datatype Tx = Tx(
    kind: TxKind,
    sender: Address,
    signed: bool,
    nonce: Nonce,
    gasPrice: nat,
    gas: nat,
    cost: nat,
    value: int,
    size: nat,
    data: seq<bv8>,
    creates: bool)

  /** Every transaction is filed under its own nonce. */
  ghost predicate Keyed(m: map<nat, Tx>) {
    forall n :: n in m ==> m[n].nonce == n
  }

  /** `s` holds exactly the transactions of `m`, each once. */
  ghost predicate Enumerates(s: seq<Tx>, m: map<nat, Tx>) {
    && (forall i, j :: 0 <= i < j < |s| ==> s[i] != s[j])
    && (forall tx :: tx in s ==> tx.nonce in m && m[tx.nonce] == tx)
    && (forall n :: n in m ==> m[n] in s)
  }

  // ---------- the plain-map meaning of the list operations ----------

  function Below(m: map<nat, Tx>, t: nat): map<nat, Tx> {
    map n | n in m && n < t :: m[n]
  }

  function From(m: map<nat, Tx>, t: nat): map<nat, Tx> {
    map n | n in m && n >= t :: m[n]
  }

  function Matching(m: map<nat, Tx>, p: Tx -> bool): map<nat, Tx> {
    map n | n in m && p(m[n]) :: m[n]
  }

  function Without(m: map<nat, Tx>, p: Tx -> bool): map<nat, Tx> {
    map n | n in m && !p(m[n]) :: m[n]
  }

  lemma {:induction false} MaxExists(s: set<nat>)
    requires s != {}
    ensures exists m :: m in s && forall k :: k in s ==> k <= m
  {
    var x :| x in s;
    if s != {x} {
      var rest := s - {x};
      assert s == rest + {x};
      MaxExists(rest);
      var m :| m in rest && forall k :: k in rest ==> k <= m;
      var top := if x > m then x else m;
      assert top in s && forall k :: k in s ==> k <= top;
    }
  }

  lemma {:induction false} MinExists(s: set<nat>, x: nat)
    requires x in s
    ensures exists m :: m in s && forall k :: k in s ==> m <= k
    decreases x
  {
    if y :| y in s && y < x {
      MinExists(s, y);
    }
  }

  function MaxKey(s: set<nat>): (m: nat)
    requires s != {}
    ensures m in s && forall k :: k in s ==> k <= m
  {
    MaxExists(s);
    var m :| m in s && forall k :: k in s ==> k <= m;
    m
  }

  function MinKey(s: set<nat>): (m: nat)
    requires s != {}
    ensures m in s && forall k :: k in s ==> m <= k
  {
    assert exists m :: m in s && forall k :: k in s ==> m <= k by {
      var x :| x in s;
      MinExists(s, x);
    }
    var m :| m in s && forall k :: k in s ==> m <= k;
    m
  }

  /** The `n` entries of `m` with the lowest nonces. */
  function CapTo(m: map<nat, Tx>, n: nat): (r: map<nat, Tx>)
    ensures r.Keys <= m.Keys && forall k :: k in r ==> r[k] == m[k]
    ensures |r| == if |m| <= n then |m| else n
    decreases |m|
  {
    if |m| <= n then m
    else
      var rest := m - {MaxKey(m.Keys)};
      assert rest.Keys == m.Keys - {MaxKey(m.Keys)};
      CapTo(rest, n)
  }

  /** What CapTo drops lies above what it keeps. */
  lemma {:induction false} CapKeepsLowest(m: map<nat, Tx>, n: nat, k: nat, d: nat)
    requires k in CapTo(m, n) && d in m && d !in CapTo(m, n)
    ensures k < d
    decreases |m|
  {
    var top := MaxKey(m.Keys);
    var rest := m - {top};
    assert rest.Keys == m.Keys - {top};
    assert CapTo(m, n) == CapTo(rest, n);
    if d != top {
      CapKeepsLowest(rest, n, k, d);
    }
  }

  /** The first nonce from `n` on that is missing from `m`. */
  function RunEnd(m: map<nat, Tx>, n: nat): (e: nat)
    ensures e >= n
    decreases From(m, n).Keys
  {
    if n in m then
      assert n in From(m, n).Keys && From(m, n + 1).Keys == From(m, n).Keys - {n};
      RunEnd(m, n + 1)
    else n
  }

  lemma {:induction false} RunEndIsFirstGap(m: map<nat, Tx>, n: nat)
    ensures RunEnd(m, n) !in m && forall k :: n <= k < RunEnd(m, n) ==> k in m
    decreases From(m, n).Keys
  {
    if n in m {
      assert n in From(m, n).Keys && From(m, n + 1).Keys == From(m, n).Keys - {n};
      RunEndIsFirstGap(m, n + 1);
    }
  }

  /** What Ready(start) hands out: the maximal run of consecutive nonces from the lowest one,
      provided the lowest one is not above `start`. */
  function ReadyRun(m: map<nat, Tx>, start: nat): map<nat, Tx> {
    if m == map[] || MinKey(m.Keys) > start then map[]
    else Below(m, RunEnd(m, MinKey(m.Keys)))
  }

  // ---------- sorted contents ----------

  /** A set of nonces in ascending order: what sort.Sort makes of distinct nonces. */
  function SortedKeys(s: set<nat>): (r: seq<nat>)
    ensures |r| == |s| && forall i :: 0 <= i < |r| ==> r[i] in s
  {
    if s == {} then []
    else
      var low := MinKey(s);
      [low] + SortedKeys(s - {low})
  }

  function Lookup(m: map<nat, Tx>, keys: seq<nat>): (r: seq<Tx>)
    requires forall i :: 0 <= i < |keys| ==> keys[i] in m
    ensures |r| == |keys| && forall i :: 0 <= i < |keys| ==> r[i] == m[keys[i]]
  {
    if keys == [] then [] else [m[keys[0]]] + Lookup(m, keys[1..])
  }

  /** The contents of `m` in ascending nonce order. */
  function Sorted(m: map<nat, Tx>): (r: seq<Tx>)
    ensures |r| == |m|
  {
    Lookup(m, SortedKeys(m.Keys))
  }

  /** Sorting keeps every nonce and puts the lower ones first. */
  lemma {:induction false} SortedKeysOrder(s: set<nat>)
    ensures var r := SortedKeys(s);
            && (forall x :: x in s ==> x in r)
            && (forall i, j :: 0 <= i < j < |r| ==> r[i] < r[j])
  {
    if s != {} {
      hide SortedKeys;
      var low := MinKey(s);
      SortedKeysOrder(s - {low});
      LowestFirst(s, low);
      Prepended(s, low, SortedKeys(s - {low}));
    }
  }

  lemma Prepended(s: set<nat>, low: nat, rest: seq<nat>)
    requires low in s && forall k :: k in s ==> low <= k
    requires (forall x :: x in s - {low} ==> x in rest) && (forall i :: 0 <= i < |rest| ==> rest[i] in s - {low})
    requires forall i, j :: 0 <= i < j < |rest| ==> rest[i] < rest[j]
    ensures var r := [low] + rest;
            && (forall x :: x in s ==> x in r)
            && (forall i, j :: 0 <= i < j < |r| ==> r[i] < r[j])
  {
    forall x | x in s ensures x in [low] + rest {
      assert x == low || x in s - {low};
    }
  }

  lemma LowestFirst(s: set<nat>, low: nat)
    requires low in s && forall k :: k in s ==> low <= k
    ensures SortedKeys(s) == [low] + SortedKeys(s - {low})
  {
    assert low == MinKey(s);
  }

  ghost function KeysBelow(s: set<nat>, t: nat): set<nat> { set x | x in s && x < t }

  ghost function KeysFrom(s: set<nat>, t: nat): set<nat> { set x | x in s && x >= t }

  /** The sorted order splits at any threshold. */
  lemma {:induction false} SplitKeys(s: set<nat>, t: nat)
    ensures SortedKeys(s) == SortedKeys(KeysBelow(s, t)) + SortedKeys(KeysFrom(s, t))
  {
    if s == {} || MinKey(s) >= t {
      assert KeysBelow(s, t) == {} && KeysFrom(s, t) == s;
    } else {
      hide SortedKeys, KeysBelow, KeysFrom;
      var low := MinKey(s);
      SplitKeys(s - {low}, t);
      WithoutLowest(s, t, low);
      LowestFirst(s, low);
      LowestFirst(KeysBelow(s, t), low);
      var lower, upper := SortedKeys(KeysBelow(s - {low}, t)), SortedKeys(KeysFrom(s - {low}, t));
      assert [low] + (lower + upper) == [low] + lower + upper;
    }
  }

  lemma WithoutLowest(s: set<nat>, t: nat, low: nat)
    requires low in s && low < t && forall k :: k in s ==> low <= k
    ensures low in KeysBelow(s, t) && forall k :: k in KeysBelow(s, t) ==> low <= k
    ensures KeysBelow(s, t) - {low} == KeysBelow(s - {low}, t) && KeysFrom(s, t) == KeysFrom(s - {low}, t)
  {}

  lemma LookupConcat(m: map<nat, Tx>, a: seq<nat>, b: seq<nat>)
    requires forall i :: 0 <= i < |a| ==> a[i] in m
    requires forall i :: 0 <= i < |b| ==> b[i] in m
    ensures Lookup(m, a + b) == Lookup(m, a) + Lookup(m, b)
  {}

  /** A part of `m` can be looked up in `m`. */
  lemma SortedPart(m: map<nat, Tx>, part: map<nat, Tx>)
    requires part.Keys <= m.Keys && forall n :: n in part ==> part[n] == m[n]
    ensures Sorted(part) == Lookup(m, SortedKeys(part.Keys))
  {}

  /** Cutting the sorted contents where the lower part ends leaves the sorted upper part: why a
      cached order may be shifted instead of rebuilt. */
  lemma SplitSorted(m: map<nat, Tx>, t: nat)
    ensures Sorted(m) == Sorted(Below(m, t)) + Sorted(From(m, t))
  {
    SortedPart(m, Below(m, t));
    SortedPart(m, From(m, t));
    assert Below(m, t).Keys == KeysBelow(m.Keys, t);
    assert From(m, t).Keys == KeysFrom(m.Keys, t);
    SplitKeys(m.Keys, t);
    LookupConcat(m, SortedKeys(KeysBelow(m.Keys, t)), SortedKeys(KeysFrom(m.Keys, t)));
  }

  /** The highest nonce comes last. */
  lemma LastIsHighest(s: set<nat>)
    requires s != {}
    ensures SortedKeys(s) == SortedKeys(s - {MaxKey(s)}) + [MaxKey(s)]
  {
    var top := MaxKey(s);
    SplitKeys(s, top);
    assert KeysBelow(s, top) == s - {top} && KeysFrom(s, top) == {top};
    assert SortedKeys({top}) == [top];
  }

  /** A prefix of the sorted contents is the sorted contents of what CapTo keeps. */
  lemma {:induction false} CapSorted(m: map<nat, Tx>, n: nat)
    requires n <= |m|
    ensures Sorted(CapTo(m, n)) == Sorted(m)[..n]
    decreases |m|
  {
    if |m| > n {
      var rest := m - {MaxKey(m.Keys)};
      assert rest.Keys == m.Keys - {MaxKey(m.Keys)};
      assert CapTo(m, n) == CapTo(rest, n);
      hide CapTo, Sorted;
      CapSorted(rest, n);
      SortedWithoutLast(m, MaxKey(m.Keys));
    }
  }

  lemma SortedWithoutLast(m: map<nat, Tx>, top: nat)
    requires top in m && top == MaxKey(m.Keys)
    ensures Sorted(m) == Sorted(m - {top}) + [m[top]]
  {
    var rest := m - {top};
    assert rest.Keys == m.Keys - {top};
    LastIsHighest(m.Keys);
    hide SortedKeys, Lookup;
    SortedPart(m, rest);
    LookupConcat(m, SortedKeys(rest.Keys), [top]);
  }

  /** The sorted contents are strictly ascending ... */
  lemma SortedAscends(m: map<nat, Tx>)
    requires Keyed(m)
    ensures forall i, j :: 0 <= i < j < |m| ==> Sorted(m)[i].nonce < Sorted(m)[j].nonce
  {
    SortedKeysOrder(m.Keys);
  }

  /** ... and hold exactly the transactions of the map. */
  lemma SortedEnumerates(m: map<nat, Tx>)
    requires Keyed(m)
    ensures Enumerates(Sorted(m), m)
  {
    SortedAscends(m);
    SortedMembers(m);
    hide Sorted;
    forall n | n in m ensures m[n] in Sorted(m) {
      SortedHas(m, n);
    }
  }

  lemma SortedMembers(m: map<nat, Tx>)
    requires Keyed(m)
    ensures forall tx :: tx in Sorted(m) ==> tx.nonce in m && m[tx.nonce] == tx
  {
    hide SortedKeys, Lookup;
  }

  lemma SortedHas(m: map<nat, Tx>, n: nat)
    requires n in m
    ensures m[n] in Sorted(m)
  {
    SortedKeysOrder(m.Keys);
    var i :| 0 <= i < |m| && SortedKeys(m.Keys)[i] == n;
    assert Sorted(m)[i] == m[n];
  }
}
