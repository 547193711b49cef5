/** core/tx_pool.go, the first half of reset: which transactions a change of the head takes off the chain. */
module Reinjection {
  import opened Basics
  import opened HeaderTree
  import opened HeaderChains
  import opened BlockChains

  const MAX_DEPTH: nat := 64

  /** What reset goes on with. `Unrooted` is its error return; `Panicked` is the use of a missing block. */
  datatype Plan = Reinject(txs: seq<Hash>) | Unrooted | Panicked

  // ---------- the difference of two lists ----------

  function Difference(a: seq<Hash>, b: seq<Hash>): seq<Hash> {
    if a == [] then []
    else
      var last := |a| - 1;
      Difference(a[..last], b) + if a[last] in b then [] else [a[last]]
  }

  /** What is not in the second list stays, as often as it is there. */
  lemma {:induction false} DifferenceExactly(a: seq<Hash>, b: seq<Hash>, t: Hash)
    ensures multiset(Difference(a, b))[t] == if t in b then 0 else multiset(a)[t]
  {
    if a != [] {
      var last := |a| - 1;
      var before := Difference(a[..last], b);
      DifferenceExactly(a[..last], b, t);
      assert a == a[..last] + [a[last]];
      assert Difference(a, b) == if a[last] in b then before else before + [a[last]];
    }
  }

  /** types.TxDifference. */
  method TxDifference(a: seq<Hash>, b: seq<Hash>) returns (keep: seq<Hash>)
    ensures keep == Difference(a, b)
    ensures forall t :: t in keep <==> t in a && t !in b
  {
    keep := [];
    var remove: set<Hash> := {};
    for i := 0 to |b|
      invariant forall t :: t in remove <==> t in b[..i]
    {
      remove := remove + {b[i]};
    }
    assert b[..|b|] == b;
    for i := 0 to |a|
      invariant keep == Difference(a[..i], b)
      invariant forall t :: t in keep <==> t in a[..i] && t !in b
    {
      assert a[..i + 1][..i] == a[..i];
      if a[i] !in remove {
        keep := keep + [a[i]];
      }
    }
    assert a[..|a|] == a;
  }

  // ---------- the transactions of a branch ----------

  /** The transactions of a branch, block by block from its top. */
  function TxsOf(hs: Store, chain: seq<Hash>): seq<Hash>
    requires Stored(hs, chain)
  {
    if chain == [] then []
    else
      var last := |chain| - 1;
      TxsOf(hs, chain[..last]) + hs[chain[last]].txs
  }

  lemma {:induction false} TxsOfBlocks(hs: Store, chain: seq<Hash>, t: Hash)
    requires Stored(hs, chain)
    ensures t in TxsOf(hs, chain) <==> exists i :: 0 <= i < |chain| && t in hs[chain[i]].txs
  {
    if chain != [] {
      var before := chain[..|chain| - 1];
      TxsOfBlocks(hs, before, t);
      assert forall i :: 0 <= i < |before| ==> before[i] == chain[i];
    }
  }

  lemma {:induction false} BranchBlocks(hs: Store, chain: seq<Hash>, t: Hash)
    requires Stored(hs, chain)
    ensures t in BranchTxs(hs, chain) <==> exists i :: 0 <= i < |chain| && t in hs[chain[i]].txs
  {
    if chain != [] {
      var rest := chain[1..];
      EntriesExactly(chain[0], hs[chain[0]].txs);
      BranchBlocks(hs, rest, t);
      assert forall i :: 0 <= i < |rest| ==> rest[i] == chain[i + 1];
      assert forall i :: 0 < i < |chain| ==> chain[i] == rest[i - 1];
    }
  }

  /** They are those that the branch adds to the index. */
  lemma TxsOfBranch(hs: Store, g: Hash, h: Hash, c: Hash, chain: seq<Hash>)
    requires Branch(hs, h, c, chain) && Rooted(hs, g, h) && Stored(hs, chain)
    ensures c in hs && forall t :: t in TxsOf(hs, chain) <==> t in IndexAbove(hs, g, h, hs[c].number)
  {
    hide Branch, Rooted, TxsOf, BranchTxs, IndexAbove, Stored;
    BranchIndex(hs, g, h, c, chain);
    forall t
      ensures t in TxsOf(hs, chain) <==> t in IndexAbove(hs, g, h, hs[c].number)
    {
      TxsOfBlocks(hs, chain, t);
      BranchBlocks(hs, chain, t);
    }
  }

  // ---------- the plan ----------

  /** One turn of a walk: the block's transactions are collected and GetBlock finds its parent. */
  method Collect(hs: Store, ghost g: Hash, cache: set<Hash>, h: Hash, txs: seq<Hash>, ghost chain: seq<Hash>,
                 ghost top: Hash)
    returns (parent: Option<Hash>, more: seq<Hash>)
    requires Rooted(hs, g, h) && Branch(hs, top, h, chain) && Stored(hs, chain) && txs == TxsOf(hs, chain)
    requires hs[h].number > 0
    ensures parent == Some(hs[h].parent) && Rooted(hs, g, hs[h].parent)
    ensures hs[h].parent in hs && hs[hs[h].parent].number == hs[h].number - 1
    ensures Branch(hs, top, hs[h].parent, chain + [h]) && Stored(hs, chain + [h]) && more == TxsOf(hs, chain + [h])
  {
    hide Branch, Rooted;
    RootedDown(hs, g, h);
    BranchFurther(hs, top, h, chain);
    assert (chain + [h])[..|chain|] == chain;
    more := txs + hs[h].txs;
    parent := if Found(hs, cache, hs[h].parent, hs[h].number - 1) then Some(hs[h].parent) else None;
  }

  function Distance(m: nat, n: nat): nat {
    if m < n then n - m else m - n
  }

  /** No walk is made: there was no head, the new head follows it, or the heads are too far apart. */
  predicate NoWalk(oldHead: Option<(Hash, Header)>, header: Header) {
    oldHead.None? || oldHead.value.0 == header.parent || Distance(oldHead.value.1.number, header.number) > MAX_DEPTH
  }

  /** A stored block has the header that goes with its hash. */
  ghost predicate Fitting(hs: Store, h: Hash, header: Header) {
    h in hs ==> hs[h] == header
  }

  /** The transactions above the common ancestor that only the old chain has, in the order of the walk. */
  ghost predicate Discards(hs: Store, g: Hash, a: Hash, b: Hash, txs: seq<Hash>)
    requires Rooted(hs, g, a) && Rooted(hs, g, b)
  {
    var n := hs[Common(hs, g, a, b)].number;
    && (forall t :: t in txs <==> t in IndexAbove(hs, g, a, n) && t !in IndexAbove(hs, g, b, n))
    && exists oldChain, newChain ::
         && Branch(hs, a, Common(hs, g, a, b), oldChain) && Branch(hs, b, Common(hs, g, a, b), newChain)
         && Stored(hs, oldChain) && Stored(hs, newChain)
         && txs == Difference(TxsOf(hs, oldChain), TxsOf(hs, newChain))
  }

  /** The transactions to reinject, given the heads before and after. On a chain whose blocks all reach genesis the
      error return is unreachable; a walk panics exactly if one of the heads is not stored, as after a rewind. */
  method MakePlan(hs: Store, ghost g: Hash, cache: set<Hash>, oldHead: Option<(Hash, Header)>, newHead: Hash,
                  header: Header)
    returns (p: Plan)
    requires EachRooted(hs, g) && cache <= hs.Keys && Fitting(hs, newHead, header)
    requires oldHead.Some? ==> Fitting(hs, oldHead.value.0, oldHead.value.1)
    ensures NoWalk(oldHead, header) ==> p == Reinject([])
    ensures p.Panicked? <==> !NoWalk(oldHead, header) && (oldHead.value.0 !in hs || newHead !in hs)
    ensures !p.Unrooted?
    ensures !NoWalk(oldHead, header) && !p.Panicked? ==> Discards(hs, g, oldHead.value.0, newHead, p.txs)
  {
    if NoWalk(oldHead, header) {
      return Reinject([]);
    }
    var o := oldHead.value.0;
    if o !in hs || newHead !in hs {
      return Plan.Panicked;
    }
    p := WalkBoth(hs, g, cache, o, newHead);
  }

  method WalkBoth(hs: Store, ghost g: Hash, cache: set<Hash>, oldHead: Hash, newHead: Hash) returns (p: Plan)
    requires Rooted(hs, g, oldHead) && Rooted(hs, g, newHead)
    ensures p.Reinject? && Discards(hs, g, oldHead, newHead, p.txs)
  {
    hide Rooted, Branch, Common, TxsOf, Stored, Discards, Difference;
    var rem, add := oldHead, newHead;
    var discarded: seq<Hash>, included: seq<Hash> := [], [];
    ghost var oldChain: seq<Hash>, newChain: seq<Hash> := [], [];
    WalkStarts(hs, g, oldHead);
    WalkStarts(hs, g, newHead);
    while hs[rem].number > hs[add].number
      invariant rem in hs && Walked(hs, g, oldHead, rem, oldChain, discarded)
      invariant hs[rem].number >= hs[add].number || rem == oldHead
      invariant Common(hs, g, rem, add) == Common(hs, g, oldHead, newHead)
      decreases hs[rem].number
    {
      CommonDown(hs, g, rem, add);
      var parent, more := Collect(hs, g, cache, rem, discarded, oldChain, oldHead);
      if parent.None? {
        return Unrooted;
      }
      oldChain, discarded, rem := oldChain + [rem], more, parent.value;
    }
    while hs[add].number > hs[rem].number
      invariant add in hs && Walked(hs, g, newHead, add, newChain, included) && hs[add].number >= hs[rem].number
      invariant Common(hs, g, rem, add) == Common(hs, g, oldHead, newHead)
      decreases hs[add].number
    {
      CommonDown(hs, g, rem, add);
      var parent, more := Collect(hs, g, cache, add, included, newChain, newHead);
      if parent.None? {
        return Unrooted;
      }
      newChain, included, add := newChain + [add], more, parent.value;
    }
    while rem != add
      invariant rem in hs && add in hs && hs[rem].number == hs[add].number
      invariant Walked(hs, g, oldHead, rem, oldChain, discarded) && Walked(hs, g, newHead, add, newChain, included)
      invariant Common(hs, g, rem, add) == Common(hs, g, oldHead, newHead)
      decreases hs[rem].number
    {
      CommonDown(hs, g, rem, add);
      var parent, more := Collect(hs, g, cache, rem, discarded, oldChain, oldHead);
      if parent.None? {
        return Unrooted;
      }
      var other, extra := Collect(hs, g, cache, add, included, newChain, newHead);
      if other.None? {
        return Unrooted;
      }
      oldChain, discarded, rem := oldChain + [rem], more, parent.value;
      newChain, included, add := newChain + [add], extra, other.value;
    }
    CommonDown(hs, g, rem, add);
    var txs := TxDifference(discarded, included);
    Discarded(hs, g, oldHead, newHead, oldChain, newChain, txs);
    return Reinject(txs);
  }

  ghost predicate Walked(hs: Store, g: Hash, top: Hash, h: Hash, chain: seq<Hash>, txs: seq<Hash>) {
    Rooted(hs, g, h) && Branch(hs, top, h, chain) && Stored(hs, chain) && txs == TxsOf(hs, chain)
  }

  lemma WalkStarts(hs: Store, g: Hash, h: Hash)
    requires Rooted(hs, g, h)
    ensures h in hs && Walked(hs, g, h, h, [], [])
  {}

  lemma Discarded(hs: Store, g: Hash, a: Hash, b: Hash, oldChain: seq<Hash>, newChain: seq<Hash>, txs: seq<Hash>)
    requires Rooted(hs, g, a) && Rooted(hs, g, b) && Stored(hs, oldChain) && Stored(hs, newChain)
    requires Branch(hs, a, Common(hs, g, a, b), oldChain) && Branch(hs, b, Common(hs, g, a, b), newChain)
    requires txs == Difference(TxsOf(hs, oldChain), TxsOf(hs, newChain))
    requires forall t :: t in txs <==> t in TxsOf(hs, oldChain) && t !in TxsOf(hs, newChain)
    ensures Discards(hs, g, a, b, txs)
  {
    hide Rooted, Branch, Common, TxsOf, Stored, Difference, IndexAbove;
    TxsOfBranch(hs, g, a, Common(hs, g, a, b), oldChain);
    TxsOfBranch(hs, g, b, Common(hs, g, a, b), newChain);
  }

  /** Nothing is lost: every transaction of the old chain is on the new one or reinjected, and none is reinjected that
      the new chain has above the common ancestor. */
  lemma NothingLost(hs: Store, g: Hash, a: Hash, b: Hash, txs: seq<Hash>, t: Hash)
    requires Rooted(hs, g, a) && Rooted(hs, g, b) && Discards(hs, g, a, b, txs)
    ensures t in TxIndex(hs, g, a) ==> t in TxIndex(hs, g, b) || t in txs
    ensures t in txs ==> t in TxIndex(hs, g, a) && t !in IndexAbove(hs, g, b, hs[Common(hs, g, a, b)].number)
  {
    hide Rooted, Discards, Common, IndexAbove, TxIndex, AncestorAt;
    CommonIsAncestor(hs, g, a, b);
    RootedDown(hs, g, Common(hs, g, a, b));
    DiscardsAt(hs, g, a, b, txs, t);
    var n := hs[Common(hs, g, a, b)].number;
    IndexSplits(hs, g, a, n);
    IndexSplits(hs, g, b, n);
  }

  lemma DiscardsAt(hs: Store, g: Hash, a: Hash, b: Hash, txs: seq<Hash>, t: Hash)
    requires Rooted(hs, g, a) && Rooted(hs, g, b) && Discards(hs, g, a, b, txs)
    ensures var n := hs[Common(hs, g, a, b)].number;
            t in txs <==> t in IndexAbove(hs, g, a, n) && t !in IndexAbove(hs, g, b, n)
  {}

  /** A head that follows the old one keeps all its transactions. */
  lemma NothingToReinject(hs: Store, g: Hash, a: Hash, b: Hash, t: Hash)
    requires Rooted(hs, g, a) && Rooted(hs, g, b) && hs[b].number > 0 && hs[b].parent == a && t in TxIndex(hs, g, a)
    ensures t in TxIndex(hs, g, b)
  {}

  /** After a rewind to genesis the old head is gone: the next head on genesis makes the walk panic. */
  method RewoundHead() returns (p: Plan)
    ensures p == Plan.Panicked
  {
    var genesis := Header(0, 0, 1, []);
    var gone, next := Header(2, 2, 1, [7]), Header(1, 1, 1, []);
    var hs := map[1 := genesis, 4 := next];
    p := MakePlan(hs, 1, {}, Some((3, gone)), 4, next);
  }
}
