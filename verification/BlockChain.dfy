/** core/blockchain.go: choosing the head block, reorganising onto it, and the two indexes that follow
    it: canonical hashes by number, and transaction positions by hash. */
module BlockChains {
  import opened Basics
  import opened HeaderTree
  import opened HeaderChains

  // ---------- the transaction lookup index ----------

  /** Where a transaction is: its block and its position there. */
  datatype Position = Position(block: Hash, index: nat)

  type Index = map<Hash, Position>

  /** rawdb.WriteTxLookupEntries for one block, as a map. */
  function Entries(block: Hash, txs: seq<Hash>): Index {
    if txs == [] then map[]
    else
      var last := |txs| - 1;
      Entries(block, txs[..last])[txs[last] := Position(block, last)]
  }

  /** The index recomputed from genesis to `h`. */
  ghost function TxIndex(hs: Store, g: Hash, h: Hash): Index
    requires Rooted(hs, g, h)
    decreases hs[h].number
  {
    (if hs[h].number == 0 then map[] else TxIndex(hs, g, hs[h].parent)) + Entries(h, hs[h].txs)
  }

  /** Exactly the transactions of a block have an entry, at the last of their positions there. */
  lemma {:induction false} EntriesExactly(block: Hash, txs: seq<Hash>)
    ensures forall t :: t in Entries(block, txs) <==> t in txs
    ensures forall t :: t in Entries(block, txs) ==>
              var p := Entries(block, txs)[t];
              && p.block == block && p.index < |txs| && txs[p.index] == t
              && forall j :: p.index < j < |txs| ==> txs[j] != t
  {
    if txs != [] {
      var before := txs[..|txs| - 1];
      EntriesExactly(block, before);
      assert txs == before + [txs[|txs| - 1]];
    }
  }

  /** Block `b` is on the path from genesis to `h`. */
  ghost predicate IsAncestor(hs: Store, g: Hash, h: Hash, b: Hash)
    requires Rooted(hs, g, h)
  {
    b in hs && hs[b].number <= hs[h].number && AncestorAt(hs, g, h, hs[b].number) == b
  }

  /** Exactly the transactions of the path have a position in the index. It is a position of the transaction, in the
      last block of the path that holds it. */
  lemma {:induction false} TxIndexExactly(hs: Store, g: Hash, h: Hash, t: Hash)
    requires Rooted(hs, g, h)
    ensures t in TxIndex(hs, g, h) <==> exists b :: IsAncestor(hs, g, h, b) && t in hs[b].txs
    ensures t in TxIndex(hs, g, h) ==>
              var p := TxIndex(hs, g, h)[t];
              && IsAncestor(hs, g, h, p.block) && p.index < |hs[p.block].txs| && hs[p.block].txs[p.index] == t
              && forall b :: IsAncestor(hs, g, h, b) && t in hs[b].txs ==> hs[b].number <= hs[p.block].number
    decreases hs[h].number
  {
    hide Entries;
    EntriesExactly(h, hs[h].txs);
    assert IsAncestor(hs, g, h, h);
    if hs[h].number > 0 {
      var p := hs[h].parent;
      TxIndexExactly(hs, g, p, t);
      assert forall b :: IsAncestor(hs, g, p, b) ==> IsAncestor(hs, g, h, b);
      assert forall b :: IsAncestor(hs, g, h, b) && b != h ==> IsAncestor(hs, g, p, b);
    }
  }

  /** The part of the index that the blocks above number `n` contribute. */
  ghost function IndexAbove(hs: Store, g: Hash, h: Hash, n: nat): Index
    requires Rooted(hs, g, h)
    decreases hs[h].number
  {
    if hs[h].number <= n then map[]
    else IndexAbove(hs, g, hs[h].parent, n) + Entries(h, hs[h].txs)
  }

  lemma {:induction false} IndexSplits(hs: Store, g: Hash, h: Hash, n: nat)
    requires Rooted(hs, g, h) && n <= hs[h].number
    ensures TxIndex(hs, g, h) == TxIndex(hs, g, AncestorAt(hs, g, h, n)) + IndexAbove(hs, g, h, n)
    decreases hs[h].number
  {
    hide Entries;
    if hs[h].number > n {
      var p := hs[h].parent;
      IndexSplits(hs, g, p, n);
      Associative(TxIndex(hs, g, AncestorAt(hs, g, p, n)), IndexAbove(hs, g, p, n), Entries(h, hs[h].txs));
    }
  }

  lemma Associative(a: Index, b: Index, c: Index)
    ensures a + b + c == a + (b + c)
  {}

  /** No transaction of `h` occurs in an ancestor, and so on down to genesis. */
  ghost predicate Unrepeated(hs: Store, g: Hash, h: Hash)
    requires Rooted(hs, g, h)
    decreases hs[h].number
  {
    hs[h].number > 0 ==>
      && Entries(h, hs[h].txs).Keys !! TxIndex(hs, g, hs[h].parent).Keys
      && Unrepeated(hs, g, hs[h].parent)
  }

  lemma {:induction false} UnrepeatedAbove(hs: Store, g: Hash, h: Hash, n: nat)
    requires Rooted(hs, g, h) && n <= hs[h].number && Unrepeated(hs, g, h)
    ensures IndexAbove(hs, g, h, n).Keys !! TxIndex(hs, g, AncestorAt(hs, g, h, n)).Keys
    decreases hs[h].number
  {
    if hs[h].number > n {
      UnrepeatedAbove(hs, g, hs[h].parent, n);
      IndexSplits(hs, g, hs[h].parent, n);
    }
  }

  /** What a reorganisation leaves in the index: the positions on the new branch are written over the
      old index, and the transactions that only the old branch had are deleted. */
  function Reindexed(lookup: Index, dropped: set<Hash>, added: Index): Index {
    lookup + added - (dropped - added.Keys)
  }

  /** The result is the index recomputed from the new chain exactly when no transaction that is
      dropped and not added again also occurs on the common part. */
  lemma ReindexedExactly(common: Index, dropped: Index, added: Index)
    ensures Reindexed(common + dropped, dropped.Keys, added) == common + added <==>
              (dropped.Keys - added.Keys) !! common.Keys
  {
    var r := Reindexed(common + dropped, dropped.Keys, added);
    if (dropped.Keys - added.Keys) !! common.Keys {
      assert r.Keys == (common + added).Keys;
    } else {
      var t :| t in dropped.Keys - added.Keys && t in common.Keys;
      assert t !in r.Keys && t in (common + added).Keys;
    }
  }

  // ---------- walking down to the common ancestor ----------

  /** `k` parent links lead from `h` to `c` through stored blocks, numbered downwards. */
  ghost predicate Descends(hs: Store, h: Hash, c: Hash, k: nat)
    decreases k
  {
    && h in hs
    && if k == 0 then h == c
       else hs[h].parent in hs && hs[hs[h].parent].number == hs[h].number - 1 && Descends(hs, hs[h].parent, c, k - 1)
  }

  lemma {:induction false} DescendsFurther(hs: Store, h: Hash, c: Hash, k: nat)
    requires Descends(hs, h, c, k) && c in hs && hs[c].parent in hs && hs[hs[c].parent].number == hs[c].number - 1
    ensures Descends(hs, h, hs[c].parent, k + 1)
    decreases k
  {
    if k > 0 {
      DescendsFurther(hs, hs[h].parent, c, k - 1);
    }
  }

  /** A block is rooted exactly when a block below it is. */
  lemma {:induction false} DescendsRooted(hs: Store, g: Hash, h: Hash, c: Hash, k: nat)
    requires Descends(hs, h, c, k)
    ensures c in hs && hs[h].number == hs[c].number + k
    ensures Rooted(hs, g, h) <==> Rooted(hs, g, c)
    ensures Rooted(hs, g, h) ==> AncestorAt(hs, g, h, hs[c].number) == c
    decreases k
  {
    if k > 0 {
      DescendsRooted(hs, g, hs[h].parent, c, k - 1);
    }
  }

  /** The blocks from `h` down to just above number `n`. */
  ghost predicate Branch(hs: Store, h: Hash, c: Hash, chain: seq<Hash>) {
    Descends(hs, h, c, |chain|) && forall i :: 0 <= i < |chain| ==> Descends(hs, h, chain[i], i)
  }

  lemma BranchFurther(hs: Store, h: Hash, c: Hash, chain: seq<Hash>)
    requires Branch(hs, h, c, chain) && c in hs && hs[c].parent in hs && hs[hs[c].parent].number == hs[c].number - 1
    ensures Branch(hs, h, hs[c].parent, chain + [c])
  {
    DescendsFurther(hs, h, c, |chain|);
  }

  /** The lowest common ancestor of two blocks. */
  ghost function Common(hs: Store, g: Hash, a: Hash, b: Hash): (c: Hash)
    requires Rooted(hs, g, a) && Rooted(hs, g, b)
    ensures Rooted(hs, g, c)
    decreases hs[a].number + hs[b].number
  {
    if a == b then a
    else if hs[a].number > hs[b].number then Common(hs, g, hs[a].parent, b)
    else if hs[a].number < hs[b].number then Common(hs, g, a, hs[b].parent)
    else Common(hs, g, hs[a].parent, hs[b].parent)
  }

  /** All blocks but `x`, which has a stored parent, are rooted. */
  ghost predicate OthersRooted(hs: Store, g: Hash, x: Hash) {
    && x in hs && hs[x].parent in hs && hs[x].parent != x && g in hs && hs[g].parent !in hs
    && forall h :: h in hs && h != x ==> Rooted(hs, g, h)
  }

  /** One step down: GetBlock on the parent, which the block cache answers by hash alone. */
  method Down(hs: Store, cache: set<Hash>, h: Hash, chain: seq<Hash>, ghost top: Hash)
    returns (parent: Option<Hash>, longer: seq<Hash>)
    requires h in hs
    ensures longer == chain + [h]
    ensures parent == if Found(hs, cache, hs[h].parent, hs[h].number - 1) then Some(hs[h].parent) else None
    ensures Branch(hs, top, h, chain) && Read(hs, hs[h].parent, hs[h].number - 1).Some? ==>
              Branch(hs, top, hs[h].parent, longer)
  {
    hide Branch;
    longer := chain + [h];
    if Branch(hs, top, h, chain) && Read(hs, hs[h].parent, hs[h].number - 1).Some? {
      BranchFurther(hs, top, h, chain);
    }
    parent := if Found(hs, cache, hs[h].parent, hs[h].number - 1) then Some(hs[h].parent) else None;
  }

  /** What the two walks of reorg find: the lowest common ancestor and the two branches above it,
      or nothing when the new block does not connect to the old chain. */
  datatype Fork = Fork(common: Hash, oldChain: seq<Hash>, newChain: seq<Hash>)

  ghost predicate IsFork(hs: Store, g: Hash, oldHead: Hash, newHead: Hash, f: Fork) {
    && Rooted(hs, g, oldHead) && Rooted(hs, g, newHead)
    && Branch(hs, oldHead, f.common, f.oldChain) && Branch(hs, newHead, f.common, f.newChain)
  }

  predicate Stored(hs: Store, chain: seq<Hash>) {
    forall i :: 0 <= i < |chain| ==> chain[i] in hs
  }

  /** Where the walk down from the new head stands. If the new head is not rooted, this says only that everything
      below it is. */
  ghost predicate Reaches(hs: Store, g: Hash, newHead: Hash, n: Hash, chain: seq<Hash>) {
    && n in hs && Stored(hs, chain) && (n != newHead ==> Rooted(hs, g, n))
    && (Rooted(hs, g, newHead) ==> Rooted(hs, g, n) && Branch(hs, newHead, n, chain))
  }

  /** How many steps are left: the number of the block, and for the new head one more than its parent's. */
  ghost function Left(hs: Store, newHead: Hash, n: Hash): nat
    requires n in hs && newHead in hs && hs[newHead].parent in hs
  {
    if n == newHead then hs[hs[newHead].parent].number + 1 else hs[n].number
  }

  /** The two walks of reorg. A rooted new head has a lowest common ancestor with the old one, and it is found; the
      error branches are unreachable then. */
  method FindFork(hs: Store, ghost g: Hash, cache: set<Hash>, oldHead: Hash, newHead: Hash) returns (f: Option<Fork>)
    requires Rooted(hs, g, oldHead) && OthersRooted(hs, g, newHead) && cache <= hs.Keys
    ensures Rooted(hs, g, newHead) ==>
              && f.Some? && IsFork(hs, g, oldHead, newHead, f.value)
              && f.value.common == Common(hs, g, oldHead, newHead)
    ensures f.Some? ==> Stored(hs, f.value.oldChain) && Stored(hs, f.value.newChain)
  {
    hide Rooted, Branch, Descends, Reaches, Common, OthersRooted, Left;
    var o, n := oldHead, newHead;
    var oldChain: seq<Hash>, newChain: seq<Hash> := [], [];
    OthersFacts(hs, g, newHead);
    BranchStart(hs, g, oldHead, newHead);
    ghost var rooted := Rooted(hs, g, newHead);
    ghost var common := if rooted then Common(hs, g, oldHead, newHead) else 0;
    if hs[o].number > hs[n].number {
      while hs[o].number != hs[n].number
        invariant o in hs && Rooted(hs, g, o) && Branch(hs, oldHead, o, oldChain) && Stored(hs, oldChain)
        invariant hs[o].number >= hs[n].number && (rooted ==> Common(hs, g, o, n) == common)
        decreases hs[o].number
      {
        RootedDown(hs, g, o);
        if rooted {
          CommonDown(hs, g, o, n);
        }
        var p;
        p, oldChain := Down(hs, cache, o, oldChain, oldHead);
        o := p.value;
      }
    } else {
      while hs[n].number != hs[o].number
        invariant Reaches(hs, g, newHead, n, newChain) && n in hs
        invariant rooted ==> Rooted(hs, g, n) && hs[n].number >= hs[o].number && Common(hs, g, o, n) == common
        decreases Left(hs, newHead, n)
      {
        RootedDown(hs, g, n);
        if rooted {
          CommonDown(hs, g, o, n);
        }
        var p, longer := Down(hs, cache, n, newChain, newHead);
        Lower(hs, g, cache, newHead, n, newChain);
        newChain := longer;
        if p.None? {
          return None;
        }
        n := p.value;
      }
    }
    while o != n
      invariant o in hs && Rooted(hs, g, o) && Branch(hs, oldHead, o, oldChain) && Stored(hs, oldChain)
      invariant Reaches(hs, g, newHead, n, newChain) && n in hs
      invariant rooted ==> Rooted(hs, g, n) && hs[n].number == hs[o].number && Common(hs, g, o, n) == common
      decreases hs[o].number
    {
      RootedDown(hs, g, o);
      RootedDown(hs, g, n);
      AtGenesis(hs, g, newHead, o);
      if rooted {
        CommonDown(hs, g, o, n);
      }
      var p, q, longer;
      p, oldChain := Down(hs, cache, o, oldChain, oldHead);
      q, longer := Down(hs, cache, n, newChain, newHead);
      Lower(hs, g, cache, newHead, n, newChain);
      newChain := longer;
      if p.None? || q.None? {
        return None;
      }
      o, n := p.value, q.value;
    }
    ReachesFacts(hs, g, newHead, n, newChain);
    if rooted {
      CommonDown(hs, g, o, n);
    }
    return Some(Fork(n, oldChain, newChain));
  }

  /** One step of the walk down from the new head. */
  lemma Lower(hs: Store, g: Hash, cache: set<Hash>, newHead: Hash, n: Hash, chain: seq<Hash>)
    requires OthersRooted(hs, g, newHead) && Reaches(hs, g, newHead, n, chain) && cache <= hs.Keys && n in hs
    ensures Found(hs, cache, hs[n].parent, hs[n].number - 1) ==>
              && Reaches(hs, g, newHead, hs[n].parent, chain + [n])
              && Left(hs, newHead, hs[n].parent) < Left(hs, newHead, n)
    ensures Rooted(hs, g, newHead) && hs[n].number > 0 ==> Found(hs, cache, hs[n].parent, hs[n].number - 1)
  {
    hide Branch;
    if Rooted(hs, g, newHead) && Found(hs, cache, hs[n].parent, hs[n].number - 1) {
      BranchFurther(hs, newHead, n, chain);
    }
  }

  lemma ReachesFacts(hs: Store, g: Hash, newHead: Hash, n: Hash, chain: seq<Hash>)
    requires Reaches(hs, g, newHead, n, chain)
    ensures Stored(hs, chain) && (Rooted(hs, g, newHead) ==> Branch(hs, newHead, n, chain))
  {}

  lemma AtGenesis(hs: Store, g: Hash, x: Hash, o: Hash)
    requires OthersRooted(hs, g, x) && Rooted(hs, g, o)
    ensures o in hs && (hs[o].number == 0 ==> hs[o].parent !in hs)
  {}

  /** The common ancestor is that of the parents, as long as the blocks differ. */
  lemma CommonDown(hs: Store, g: Hash, a: Hash, b: Hash)
    requires Rooted(hs, g, a) && Rooted(hs, g, b)
    ensures a in hs && b in hs
    ensures a == b ==> Common(hs, g, a, b) == a
    ensures hs[a].number > hs[b].number ==>
              Rooted(hs, g, hs[a].parent) && Common(hs, g, a, b) == Common(hs, g, hs[a].parent, b)
    ensures hs[a].number < hs[b].number ==>
              Rooted(hs, g, hs[b].parent) && Common(hs, g, a, b) == Common(hs, g, a, hs[b].parent)
    ensures hs[a].number == hs[b].number && a != b ==>
              && hs[a].number > 0 && Rooted(hs, g, hs[a].parent) && Rooted(hs, g, hs[b].parent)
              && Common(hs, g, a, b) == Common(hs, g, hs[a].parent, hs[b].parent)
  {}

  lemma BranchStart(hs: Store, g: Hash, oldHead: Hash, newHead: Hash)
    requires Rooted(hs, g, oldHead) && newHead in hs
    ensures oldHead in hs && Branch(hs, oldHead, oldHead, []) && Reaches(hs, g, newHead, newHead, [])
  {}

  lemma RootedDown(hs: Store, g: Hash, h: Hash)
    ensures Rooted(hs, g, h) && hs[h].number > 0 ==>
              Read(hs, hs[h].parent, hs[h].number - 1).Some? && Rooted(hs, g, hs[h].parent)
    ensures Rooted(hs, g, h) ==> h in hs
  {}

  /** It is an ancestor of both ... */
  lemma {:induction false} CommonIsAncestor(hs: Store, g: Hash, a: Hash, b: Hash)
    requires Rooted(hs, g, a) && Rooted(hs, g, b)
    ensures var n := hs[Common(hs, g, a, b)].number;
            && n <= hs[a].number && n <= hs[b].number
            && AncestorAt(hs, g, a, n) == Common(hs, g, a, b) == AncestorAt(hs, g, b, n)
    decreases hs[a].number + hs[b].number
  {
    if a != b {
      if hs[a].number > hs[b].number {
        CommonIsAncestor(hs, g, hs[a].parent, b);
      } else if hs[a].number < hs[b].number {
        CommonIsAncestor(hs, g, a, hs[b].parent);
      } else {
        CommonIsAncestor(hs, g, hs[a].parent, hs[b].parent);
      }
    }
  }

  /** ... and above it the two chains have no block in common. */
  lemma {:induction false} CommonIsLowest(hs: Store, g: Hash, a: Hash, b: Hash, m: nat)
    requires Rooted(hs, g, a) && Rooted(hs, g, b)
    requires hs[Common(hs, g, a, b)].number < m <= hs[a].number && m <= hs[b].number
    ensures AncestorAt(hs, g, a, m) != AncestorAt(hs, g, b, m)
    decreases hs[a].number + hs[b].number
  {
    CommonDown(hs, g, a, b);
    if hs[a].number > hs[b].number {
      CommonIsLowest(hs, g, hs[a].parent, b, m);
    } else if hs[a].number < hs[b].number {
      CommonIsLowest(hs, g, a, hs[b].parent, m);
    } else if m < hs[a].number {
      CommonIsLowest(hs, g, hs[a].parent, hs[b].parent, m);
    }
  }

  // ---------- the chain ----------

  /** `canon` numbers the ancestors of `h`; what it says above `h` is left open. */
  ghost predicate OnPath(hs: Store, g: Hash, canon: map<nat, Hash>, h: Hash) {
    Rooted(hs, g, h) && forall n :: 0 <= n <= hs[h].number ==> n in canon && canon[n] == AncestorAt(hs, g, h, n)
  }

  /** TxDifference of the transactions of two branches, as a set. */
  function BranchTxs(hs: Store, chain: seq<Hash>): set<Hash>
    requires forall i :: 0 <= i < |chain| ==> chain[i] in hs
  {
    if chain == [] then {}
    else BranchTxs(hs, chain[1..]) + Entries(chain[0], hs[chain[0]].txs).Keys
  }

  lemma {:induction false} BranchIndex(hs: Store, g: Hash, h: Hash, c: Hash, chain: seq<Hash>)
    requires Branch(hs, h, c, chain) && Rooted(hs, g, h)
    ensures forall i :: 0 <= i < |chain| ==> chain[i] in hs
    ensures c in hs && BranchTxs(hs, chain) == IndexAbove(hs, g, h, hs[c].number).Keys
    decreases |chain|
  {
    DescendsRooted(hs, g, h, c, |chain|);
    if chain != [] {
      assert chain[0] == h;
      var p := hs[h].parent;
      assert Branch(hs, p, c, chain[1..]) by {
        forall i | 0 <= i < |chain| - 1 ensures Descends(hs, p, chain[1..][i], i) {
          assert Descends(hs, h, chain[i + 1], i + 1);
        }
      }
      BranchIndex(hs, g, p, c, chain[1..]);
    }
  }

  /** What became of a block. `InvalidChain` is the error of reorg. */
  datatype BlockStatus = NoAncestor | NewHead | SideBlock | InvalidChain

  /** Some transaction that the switch from `a` to `b` drops for good is also on the common part. */
  ghost predicate Loses(hs: Store, g: Hash, a: Hash, b: Hash)
    requires Rooted(hs, g, a) && Rooted(hs, g, b)
  {
    var c := Common(hs, g, a, b);
    var n := hs[c].number;
    !((IndexAbove(hs, g, a, n).Keys - IndexAbove(hs, g, b, n).Keys) !! TxIndex(hs, g, c).Keys)
  }

  class BlockChain {
    const genesis: Hash
    var blocks: Store
    var td: map<Hash, nat>
    var canon: map<nat, Hash>
    var lookup: Index
    var currentHash: Hash

    /** The hashes whose total difficulties and blocks are cached at the moment. */
    var tdCache: set<Hash>
    var blockCache: set<Hash>

    ghost predicate Valid()
      reads this
    {
      && Sound(blocks, td, genesis) && OnPath(blocks, genesis, canon, currentHash)
      && tdCache <= blocks.Keys && blockCache <= blocks.Keys
    }

    /** The lookup index is the one recomputed from the current chain. */
    ghost predicate Indexed()
      requires Valid()
      reads this
    {
      lookup == TxIndex(blocks, genesis, currentHash)
    }

    /** Hashes are acyclic, so genesis is not its own parent. */
    constructor (genesis: Hash, block: Header)
      requires genesis != 0 && block.number == 0 && block.parent != genesis
      ensures Valid() && Indexed() && this.genesis == genesis == currentHash && blocks == map[genesis := block]
      ensures canon == map[0 := genesis]
    {
      this.genesis := genesis;
      blocks, td, canon := map[genesis := block], map[genesis := block.difficulty], map[0 := genesis];
      lookup, currentHash := Entries(genesis, block.txs), genesis;
      tdCache, blockCache := {}, {};
    }

    /** The second half of reorg: number and index the new branch, lowest block first, and delete the
        index entries of the transactions that were only on the old one. */
    method Switch(f: Fork, ghost newHead: Hash)
      requires Stored(blocks, f.oldChain) && Stored(blocks, f.newChain)
      modifies this`canon, this`lookup
      ensures old(OnPath(blocks, genesis, canon, currentHash)) && IsFork(blocks, genesis, currentHash, newHead, f) ==>
                && OnPath(blocks, genesis, canon, newHead) && f.common in blocks
                && var n := blocks[f.common].number;
                   lookup == Reindexed(old(lookup), IndexAbove(blocks, genesis, currentHash, n).Keys,
                                       IndexAbove(blocks, genesis, newHead, n))
    {
      hide Rooted, Branch, Descends, Entries, OnPath, IndexAbove, BranchTxs;
      ghost var right := OnPath(blocks, genesis, canon, currentHash) &&
                         IsFork(blocks, genesis, currentHash, newHead, f);
      if right {
        BranchIndex(blocks, genesis, currentHash, f.common, f.oldChain);
        BranchIndex(blocks, genesis, newHead, f.common, f.newChain);
        PathBelow(blocks, genesis, canon, currentHash, f.common, f.oldChain);
      }
      var numbers, index := Adopt(blocks, genesis, canon, lookup, f.common, f.newChain, newHead, right);
      var gone := BranchTxs(blocks, f.oldChain) - BranchTxs(blocks, f.newChain);
      canon, lookup := numbers, index - gone;
    }

    /** The insertion loop of reorg: bc.insert and WriteTxLookupEntries for each new block. */
    static method Adopt(hs: Store, ghost g: Hash, canon: map<nat, Hash>, lookup: Index, ghost common: Hash,
                        chain: seq<Hash>, ghost newHead: Hash, ghost right: bool)
      returns (numbers: map<nat, Hash>, index: Index)
      requires Stored(hs, chain)
      requires right ==> Rooted(hs, g, newHead) && Branch(hs, newHead, common, chain) && common in hs &&
                         OnPath(hs, g, canon, common)
      ensures right ==>
                OnPath(hs, g, numbers, newHead) && index == lookup + IndexAbove(hs, g, newHead, hs[common].number)
    {
      hide Rooted, Branch, Descends, Entries, OnPath, IndexAbove;
      numbers, index := canon, lookup;
      ghost var top := common;
      var i := |chain|;
      if right {
        AdoptNone(hs, g, lookup, common, canon);
      }
      while i > 0
        invariant 0 <= i <= |chain| && top == if i == |chain| then common else chain[i]
        invariant right ==> Rooted(hs, g, top) && OnPath(hs, g, numbers, top)
        invariant right ==> index == lookup + IndexAbove(hs, g, top, hs[common].number)
        decreases i
      {
        i := i - 1;
        var b := chain[i];
        if right {
          AdoptOne(hs, g, lookup, common, chain, newHead, i, numbers, top);
        }
        numbers := numbers[hs[b].number := b];
        index := index + Entries(b, hs[b].txs);
        top := b;
      }
      if right {
        AdoptAll(hs, newHead, common, chain);
      }
    }

    /** WriteBlockWithState, as far as the chain is concerned. `coin` is the random choice between blocks of equal
        difficulty and number. A hash stands for one block, and none is written under the hash that genesis names as
        its parent. A block is refused exactly if its parent is not stored, or is stored under another number and its
        total difficulty is not cached. The chain stays valid exactly if the block is refused or is numbered after its
        parent, and then reorg does not fail. The lookup index stays right exactly if the switch loses nothing. */
    method WriteBlock(hash: Hash, block: Header, coin: bool) returns (status: BlockStatus)
      requires Valid() && hash != 0 && hash != blocks[genesis].parent && (hash in blocks ==> blocks[hash] == block)
      modifies this
      ensures status.NoAncestor? ==
                (block.parent !in old(blocks) || (!Fits(old(blocks), block) && block.parent !in old(tdCache)))
      ensures Valid() <==> status.NoAncestor? || Fits(old(blocks), block)
      ensures Fits(old(blocks), block) ==> !status.InvalidChain?
      ensures if status.NoAncestor? then blocks == old(blocks) && td == old(td) && tdCache == old(tdCache)
              else
                && blocks == old(blocks)[hash := block] && hash in tdCache
                && td == old(td)[hash := block.difficulty + old(td)[block.parent]]
      ensures !status.NoAncestor? ==>
                var was, height := old(TotalDifficulty(blocks, genesis, currentHash)), old(blocks[currentHash].number);
                status.SideBlock? ==
                  !(td[hash] > was || (td[hash] == was && (block.number < height || (block.number == height && coin))))
      ensures currentHash == if status.NewHead? then hash else old(currentHash)
      ensures status.NewHead? && block.parent == old(currentHash) ==> canon == old(canon)[block.number := hash]
      ensures block.parent == old(currentHash) ==> !status.InvalidChain?
      ensures Valid() ==>
                && (!status.NoAncestor? ==> td[hash] == TotalDifficulty(blocks, genesis, hash))
                && TotalDifficulty(blocks, genesis, currentHash) >= old(TotalDifficulty(blocks, genesis, currentHash))
      ensures old(Indexed()) && Valid() ==>
                (Indexed() <==> !(status.NewHead? && Loses(blocks, genesis, old(currentHash), hash)))
      ensures old(Indexed()) && old(Unrepeated(blocks, genesis, currentHash)) && Valid() ==> Indexed()
    {
      hide OnPath, TotalDifficulty, Rooted, Sound, Entries, Unrepeated, TxIndex, Loses, OthersRooted;
      SoundFacts(blocks, td, genesis, canon, currentHash);
      var ptd := ReadTd(blocks, td, tdCache, block.parent, block.number - 1);
      if ptd.None? {
        return NoAncestor;
      }
      BlockMeans(blocks, td, genesis, canon, currentHash, hash, block);
      var localTd := td[currentHash];
      var externTd := block.difficulty + ptd.value;
      var cached := Keep(tdCache, hash);
      td, blocks, tdCache := td[hash := externTd], blocks[hash := block], cached;
      var height := blocks[currentHash].number;
      status := Choose(hash, externTd > localTd || (externTd == localTd && (block.number < height ||
                                                                          (block.number == height && coin))));
    }

    /** The head change, if the block is chosen. Reading blocks fills the block cache, which may evict anything. */
    method Choose(hash: Hash, chosen: bool) returns (status: BlockStatus)
      requires OthersRooted(blocks, genesis, hash) && OnPath(blocks, genesis, canon, currentHash)
      requires blockCache <= blocks.Keys
      modifies this`canon, this`lookup, this`currentHash, this`blockCache
      ensures !status.NoAncestor? && status.SideBlock? == !chosen && blockCache <= blocks.Keys
      ensures currentHash == if status.NewHead? then hash else old(currentHash)
      ensures !chosen ==> canon == old(canon) && lookup == old(lookup)
      ensures chosen && blocks[hash].parent == old(currentHash) ==>
                status.NewHead? && canon == old(canon)[blocks[hash].number := hash]
      ensures chosen && Rooted(blocks, genesis, hash) && blocks[hash].number > 0 ==>
                && status.NewHead? && OnPath(blocks, genesis, canon, hash) && Rooted(blocks, genesis, old(currentHash))
                && (old(lookup == TxIndex(blocks, genesis, currentHash)) ==>
                      && (lookup == TxIndex(blocks, genesis, hash) <==>
                            !Loses(blocks, genesis, old(currentHash), hash))
                      && (old(Unrepeated(blocks, genesis, currentHash)) ==> lookup == TxIndex(blocks, genesis, hash)))
    {
      hide OnPath, Rooted, Unrepeated, TxIndex, Loses, OthersRooted;
      OthersFacts(blocks, genesis, hash);
      if chosen {
        var ok := MakeHead(hash);
        status := if ok then NewHead else InvalidChain;
      } else {
        status := SideBlock;
      }
      var evicted: set<Hash> := *;
      blockCache := blocks.Keys - evicted;
    }

    /** The head change of WriteBlockWithState: extend the chain, or reorganise it, and insert. */
    method MakeHead(hash: Hash) returns (ok: bool)
      requires OthersRooted(blocks, genesis, hash) && OnPath(blocks, genesis, canon, currentHash)
      requires blockCache <= blocks.Keys
      modifies this`canon, this`lookup, this`currentHash
      ensures currentHash == if ok then hash else old(currentHash)
      ensures blocks[hash].parent == old(currentHash) ==> ok && canon == old(canon)[blocks[hash].number := hash]
      ensures Rooted(blocks, genesis, hash) && blocks[hash].number > 0 ==>
                && ok && OnPath(blocks, genesis, canon, hash) && Rooted(blocks, genesis, old(currentHash))
                && (old(lookup == TxIndex(blocks, genesis, currentHash)) ==>
                      && (lookup == TxIndex(blocks, genesis, hash) <==>
                            !Loses(blocks, genesis, old(currentHash), hash))
                      && (old(Unrepeated(blocks, genesis, currentHash)) ==> lookup == TxIndex(blocks, genesis, hash)))
    {
      hide OnPath, Rooted, Entries, Unrepeated, TxIndex, IsFork, IndexAbove, Reindexed, Common, Loses, OthersRooted;
      PathFacts(blocks, genesis, canon, currentHash);
      OthersFacts(blocks, genesis, hash);
      ghost var right := Rooted(blocks, genesis, hash) && blocks[hash].number > 0;
      if blocks[hash].parent != currentHash {
        var f := FindFork(blocks, genesis, blockCache, currentHash, hash);
        if f.None? {
          return false;
        }
        if right {
          SwitchIndex(blocks, genesis, currentHash, hash, f.value);
        }
        Switch(f.value, hash);
        if right {
          HeadAgain(blocks, genesis, canon, hash);
        }
      } else {
        if right {
          HeadOnTop(blocks, genesis, canon, currentHash, hash);
        }
        lookup := lookup + Entries(hash, blocks[hash].txs);
      }
      canon := canon[blocks[hash].number := hash];
      currentHash := hash;
      return true;
    }
  }

  /** The stored blocks are rooted, with their total difficulties. */
  ghost predicate Sound(hs: Store, td: map<Hash, nat>, g: Hash) {
    && 0 !in hs && g in hs && hs[g].number == 0 && hs[g].parent !in hs && EachRooted(hs, g) && td.Keys == hs.Keys
    && (forall h :: h in hs ==> td[h] == TotalDifficulty(hs, g, h))
  }

  lemma SoundFacts(hs: Store, td: map<Hash, nat>, g: Hash, canon: map<nat, Hash>, cur: Hash)
    requires Sound(hs, td, g) && OnPath(hs, g, canon, cur)
    ensures hs.Keys == td.Keys && g in hs && cur in hs && Rooted(hs, g, cur) && td[cur] == TotalDifficulty(hs, g, cur)
  {}

  /** What is true once a block with a stored parent is written. */
  lemma BlockMeans(hs: Store, td: map<Hash, nat>, g: Hash, canon: map<nat, Hash>, cur: Hash, hash: Hash, block: Header)
    requires Sound(hs, td, g) && OnPath(hs, g, canon, cur)
    requires hash != 0 && hash != hs[g].parent && (hash in hs ==> hs[hash] == block) && block.parent in hs
    ensures hs.Keys == td.Keys
    ensures var hs', td' := hs[hash := block], td[hash := block.difficulty + td[block.parent]];
            && OthersRooted(hs', g, hash) && OnPath(hs', g, canon, cur) && cur in hs && hs'[cur] == hs[cur]
            && Rooted(hs', g, cur) && Rooted(hs, g, cur)
            && TxIndex(hs', g, cur) == TxIndex(hs, g, cur) && Unrepeated(hs', g, cur) == Unrepeated(hs, g, cur)
            && TotalDifficulty(hs', g, cur) == TotalDifficulty(hs, g, cur)
            && Sound(hs', td', g) == Fits(hs, block)
            && (Fits(hs, block) ==>
                  && Rooted(hs', g, hash) && block.number > 0
                  && TotalDifficulty(hs', g, hash) == block.difficulty + td[block.parent])
  {
    hide Rooted, TotalDifficulty, EachRooted, TxIndex, Unrepeated, OnPath;
    PathExtends(hs, g, canon, cur, hash, block);
    PathFacts(hs, g, canon, cur);
    if Fits(hs, block) {
      BlockFits(hs, td, g, hash, block);
    } else {
      BlockMisfits(hs, td, g, hash, block);
    }
  }

  lemma BlockFits(hs: Store, td: map<Hash, nat>, g: Hash, hash: Hash, block: Header)
    requires Sound(hs, td, g) && Fits(hs, block)
    requires hash != 0 && hash != hs[g].parent && (hash in hs ==> hs[hash] == block)
    ensures var hs', td' := hs[hash := block], td[hash := block.difficulty + td[block.parent]];
            && OthersRooted(hs', g, hash) && Sound(hs', td', g) && Rooted(hs', g, hash)
            && TotalDifficulty(hs', g, hash) == block.difficulty + td[block.parent]
  {
    hide Rooted, TotalDifficulty, EachRooted;
    RootedIn(hs, g, block.parent);
    EachExtend(hs, g, hash, block);
    NewHeader(hs, g, hash, block);
    EachIsRooted(hs[hash := block], g);
    GenesisFirst(hs, g, hash, block);
  }

  lemma GenesisFirst(hs: Store, g: Hash, hash: Hash, block: Header)
    requires g in hs && hs[g].number == 0 && (hash in hs ==> hs[hash] == block) && Fits(hs, block)
    ensures hash != g
  {}

  lemma EachIsRooted(hs: Store, g: Hash)
    requires EachRooted(hs, g)
    ensures forall h :: h in hs ==> Rooted(hs, g, h)
  {}

  /** A block whose parent is stored under another number is new, is not rooted, and no other block is on it. */
  lemma BlockMisfits(hs: Store, td: map<Hash, nat>, g: Hash, hash: Hash, block: Header)
    requires Sound(hs, td, g) && block.parent in hs && !Fits(hs, block)
    requires hash != 0 && hash != hs[g].parent && (hash in hs ==> hs[hash] == block)
    ensures OthersRooted(hs[hash := block], g, hash) && !EachRooted(hs[hash := block], g) && hash !in hs
  {
    hide TotalDifficulty;
    if hash in hs {
      StoredFits(hs, g, hash);
    }
    assert !Rooted(hs[hash := block], g, hash);
    forall h | h in hs
      ensures Rooted(hs[hash := block], g, h)
    {
      RootedIn(hs, g, h);
      Extend(hs, g, h, hash, block);
    }
  }

  lemma StoredFits(hs: Store, g: Hash, hash: Hash)
    requires EachRooted(hs, g) && hash in hs && hs[hash].parent in hs && g in hs && hs[g].parent !in hs
    ensures Fits(hs, hs[hash])
  {
    assert Rooted(hs, g, hash);
  }

  lemma OthersFacts(hs: Store, g: Hash, x: Hash)
    requires OthersRooted(hs, g, x)
    ensures x in hs && hs[x].parent in hs
  {}

  // ---------- inputs ----------

  const ROOT := Header(0, 0, 1, [9])
  const AGAIN := Header(1, 1, 1, [9])
  const HEAVIER := Header(1, 1, 2, [])
  const TOO_HIGH := Header(2, 7, 5, [])

  /** A transaction on the common part and again on the dropped branch: after a switch to a heavier block without it,
      it has lost its entry in the lookup index. */
  method RepeatedIsLost() returns (bc: BlockChain)
    ensures bc.Valid() && bc.currentHash == 3 && !bc.Indexed()
  {
    hide OnPath, TotalDifficulty, Rooted, Sound, Entries, Unrepeated, TxIndex, Loses, EachRooted;
    Repetition();
    bc := OneBlock();
    SoundFacts(bc.blocks, bc.td, 1, bc.canon, 2);
    var status := bc.WriteBlock(3, HEAVIER, false);
    assert bc.blocks == map[1 := ROOT, 2 := AGAIN, 3 := HEAVIER];
  }

  /** A block with number 7 on the current block with number 1, whose total difficulty is cached. */
  method MisnumberedBlock() returns (bc: BlockChain)
    ensures bc.currentHash == 9 && !bc.Valid() && bc.canon == map[0 := 1, 1 := 2, 7 := 9]
  {
    hide OnPath, TotalDifficulty, Rooted, Sound, Entries, Unrepeated, TxIndex, Loses, EachRooted;
    Repetition();
    bc := OneBlock();
    SoundFacts(bc.blocks, bc.td, 1, bc.canon, 2);
    var status := bc.WriteBlock(9, TOO_HIGH, false);
  }

  method OneBlock() returns (bc: BlockChain)
    ensures fresh(bc) && bc.Valid() && bc.Indexed() && bc.genesis == 1 && bc.currentHash == 2 && 2 in bc.tdCache
    ensures bc.blocks == map[1 := ROOT, 2 := AGAIN] && bc.canon == map[0 := 1, 1 := 2]
  {
    hide OnPath, TotalDifficulty, Rooted, Sound, Entries, Unrepeated, TxIndex, Loses, EachRooted;
    Repetition();
    bc := new BlockChain(1, ROOT);
    SoundFacts(bc.blocks, bc.td, 1, bc.canon, 1);
    var status := bc.WriteBlock(2, AGAIN, false);
    assert bc.blocks == map[1 := ROOT, 2 := AGAIN];
    SoundFacts(bc.blocks, bc.td, 1, bc.canon, bc.currentHash);
  }

  lemma Repetition()
    ensures var k := map[1 := ROOT]; Rooted(k, 1, 1) && TotalDifficulty(k, 1, 1) == 1
    ensures var k := map[1 := ROOT, 2 := AGAIN];
            Rooted(k, 1, 1) && Rooted(k, 1, 2) && TotalDifficulty(k, 1, 2) == 2 && !Loses(k, 1, 1, 2)
    ensures var k := map[1 := ROOT, 2 := AGAIN, 3 := HEAVIER];
            Rooted(k, 1, 2) && Rooted(k, 1, 3) && TotalDifficulty(k, 1, 3) == 3 && Loses(k, 1, 2, 3)
  {
    var k := map[1 := ROOT, 2 := AGAIN];
    assert Rooted(k, 1, 1) && TotalDifficulty(k, 1, 1) == 1;
    assert Common(k, 1, 1, 2) == 1;
    assert IndexAbove(k, 1, 1, 0) == map[];
    Branches();
  }

  lemma Branches()
    ensures var k := map[1 := ROOT, 2 := AGAIN, 3 := HEAVIER];
            Rooted(k, 1, 2) && Rooted(k, 1, 3) && TotalDifficulty(k, 1, 3) == 3 && Loses(k, 1, 2, 3)
  {
    var k := map[1 := ROOT, 2 := AGAIN, 3 := HEAVIER];
    assert Rooted(k, 1, 1) && TotalDifficulty(k, 1, 1) == 1;
    assert Rooted(k, 1, 2) && Rooted(k, 1, 3);
    assert Common(k, 1, 2, 3) == 1;
    OneEntry(1, 9);
    OneEntry(2, 9);
    assert 9 in TxIndex(k, 1, 1).Keys && 9 in IndexAbove(k, 1, 2, 0).Keys;
    assert IndexAbove(k, 1, 3, 0) == map[];
  }

  lemma OneEntry(block: Hash, tx: Hash)
    ensures Entries(block, [tx]).Keys == {tx}
  {
    assert [tx][..0] == [];
  }

  lemma PathBelow(hs: Store, g: Hash, canon: map<nat, Hash>, h: Hash, c: Hash, chain: seq<Hash>)
    requires OnPath(hs, g, canon, h) && Branch(hs, h, c, chain)
    ensures OnPath(hs, g, canon, c)
  {
    DescendsRooted(hs, g, h, c, |chain|);
    forall n | 0 <= n <= hs[c].number ensures canon[n] == AncestorAt(hs, g, c, n) {
      AncestorOfAncestor(hs, g, h, hs[c].number, n);
    }
  }

  lemma AdoptNone(hs: Store, g: Hash, lookup: Index, common: Hash, canon: map<nat, Hash>)
    requires OnPath(hs, g, canon, common)
    ensures Rooted(hs, g, common) && lookup == lookup + IndexAbove(hs, g, common, hs[common].number)
  {}

  lemma AdoptOne(hs: Store, g: Hash, lookup: Index, common: Hash, chain: seq<Hash>, newHead: Hash, i: nat,
                 numbers: map<nat, Hash>, top: Hash)
    requires Rooted(hs, g, newHead) && Branch(hs, newHead, common, chain) && i < |chain| && common in hs
    requires top == (if i + 1 == |chain| then common else chain[i + 1]) && OnPath(hs, g, numbers, top)
    ensures Rooted(hs, g, chain[i]) && OnPath(hs, g, numbers[hs[chain[i]].number := chain[i]], chain[i])
    ensures lookup + IndexAbove(hs, g, top, hs[common].number) + Entries(chain[i], hs[chain[i]].txs) ==
            lookup + IndexAbove(hs, g, chain[i], hs[common].number)
  {
    hide Entries;
    var b := chain[i];
    DescendsRooted(hs, g, newHead, b, i);
    DescendsRooted(hs, g, newHead, common, |chain|);
    assert Descends(hs, newHead, top, i + 1);
    DescendsRooted(hs, g, newHead, top, i + 1);
    AncestorLink(hs, g, newHead, hs[top].number);
    assert hs[b].parent == top;
  }

  lemma AdoptAll(hs: Store, newHead: Hash, common: Hash, chain: seq<Hash>)
    requires Branch(hs, newHead, common, chain)
    ensures newHead == if chain == [] then common else chain[0]
  {}

  lemma PathExtends(hs: Store, g: Hash, canon: map<nat, Hash>, h: Hash, x: Hash, hdr: Header)
    requires OnPath(hs, g, canon, h) && (x in hs ==> hs[x] == hdr)
    ensures OnPath(hs[x := hdr], g, canon, h) && h in hs
    ensures TxIndex(hs[x := hdr], g, h) == TxIndex(hs, g, h)
    ensures Unrepeated(hs[x := hdr], g, h) == Unrepeated(hs, g, h)
    ensures TotalDifficulty(hs[x := hdr], g, h) == TotalDifficulty(hs, g, h)
  {
    Extend(hs, g, h, x, hdr);
    IndexExtends(hs, g, h, x, hdr);
  }

  lemma {:induction false} IndexExtends(hs: Store, g: Hash, h: Hash, x: Hash, hdr: Header)
    requires Rooted(hs, g, h) && (x in hs ==> hs[x] == hdr)
    ensures Rooted(hs[x := hdr], g, h)
    ensures TxIndex(hs[x := hdr], g, h) == TxIndex(hs, g, h)
    ensures Unrepeated(hs[x := hdr], g, h) == Unrepeated(hs, g, h)
    decreases hs[h].number
  {
    if hs[h].number > 0 {
      IndexExtends(hs, g, hs[h].parent, x, hdr);
    }
  }

  lemma RootedIn(hs: Store, g: Hash, h: Hash)
    requires EachRooted(hs, g) && h in hs
    ensures Rooted(hs, g, h)
  {}

  lemma PathFacts(hs: Store, g: Hash, canon: map<nat, Hash>, h: Hash)
    requires OnPath(hs, g, canon, h)
    ensures Rooted(hs, g, h) && h in hs
  {}

  lemma HeadAgain(hs: Store, g: Hash, canon: map<nat, Hash>, h: Hash)
    requires OnPath(hs, g, canon, h)
    ensures canon[hs[h].number := h] == canon
  {
    assert AncestorAt(hs, g, h, hs[h].number) == h;
  }

  lemma HeadOnTop(hs: Store, g: Hash, canon: map<nat, Hash>, cur: Hash, h: Hash)
    requires OnPath(hs, g, canon, cur) && Rooted(hs, g, h) && hs[h].parent == cur
    requires hs[h].number > 0
    ensures OnPath(hs, g, canon[hs[h].number := h], h)
    ensures TxIndex(hs, g, h) == TxIndex(hs, g, cur) + Entries(h, hs[h].txs)
    ensures Rooted(hs, g, cur) && !Loses(hs, g, cur, h)
  {
    assert Common(hs, g, cur, h) == cur;
    assert IndexAbove(hs, g, cur, hs[cur].number) == map[];
  }

  /** After a reorganisation the lookup index is the one recomputed from the new chain if and only if no
      transaction that is dropped for good occurs on the common part; so it is if the old chain repeats none. */
  lemma SwitchIndex(hs: Store, g: Hash, oldHead: Hash, newHead: Hash, f: Fork)
    requires IsFork(hs, g, oldHead, newHead, f)
    requires f.common == Common(hs, g, oldHead, newHead)
    ensures f.common in hs && Rooted(hs, g, f.common)
    ensures var n := hs[f.common].number;
            var dropped, added := IndexAbove(hs, g, oldHead, n), IndexAbove(hs, g, newHead, n);
            && (Reindexed(TxIndex(hs, g, oldHead), dropped.Keys, added) == TxIndex(hs, g, newHead) <==>
                  !Loses(hs, g, oldHead, newHead))
            && (Unrepeated(hs, g, oldHead) ==>
                Reindexed(TxIndex(hs, g, oldHead), dropped.Keys, added) == TxIndex(hs, g, newHead))
  {
    hide Reindexed, TxIndex, IndexAbove, Unrepeated, Common;
    DescendsRooted(hs, g, oldHead, f.common, |f.oldChain|);
    DescendsRooted(hs, g, newHead, f.common, |f.newChain|);
    var n := hs[f.common].number;
    IndexSplits(hs, g, oldHead, n);
    IndexSplits(hs, g, newHead, n);
    ReindexedExactly(TxIndex(hs, g, f.common), IndexAbove(hs, g, oldHead, n), IndexAbove(hs, g, newHead, n));
    if Unrepeated(hs, g, oldHead) {
      UnrepeatedAbove(hs, g, oldHead, n);
    }
  }
}
