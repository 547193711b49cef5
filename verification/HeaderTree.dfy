/** Headers in a content-addressed store, and what walking parent links means. */
module HeaderTree {
  import opened Basics

  /** A header, together with the transactions of the body it commits to. */
  datatype Header = Header(parent: Hash, number: nat, difficulty: nat, txs: seq<Hash>)

  type Store = map<Hash, Header>

  /** Reading a header by hash and number. */
  function Read(hs: Store, h: Hash, n: int): Option<Header> {
    if h in hs && hs[h].number == n then Some(hs[h]) else None
  }

  /** The parent links of `h` lead through stored headers, numbered downwards, to genesis. */
  ghost predicate Rooted(hs: Store, g: Hash, h: Hash)
    decreases if h in hs then hs[h].number else 0
  {
    && h in hs
    && if hs[h].number == 0 then h == g
       else hs[h].parent in hs && hs[hs[h].parent].number == hs[h].number - 1 && Rooted(hs, g, hs[h].parent)
  }

  /** The ancestor of `h` at number `n`. */
  ghost function AncestorAt(hs: Store, g: Hash, h: Hash, n: nat): (r: Hash)
    requires Rooted(hs, g, h) && n <= hs[h].number
    ensures Rooted(hs, g, r) && hs[r].number == n
    decreases hs[h].number
  {
    if hs[h].number == n then h else AncestorAt(hs, g, hs[h].parent, n)
  }

  /** The sum of the difficulties from genesis to `h`. */
  ghost function TotalDifficulty(hs: Store, g: Hash, h: Hash): nat
    requires Rooted(hs, g, h)
    decreases hs[h].number
  {
    hs[h].difficulty + if hs[h].number == 0 then 0 else TotalDifficulty(hs, g, hs[h].parent)
  }

  /** The naive walk along `k` parent links. */
  function Walk(hs: Store, h: Hash, k: nat): Option<Hash>
    decreases k
  {
    if k == 0 then Some(h)
    else if h in hs then Walk(hs, hs[h].parent, k - 1)
    else None
  }

  /** An ancestor's ancestor is an ancestor. */
  lemma {:induction false} AncestorOfAncestor(hs: Store, g: Hash, h: Hash, m: nat, n: nat)
    requires Rooted(hs, g, h) && n <= m <= hs[h].number
    ensures AncestorAt(hs, g, AncestorAt(hs, g, h, m), n) == AncestorAt(hs, g, h, n)
    decreases hs[h].number
  {
    if hs[h].number > m {
      AncestorOfAncestor(hs, g, hs[h].parent, m, n);
    }
  }

  /** Neighbouring ancestors are linked by a parent hash. */
  lemma AncestorLink(hs: Store, g: Hash, h: Hash, n: nat)
    requires Rooted(hs, g, h) && n < hs[h].number
    ensures hs[AncestorAt(hs, g, h, n + 1)].parent == AncestorAt(hs, g, h, n)
  {
    AncestorOfAncestor(hs, g, h, n + 1, n);
  }

  /** On a rooted header the walk finds the ancestor. */
  lemma {:induction false} WalkIsAncestor(hs: Store, g: Hash, h: Hash, k: nat)
    requires Rooted(hs, g, h) && k <= hs[h].number
    ensures Walk(hs, h, k) == Some(AncestorAt(hs, g, h, hs[h].number - k))
    decreases k
  {
    if k > 0 {
      WalkIsAncestor(hs, g, hs[h].parent, k - 1);
    }
  }

  lemma {:induction false} WalkSplits(hs: Store, h: Hash, i: nat, k: nat)
    requires Walk(hs, h, i).Some?
    ensures Walk(hs, h, i + k) == Walk(hs, Walk(hs, h, i).value, k)
    decreases i
  {
    if i > 0 {
      WalkSplits(hs, hs[h].parent, i - 1, k);
    }
  }

  /** Only the ancestors of `h` matter to what is said about `h`. */
  lemma {:induction false} SameAncestors(hs: Store, rs: Store, g: Hash, h: Hash)
    requires Rooted(hs, g, h)
    requires forall n :: 0 <= n <= hs[h].number ==>
               var a := AncestorAt(hs, g, h, n); a in rs && rs[a] == hs[a]
    ensures Rooted(rs, g, h) && rs[h] == hs[h]
    ensures TotalDifficulty(rs, g, h) == TotalDifficulty(hs, g, h)
    ensures forall n :: 0 <= n <= hs[h].number ==> AncestorAt(rs, g, h, n) == AncestorAt(hs, g, h, n)
    decreases hs[h].number
  {
    assert AncestorAt(hs, g, h, hs[h].number) == h;
    if hs[h].number > 0 {
      var p := hs[h].parent;
      assert forall n :: 0 <= n < hs[h].number ==> AncestorAt(hs, g, h, n) == AncestorAt(hs, g, p, n);
      SameAncestors(hs, rs, g, p);
    }
  }

  /** Adding a header, or the same one again, changes nothing about what is stored. */
  lemma Extend(hs: Store, g: Hash, h: Hash, x: Hash, hdr: Header)
    requires Rooted(hs, g, h) && (x in hs ==> hs[x] == hdr)
    ensures Rooted(hs[x := hdr], g, h)
    ensures TotalDifficulty(hs[x := hdr], g, h) == TotalDifficulty(hs, g, h)
    ensures forall n :: 0 <= n <= hs[h].number ==> AncestorAt(hs[x := hdr], g, h, n) == AncestorAt(hs, g, h, n)
  {
    SameAncestors(hs, hs[x := hdr], g, h);
  }

  /** `canon` numbers exactly the ancestors of `h`, with nothing above it. */
  ghost predicate Canonical(hs: Store, g: Hash, canon: map<nat, Hash>, h: Hash) {
    && Rooted(hs, g, h)
    && (forall n :: n in canon <==> 0 <= n <= hs[h].number)
    && forall n :: 0 <= n <= hs[h].number ==> canon[n] == AncestorAt(hs, g, h, n)
  }
}
