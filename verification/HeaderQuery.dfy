/** eth/handler.go, GetBlockHeadersMsg: collecting the headers that a peer asks for. */
module HeaderQuery {
  import opened Basics
  import opened HeaderTree
  import opened HeaderChains

  const MAX_HEADER_FETCH: nat := 192
  const SOFT_RESPONSE_LIMIT: nat := 2 * 1024 * 1024
  const EST_HEADER_RLP_SIZE: nat := 500
  const MAX_NON_CANONICAL: nat := 100

  /** A header query; a non-zero origin hash selects hash mode. */
  datatype Query = Query(hash: Hash, number: Uint64, amount: Uint64, skip: Uint64, reverse: bool)

  /** Two headers answered one after the other: in hash mode one is exactly skip + 1 parent links
      above the other; in number mode both are canonical and their numbers differ by skip + 1, up to
      64-bit wrap-around. */
  ghost predicate Adjacent(hs: Store, canon: map<nat, Hash>, q: Query, a: Hash, b: Hash) {
    && a in hs && b in hs
    && if q.hash != 0 then
         if q.reverse then Walk(hs, a, q.skip + 1) == Some(b) else Walk(hs, b, q.skip + 1) == Some(a)
       else
         && hs[a].number in canon && canon[hs[a].number] == a
         && hs[b].number in canon && canon[hs[b].number] == b
         && if q.reverse then hs[b].number == hs[a].number - (q.skip + 1) % TWO64
            else hs[b].number == (hs[a].number + q.skip + 1) % TWO64
  }

  ghost predicate Linked(hs: Store, canon: map<nat, Hash>, q: Query, answer: seq<Hash>) {
    forall i :: 0 <= i < |answer| - 1 ==> Adjacent(hs, canon, q, answer[i], answer[i + 1])
  }

  /** The header answered at position `i`: in number mode the canonical one at that many steps from the number asked
      for, where numbers wrap around at 64 bits; in hash mode the one that as many parent links join with the origin. */
  ghost predicate AtStep(hs: Store, canon: map<nat, Hash>, q: Query, i: nat, h: Hash) {
    if q.hash != 0 then
      if q.reverse then Walk(hs, q.hash, i * (q.skip + 1)) == Some(h) else Walk(hs, h, i * (q.skip + 1)) == Some(q.hash)
    else
      var n := if q.reverse then q.number - i * ((q.skip + 1) % TWO64) else (q.number + i * (q.skip + 1)) % TWO64;
      n in canon && canon[n] == h
  }

  /** The neighbours fix every position. */
  lemma {:induction false} LinkedAtSteps(hs: Store, canon: map<nat, Hash>, q: Query, answer: seq<Hash>, i: nat)
    requires Linked(hs, canon, q, answer) && i < |answer|
    requires forall n :: n in canon ==> canon[n] in hs && hs[canon[n]].number == n
    requires if q.hash != 0 then answer[0] == q.hash else q.number in canon && answer[0] == canon[q.number]
    ensures AtStep(hs, canon, q, i, answer[i])
  {
    if i > 0 {
      LinkedAtSteps(hs, canon, q, answer, i - 1);
      assert Adjacent(hs, canon, q, answer[i - 1], answer[i]);
      StepOn(hs, canon, q, i - 1, answer[i - 1], answer[i]);
    }
  }

  lemma StepOn(hs: Store, canon: map<nat, Hash>, q: Query, i: nat, a: Hash, b: Hash)
    requires AtStep(hs, canon, q, i, a) && Adjacent(hs, canon, q, a, b)
    requires forall n :: n in canon ==> canon[n] in hs && hs[canon[n]].number == n
    ensures AtStep(hs, canon, q, i + 1, b)
  {
    hide Walk;
    var step := q.skip + 1;
    assert (i + 1) * step == i * step + step;
    if q.hash != 0 {
      if q.reverse {
        WalkSplits(hs, q.hash, i * step, step);
      } else {
        WalkSplits(hs, b, step, i * step);
      }
    } else if q.reverse {
      assert (i + 1) * (step % TWO64) == i * (step % TWO64) + step % TWO64;
    } else {
      WrapAdds(q.number + i * step, step);
    }
  }

  lemma WrapAdds(a: nat, b: nat)
    ensures (a % TWO64 + b) % TWO64 == (a + b) % TWO64
  {
    var k := a / TWO64;
    assert a + b == k * TWO64 + (a % TWO64 + b);
  }

  /** Where the query stands after answering `last`. */
  ghost predicate Coming(hs: Store, canon: map<nat, Hash>, q: Query, last: Hash, hash: Hash, number: int) {
    && last in hs
    && if q.hash != 0 then
         && (hash in hs ==> hs[hash].number == number)
         && if q.reverse then Walk(hs, last, q.skip + 1) == Some(hash) else Walk(hs, hash, q.skip + 1) == Some(last)
       else
         && hs[last].number in canon && canon[hs[last].number] == last
         && if q.reverse then number == hs[last].number - (q.skip + 1) % TWO64
            else number == (hs[last].number + q.skip + 1) % TWO64
  }

  /** The query starts on the canonical chain: always in number mode. */
  ghost predicate OnCanonical(hs: Store, canon: map<nat, Hash>, q: Query) {
    q.hash == 0 || (q.hash in hs && hs[q.hash].number in canon && canon[hs[q.hash].number] == q.hash)
  }

  /** The canonical chain has no header where the query would go on from number `n`. */
  ghost predicate Ended(canon: map<nat, Hash>, q: Query, n: nat) {
    if q.hash != 0 then
      if q.reverse then q.skip + 1 == TWO64 || n < q.skip + 1 else n + q.skip + 1 !in canon
    else
      if q.reverse then n < (q.skip + 1) % TWO64 else (n + q.skip + 1) % TWO64 !in canon
  }

  /** A step from `origin` to `next`, or the end of the query. On the canonical chain it ends only where that
      chain does, and otherwise stays on it. */
  ghost predicate Goes(hs: Store, canon: map<nat, Hash>, q: Query, origin: Hash, number: nat, next: Option<(Hash, nat)>)
  {
    && (next.Some? ==> Coming(hs, canon, q, origin, next.value.0, next.value.1) && next.value.1 < TWO64)
    && (number in canon && canon[number] == origin ==>
          if next.None? then Ended(canon, q, number)
          else q.hash != 0 ==> next.value.1 in canon && canon[next.value.1] == next.value.0)
  }

  /** Where the query goes after `origin`; None when it stops being known. A canonical header is followed by a
      canonical one as long as there is one. */
  method Advance(hc: HeaderChain, q: Query, origin: Hash, number: nat, budget: nat)
    returns (next: Option<(Hash, nat)>, left: nat)
    requires hc.Valid() && (forall h :: h in hc.headers ==> hc.headers[h].number < TWO64)
    requires origin in hc.headers && hc.headers[origin].number == number && origin != 0
    requires q.hash == 0 ==> number in hc.canon && hc.canon[number] == origin
    ensures Goes(hc.headers, hc.canon, q, origin, number, next)
  {
    hide Recorded, Canonical, Rooted, Walk;
    var step := (q.skip + 1) % TWO64;
    if q.hash != 0 && q.reverse {
      next, left := Descend(hc, q, origin, number, step, budget);
    } else if q.hash != 0 {
      next, left := Ascend(hc, q, origin, number, step, budget);
    } else if q.reverse {
      return if number >= step then Some((0, number - step)) else None, budget;
    } else {
      return Some((0, (number + step) % TWO64)), budget;
    }
  }

  /** Hash mode, towards genesis. */
  method Descend(hc: HeaderChain, q: Query, origin: Hash, number: nat, step: nat, budget: nat)
    returns (next: Option<(Hash, nat)>, left: nat)
    requires hc.Valid() && origin in hc.headers && hc.headers[origin].number == number < TWO64 && origin != 0
    requires q.hash != 0 && q.reverse && step == (q.skip + 1) % TWO64
    ensures Goes(hc.headers, hc.canon, q, origin, number, next)
  {
    hide Recorded, Canonical, Rooted, Walk;
    if step == 0 {
      return None, budget;
    }
    var h, n;
    h, n, left := hc.GetAncestor(origin, number, step, budget);
    CanonicalNumber(hc.headers, hc.td, hc.genesis, hc.known, hc.canon, hc.currentHash);
    if h == 0 {
      return None, left;
    }
    WalkNumber(hc.headers, hc.td, hc.genesis, hc.known, origin, step);
    return Some((h, n)), left;
  }

  /** Hash mode, away from genesis: the canonical header above, if `origin` is its ancestor. */
  method Ascend(hc: HeaderChain, q: Query, origin: Hash, number: nat, step: nat, budget: nat)
    returns (next: Option<(Hash, nat)>, left: nat)
    requires hc.Valid() && (forall h :: h in hc.headers ==> hc.headers[h].number < TWO64)
    requires origin in hc.headers && hc.headers[origin].number == number && origin != 0
    requires q.hash != 0 && !q.reverse && step == (q.skip + 1) % TWO64
    ensures Goes(hc.headers, hc.canon, q, origin, number, next)
  {
    hide Recorded, Canonical, Rooted, Walk;
    CanonicalNumber(hc.headers, hc.td, hc.genesis, hc.known, hc.canon, hc.currentHash);
    var target := (number + q.skip + 1) % TWO64;
    if target <= number {
      return None, budget;
    }
    var nextHash := ReadCanonical(hc.canon, target);
    if nextHash == 0 {
      return None, budget;
    }
    var below, n;
    below, n, left := hc.GetAncestor(nextHash, target, step, budget);
    return if below == origin then Some((nextHash, target)) else None, left;
  }

  /** Headers answered one after the other lie on one chain, exactly skip + 1 apart, in either
      direction, from the origin asked for; at most MaxHeaderFetch of them are answered. On the canonical chain the
      answer is only cut short where the chain ends. */
  method Answer(hc: HeaderChain, q: Query) returns (answer: seq<Hash>)
    requires hc.Valid() && (forall h :: h in hc.headers ==> hc.headers[h].number < TWO64)
    ensures |answer| <= MAX_HEADER_FETCH && |answer| <= q.amount
    ensures forall i :: 0 <= i < |answer| ==> answer[i] in hc.headers
    ensures |answer| > 0 && q.hash != 0 ==> answer[0] == q.hash
    ensures |answer| > 0 && q.hash == 0 ==> q.number in hc.canon && answer[0] == hc.canon[q.number]
    ensures q.hash != 0 ==> (|answer| > 0 <==> q.hash in hc.headers && AsInt64(q.amount) > 0)
    ensures Linked(hc.headers, hc.canon, q, answer)
    ensures forall i: nat :: i < |answer| ==> AtStep(hc.headers, hc.canon, q, i, answer[i])
    ensures OnCanonical(hc.headers, hc.canon, q) && |answer| < AsInt64(q.amount) && |answer| < MAX_HEADER_FETCH ==>
              if answer == [] then q.hash == 0 && q.number !in hc.canon
              else Ended(hc.canon, q, hc.headers[answer[|answer| - 1]].number)
  {
    hide Recorded, Canonical, Linked, AtStep, Ended, OnCanonical;
    answer := Collect(hc, q);
    CanonicalNumber(hc.headers, hc.td, hc.genesis, hc.known, hc.canon, hc.currentHash);
    forall i: nat | i < |answer|
      ensures AtStep(hc.headers, hc.canon, q, i, answer[i])
    {
      LinkedAtSteps(hc.headers, hc.canon, q, answer, i);
    }
  }

  /** The collecting loop. */
  method Collect(hc: HeaderChain, q: Query) returns (answer: seq<Hash>)
    requires hc.Valid() && (forall h :: h in hc.headers ==> hc.headers[h].number < TWO64)
    ensures |answer| <= MAX_HEADER_FETCH && |answer| <= q.amount
    ensures forall i :: 0 <= i < |answer| ==> answer[i] in hc.headers
    ensures |answer| > 0 && q.hash != 0 ==> answer[0] == q.hash
    ensures |answer| > 0 && q.hash == 0 ==> q.number in hc.canon && answer[0] == hc.canon[q.number]
    ensures q.hash != 0 ==> (|answer| > 0 <==> q.hash in hc.headers && AsInt64(q.amount) > 0)
    ensures Linked(hc.headers, hc.canon, q, answer)
    ensures OnCanonical(hc.headers, hc.canon, q) && |answer| < AsInt64(q.amount) && |answer| < MAX_HEADER_FETCH ==>
              if answer == [] then q.hash == 0 && q.number !in hc.canon
              else Ended(hc.canon, q, hc.headers[answer[|answer| - 1]].number)
  {
    hide Recorded, Canonical, Walk;
    ghost var canonical := OnCanonical(hc.headers, hc.canon, q);
    CanonicalNumber(hc.headers, hc.td, hc.genesis, hc.known, hc.canon, hc.currentHash);
    ZeroIsNoHeader(hc.headers, hc.td, hc.genesis, hc.known);
    answer := [];
    var bytes, budget, unknown := 0, MAX_NON_CANONICAL, false;
    var hash: Hash, number: nat := q.hash, q.number;
    if q.hash != 0 && q.hash in hc.headers {
      number := hc.headers[q.hash].number;
    }
    while !unknown && |answer| < AsInt64(q.amount) && bytes < SOFT_RESPONSE_LIMIT && |answer| < MAX_HEADER_FETCH
      invariant |answer| <= MAX_HEADER_FETCH && |answer| <= q.amount && number < TWO64
      invariant answer != [] ==> |answer| <= AsInt64(q.amount)
      invariant forall i :: 0 <= i < |answer| ==> answer[i] in hc.headers
      invariant |answer| > 0 && q.hash != 0 ==> answer[0] == q.hash
      invariant |answer| > 0 && q.hash == 0 ==> q.number in hc.canon && answer[0] == hc.canon[q.number]
      invariant Linked(hc.headers, hc.canon, q, answer)
      invariant answer == [] ==>
                  hash == q.hash && (q.hash != 0 && hash in hc.headers ==> hc.headers[hash].number == number)
      invariant answer != [] && !unknown ==> Coming(hc.headers, hc.canon, q, answer[|answer| - 1], hash, number)
      invariant bytes == |answer| * EST_HEADER_RLP_SIZE &&
                (answer == [] ==> !unknown && (q.hash == 0 ==> number == q.number))
      invariant canonical && q.hash != 0 && !unknown ==> number in hc.canon && hc.canon[number] == hash
      invariant canonical && unknown ==> Ended(hc.canon, q, hc.headers[answer[|answer| - 1]].number)
      decreases MAX_HEADER_FETCH - |answer|
    {
      var origin := if q.hash != 0 then (if hash in hc.headers && hc.headers[hash].number == number then hash else 0)
                    else ReadCanonical(hc.canon, number);
      if origin == 0 {
        if answer != [] && q.hash == 0 && q.reverse {
          CanonicalBelow(hc.headers, hc.genesis, hc.canon, hc.currentHash, number,
                         hc.headers[answer[|answer| - 1]].number);
        }
        break;
      }
      answer := answer + [origin];
      bytes := bytes + EST_HEADER_RLP_SIZE;
      var next;
      next, budget := Advance(hc, q, origin, number, budget);
      if next.None? {
        unknown := true;
      } else {
        hash, number := next.value.0, next.value.1;
      }
    }
  }
}
