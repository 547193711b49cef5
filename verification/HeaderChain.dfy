/** core/headerchain.go: the header database with its canonical number index and total difficulties. */
module HeaderChains {
  import opened Basics
  import opened HeaderTree

  /** `Panicked` stands for a nil header dereferenced. */
  datatype WriteStatus = UnknownAncestor | CanonStat | SideStat | Panicked

  /** Why a chain of headers was not inserted to its end. */
  datatype Halt = Interrupted(at: nat) | Unknown(at: nat) | Crashed(at: nat) | Misnumbered(at: nat)

  // ---------- caches ----------

  /** Headers and total difficulties are stored under hash and number, but a cache answers by hash alone. */
  predicate Found(hs: Store, cache: set<Hash>, h: Hash, n: int) {
    h in hs && (h in cache || hs[h].number == n)
  }

  function Lookup(hs: Store, cache: set<Hash>, h: Hash, n: int): Option<Header> {
    if Found(hs, cache, h, n) then Some(hs[h]) else None
  }

  function ReadTd(hs: Store, td: map<Hash, nat>, cache: set<Hash>, h: Hash, n: int): Option<nat>
    requires hs.Keys == td.Keys
  {
    if Found(hs, cache, h, n) then Some(td[h]) else None
  }

  /** A cache keeps what is added last; anything else may be evicted. */
  method Keep(cache: set<Hash>, h: Hash) returns (r: set<Hash>)
    ensures h in r && r <= cache + {h}
  {
    var evicted: set<Hash> := *;
    r := cache - evicted + {h};
  }

  /** The header's parent is stored and numbered before it. */
  predicate Fits(hs: Store, header: Header) {
    header.parent in hs && hs[header.parent].number + 1 == header.number
  }

  /** The number before, in 64-bit arithmetic. */
  function Before(n: nat): nat {
    if n == 0 then MAX_UINT64 else n - 1
  }

  function ReadCanonical(canon: map<nat, Hash>, n: nat): Hash {
    if n in canon then canon[n] else 0
  }

  class HeaderChain {
    const genesis: Hash
    var headers: Store
    var td: map<Hash, nat>
    var canon: map<nat, Hash>
    var currentHash: Hash

    /** The hashes whose total difficulties and headers are cached at the moment. */
    var tdCache: set<Hash>
    var headerCache: set<Hash>

    /** Every header ever written, whether or not it is still stored. */
    ghost var known: Store

    /** The canonical index is exactly the ancestor path of the current header, with nothing above
        it, and every stored total difficulty is the sum of the difficulties along the ancestors. */
    ghost predicate Valid()
      reads this
    {
      && Canonical(headers, genesis, canon, currentHash)
      && Recorded(headers, td, genesis, known)
      && tdCache <= headers.Keys && headerCache <= headers.Keys
    }

    /** The total difficulty of the current header. */
    ghost function HeadDifficulty(): nat
      requires Valid()
      reads this
    {
      TotalDifficulty(headers, genesis, currentHash)
    }

    ghost predicate AllRooted()
      reads this
    {
      EachRooted(headers, genesis)
    }

    /** Hashes are acyclic, so genesis is not its own parent. */
    constructor (genesis: Hash, header: Header)
      requires genesis != 0 && header.number == 0 && header.parent != genesis
      ensures Valid() && AllRooted() && this.genesis == genesis == currentHash &&
              headers == map[genesis := header] == known
    {
      this.genesis := genesis;
      headers, td, canon := map[genesis := header], map[genesis := header.difficulty], map[0 := genesis];
      currentHash, known := genesis, map[genesis := header];
      tdCache, headerCache := {}, {genesis};
    }

    /** WriteHeader. `coin` is the random choice between chains of equal difficulty. A hash stands for one header,
        and none is written under the hash that genesis names as its parent. A header is refused exactly if its
        parent is not stored, or is stored under another number and not cached. The chain stays valid exactly if
        the header is refused, or is numbered after its parent and does not make it panic, which happens exactly if
        it should become the current one and the stored ancestors do not reach genesis. */
    method WriteHeader(hash: Hash, header: Header, coin: bool) returns (status: WriteStatus)
      requires Valid() && hash != 0 && hash != headers[genesis].parent && (hash in known ==> known[hash] == header)
      modifies this
      ensures status.UnknownAncestor? ==
                (header.parent !in old(headers) || (!Fits(old(headers), header) && header.parent !in old(tdCache)))
      ensures Valid() <==> status.UnknownAncestor? || (Fits(old(headers), header) && !status.Panicked?)
      ensures if status.UnknownAncestor? then
                && headers == old(headers) && td == old(td) && known == old(known)
                && tdCache == old(tdCache) && headerCache == old(headerCache)
              else
                && headers == old(headers)[hash := header] && known == old(known)[hash := header]
                && td == old(td)[hash := header.difficulty + old(td)[header.parent]]
                && hash in tdCache && (!status.Panicked? ==> hash in headerCache)
      ensures !status.UnknownAncestor? ==>
                var was := old(HeadDifficulty());
                status.SideStat? == !(td[hash] > was || (td[hash] == was && coin))
      ensures !status.UnknownAncestor? && !status.SideStat? && Fits(old(headers), header) ==>
                status == if old(Rooted(headers, genesis, header.parent)) then CanonStat else Panicked
      ensures !status.UnknownAncestor? && Fits(old(headers), header) ==>
                Rooted(known, genesis, hash) && td[hash] == TotalDifficulty(known, genesis, hash)
      ensures !status.UnknownAncestor? && !status.SideStat? && TooHigh(old(headers), header) ==>
                && status == (if Passable(old(headers), genesis, old(headerCache), header.parent) then CanonStat
                              else Panicked)
                && (status.CanonStat? ==> Gap(old(headers), old(canon), canon, hash, header))
      ensures status.CanonStat? ==> currentHash == hash
      ensures status.CanonStat? && Valid() ==> HeadDifficulty() >= old(HeadDifficulty())
      ensures status.UnknownAncestor? || status.SideStat? ==> currentHash == old(currentHash) && canon == old(canon)
      ensures (status.UnknownAncestor? || status.SideStat?) && Valid() ==> HeadDifficulty() == old(HeadDifficulty())
      ensures old(AllRooted()) && (Fits(old(headers), header) || status.UnknownAncestor?) ==>
                !status.Panicked? && AllRooted()
    {
      hide Recorded, Canonical, Rooted, TotalDifficulty, EachRooted, Passable, Gap;
      SameKeys(headers, td, genesis, known);
      var ptd := ReadTd(headers, td, tdCache, header.parent, header.number - 1);
      if ptd.None? {
        return UnknownAncestor;
      }
      status := Write(hash, header, ptd.value, coin);
    }

    /** WriteHeader once the total difficulty of the parent is found. */
    method Write(hash: Hash, header: Header, ptd: nat, coin: bool) returns (status: WriteStatus)
      requires Valid() && hash != 0 && hash != headers[genesis].parent && (hash in known ==> known[hash] == header)
      requires header.parent in headers && header.parent in td && ptd == td[header.parent]
      modifies this
      ensures !status.UnknownAncestor?
      ensures Valid() <==> Fits(old(headers), header) && !status.Panicked?
      ensures headers == old(headers)[hash := header] && known == old(known)[hash := header]
      ensures td == old(td)[hash := header.difficulty + ptd] && hash in tdCache
      ensures !status.Panicked? ==> hash in headerCache
      ensures status.SideStat? == !(td[hash] > old(HeadDifficulty()) || (td[hash] == old(HeadDifficulty()) && coin))
      ensures !status.SideStat? && Fits(old(headers), header) ==>
                status == if old(Rooted(headers, genesis, header.parent)) then CanonStat else Panicked
      ensures Fits(old(headers), header) ==>
                Rooted(known, genesis, hash) && td[hash] == TotalDifficulty(known, genesis, hash)
      ensures !status.SideStat? && TooHigh(old(headers), header) ==>
                && status == (if Passable(old(headers), genesis, old(headerCache), header.parent) then CanonStat
                              else Panicked)
                && (status.CanonStat? ==> Gap(old(headers), old(canon), canon, hash, header))
      ensures status.CanonStat? ==> currentHash == hash && (Valid() ==> HeadDifficulty() >= old(HeadDifficulty()))
      ensures status.SideStat? ==>
                && currentHash == old(currentHash) && canon == old(canon)
                && (Valid() ==> HeadDifficulty() == old(HeadDifficulty()))
      ensures old(AllRooted()) && Fits(old(headers), header) ==> !status.Panicked? && AllRooted()
    {
      hide Recorded, Canonical, Rooted, TotalDifficulty, EachRooted, Passable, Gap, Walkable;
      SameKeys(headers, td, genesis, known);
      WriteMeans(headers, td, genesis, known, canon, currentHash, hash, header);
      var localTd := td[currentHash];
      var externTd := header.difficulty + ptd;
      var cached := Keep(tdCache, hash);
      td, headers, known, tdCache := td[hash := externTd], headers[hash := header], known[hash := header], cached;
      status := Choose(hash, externTd > localTd || (externTd == localTd && coin));
      if TooHigh(old(headers), header) {
        SamePassage(old(headers), genesis, old(headerCache), old(canon), canon, hash, header);
      }
    }

    /** The end of WriteHeader: the canonical branch or not, and the header cache. */
    method Choose(hash: Hash, chosen: bool) returns (status: WriteStatus)
      requires Canonical(headers, genesis, canon, currentHash) && Walkable(headers, genesis, hash)
      requires headerCache <= headers.Keys
      modifies this`canon, this`currentHash, this`headerCache
      ensures !status.UnknownAncestor? && status.SideStat? == !chosen
      ensures headerCache <= headers.Keys && (!status.Panicked? ==> hash in headerCache)
      ensures currentHash == if status.CanonStat? then hash else old(currentHash)
      ensures !chosen ==> canon == old(canon)
      ensures chosen && Fits(headers, headers[hash]) ==>
                && status.CanonStat? == Rooted(headers, genesis, hash)
                && Canonical(headers, genesis, canon, currentHash) == status.CanonStat?
      ensures chosen && TooHigh(headers, headers[hash]) ==>
                && status.CanonStat? == Passable(headers, genesis, old(headerCache), headers[hash].parent)
                && (status.CanonStat? ==> Gap(headers, old(canon), canon, hash, headers[hash]))
    {
      hide Canonical, Rooted, Walkable, Passable, Gap;
      WalkableFacts(headers, genesis, hash);
      if chosen {
        status := Adopt(hash);
      } else {
        status := SideStat;
      }
      if !status.Panicked? {
        headerCache := Keep(headerCache, hash);
      }
    }

    /** The canonical branch of WriteHeader. */
    method Adopt(hash: Hash) returns (status: WriteStatus)
      requires Canonical(headers, genesis, canon, currentHash) && Walkable(headers, genesis, hash)
      modifies this`canon, this`currentHash
      ensures status.CanonStat? || status.Panicked?
      ensures currentHash == if status.CanonStat? then hash else old(currentHash)
      ensures Fits(headers, headers[hash]) ==>
                && status.CanonStat? == Rooted(headers, genesis, hash)
                && Canonical(headers, genesis, canon, currentHash) == status.CanonStat?
      ensures TooHigh(headers, headers[hash]) ==>
                && status.CanonStat? == Passable(headers, genesis, headerCache, headers[hash].parent)
                && (status.CanonStat? ==> Gap(headers, old(canon), canon, hash, headers[hash]))
    {
      hide Canonical, Rooted, Walkable, Passable, Gap;
      WalkableFacts(headers, genesis, hash);
      var ok, index := Reroute(headers, genesis, headerCache, canon, currentHash, hash);
      if !ok && Fits(headers, headers[hash]) {
        LostIsNotCanonical(headers, genesis, index, currentHash);
      }
      canon := index;
      if !ok {
        return Panicked;
      }
      currentHash := hash;
      return CanonStat;
    }

    /** The new numbering. For a header numbered after its parent it meets a header that is already canonical exactly
        if the stored ancestors reach genesis; otherwise it runs into a missing header. */
    static method Reroute(hs: Store, g: Hash, cache: set<Hash>, canon: map<nat, Hash>, ghost cur: Hash, hash: Hash)
      returns (ok: bool, r: map<nat, Hash>)
      requires Canonical(hs, g, canon, cur) && Walkable(hs, g, hash)
      ensures Fits(hs, hs[hash]) ==>
                && ok == Rooted(hs, g, hash)
                && (ok ==> Canonical(hs, g, r, hash)) && (!ok ==> exists n :: n in r && r[n] !in hs)
      ensures TooHigh(hs, hs[hash]) ==>
                ok == Passable(hs, g, cache, hs[hash].parent) && (ok ==> Gap(hs, canon, r, hash, hs[hash]))
    {
      hide Canonical, Rooted, Walkable, Walking, Passable, Gap, Before, Fits, TooHigh;
      WalkableFacts(hs, g, hash);
      var header := hs[hash];
      r := ClearAbove(hs, g, canon, cur, header.number);
      var headHash, headNumber := header.parent, Before(header.number);
      var headHeader := Lookup(hs, cache, headHash, headNumber);
      ghost var first := true;
      WalkStarts(hs, g, cache, canon, cur, hash, r);
      while ReadCanonical(r, headNumber) != headHash
        invariant Walking(hs, g, cache, canon, cur, hash, r, headHash, headNumber, first)
        invariant headHeader == Lookup(hs, cache, headHash, headNumber)
        decreases if headHeader.Some? then headHeader.value.number + 1 else 0
      {
        ghost var before := r;
        r := r[headNumber := headHash];
        if headHeader.None? {
          WalkLost(hs, g, cache, canon, cur, hash, before, headHash, headNumber, first);
          return false, r;
        }
        WalkStep(hs, g, cache, canon, cur, hash, before, headHash, headNumber, first);
        headHash, headNumber := headHeader.value.parent, Before(headHeader.value.number);
        headHeader := Lookup(hs, cache, headHash, headNumber);
        first := false;
      }
      WalkEnds(hs, g, cache, canon, cur, hash, r, headHash, headNumber, first);
      return true, r[header.number := hash];
    }

    /** Deletes the canonical number assignments above `number`. */
    static method ClearAbove(ghost hs: Store, ghost g: Hash, canon: map<nat, Hash>, ghost cur: Hash, number: nat)
      returns (r: map<nat, Hash>)
      requires Canonical(hs, g, canon, cur) && 0 !in hs
      ensures r == map n | n in canon && n <= number :: canon[n]
    {
      ghost var top := hs[cur].number;
      assert forall n :: n in canon ==> canon[n] in hs;
      r := canon;
      var i := number + 1;
      while ReadCanonical(r, i) != 0
        invariant i > number
        invariant r == map n | n in canon && (n <= number || n >= i) :: canon[n]
        decreases top + 1 - i
      {
        r := r - {i};
        i := i + 1;
      }
    }

    /** InsertHeaderChain over any list of headers, known ones being skipped: `world` says which header a hash
        stands for, and `interrupts` when the node is shutting down. The chain stays valid exactly as long as no
        misnumbered header is accepted and none panics; at the first such header the model ends. Head difficulty
        never decreases on the way. With all ancestors stored it does not panic. */
    method InsertHeaderChain(chain: seq<Hash>, coins: seq<bool>, interrupts: seq<bool>, world: Hash -> Header)
      returns (halt: Option<Halt>)
      requires Valid() && |coins| == |chain| == |interrupts| > 0 && (forall h :: h in known ==> known[h] == world(h))
      requires forall i :: 0 <= i < |chain| ==> chain[i] != 0 && chain[i] != headers[genesis].parent
      modifies this
      ensures forall h :: h in known ==> known[h] == world(h)
      ensures halt.None? ==> forall i :: 0 <= i < |chain| ==> chain[i] in headers
      ensures halt.Some? ==> halt.value.at < |chain|
      ensures halt.Some? && halt.value.Interrupted? ==> interrupts[halt.value.at]
      ensures halt.Some? && halt.value.Unknown? ==>
                var h := world(chain[halt.value.at]); !Found(headers, tdCache, h.parent, h.number - 1)
      ensures halt.Some? && halt.value.Misnumbered? ==>
                var h := world(chain[halt.value.at]); h.parent in headers && !Fits(headers, h)
      ensures Valid() <==> halt.None? || halt.value.Interrupted? || halt.value.Unknown?
      ensures Valid() ==> HeadDifficulty() >= old(HeadDifficulty())
      ensures old(AllRooted()) ==> (Valid() ==> AllRooted()) && (halt.None? || !halt.value.Crashed?)
    {
      hide Canonical, Recorded, Rooted, EachRooted, HeaderChain.HeadDifficulty, TotalDifficulty, Gap, Passable;
      GenesisKept(headers, td, genesis, known);
      for i := 0 to |chain|
        invariant Valid() && (old(AllRooted()) ==> AllRooted()) && (forall h :: h in known ==> known[h] == world(h))
        invariant HeadDifficulty() >= old(HeadDifficulty())
        invariant forall k :: 0 <= k < i ==> chain[k] in headers
        invariant genesis in headers && headers[genesis] == old(headers[genesis])
      {
        if interrupts[i] {
          return Some(Interrupted(i));
        }
        if chain[i] !in headers {
          var status := WriteHeader(chain[i], world(chain[i]), coins[i]);
          if status.UnknownAncestor? {
            return Some(Unknown(i));
          } else if !Fits(headers, world(chain[i])) {
            return Some(Misnumbered(i));
          } else if status.Panicked? {
            return Some(Crashed(i));
          }
        }
      }
      return None;
    }

    /** SetHead: rewinds to the canonical header at `head`, or leaves the chain alone if it is lower. The caches are
        emptied, so that they hold nothing that was deleted. */
    method SetHead(head: nat)
      requires Valid()
      modifies this
      ensures Valid() && known == old(known)
      ensures canon == UpTo(old(canon), head)
      ensures currentHash == old(canon)[Min(head, old(headers[currentHash].number))]
      ensures headers == old(headers) - Above(old(canon), head) && td == old(td) - Above(old(canon), head)
      ensures tdCache == headerCache == {}
    {
      hide Recorded, Canonical, Rooted, AncestorAt, UpTo, Above;
      CanonicalFacts(headers, genesis, canon, currentHash);
      var height := headers[currentHash].number;
      var batch, hdr := Unwind(headers, genesis, canon, currentHash, head);
      Rewound(headers, td, genesis, known, canon, currentHash, hdr, head);
      var index := Renumber(headers, genesis, canon, currentHash, height, head);
      headers, td, canon, currentHash := headers - batch, td - batch, index, hdr;
      tdCache, headerCache := {}, {};
    }

    /** Rolls back the canonical numbering. */
    static method Renumber(ghost hs: Store, ghost g: Hash, canon: map<nat, Hash>, ghost cur: Hash, height: nat,
                           head: nat)
      returns (index: map<nat, Hash>)
      requires Canonical(hs, g, canon, cur) && height == hs[cur].number
      ensures index == UpTo(canon, head)
    {
      hide UpTo;
      index := canon;
      var i: nat := height;
      AllUpTo(hs, g, canon, cur);
      while i > head
        invariant index == UpTo(canon, i) && Min(head, height) <= i <= height
      {
        UpToStep(canon, i);
        index := index - {i};
        i := i - 1;
      }
      UpToMin(hs, g, canon, cur, head);
    }

    /** The rewinding loop of SetHead: the headers to delete and the new current header. */
    static method Unwind(hs: Store, ghost g: Hash, ghost canon: map<nat, Hash>, cur: Hash, head: nat)
      returns (batch: set<Hash>, hdr: Hash)
      requires Canonical(hs, g, canon, cur)
      ensures Min(head, hs[cur].number) in canon && hdr == canon[Min(head, hs[cur].number)] &&
              batch == Above(canon, head)
    {
      hide Above;
      ghost var height := hs[cur].number;
      batch, hdr := {}, cur;
      NoneAbove(hs, g, canon, cur, height);
      while hs[hdr].number > head
        invariant hdr in hs && Min(head, height) <= hs[hdr].number <= height
        invariant hdr == canon[hs[hdr].number] == AncestorAt(hs, g, cur, hs[hdr].number)
        invariant batch == Above(canon, hs[hdr].number)
        decreases hs[hdr].number
      {
        AncestorLink(hs, g, cur, hs[hdr].number - 1);
        AboveStep(canon, hs[hdr].number - 1);
        batch, hdr := batch + {hdr}, hs[hdr].parent;
      }
      if head > height {
        NoneAbove(hs, g, canon, cur, head);
      }
    }

    /** GetAncestor. A non-zero answer is the header that a naive walk along `ancestor` parent links finds, whatever
        the budget of non-canonical steps; a budget of `ancestor` always suffices, and from a canonical header none is
        needed. With a number that is not its own, a stored hash has exactly the ancestors that the header cache
        answers for. The zero hash is the exception: it matches a number that has no canonical header. */
    method GetAncestor(hash: Hash, number: nat, ancestor: nat, maxNonCanonical: nat)
      returns (h: Hash, n: nat, budget: nat)
      requires Valid()
      ensures h != 0 ==> ancestor <= number && n == number - ancestor
      ensures h != 0 && hash != 0 && (Off(headers, hash, number) ==> ancestor <= headers[hash].number + 1) ==>
                Walk(headers, hash, ancestor) == Some(h)
      ensures hash == 0 ==>
                (h != 0 <==> 2 <= ancestor <= number && number !in canon && number - ancestor in canon)
      ensures hash == 0 && h != 0 ==> h == canon[number - ancestor]
      ensures Off(headers, hash, number) && 0 < ancestor <= number ==>
                if ancestor > headers[hash].number + 1 then
                  h != 0 ==> CachedRun(headers, headerCache, hash, headers[hash].number + 1)
                else if CachedRun(headers, headerCache, hash, ancestor) &&
                  (ancestor == 1 || maxNonCanonical >= ancestor)
                then Walk(headers, hash, ancestor) == Some(h)
                else h == 0
      ensures Rooted(headers, genesis, hash) && headers[hash].number == number && ancestor <= number &&
              maxNonCanonical >= ancestor ==>
                Walk(headers, hash, ancestor) == Some(h)
      ensures number in canon && canon[number] == hash && ancestor <= number ==>
                number - ancestor in canon && h == canon[number - ancestor] && budget == maxNonCanonical
      ensures budget <= maxNonCanonical
    {
      hide Recorded, Canonical, Rooted, AncestorAt, Walk, CachedRun, Strolling;
      budget := maxNonCanonical;
      ZeroIsNoHeader(headers, td, genesis, known);
      if ancestor > number {
        return 0, 0, budget;
      }
      ghost var off := Off(headers, hash, number);
      WalkNowhere(headers, genesis, hash);
      StrollStarts(headers, td, genesis, known, headerCache, hash, number);
      CanonicalNumber(headers, td, genesis, known, canon, currentHash);
      if number in canon && canon[number] == hash {
        FromCanonical(headers, genesis, canon, currentHash, hash, ancestor, ancestor, number);
      }
      if ancestor == 1 {
        var header := Lookup(headers, headerCache, hash, number);
        if header.Some? {
          StrollOn(headers, td, genesis, known, headerCache, hash, number, 0, hash);
          StrollFacts(headers, td, genesis, known, headerCache, hash, number, 1, header.value.parent);
          return header.value.parent, number - 1, budget;
        }
        StrollStops(headers, genesis, headerCache, hash, 0, hash, ancestor);
        return 0, 0, budget;
      }
      h, n := hash, number;
      var left := ancestor;
      while left != 0
        invariant 0 <= left <= ancestor && n == number - (ancestor - left)
        invariant Strolling(headers, genesis, headerCache, hash, number, ancestor - left, h)
        invariant budget == maxNonCanonical - (ancestor - left)
        invariant hash == 0 ==> left == ancestor && h == 0
        invariant number in canon && canon[number] == hash ==> left == ancestor
        decreases left
      {
        StrollFacts(headers, td, genesis, known, headerCache, hash, number, ancestor - left, h);
        if ReadCanonical(canon, n) == h {
          if h != 0 {
            FromCanonical(headers, genesis, canon, currentHash, hash, ancestor, left, n);
          }
          n := n - left;
          return ReadCanonical(canon, n), n, budget;
        }
        if budget == 0 {
          return 0, 0, budget;
        }
        budget, left := budget - 1, left - 1;
        var header := Lookup(headers, headerCache, h, n);
        if header.None? {
          StrollStops(headers, genesis, headerCache, hash, ancestor - left - 1, h, ancestor);
          return 0, 0, budget;
        }
        StrollOn(headers, td, genesis, known, headerCache, hash, number, ancestor - left - 1, h);
        h, n := header.value.parent, n - 1;
      }
      StrollFacts(headers, td, genesis, known, headerCache, hash, number, ancestor, h);
    }
  }

  // ---------- walks through the header cache ----------

  /** A stored hash given with a number that is not its own. */
  predicate Off(hs: Store, hash: Hash, number: nat) {
    hash in hs && hs[hash].number != number
  }

  /** The first `k` headers of the walk from `h` are cached. */
  ghost predicate CachedRun(hs: Store, cache: set<Hash>, h: Hash, k: nat)
    decreases k
  {
    k == 0 || (h in hs && h in cache && CachedRun(hs, cache, hs[h].parent, k - 1))
  }

  lemma {:induction false} CachedFurther(hs: Store, cache: set<Hash>, h: Hash, k: nat)
    requires CachedRun(hs, cache, h, k)
    ensures Walk(hs, h, k).Some?
    ensures var x := Walk(hs, h, k).value; CachedRun(hs, cache, h, k + 1) <==> x in hs && x in cache
    decreases k
  {
    if k > 0 {
      CachedFurther(hs, cache, hs[h].parent, k - 1);
    }
  }

  lemma {:induction false} CachedLess(hs: Store, cache: set<Hash>, h: Hash, j: nat, k: nat)
    requires CachedRun(hs, cache, h, k) && j <= k
    ensures CachedRun(hs, cache, h, j)
    decreases j
  {
    if j > 0 {
      CachedLess(hs, cache, hs[h].parent, j - 1, k - 1);
    }
  }

  /** Where GetAncestor stands after `k` steps from `hash`, which was given with `number`. */
  ghost predicate Strolling(hs: Store, g: Hash, cache: set<Hash>, hash: Hash, number: nat, k: nat, h: Hash) {
    && Walk(hs, hash, k) == Some(h)
    && (hash in hs ==>
          if hs[hash].number == number then
            k <= number && h != 0 && (h in hs ==> hs[h].number == number - k) && (Rooted(hs, g, hash) ==> h in hs)
          else
            && k <= hs[hash].number + 1 && CachedRun(hs, cache, hash, k)
            && if k > hs[hash].number then g in hs && h == hs[g].parent && h !in hs
               else h != 0 && (h in hs ==> hs[h].number == hs[hash].number - k))
    && (hash !in hs ==> k == 0)
  }

  lemma StrollStarts(hs: Store, td: map<Hash, nat>, g: Hash, known: Store, cache: set<Hash>, hash: Hash, number: nat)
    requires Recorded(hs, td, g, known)
    ensures Strolling(hs, g, cache, hash, number, 0, hash)
  {}

  lemma StrollFacts(hs: Store, td: map<Hash, nat>, g: Hash, known: Store, cache: set<Hash>, hash: Hash, number: nat,
                    k: nat, h: Hash)
    requires Recorded(hs, td, g, known) && Strolling(hs, g, cache, hash, number, k, h) && k <= number
    ensures Walk(hs, hash, k) == Some(h)
    ensures h in hs ==> (hs[h].number == number - k <==> !Off(hs, hash, number))
    ensures Rooted(hs, g, hash) && !Off(hs, hash, number) ==> h in hs
    ensures hash != 0 && h == 0 ==> Off(hs, hash, number) && k == hs[hash].number + 1
    ensures Off(hs, hash, number) ==> k <= hs[hash].number + 1 && CachedRun(hs, cache, hash, k)
    ensures h !in hs ==> (Off(hs, hash, number) ==> !CachedRun(hs, cache, hash, k + 1))
  {
    if Off(hs, hash, number) {
      CachedFurther(hs, cache, hash, k);
    }
  }

  lemma StrollOn(hs: Store, td: map<Hash, nat>, g: Hash, known: Store, cache: set<Hash>, hash: Hash, number: nat,
                 k: nat,
                 h: Hash)
    requires Recorded(hs, td, g, known) && Strolling(hs, g, cache, hash, number, k, h) && k < number
    requires Found(hs, cache, h, number - k)
    ensures Strolling(hs, g, cache, hash, number, k + 1, hs[h].parent) && hash in hs
    ensures Off(hs, hash, number) ==> CachedRun(hs, cache, hash, k + 1)
  {
    hide Rooted;
    assert Rooted(known, g, h);
    WalkSplits(hs, hash, k, 1);
    assert Walk(hs, h, 1) == Some(hs[h].parent);
    if hs[hash].number == number {
      WalkOneMore(hs, td, g, known, hash, k, h);
    } else {
      CachedFurther(hs, cache, hash, k);
      GenesisAtZero(hs, td, g, known, h);
    }
  }

  lemma GenesisAtZero(hs: Store, td: map<Hash, nat>, g: Hash, known: Store, h: Hash)
    requires Recorded(hs, td, g, known) && h in hs
    ensures hs[h].number == 0 ==> h == g && hs[g].parent !in hs
    ensures hs[h].number > 0 ==> hs[h].parent != 0
    ensures hs[h].number > 0 && hs[h].parent in hs ==> hs[hs[h].parent].number == hs[h].number - 1
  {
    assert Rooted(known, g, h);
  }

  lemma StrollStops(hs: Store, g: Hash, cache: set<Hash>, hash: Hash, k: nat, h: Hash, ancestor: nat)
    requires Walk(hs, hash, k) == Some(h) && (h !in hs || h !in cache) && k < ancestor
    ensures !CachedRun(hs, cache, hash, ancestor)
  {
    if CachedRun(hs, cache, hash, ancestor) {
      CachedLess(hs, cache, hash, k + 1, ancestor);
      CachedLess(hs, cache, hash, k, ancestor);
      CachedFurther(hs, cache, hash, k);
    }
  }

  // ---------- inputs ----------

  const GENESIS := Header(0, 0, 1, [])
  const MAIN := Header(1, 1, 1, [])
  const NEXT := Header(2, 2, 2, [])
  const SIDE := Header(2, 2, 1, [])
  const ORPHAN := Header(4, 3, 1, [])
  const MISNUMBERED := Header(2, 7, 5, [])

  /** A header whose ancestor was deleted by a rewind: the next one on top of it makes WriteHeader panic. */
  method Orphaned() returns (status: WriteStatus)
    ensures status.Panicked?
  {
    hide Recorded, Canonical, Rooted, TotalDifficulty, EachRooted, Gap, Passable;
    OrphanTotals();
    var hc := RewoundFork();
    CanonicalFacts(hc.headers, 1, hc.canon, hc.currentHash);
    RecordedFacts(hc.headers, hc.td, 1, hc.known, 1, 5, ORPHAN);
    status := hc.WriteHeader(5, ORPHAN, false);
    assert hc.known == map[1 := GENESIS, 2 := MAIN, 3 := NEXT, 4 := SIDE, 5 := ORPHAN];
  }

  /** The rewind deletes the canonical headers and leaves the side header on top of one of them. */
  method RewoundFork() returns (hc: HeaderChain)
    ensures fresh(hc) && hc.Valid() && hc.genesis == hc.currentHash == 1
    ensures hc.headers == map[1 := GENESIS, 4 := SIDE]
    ensures hc.known == map[1 := GENESIS, 2 := MAIN, 3 := NEXT, 4 := SIDE]
  {
    hide Recorded, Canonical, Rooted, TotalDifficulty, EachRooted, Above, UpTo, Gap, Passable;
    OrphanTotals();
    hc := OneHeader();
    CanonicalFacts(hc.headers, 1, hc.canon, hc.currentHash);
    RecordedFacts(hc.headers, hc.td, 1, hc.known, 2, 3, NEXT);
    var status := hc.WriteHeader(3, NEXT, false);
    assert hc.headers == map[1 := GENESIS, 2 := MAIN, 3 := NEXT] == hc.known;
    RecordedFacts(hc.headers, hc.td, 1, hc.known, 3, 4, SIDE);
    status := hc.WriteHeader(4, SIDE, false);
    assert hc.headers == map[1 := GENESIS, 2 := MAIN, 3 := NEXT, 4 := SIDE] == hc.known && status.SideStat?;
    AboveGenesis(hc.headers, hc.canon);
    hc.SetHead(0);
  }

  /** Genesis and one header on it, which is cached. */
  method OneHeader() returns (hc: HeaderChain)
    ensures fresh(hc) && hc.Valid() && hc.genesis == 1 && hc.currentHash == 2 && hc.HeadDifficulty() == 2
    ensures hc.headers == map[1 := GENESIS, 2 := MAIN] == hc.known && 2 in hc.tdCache && 2 in hc.headerCache
  {
    hide Recorded, Canonical, Rooted, TotalDifficulty, EachRooted, Gap, Passable;
    OrphanTotals();
    hc := new HeaderChain(1, GENESIS);
    CanonicalFacts(hc.headers, 1, hc.canon, hc.currentHash);
    RecordedFacts(hc.headers, hc.td, 1, hc.known, 1, 2, MAIN);
    var status := hc.WriteHeader(2, MAIN, false);
    assert hc.headers == map[1 := GENESIS, 2 := MAIN] == hc.known;
  }

  /** A header with number 7 on a cached parent with number 1 is accepted and becomes the current one. The canonical
      index then lists the parent under number 6, and nothing under the numbers from 2 to 5. */
  method Misnumbering() returns (hc: HeaderChain, status: WriteStatus)
    ensures status.CanonStat? && hc.currentHash == 9 && !hc.Valid()
    ensures 6 in hc.canon && hc.canon[6] == 2 && 7 in hc.canon && hc.canon[7] == 9
    ensures forall n :: 2 <= n <= 5 ==> n !in hc.canon
  {
    hide Recorded, Canonical, Rooted, TotalDifficulty, EachRooted, Gap, Passable;
    OrphanTotals();
    hc := OneHeader();
    CanonicalFacts(hc.headers, 1, hc.canon, hc.currentHash);
    RecordedFacts(hc.headers, hc.td, 1, hc.known, 2, 9, MISNUMBERED);
    ghost var headers, canon, cache := hc.headers, hc.canon, hc.headerCache;
    NumbersUpTo(headers, 1, canon, 2);
    IsPassable(headers, 1, cache, 2);
    status := hc.WriteHeader(9, MISNUMBERED, false);
    GapAt(headers, canon, hc.canon, 9, MISNUMBERED);
  }

  /** The zero hash, given with a number above the head, is answered with a canonical header. */
  method ZeroAnswered() returns (h: Hash)
    ensures h == 1
  {
    hide Recorded, Canonical, Rooted;
    var hc := OneHeader();
    NumbersUpTo(hc.headers, 1, hc.canon, 2);
    GenesisIsCanonical(hc.headers, 1, hc.canon, 2);
    var n, budget;
    h, n, budget := hc.GetAncestor(0, 5, 5, 0);
  }

  lemma NumbersUpTo(hs: Store, g: Hash, canon: map<nat, Hash>, cur: Hash)
    requires Canonical(hs, g, canon, cur)
    ensures cur in hs && forall n :: n in canon <==> 0 <= n <= hs[cur].number
  {}

  lemma IsPassable(hs: Store, g: Hash, cache: set<Hash>, p: Hash)
    requires p in cache && Rooted(hs, g, p) && p != g
    ensures Passable(hs, g, cache, p)
  {}

  lemma GapAt(hs: Store, canon: map<nat, Hash>, r: map<nat, Hash>, hash: Hash, header: Header)
    requires TooHigh(hs, header) && Gap(hs, canon, r, hash, header)
    ensures header.number in r && r[header.number] == hash
    ensures header.number - 1 in r && r[header.number - 1] == header.parent
    ensures forall n :: hs[header.parent].number <= n < header.number - 1 ==> (n in r <==> n in canon)
  {}

  lemma OrphanTotals()
    ensures var k := map[1 := GENESIS]; Rooted(k, 1, 1) && TotalDifficulty(k, 1, 1) == 1
    ensures var k := map[1 := GENESIS, 2 := MAIN]; Rooted(k, 1, 2) && TotalDifficulty(k, 1, 2) == 2
    ensures var k := map[1 := GENESIS, 2 := MAIN, 3 := NEXT]; Rooted(k, 1, 3) && TotalDifficulty(k, 1, 3) == 4
    ensures var k := map[1 := GENESIS, 2 := MAIN, 3 := NEXT, 4 := SIDE];
            Rooted(k, 1, 3) && TotalDifficulty(k, 1, 3) == 4 && Rooted(k, 1, 4) && TotalDifficulty(k, 1, 4) == 3
    ensures var k := map[1 := GENESIS, 2 := MAIN, 3 := NEXT, 4 := SIDE, 5 := ORPHAN];
            Rooted(k, 1, 5) && TotalDifficulty(k, 1, 5) == 4
    ensures var k := map[1 := GENESIS, 4 := SIDE];
            Rooted(k, 1, 1) && TotalDifficulty(k, 1, 1) == 1 && !Rooted(k, 1, 4)
  {
    Totals(map[1 := GENESIS, 2 := MAIN]);
    Totals(map[1 := GENESIS, 2 := MAIN, 3 := NEXT]);
    Totals(map[1 := GENESIS, 2 := MAIN, 3 := NEXT, 4 := SIDE]);
    var k := map[1 := GENESIS, 2 := MAIN, 3 := NEXT, 4 := SIDE, 5 := ORPHAN];
    Totals(k);
    assert Rooted(k, 1, 4) && TotalDifficulty(k, 1, 4) == 3;
  }

  lemma Totals(k: Store)
    requires 1 in k && k[1] == GENESIS && 2 in k && k[2] == MAIN
    ensures Rooted(k, 1, 2) && TotalDifficulty(k, 1, 2) == 2
  {
    assert Rooted(k, 1, 1) && TotalDifficulty(k, 1, 1) == 1;
  }

  lemma AboveGenesis(hs: Store, canon: map<nat, Hash>)
    requires hs == map[1 := GENESIS, 2 := MAIN, 3 := NEXT, 4 := SIDE] && Canonical(hs, 1, canon, 3)
    ensures Above(canon, 0) == {2, 3} && 0 in canon && canon[0] == 1
  {
    assert 2 in canon && canon[2] == 3;
    AncestorLink(hs, 1, 3, 1);
    assert 1 in canon && canon[1] == 2;
    SameRoot(hs, 1, 3, 3);
  }

  lemma GenesisKept(hs: Store, td: map<Hash, nat>, g: Hash, known: Store)
    requires Recorded(hs, td, g, known)
    ensures g in hs && g in known && hs[g] == known[g]
  {}

  /** Every stored header is a known one with its total difficulty; known headers are rooted. */
  ghost predicate Recorded(hs: Store, td: map<Hash, nat>, g: Hash, known: Store) {
    && 0 !in known && hs.Keys == td.Keys && g in hs && hs[g].number == 0 && hs[g].parent !in known
    && (forall h :: h in hs ==> h in known && known[h] == hs[h])
    && EachRooted(known, g)
    && (forall h :: h in hs ==> td[h] == TotalDifficulty(known, g, h))
  }

  ghost predicate EachRooted(hs: Store, g: Hash) {
    forall h :: h in hs ==> Rooted(hs, g, h)
  }

  /** Stored headers are numbered after their parents, and only genesis has number 0. */
  ghost predicate Numbered(hs: Store, g: Hash) {
    && 0 !in hs && (forall h :: h in hs && hs[h].number == 0 ==> h == g)
    && (forall h :: h in hs && hs[h].number > 0 ==> hs[h].parent != 0)
    && (forall h :: h in hs && hs[h].number > 0 && hs[h].parent in hs ==> hs[hs[h].parent].number == hs[h].number - 1)
  }

  /** The same for all headers but `x`, which nothing is built on. */
  ghost predicate NumberedBut(hs: Store, g: Hash, x: Hash) {
    && 0 !in hs && g in hs && g != x && hs[g].number == 0 && hs[g].parent !in hs
    && x in hs && hs[x].parent in hs && hs[x].parent != x
    && (forall h :: h in hs && h != x && hs[h].number == 0 ==> h == g)
    && (forall h :: h in hs && h != x && hs[h].number > 0 ==> hs[h].parent != 0 && hs[h].parent != x)
    && (forall h :: h in hs && h != x && hs[h].number > 0 && hs[h].parent in hs ==>
          hs[hs[h].parent].number == hs[h].number - 1)
  }

  /** What the walk down from a new header relies on. */
  ghost predicate Walkable(hs: Store, g: Hash, hash: Hash) {
    hash in hs && if Fits(hs, hs[hash]) then Numbered(hs, g) else NumberedBut(hs, g, hash)
  }

  lemma WalkableFacts(hs: Store, g: Hash, hash: Hash)
    requires Walkable(hs, g, hash)
    ensures hash in hs && 0 !in hs
  {}

  lemma NumbersFit(hs: Store, td: map<Hash, nat>, g: Hash, known: Store)
    requires Recorded(hs, td, g, known)
    ensures Numbered(hs, g)
  {
    forall h | h in hs
      ensures Rooted(known, g, h)
    {}
  }

  lemma KnownFits(hs: Store, td: map<Hash, nat>, g: Hash, known: Store, hash: Hash)
    requires Recorded(hs, td, g, known) && hash in known && known[hash].parent in hs
    ensures Fits(hs, known[hash])
  {
    assert Rooted(known, g, hash);
  }

  /** A header whose parent is stored under another number is new, and breaks the records. */
  lemma BreaksRecords(hs: Store, td: map<Hash, nat>, g: Hash, known: Store, hash: Hash, hdr: Header)
    requires Recorded(hs, td, g, known) && hash != 0 && hash != hs[g].parent && (hash in known ==> known[hash] == hdr)
    requires hdr.parent in hs && !Fits(hs, hdr)
    ensures hash !in known && !EachRooted(known[hash := hdr], g) && NumberedBut(hs[hash := hdr], g, hash)
  {
    if hash in known {
      KnownFits(hs, td, g, known, hash);
    }
    assert !Rooted(known[hash := hdr], g, hash);
    forall h | h in hs
      ensures Rooted(known, g, h) && (hs[h].number > 0 ==> hs[h].parent in known)
    {}
  }

  // ---------- misnumbered headers ----------

  /** The parent is stored, and numbered too low for this header. */
  predicate TooHigh(hs: Store, header: Header) {
    header.parent in hs && hs[header.parent].number + 1 < header.number < MAX_UINT64
  }

  /** The walk down from a header that is too high gets past its parent. */
  ghost predicate Passable(hs: Store, g: Hash, cache: set<Hash>, p: Hash) {
    p in cache && Rooted(hs, g, p) && (p == g ==> hs[g].parent == 0)
  }

  /** The index that a header that is too high leaves: its parent appears under a number that is not its own, and
      between the two numbers of the parent nothing changes. */
  ghost predicate Gap(hs: Store, canon: map<nat, Hash>, r: map<nat, Hash>, hash: Hash, header: Header)
    requires TooHigh(hs, header)
  {
    && header.number in r && r[header.number] == hash && (forall n :: n in r ==> n <= header.number)
    && header.number - 1 in r && r[header.number - 1] == header.parent
    && Between(canon, r, hs[header.parent].number, header.number - 1)
  }

  /** Writing the header itself makes no difference to its passage. */
  lemma SamePassage(hs: Store, g: Hash, cache: set<Hash>, canon: map<nat, Hash>, r: map<nat, Hash>, hash: Hash,
                    hdr: Header)
    requires TooHigh(hs, hdr) && TooHigh(hs[hash := hdr], hdr) && g in hs && hash !in hs
    requires Rooted(hs[hash := hdr], g, hdr.parent) <==> Rooted(hs, g, hdr.parent)
    ensures Passable(hs[hash := hdr], g, cache, hdr.parent) <==> Passable(hs, g, cache, hdr.parent)
    ensures Gap(hs[hash := hdr], canon, r, hash, hdr) <==> Gap(hs, canon, r, hash, hdr)
  {
    hide Rooted;
  }

  ghost predicate Between(canon: map<nat, Hash>, r: map<nat, Hash>, low: nat, high: nat) {
    forall n :: low <= n < high ==> (n in r <==> n in canon) && (n in r ==> r[n] == canon[n])
  }

  /** How far the new numbering has come from a misnumbered header: at its parent, below the parent, or past genesis. */
  ghost predicate Straying(hs: Store, g: Hash, cache: set<Hash>, canon: map<nat, Hash>, hash: Hash, r: map<nat, Hash>,
                           at: Hash, number: nat, first: bool)
  {
    && hash in hs && hs[hash].parent in hs
    && var p := hs[hash].parent;
       var high := TooHigh(hs, hs[hash]);
       if first then
         && at == p && number == Before(hs[hash].number)
         && r == map n | n in canon && n <= hs[hash].number :: canon[n]
       else
         && (PastGenesis(hs, g, at, number) || BelowParent(hs, g, p, hash, at, number))
         && (high ==>
               && p in cache && (PastGenesis(hs, g, at, number) ==> p == g)
               && hs[hash].number - 1 in r && r[hs[hash].number - 1] == p
               && (forall n :: n in r ==> n <= hs[hash].number)
               && Between(canon, r, hs[p].number, hs[hash].number - 1)
               && Between(canon, r, 0, Min(number + 1, hs[p].number)))
  }

  ghost predicate PastGenesis(hs: Store, g: Hash, at: Hash, number: nat) {
    g in hs && at == hs[g].parent && at !in hs && number == MAX_UINT64
  }

  ghost predicate BelowParent(hs: Store, g: Hash, p: Hash, hash: Hash, at: Hash, number: nat)
    requires p in hs
  {
    && at != 0 && at != hash && number < hs[p].number && (at in hs ==> hs[at].number == number)
    && (Rooted(hs, g, p) <==> Rooted(hs, g, at))
  }

  lemma StrayStep(hs: Store, g: Hash, cache: set<Hash>, canon: map<nat, Hash>, cur: Hash, hash: Hash,
                  r: map<nat, Hash>, at: Hash, number: nat, first: bool)
    requires Canonical(hs, g, canon, cur) && NumberedBut(hs, g, hash)
    requires Straying(hs, g, cache, canon, hash, r, at, number, first) && Found(hs, cache, at, number)
    requires ReadCanonical(r, number) != at
    ensures Straying(hs, g, cache, canon, hash, r[number := at], hs[at].parent, Before(hs[at].number), false)
    ensures hs[at].parent in hs ==> hs[hs[at].parent].number < hs[at].number
  {
    hide Canonical, Rooted, AncestorAt;
    GenesisIsCanonical(hs, g, canon, cur);
    StrayParent(hs, g, hash, at);
  }

  lemma StrayParent(hs: Store, g: Hash, x: Hash, h: Hash)
    requires NumberedBut(hs, g, x) && h in hs && h != x
    ensures hs[h].number > 0 ==> (Rooted(hs, g, h) <==> Rooted(hs, g, hs[h].parent))
  {}

  lemma StrayLost(hs: Store, g: Hash, cache: set<Hash>, canon: map<nat, Hash>, hash: Hash, r: map<nat, Hash>,
                  at: Hash, number: nat, first: bool)
    requires NumberedBut(hs, g, hash) && Straying(hs, g, cache, canon, hash, r, at, number, first)
    requires !Found(hs, cache, at, number) && ReadCanonical(r, number) != at && TooHigh(hs, hs[hash])
    ensures !Passable(hs, g, cache, hs[hash].parent)
  {}

  lemma StrayEnds(hs: Store, g: Hash, cache: set<Hash>, canon: map<nat, Hash>, cur: Hash, hash: Hash,
                  r: map<nat, Hash>, at: Hash, number: nat, first: bool)
    requires Canonical(hs, g, canon, cur) && NumberedBut(hs, g, hash)
    requires Straying(hs, g, cache, canon, hash, r, at, number, first)
    requires ReadCanonical(r, number) == at && TooHigh(hs, hs[hash])
    ensures Passable(hs, g, cache, hs[hash].parent) && Gap(hs, canon, r[hs[hash].number := hash], hash, hs[hash])
  {
    OwnNumbers(hs, g, canon, cur);
    hide Canonical;
  }

  /** The canonical index lists headers under their own numbers. */
  lemma OwnNumbers(hs: Store, g: Hash, canon: map<nat, Hash>, cur: Hash)
    requires Canonical(hs, g, canon, cur)
    ensures forall n :: n in canon ==> Rooted(hs, g, canon[n]) && hs[canon[n]].number == n
  {}

  /** An index that lists a header that is not stored is not canonical. */
  lemma LostIsNotCanonical(hs: Store, g: Hash, r: map<nat, Hash>, cur: Hash)
    requires exists n :: n in r && r[n] !in hs
    ensures !Canonical(hs, g, r, cur)
  {
    if Canonical(hs, g, r, cur) {
      OwnNumbers(hs, g, r, cur);
    }
  }

  // ---------- the walk down ----------

  ghost predicate Walking(hs: Store, g: Hash, cache: set<Hash>, canon: map<nat, Hash>, cur: Hash, hash: Hash,
                          r: map<nat, Hash>, at: Hash, number: nat, first: bool)
  {
    hash in hs &&
    if Fits(hs, hs[hash]) then Rerouting(hs, g, canon, cur, hash, r, at, number)
    else Straying(hs, g, cache, canon, hash, r, at, number, first)
  }

  lemma WalkStarts(hs: Store, g: Hash, cache: set<Hash>, canon: map<nat, Hash>, cur: Hash, hash: Hash,
                   r: map<nat, Hash>)
    requires Canonical(hs, g, canon, cur) && Walkable(hs, g, hash)
    requires r == map n | n in canon && n <= hs[hash].number :: canon[n]
    ensures Walking(hs, g, cache, canon, cur, hash, r, hs[hash].parent, Before(hs[hash].number), true)
  {
    hide Canonical, Rerouting;
    if Fits(hs, hs[hash]) {
      RerouteStarts(hs, g, canon, cur, hash, r);
    }
  }

  lemma WalkStep(hs: Store, g: Hash, cache: set<Hash>, canon: map<nat, Hash>, cur: Hash, hash: Hash,
                 r: map<nat, Hash>, at: Hash, number: nat, first: bool)
    requires Canonical(hs, g, canon, cur) && Walkable(hs, g, hash)
    requires Walking(hs, g, cache, canon, cur, hash, r, at, number, first)
    requires Found(hs, cache, at, number) && ReadCanonical(r, number) != at
    ensures Walking(hs, g, cache, canon, cur, hash, r[number := at], hs[at].parent, Before(hs[at].number), false)
    ensures hs[at].parent in hs ==> hs[hs[at].parent].number < hs[at].number
  {
    hide Canonical, Straying, Rooted, AncestorAt, NumberedBut;
    if Fits(hs, hs[hash]) {
      RerouteStep(hs, g, canon, cur, hash, r, at, number);
    } else {
      StrayStep(hs, g, cache, canon, cur, hash, r, at, number, first);
    }
  }

  lemma WalkLost(hs: Store, g: Hash, cache: set<Hash>, canon: map<nat, Hash>, cur: Hash, hash: Hash,
                 r: map<nat, Hash>, at: Hash, number: nat, first: bool)
    requires Walkable(hs, g, hash) && Walking(hs, g, cache, canon, cur, hash, r, at, number, first)
    requires !Found(hs, cache, at, number) && ReadCanonical(r, number) != at
    ensures Fits(hs, hs[hash]) ==> !Rooted(hs, g, hash) && number in r[number := at] && r[number := at][number] !in hs
    ensures TooHigh(hs, hs[hash]) ==> !Passable(hs, g, cache, hs[hash].parent)
  {
    hide Straying, NumberedBut, Passable;
    if Fits(hs, hs[hash]) {
      RerouteLost(hs, g, canon, cur, hash, r, at, number);
    } else if TooHigh(hs, hs[hash]) {
      StrayLost(hs, g, cache, canon, hash, r, at, number, first);
    }
  }

  lemma WalkEnds(hs: Store, g: Hash, cache: set<Hash>, canon: map<nat, Hash>, cur: Hash, hash: Hash,
                 r: map<nat, Hash>, at: Hash, number: nat, first: bool)
    requires Canonical(hs, g, canon, cur) && Walkable(hs, g, hash)
    requires Walking(hs, g, cache, canon, cur, hash, r, at, number, first) && ReadCanonical(r, number) == at
    ensures Fits(hs, hs[hash]) ==> Rooted(hs, g, hash) && Canonical(hs, g, r[hs[hash].number := hash], hash)
    ensures TooHigh(hs, hs[hash]) ==>
              && Passable(hs, g, cache, hs[hash].parent)
              && Gap(hs, canon, r[hs[hash].number := hash], hash, hs[hash])
  {
    hide Canonical, Rerouting, Straying, NumberedBut, Passable, Gap, Rooted;
    if Fits(hs, hs[hash]) {
      RerouteEnds(hs, g, canon, cur, hash, r, at, number);
    } else if TooHigh(hs, hs[hash]) {
      StrayEnds(hs, g, cache, canon, cur, hash, r, at, number, first);
    }
  }

  /** How far the new numbering has come: nothing is changed up to `number`, where the walk stands at `at`, and if
      the ancestors are stored, the numbers above are those of the new head. */
  ghost predicate Rerouting(hs: Store, g: Hash, canon: map<nat, Hash>, cur: Hash, hash: Hash, r: map<nat, Hash>,
                            at: Hash, number: nat)
  {
    && hash in hs && number < hs[hash].number && at != 0 && (at in hs ==> hs[at].number == number)
    && (forall n :: 0 <= n <= number ==> (n in r <==> n in canon) && (n in r ==> r[n] == canon[n]))
    && (forall n :: n in r ==> n <= hs[hash].number)
    && (Rooted(hs, g, hash) <==> Rooted(hs, g, at))
    && (Rooted(hs, g, hash) ==>
          at == AncestorAt(hs, g, hash, number) &&
          forall n :: number < n < hs[hash].number ==> n in r && r[n] == AncestorAt(hs, g, hash, n))
  }

  lemma RerouteStarts(hs: Store, g: Hash, canon: map<nat, Hash>, cur: Hash, hash: Hash, r: map<nat, Hash>)
    requires Canonical(hs, g, canon, cur) && Numbered(hs, g) && hash in hs && hs[hash].number > 0
    requires r == map n | n in canon && n <= hs[hash].number :: canon[n]
    ensures Rerouting(hs, g, canon, cur, hash, r, hs[hash].parent, hs[hash].number - 1)
  {
    hide Canonical;
    var p := hs[hash].parent;
    if Rooted(hs, g, hash) {
      assert AncestorAt(hs, g, hash, hs[hash].number - 1) == AncestorAt(hs, g, p, hs[hash].number - 1) == p;
    }
    assert Rooted(hs, g, p) ==> Rooted(hs, g, hash);
  }

  lemma RerouteStep(hs: Store, g: Hash, canon: map<nat, Hash>, cur: Hash, hash: Hash, r: map<nat, Hash>, at: Hash,
                    number: nat)
    requires Canonical(hs, g, canon, cur) && Numbered(hs, g) && Rerouting(hs, g, canon, cur, hash, r, at, number)
    requires at in hs && ReadCanonical(r, number) != at
    ensures number > 0 && Rerouting(hs, g, canon, cur, hash, r[number := at], hs[at].parent, number - 1)
  {
    hide Canonical, Rooted, AncestorAt;
    GenesisIsCanonical(hs, g, canon, cur);
    ParentStep(hs, g, at);
    if Rooted(hs, g, hash) {
      AncestorLink(hs, g, hash, number - 1);
    }
  }

  /** A stored header above genesis is rooted exactly if its parent is. */
  lemma ParentStep(hs: Store, g: Hash, h: Hash)
    requires Numbered(hs, g) && h in hs
    ensures hs[h].number == 0 ==> h == g
    ensures hs[h].number > 0 ==> (Rooted(hs, g, h) <==> Rooted(hs, g, hs[h].parent))
  {}

  lemma RerouteLost(hs: Store, g: Hash, canon: map<nat, Hash>, cur: Hash, hash: Hash, r: map<nat, Hash>, at: Hash,
                    number: nat)
    requires Rerouting(hs, g, canon, cur, hash, r, at, number) && at !in hs
    ensures !Rooted(hs, g, hash)
  {}

  lemma RerouteEnds(hs: Store, g: Hash, canon: map<nat, Hash>, cur: Hash, hash: Hash, r: map<nat, Hash>, at: Hash,
                    number: nat)
    requires Canonical(hs, g, canon, cur) && Numbered(hs, g) && Rerouting(hs, g, canon, cur, hash, r, at, number)
    requires ReadCanonical(r, number) == at
    ensures Rooted(hs, g, hash) && Canonical(hs, g, r[hs[hash].number := hash], hash)
  {
    hide Rooted, AncestorAt;
    assert number in canon && canon[number] == at == AncestorAt(hs, g, cur, number);
    forall n | 0 <= n <= number
      ensures n in r && r[n] == AncestorAt(hs, g, hash, n)
    {
      AncestorOfAncestor(hs, g, hash, number, n);
      AncestorOfAncestor(hs, g, cur, number, n);
    }
    AncestorAtItself(hs, g, hash);
  }

  lemma AncestorAtItself(hs: Store, g: Hash, h: Hash)
    requires Rooted(hs, g, h)
    ensures AncestorAt(hs, g, h, hs[h].number) == h
  {}

  lemma GenesisIsCanonical(hs: Store, g: Hash, canon: map<nat, Hash>, cur: Hash)
    requires Canonical(hs, g, canon, cur)
    ensures 0 in canon && canon[0] == g
  {
    SameRoot(hs, g, cur, cur);
  }

  lemma SameKeys(hs: Store, td: map<Hash, nat>, g: Hash, known: Store)
    requires Recorded(hs, td, g, known)
    ensures hs.Keys == td.Keys && g in hs
  {}

  /** What is true once a header with a stored parent is written. */
  lemma WriteMeans(hs: Store, td: map<Hash, nat>, g: Hash, known: Store, canon: map<nat, Hash>, cur: Hash, hash: Hash,
                   hdr: Header)
    requires Canonical(hs, g, canon, cur) && Recorded(hs, td, g, known)
    requires hash != 0 && hash != hs[g].parent && (hash in known ==> known[hash] == hdr) && hdr.parent in hs
    ensures Rooted(hs, g, cur) && cur in td && td[cur] == TotalDifficulty(hs, g, cur) && hdr.parent in td
    ensures var hs', td' := hs[hash := hdr], td[hash := hdr.difficulty + td[hdr.parent]];
            && Canonical(hs', g, canon, cur) && Rooted(hs', g, cur) && TotalDifficulty(hs', g, cur) == td[cur]
            && Walkable(hs', g, hash) && Fits(hs', hdr) == Fits(hs, hdr)
            && Recorded(hs', td', g, known[hash := hdr]) == Fits(hs, hdr)
            && (Fits(hs, hdr) ==> Settled(hs, td, g, known, hash, hdr))
    ensures TooHigh(hs, hdr) ==>
              && hash !in hs && TooHigh(hs[hash := hdr], hdr)
              && (Rooted(hs[hash := hdr], g, hdr.parent) <==> Rooted(hs, g, hdr.parent))
  {
    hide Recorded, Canonical, Rooted, TotalDifficulty, EachRooted, Walkable, Settled;
    CanonicalFacts(hs, g, canon, cur);
    RecordedFacts(hs, td, g, known, cur, hash, hdr);
    Extend(hs, g, cur, hash, hdr);
    CanonicalExtends(hs, g, canon, cur, hash, hdr);
    if Fits(hs, hdr) {
      WriteFitting(hs, td, g, known, hash, hdr);
    } else {
      WriteMisfit(hs, td, g, known, hash, hdr);
    }
  }

  /** What is true of a new header that is numbered after its parent. */
  ghost predicate Settled(hs: Store, td: map<Hash, nat>, g: Hash, known: Store, hash: Hash, hdr: Header)
    requires hdr.parent in td
  {
    var hs', td' := hs[hash := hdr], td[hash := hdr.difficulty + td[hdr.parent]];
    && Rooted(known[hash := hdr], g, hash) && td'[hash] == TotalDifficulty(known[hash := hdr], g, hash)
    && (Rooted(hs', g, hash) <==> Rooted(hs, g, hdr.parent))
    && (Rooted(hs', g, hash) ==> td'[hash] == TotalDifficulty(hs', g, hash))
    && (EachRooted(hs, g) ==> Rooted(hs, g, hdr.parent) && EachRooted(hs', g))
  }

  lemma WriteFitting(hs: Store, td: map<Hash, nat>, g: Hash, known: Store, hash: Hash, hdr: Header)
    requires Recorded(hs, td, g, known) && hash != 0 && hash != hs[g].parent && (hash in known ==> known[hash] == hdr)
    requires Fits(hs, hdr)
    ensures hdr.parent in td && Settled(hs, td, g, known, hash, hdr) && Fits(hs[hash := hdr], hdr)
    ensures Recorded(hs[hash := hdr], td[hash := hdr.difficulty + td[hdr.parent]], g, known[hash := hdr])
    ensures Walkable(hs[hash := hdr], g, hash)
  {
    hide Recorded, Rooted, TotalDifficulty, EachRooted;
    RecordedFacts(hs, td, g, known, hash, hash, hdr);
    var hs', td' := hs[hash := hdr], td[hash := hdr.difficulty + td[hdr.parent]];
    RecordMore(hs, td, g, known, hash, hdr);
    RecordedTotal(hs', td', g, known[hash := hdr], hash);
    RecordedFacts(hs', td', g, known[hash := hdr], hash, hash, hdr);
    NumbersFit(hs', td', g, known[hash := hdr]);
    RootedOn(hs, td, g, known, hash, hdr);
    if EachRooted(hs, g) {
      EachAt(hs, g, hdr.parent);
      EachExtend(hs, g, hash, hdr);
    }
  }

  lemma WriteMisfit(hs: Store, td: map<Hash, nat>, g: Hash, known: Store, hash: Hash, hdr: Header)
    requires Recorded(hs, td, g, known) && hash != 0 && hash != hs[g].parent && (hash in known ==> known[hash] == hdr)
    requires hdr.parent in hs && !Fits(hs, hdr)
    ensures hdr.parent in td && hash !in hs && !Fits(hs[hash := hdr], hdr) && Walkable(hs[hash := hdr], g, hash)
    ensures !Recorded(hs[hash := hdr], td[hash := hdr.difficulty + td[hdr.parent]], g, known[hash := hdr])
    ensures TooHigh(hs, hdr) ==>
              && TooHigh(hs[hash := hdr], hdr)
              && (Rooted(hs[hash := hdr], g, hdr.parent) <==> Rooted(hs, g, hdr.parent))
  {
    hide Rooted, EachRooted, TotalDifficulty;
    BreaksRecords(hs, td, g, known, hash, hdr);
    if TooHigh(hs, hdr) {
      if Rooted(hs, g, hdr.parent) {
        Extend(hs, g, hdr.parent, hash, hdr);
      }
      if Rooted(hs[hash := hdr], g, hdr.parent) {
        RootedWithout(hs, g, hdr.parent, hash, hdr);
      }
    }
  }

  /** A new header is rooted exactly if its parent is. */
  lemma RootedOn(hs: Store, td: map<Hash, nat>, g: Hash, known: Store, hash: Hash, hdr: Header)
    requires Recorded(hs, td, g, known) && hash != 0 && (hash in known ==> known[hash] == hdr)
    requires hdr.parent in hs && hdr.number == hs[hdr.parent].number + 1
    ensures Rooted(hs[hash := hdr], g, hash) <==> Rooted(hs, g, hdr.parent)
  {
    if Rooted(hs, g, hdr.parent) {
      NewHeader(hs, g, hash, hdr);
    }
    if Rooted(hs[hash := hdr], g, hash) {
      RootedWithout(hs, g, hdr.parent, hash, hdr);
    }
  }

  /** What is rooted without going through a header is rooted without it. */
  lemma {:induction false} RootedWithout(hs: Store, g: Hash, h: Hash, x: Hash, hdr: Header)
    requires Rooted(hs[x := hdr], g, h) && hs[x := hdr][h].number < hdr.number && (x in hs ==> hs[x] == hdr)
    ensures Rooted(hs, g, h)
    decreases hs[x := hdr][h].number
  {
    if hs[x := hdr][h].number > 0 {
      RootedWithout(hs, g, hs[x := hdr][h].parent, x, hdr);
    }
  }

  lemma RecordedTotal(hs: Store, td: map<Hash, nat>, g: Hash, known: Store, h: Hash)
    requires Recorded(hs, td, g, known) && h in hs
    ensures Rooted(known, g, h) && td[h] == TotalDifficulty(known, g, h)
  {}

  lemma EachAt(hs: Store, g: Hash, h: Hash)
    requires EachRooted(hs, g) && h in hs
    ensures Rooted(hs, g, h)
  {}

  /** All rooted headers have the same oldest ancestor. */
  lemma SameRoot(hs: Store, g: Hash, h: Hash, k: Hash)
    requires Rooted(hs, g, h) && Rooted(hs, g, k)
    ensures AncestorAt(hs, g, h, 0) == g == AncestorAt(hs, g, k, 0)
  {}

  /** A rooted stored header's total difficulty is the sum over stored headers. */
  lemma RecordedFacts(hs: Store, td: map<Hash, nat>, g: Hash, known: Store, h: Hash, x: Hash, hdr: Header)
    requires Recorded(hs, td, g, known)
    ensures 0 !in hs && hs.Keys == td.Keys
    ensures x in known && known[x] == hdr && x in hs ==> hs[x] == hdr
    ensures x in hs ==> x in known
    ensures h in hs && Rooted(hs, g, h) ==> td[h] == TotalDifficulty(hs, g, h)
  {
    if h in hs && Rooted(hs, g, h) {
      forall n | 0 <= n <= hs[h].number
        ensures var a := AncestorAt(hs, g, h, n); a in known && known[a] == hs[a] {}
      SameAncestors(hs, known, g, h);
    }
  }

  lemma CanonicalFacts(hs: Store, g: Hash, canon: map<nat, Hash>, h: Hash)
    requires Canonical(hs, g, canon, h)
    ensures Rooted(hs, g, h) && h in hs
  {}

  /** Writing a header with a rooted parent keeps the records right. */
  lemma RecordMore(hs: Store, td: map<Hash, nat>, g: Hash, known: Store, hash: Hash, hdr: Header)
    requires Recorded(hs, td, g, known) && hash != 0 && hash != hs[g].parent && (hash in known ==> known[hash] == hdr)
    requires hdr.parent in hs && hdr.number == hs[hdr.parent].number + 1
    ensures Recorded(hs[hash := hdr], td[hash := hdr.difficulty + td[hdr.parent]], g, known[hash := hdr])
  {
    hide Rooted, TotalDifficulty;
    EachExtend(known, g, hash, hdr);
    NewHeader(known, g, hash, hdr);
    assert hash != g;
  }

  /** A header on top of a rooted parent. */
  lemma NewHeader(hs: Store, g: Hash, hash: Hash, hdr: Header)
    requires Rooted(hs, g, hdr.parent) && hdr.number == hs[hdr.parent].number + 1 && (hash in hs ==> hs[hash] == hdr)
    ensures Rooted(hs[hash := hdr], g, hash)
    ensures TotalDifficulty(hs[hash := hdr], g, hash) == hdr.difficulty + TotalDifficulty(hs, g, hdr.parent)
  {
    Extend(hs, g, hdr.parent, hash, hdr);
  }

  lemma CanonicalExtends(hs: Store, g: Hash, canon: map<nat, Hash>, h: Hash, x: Hash, hdr: Header)
    requires Canonical(hs, g, canon, h) && (x in hs ==> hs[x] == hdr)
    ensures Canonical(hs[x := hdr], g, canon, h)
  {
    Extend(hs, g, h, x, hdr);
  }

  lemma EachExtend(hs: Store, g: Hash, x: Hash, hdr: Header)
    requires EachRooted(hs, g) && (x in hs ==> hs[x] == hdr)
    requires hdr.parent in hs && hdr.number == hs[hdr.parent].number + 1
    ensures EachRooted(hs[x := hdr], g)
    ensures forall h :: h in hs ==> TotalDifficulty(hs[x := hdr], g, h) == TotalDifficulty(hs, g, h)
  {
    hide Rooted, TotalDifficulty;
    forall h | h in hs
      ensures Rooted(hs[x := hdr], g, h) && TotalDifficulty(hs[x := hdr], g, h) == TotalDifficulty(hs, g, h)
    {
      Extend(hs, g, h, x, hdr);
    }
    NewHeader(hs, g, x, hdr);
  }

  /** The canonical index up to a number. */
  function UpTo(canon: map<nat, Hash>, n: nat): map<nat, Hash> {
    map k | k in canon && k <= n :: canon[k]
  }

  /** The canonical headers above a number. */
  function Above(canon: map<nat, Hash>, n: nat): set<Hash> {
    set k | k in canon && k > n :: canon[k]
  }

  lemma UpToStep(canon: map<nat, Hash>, n: nat)
    requires n > 0
    ensures UpTo(canon, n) - {n} == UpTo(canon, n - 1)
  {}

  lemma AllUpTo(hs: Store, g: Hash, canon: map<nat, Hash>, cur: Hash)
    requires Canonical(hs, g, canon, cur)
    ensures UpTo(canon, hs[cur].number) == canon
  {}

  lemma UpToMin(hs: Store, g: Hash, canon: map<nat, Hash>, cur: Hash, n: nat)
    requires Canonical(hs, g, canon, cur)
    ensures UpTo(canon, Min(n, hs[cur].number)) == UpTo(canon, n)
  {}

  lemma AboveStep(canon: map<nat, Hash>, n: nat)
    requires n + 1 in canon
    ensures Above(canon, n) == Above(canon, n + 1) + {canon[n + 1]}
  {}

  lemma NoneAbove(hs: Store, g: Hash, canon: map<nat, Hash>, cur: Hash, n: nat)
    requires Canonical(hs, g, canon, cur) && n >= hs[cur].number
    ensures Above(canon, n) == {}
  {}

  /** Deleting the canonical headers above `head` leaves everything said about the new head. */
  lemma Rewound(hs: Store, td: map<Hash, nat>, g: Hash, known: Store, canon: map<nat, Hash>, cur: Hash, hdr: Hash,
                head: nat)
    requires Canonical(hs, g, canon, cur) && Recorded(hs, td, g, known)
    requires Min(head, hs[cur].number) in canon && hdr == canon[Min(head, hs[cur].number)]
    ensures Canonical(hs - Above(canon, head), g, UpTo(canon, head), hdr)
    ensures Recorded(hs - Above(canon, head), td - Above(canon, head), g, known)
  {
    var batch := Above(canon, head);
    forall b | b in batch ensures b in hs && hs[b].number > head {
      var n :| n in canon && n > head && canon[n] == b;
    }
    assert Canonical(hs - batch, g, UpTo(canon, head), hdr) by {
      RewoundPath(hs, g, canon, cur, hdr, head);
    }
  }

  lemma RewoundPath(hs: Store, g: Hash, canon: map<nat, Hash>, cur: Hash, hdr: Hash, head: nat)
    requires Canonical(hs, g, canon, cur)
    requires Min(head, hs[cur].number) in canon && hdr == canon[Min(head, hs[cur].number)]
    requires forall b :: b in Above(canon, head) ==> b in hs && hs[b].number > head
    ensures Canonical(hs - Above(canon, head), g, UpTo(canon, head), hdr)
  {
    hide Above;
    var rs := hs - Above(canon, head);
    SameAncestors(hs, rs, g, hdr);
    forall n | 0 <= n <= hs[hdr].number ensures canon[n] == AncestorAt(rs, g, hdr, n) {
      AncestorOfAncestor(hs, g, cur, hs[hdr].number, n);
    }
  }

  lemma WalkNowhere(hs: Store, g: Hash, hash: Hash)
    ensures Walk(hs, hash, 0) == Some(hash) && (Rooted(hs, g, hash) ==> hash in hs)
  {}

  /** A walk that has reached a canonical header continues along the canonical index. */
  lemma FromCanonical(hs: Store, g: Hash, canon: map<nat, Hash>, cur: Hash, hash: Hash, ancestor: nat, left: nat,
                      n: nat)
    requires Canonical(hs, g, canon, cur) && left <= ancestor && left <= n && n in canon
    requires Walk(hs, hash, ancestor - left) == Some(canon[n])
    ensures n - left in canon && Walk(hs, hash, ancestor) == Some(canon[n - left])
  {
    WalkSplits(hs, hash, ancestor - left, left);
    WalkIsAncestor(hs, g, canon[n], left);
    AncestorOfAncestor(hs, g, cur, n, n - left);
  }

  /** One more step of a walk; the parent of a stored header above genesis is a known header. */
  lemma WalkOneMore(hs: Store, td: map<Hash, nat>, g: Hash, known: Store, hash: Hash, k: nat, h: Hash)
    requires Recorded(hs, td, g, known) && Walk(hs, hash, k) == Some(h) && h in hs && hs[h].number > 0
    requires hash in hs ==> k <= hs[hash].number
    ensures Walk(hs, hash, k + 1) == Some(hs[h].parent) && hs[h].parent != 0 && hash != 0
    ensures hs[h].parent in hs ==> hs[hs[h].parent].number == hs[h].number - 1
    ensures Rooted(hs, g, hash) ==> hs[h].parent in hs
  {
    assert Rooted(known, g, h);
    WalkSplits(hs, hash, k, 1);
    assert Walk(hs, h, 1) == Some(hs[h].parent);
    if Rooted(hs, g, hash) {
      RootedWalk(hs, g, hash, k);
    }
  }

  lemma {:induction false} RootedWalk(hs: Store, g: Hash, hash: Hash, k: nat)
    requires Rooted(hs, g, hash) && Walk(hs, hash, k).Some? && k <= hs[hash].number
    ensures Rooted(hs, g, Walk(hs, hash, k).value)
    decreases k
  {
    WalkIsAncestor(hs, g, hash, k);
  }

  lemma ZeroIsNoHeader(hs: Store, td: map<Hash, nat>, g: Hash, known: Store)
    requires Recorded(hs, td, g, known)
    ensures 0 !in hs
  {}

  /** A walk of `k` links goes down `k` numbers. */
  lemma {:induction false} WalkNumber(hs: Store, td: map<Hash, nat>, g: Hash, known: Store, h: Hash, k: nat)
    requires Recorded(hs, td, g, known) && h in hs && k <= hs[h].number && Walk(hs, h, k).Some?
    ensures var r := Walk(hs, h, k).value; r != 0 && (r in hs ==> hs[r].number == hs[h].number - k)
    decreases k
  {
    assert Rooted(known, g, h);
    if k > 0 {
      var p := hs[h].parent;
      if p in hs {
        WalkNumber(hs, td, g, known, p, k - 1);
      } else {
        assert k == 1;
      }
    }
  }

  lemma CanonicalBelow(hs: Store, g: Hash, canon: map<nat, Hash>, cur: Hash, m: nat, n: nat)
    requires Canonical(hs, g, canon, cur) && m <= n && n in canon
    ensures m in canon
  {}

  lemma CanonicalNumber(hs: Store, td: map<Hash, nat>, g: Hash, known: Store, canon: map<nat, Hash>, cur: Hash)
    requires Recorded(hs, td, g, known) && Canonical(hs, g, canon, cur)
    ensures forall n :: n in canon ==> canon[n] in hs && hs[canon[n]].number == n && canon[n] != 0
  {}
}
