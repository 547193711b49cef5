/** fairnode/verify/verify.go, ValidationFinalBlockHash: the block the votes of a league decide for. */
module FinalVote {
  import opened Basics

  /** The fields of a block header the decision looks at; headers are identified by their hash. */
  datatype Header = Header(hash: Hash, number: nat, difficulty: nat, nonce: nat, coinbase: nat)

  datatype Score = Score(header: Header, count: nat)

  /** Different headers have different hashes. */
  ghost predicate ContentAddressed(votes: seq<Header>) {
    forall u, v :: u in votes && v in votes && u.hash == v.hash ==> u == v
  }

  ghost function CountOf(votes: seq<Header>, hash: Hash): nat {
    if votes == [] then 0
    else CountOf(votes[..|votes| - 1], hash) + if votes[|votes| - 1].hash == hash then 1 else 0
  }

  /** More votes, then higher difficulty, then higher nonce, then higher coinbase. */
  predicate Outranks(a: Score, b: Score) {
    || a.count > b.count
    || (a.count == b.count &&
        (|| a.header.difficulty > b.header.difficulty
         || (a.header.difficulty == b.header.difficulty &&
             (|| a.header.nonce > b.header.nonce
              || (a.header.nonce == b.header.nonce && a.header.coinbase > b.header.coinbase)))))
  }

  /** Neither outranks the other. */
  predicate Ties(a: Score, b: Score) {
    a.count == b.count && a.header.difficulty == b.header.difficulty && a.header.nonce == b.header.nonce &&
    a.header.coinbase == b.header.coinbase
  }

  ghost predicate Scores(votes: seq<Header>, scores: map<Hash, Score>) {
    && (forall i :: 0 <= i < |votes| ==> votes[i].hash in scores)
    && (forall h :: h in scores ==>
        scores[h].header in votes && scores[h].header.hash == h && scores[h].count == CountOf(votes, h))
  }

  ghost predicate Best(scores: map<Hash, Score>, hash: Hash) {
    hash in scores && forall h :: h in scores ==> !Outranks(scores[h], scores[hash])
  }

  lemma {:induction false} CountZero(votes: seq<Header>, hash: Hash)
    requires forall i :: 0 <= i < |votes| ==> votes[i].hash != hash
    ensures CountOf(votes, hash) == 0
  {
    if votes != [] {
      CountZero(votes[..|votes| - 1], hash);
    }
  }

  /** Count the votes for each header. */
  method Count(votes: seq<Header>) returns (scores: map<Hash, Score>)
    ensures Scores(votes, scores)
  {
    scores := map[];
    for i := 0 to |votes|
      invariant Scores(votes[..i], scores)
    {
      scores := AddVote(votes[..i], scores, votes[i]);
      assert votes[..i + 1] == votes[..i] + [votes[i]];
    }
    assert votes[..|votes|] == votes;
  }

  method AddVote(ghost votes: seq<Header>, scores: map<Hash, Score>, vote: Header) returns (r: map<Hash, Score>)
    requires Scores(votes, scores)
    ensures Scores(votes + [vote], r)
  {
    assert (votes + [vote])[..|votes|] == votes;
    if vote.hash in scores {
      r := scores[vote.hash := scores[vote.hash].(count := scores[vote.hash].count + 1)];
    } else {
      CountZero(votes, vote.hash);
      r := scores[vote.hash := Score(vote, 1)];
    }
    forall h | h in r
      ensures r[h].header in votes + [vote] && r[h].header.hash == h && r[h].count == CountOf(votes + [vote], h)
    {
      assert h != vote.hash ==> scores[h].header in votes;
    }
  }

  /** The winner in terms of the votes: one of the headers with the most votes, among those one of the highest
      difficulty, among those one of the highest nonce, among those one of the highest coinbase. */
  ghost predicate Leads(votes: seq<Header>, top: Header) {
    && top in votes
    && (forall v :: v in votes ==> CountOf(votes, v.hash) <= CountOf(votes, top.hash))
    && (forall v :: v in votes && CountOf(votes, v.hash) == CountOf(votes, top.hash) ==> v.difficulty <= top.difficulty)
    && (forall v ::
          v in votes && CountOf(votes, v.hash) == CountOf(votes, top.hash) && v.difficulty == top.difficulty ==>
            v.nonce < top.nonce || (v.nonce == top.nonce && v.coinbase <= top.coinbase))
  }

  lemma BestHasMostVotes(votes: seq<Header>, scores: map<Hash, Score>, hash: Hash)
    requires Scores(votes, scores) && Best(scores, hash)
    ensures forall v :: v in votes ==> CountOf(votes, v.hash) <= CountOf(votes, hash)
  {
    forall v | v in votes
      ensures CountOf(votes, v.hash) <= CountOf(votes, hash)
    {
      assert scores[v.hash].count <= scores[hash].count;
    }
  }

  lemma BestLeads(votes: seq<Header>, scores: map<Hash, Score>, hash: Hash)
    requires Scores(votes, scores) && Best(scores, hash) && ContentAddressed(votes)
    ensures exists top :: Leads(votes, top) && top.hash == hash
  {
    BestHasMostVotes(votes, scores, hash);
    forall v | v in votes
      ensures scores[v.hash].header == v && scores[v.hash].count == CountOf(votes, v.hash)
    {
      assert scores[v.hash].header in votes;
    }
    assert Leads(votes, scores[hash].header);
  }

  lemma ScoresExist(votes: seq<Header>)
    requires ContentAddressed(votes)
    ensures exists scores :: Scores(votes, scores)
  {
    hide CountOf;
    var scores := map v | v in votes :: v.hash := Score(v, CountOf(votes, v.hash));
    assert Scores(votes, scores);
  }

  /** Conversely a header that leads is one the walk may end at. */
  lemma LeaderIsBest(votes: seq<Header>, scores: map<Hash, Score>, top: Header)
    requires Scores(votes, scores) && Leads(votes, top) && ContentAddressed(votes)
    ensures Best(scores, top.hash)
  {
    assert scores[top.hash].header == top;
    forall h | h in scores
      ensures !Outranks(scores[h], scores[top.hash])
    {
      assert scores[h].header in votes;
    }
  }

  /** The winner is one of the headers voted for, and no other outranks it, whatever the order in which the
      map is walked: it has the most votes, and among those leads in difficulty, nonce and coinbase, in that order.
      Without votes it is the zero hash. */
  method FinalBlockHash(votes: seq<Header>) returns (hash: Hash, ghost scores: map<Hash, Score>)
    ensures Scores(votes, scores)
    ensures votes == [] ==> hash == 0
    ensures votes != [] ==> Best(scores, hash)
    ensures forall v :: v in votes ==> CountOf(votes, v.hash) <= CountOf(votes, hash)
    ensures votes != [] && ContentAddressed(votes) ==> exists top :: Leads(votes, top) && top.hash == hash
  {
    var results := Count(votes);
    scores := results;
    if |votes| == 0 {
      return 0, scores;
    }
    assert votes[0].hash in results;
    var left := results.Keys;
    hash :| hash in left;
    left := left - {hash};
    while left != {}
      invariant hash in results && left <= results.Keys
      invariant forall h :: h in results && h !in left ==> !Outranks(results[h], results[hash])
    {
      var h :| h in left;
      if Outranks(results[h], results[hash]) {
        hash := h;
      }
      left := left - {h};
    }
    BestHasMostVotes(votes, scores, hash);
    if ContentAddressed(votes) {
      BestLeads(votes, scores, hash);
    }
  }

  /** If no header ties with the winner on all four fields, the decision is the same for every order of the
      map and for every order of the votes. */
  lemma DecisionIsUnique(votes: seq<Header>, other: seq<Header>, scores: map<Hash, Score>, others: map<Hash, Score>,
                         a: Hash, b: Hash)
    requires multiset(votes) == multiset(other) && ContentAddressed(votes) && Scores(votes, scores) &&
             Scores(other, others)
    requires Best(scores, a) && Best(others, b)
    requires forall h :: h in scores && Ties(scores[h], scores[a]) ==> h == a
    ensures a == b
  {
    SameScores(votes, other, scores, others);
    assert !Outranks(scores[a], scores[b]) && !Outranks(scores[b], scores[a]);
    assert Ties(scores[b], scores[a]);
  }

  /** Otherwise the walk decides: every header that ties with the winner could have won as well. */
  lemma TiedAreBest(scores: map<Hash, Score>, a: Hash, b: Hash)
    requires Best(scores, a) && b in scores && Ties(scores[b], scores[a])
    ensures Best(scores, b)
  {
    forall h | h in scores
      ensures !Outranks(scores[h], scores[b])
    {
      assert !Outranks(scores[h], scores[a]);
    }
  }

  lemma SameScores(votes: seq<Header>, other: seq<Header>, scores: map<Hash, Score>, others: map<Hash, Score>)
    requires multiset(votes) == multiset(other) && ContentAddressed(votes) && Scores(votes, scores) &&
             Scores(other, others)
    ensures scores == others
  {
    SameVotes(votes, other);
    SameVotes(other, votes);
    forall h | h in scores
      ensures h in others && scores[h] == others[h]
    {
      SameScoreAt(votes, other, scores, others, h);
    }
    forall h | h in others
      ensures h in scores
    {
      SameScoreAt(other, votes, others, scores, h);
    }
  }

  lemma SameVotes(votes: seq<Header>, other: seq<Header>)
    requires multiset(votes) == multiset(other)
    ensures forall v :: v in votes ==> v in other
  {
    forall v | v in votes
      ensures v in other
    {
      assert v in multiset(votes);
    }
  }

  lemma SameScoreAt(votes: seq<Header>, other: seq<Header>, scores: map<Hash, Score>, others: map<Hash, Score>, h: Hash)
    requires multiset(votes) == multiset(other) && ContentAddressed(votes) && Scores(votes, scores) &&
             Scores(other, others)
    requires h in scores && (forall v :: v in votes ==> v in other) && (forall v :: v in other ==> v in votes)
    ensures h in others && scores[h] == others[h]
  {
    var header := scores[h].header;
    var i :| 0 <= i < |other| && other[i] == header;
    assert others[h].header in votes;
    CountIsMultiplicity(votes, header);
    CountIsMultiplicity(other, header);
  }

  lemma {:induction false} CountIsMultiplicity(votes: seq<Header>, header: Header)
    requires forall v :: v in votes && v.hash == header.hash ==> v == header
    ensures CountOf(votes, header.hash) == multiset(votes)[header]
  {
    if votes != [] {
      var before := votes[..|votes| - 1];
      assert votes == before + [votes[|votes| - 1]];
      CountIsMultiplicity(before, header);
    }
  }

  // ---------- what the source's comment promises ----------

  predicate SameButCoinbase(a: Score, b: Score) {
    a.count == b.count && a.header.difficulty == b.header.difficulty && a.header.nonce == b.header.nonce
  }

  /** The promised order: like Outranks, but at odd heights the smaller coinbase comes first. */
  predicate PromisedOutranks(a: Score, b: Score) {
    if SameButCoinbase(a, b) && b.header.number % 2 == 1 then a.header.coinbase < b.header.coinbase else Outranks(a, b)
  }

  ghost predicate PromisedBest(scores: map<Hash, Score>, hash: Hash) {
    hash in scores && forall h :: h in scores ==> !PromisedOutranks(scores[h], scores[hash])
  }

  /** The winner is the promised one exactly if the height is even or no header with another coinbase equals the
      winner in votes, difficulty and nonce. */
  lemma PromiseKeptExactly(scores: map<Hash, Score>, winner: Hash, number: nat)
    requires Best(scores, winner) && forall h :: h in scores ==> scores[h].header.number == number
    ensures PromisedBest(scores, winner) <==>
              number % 2 == 0 ||
              forall h :: h in scores && SameButCoinbase(scores[h], scores[winner]) ==>
                scores[h].header.coinbase == scores[winner].header.coinbase
  {
    var w := scores[winner];
    if number % 2 == 1 {
      if PromisedBest(scores, winner) {
        forall h | h in scores && SameButCoinbase(scores[h], w)
          ensures scores[h].header.coinbase == w.header.coinbase
        {
          assert !Outranks(scores[h], w) && !PromisedOutranks(scores[h], w);
        }
      }
    }
    if number % 2 == 0 || forall h :: h in scores && SameButCoinbase(scores[h], w) ==>
                                     scores[h].header.coinbase == w.header.coinbase {
      forall h | h in scores
        ensures !PromisedOutranks(scores[h], w)
      {
        assert !Outranks(scores[h], w);
      }
    }
  }

  /** Two headers at an odd height that differ only in their coinbase: the larger one wins, the smaller one was
      promised to. */
  lemma PromiseBroken()
    ensures var small, large := Header(1, 7, 5, 3, 8), Header(2, 7, 5, 3, 9);
            var scores := map[1 := Score(small, 1), 2 := Score(large, 1)];
            && Scores([small, large], scores) && Best(scores, 2)
            && !PromisedBest(scores, 2) && PromisedBest(scores, 1)
  {
    var small, large := Header(1, 7, 5, 3, 8), Header(2, 7, 5, 3, 9);
    var scores := map[1 := Score(small, 1), 2 := Score(large, 1)];
    assert [small, large][..1] == [small];
    assert CountOf([small, large], 1) == CountOf([small], 1) == 1;
    assert CountOf([small, large], 2) == CountOf([small], 2) + 1 == 1;
    assert PromisedOutranks(scores[1], scores[2]);
  }
}
