/** fairnode/fairnode.go and fairnode/rpc_server.go: the leading fairnode. A ticker moves the current league
    through its statuses while nodes vote, send the block they agreed on and ask for signatures. */
module Fairnodes {
  import opened Basics
  import opened FinalVote

  const SEND_BLOCK_TIME_OUT: nat := 50
  const LEAGUE_WAIT_TIME_OUT: nat := 25

  datatype Status =
    | Pending
    | MakeLeague
    | MakeJoinTx
    | MakeBlock
    | LeagueBroadcasting
    | VoteStart
    | VoteCounting
    | VoteComplete
    | SendBlock
    | ReqFairnodeSign
    | Finalize
    | Reject

  datatype League = League(epoch: Uint64, minMiner: nat, status: Status, current: nat, blockHash: Option<Hash>,
                           voteHash: Option<Hash>)

  datatype Block = Block(hash: Hash, number: nat, otprn: Hash, voterHash: Hash)

  /** A signature over a block hash and a vote hash, given in a league for a height. */
  datatype Signed = Signed(league: Hash, height: nat, blockHash: Hash, voteHash: Hash)

  /** A new OTPRN: its hash and the chain configuration it carries. */
  datatype Otprn = Otprn(hash: Hash, epoch: Uint64, minMiner: nat)

  /** What happens to the fairnode. Every tick that may prepare a league brings its own OTPRN. */
  datatype Event =
    | Ticked(leagueNodes: nat, activeNodes: nat, otprn: Otprn)
    | OtprnMade(activeNodes: nat, otprn: Otprn)
    | Voted(league: Hash, header: Header)
    | BlockSent(block: Block)
    | SignRequested(league: Hash, blockHash: Hash, voteHash: Hash)

  ghost function Brings(e: Event): set<Hash> {
    if e.Ticked? || e.OtprnMade? then {e.otprn.hash} else {}
  }

  /** Hashes identify contents. */
  ghost predicate WellFormed(e: Event, numberOf: Hash -> nat) {
    match e
    case Voted(_, header) => numberOf(header.hash) == header.number
    case BlockSent(block) => numberOf(block.hash) == block.number && block.hash != 0
    case _ => true
  }

  /** The OTPRN an event brings does not make the hand-off panic. */
  predicate Unhurried(e: Event) {
    e.Ticked? || e.OtprnMade? ==> !Panics(e.otprn.epoch)
  }

  type Votes = map<(Hash, nat), seq<Header>>

  /** The order of the statuses. A league may wait where it is or be rejected; a final block leads back to the
      join transactions of the next height. */
  predicate Moves(s: Status, t: Status) {
    match s
    case Pending => t in {Pending, MakeLeague, Reject}
    case MakeLeague => t == MakeJoinTx
    case MakeJoinTx => t == MakeBlock
    case MakeBlock => t == LeagueBroadcasting
    case LeagueBroadcasting => t == VoteStart
    case VoteStart => t == VoteCounting
    case VoteCounting => t in {VoteComplete, Reject}
    case VoteComplete => t == SendBlock
    case SendBlock => t in {SendBlock, ReqFairnodeSign, Reject}
    case ReqFairnodeSign => t == Finalize
    case Finalize => t in {MakeJoinTx, Reject}
    case Reject => false
  }

  /** The status that follows when nothing has to be decided. */
  function Next(s: Status): Option<Status> {
    match s
    case MakeLeague => Some(MakeJoinTx)
    case MakeJoinTx => Some(MakeBlock)
    case MakeBlock => Some(LeagueBroadcasting)
    case LeagueBroadcasting => Some(VoteStart)
    case VoteStart => Some(VoteCounting)
    case VoteComplete => Some(SendBlock)
    case ReqFairnodeSign => Some(Finalize)
    case _ => None
  }

  // ---------- epochs ----------

  /** Half an epoch as the hand-off after a final block computes it: the epoch is read as a signed 64-bit number,
      and the division truncates towards zero. */
  function HalfEpoch(epoch: Uint64): int {
    var e := AsInt64(epoch);
    if e >= 0 then e / 2 else -(-e / 2)
  }

  /** The hand-off divides by zero. */
  predicate Panics(epoch: Uint64) {
    epoch != 0 && HalfEpoch(epoch) == 0
  }

  /** That happens for exactly two epochs. */
  lemma PanicsExactly(epoch: Uint64)
    ensures Panics(epoch) <==> epoch == 1 || epoch == MAX_UINT64
  {}

  lemma PanicsAtOne()
    ensures Panics(1)
  {}

  lemma PanicsAtMinusOne()
    ensures Panics(MAX_UINT64)
  {}

  /** A pending league is made at the half of an epoch, which ends the league when it is over. */
  predicate Halfway(epoch: Uint64, height: nat) {
    epoch != 0 && !Panics(epoch) && height % HalfEpoch(epoch) == 0
  }

  /** For epochs below 2^63 the half is the half. */
  lemma HalfwayExactly(epoch: Uint64, height: nat)
    requires 2 <= epoch < TWO63
    ensures Halfway(epoch, height) <==> height % (epoch / 2) == 0
  {}

  ghost predicate Calm(leagues: map<Hash, League>) {
    forall h :: h in leagues ==> !Panics(leagues[h].epoch)
  }

  /** No league changes its epoch, and none is new. */
  ghost predicate SameEpochs(before: map<Hash, League>, after: map<Hash, League>) {
    forall h :: h in after ==> h in before && after[h].epoch == before[h].epoch
  }

  lemma SameEpochsUpdate(leagues: map<Hash, League>, h: Hash, m: League)
    requires h in leagues && m.epoch == leagues[h].epoch
    ensures SameEpochs(leagues, leagues[h := m])
  {}

  lemma SameInherited(before: map<Hash, League>, after: map<Hash, League>, otprn: Otprn)
    requires SameEpochs(before, after)
    ensures Inherited(before, after, otprn)
  {}

  lemma SameEpochsNothing(leagues: map<Hash, League>)
    ensures SameEpochs(leagues, leagues)
  {}

  lemma InheritedCalm(before: map<Hash, League>, after: map<Hash, League>, otprn: Otprn)
    requires Calm(before) && Inherited(before, after, otprn) && !Panics(otprn.epoch)
    ensures Calm(after)
  {}

  lemma CalmAt(leagues: map<Hash, League>, current: Option<Hash>, pending: Option<Hash>)
    requires Slots(leagues, current, pending) && Calm(leagues)
    ensures current.Some? ==> current.value in leagues && !Panics(leagues[current.value].epoch)
  {}

  /** Every league keeps its epoch; the only new one is that of the OTPRN. */
  ghost predicate Inherited(before: map<Hash, League>, after: map<Hash, League>, otprn: Otprn) {
    forall h :: h in after ==>
      (h in before && after[h].epoch == before[h].epoch) || (h == otprn.hash && after[h].epoch == otprn.epoch)
  }

  lemma KeepsEpochs(before: map<Hash, League>, after: map<Hash, League>)
    requires forall h :: h in after ==> h in before && after[h].epoch == before[h].epoch
    ensures SameEpochs(before, after)
  {}

  lemma InheritedLater(before: map<Hash, League>, mid: map<Hash, League>, after: map<Hash, League>, otprn: Otprn)
    requires SameEpochs(before, mid) && Inherited(mid, after, otprn)
    ensures Inherited(before, after, otprn)
  {}

  lemma InheritedNew(leagues: map<Hash, League>, otprn: Otprn, l: League)
    requires l.epoch == otprn.epoch
    ensures Inherited(leagues, leagues[otprn.hash := l], otprn) && Inherited(leagues, leagues, otprn)
  {}

  // ---------- the league map ----------

  ghost function Held(o: Option<Hash>): set<Hash> {
    if o.Some? then {o.value} else {}
  }

  /** The league map holds exactly the current and the pending league. */
  ghost predicate Slots(leagues: map<Hash, League>, current: Option<Hash>, pending: Option<Hash>) {
    && leagues.Keys == Held(current) + Held(pending)
    && (pending.Some? ==> current.Some? && current != pending)
    && (pending.Some? ==> Unstarted(leagues[pending.value]))
  }

  predicate Unstarted(l: League) {
    l.status == Pending && l.blockHash.None? && l.voteHash.None?
  }

  // ---------- the two hashes ----------

  predicate Decided(s: Status) {
    s in {VoteComplete, SendBlock, ReqFairnodeSign, Finalize}
  }

  /** The statuses in which the decided block is collected and signed. */
  predicate Completing(s: Status) {
    s in {VoteComplete, SendBlock, ReqFairnodeSign}
  }

  /** The block hash and the vote hash are set while the block is being completed, and not before. */
  predicate HashesFit(l: League) {
    && (Decided(l.status) ==> l.blockHash.Some? && l.voteHash.Some?)
    && (!Decided(l.status) && l.status != Reject ==> l.blockHash.None? && l.voteHash.None?)
  }

  // ---------- the database ----------

  /** The final blocks follow one another without a gap; a block's hash determines its number. */
  ghost predicate Consecutive(chain: seq<Block>, numberOf: Hash -> nat) {
    && (forall i :: 0 <= i < |chain| ==> chain[i].number == numberOf(chain[i].hash) && chain[i].hash != 0)
    && (forall i, j :: 0 <= i < j < |chain| ==> chain[j].number == chain[i].number + j - i)
  }

  function Height(chain: seq<Block>): nat {
    if chain == [] then 0 else chain[|chain| - 1].number
  }

  function LastNumber(last: Option<Block>): nat {
    if last.Some? then last.value.number else 0
  }

  function Last(chain: seq<Block>): Option<Block> {
    if chain == [] then None else Some(chain[|chain| - 1])
  }

  predicate Saved(chain: seq<Block>, hash: Hash) {
    exists i :: 0 <= i < |chain| && chain[i].hash == hash
  }

  /** At most one final block per height. */
  lemma OneBlockPerHeight(chain: seq<Block>, numberOf: Hash -> nat, i: nat, j: nat)
    requires Consecutive(chain, numberOf) && i < |chain| && j < |chain| && chain[i].number == chain[j].number
    ensures i == j
  {}

  /** The decided block is on top of the chain. */
  predicate OnTop(l: League, chain: seq<Block>) {
    chain != [] && l.blockHash == Some(chain[|chain| - 1].hash) && chain[|chain| - 1].number == l.current + 1
  }

  /** How the current league stands to the final blocks: it works on the next height, and has its block in the
      database from the moment it asks for signatures. */
  ghost predicate Follows(l: League, chain: seq<Block>, last: Option<Block>, numberOf: Hash -> nat) {
    && HashesFit(l) && (chain == [] ==> last.None?)
    && (Decided(l.status) ==> l.blockHash.value == 0 || numberOf(l.blockHash.value) == l.current + 1)
    && match l.status
       case ReqFairnodeSign | Finalize => OnTop(l, chain)
       case SendBlock => OnTop(l, chain) || (Height(chain) == l.current && last == Last(chain))
       case Reject => true
       case _ => Height(chain) == l.current && last == Last(chain)
  }

  /** A block found in the database while it is waited for is the last one. */
  lemma SavedIsOnTop(l: League, chain: seq<Block>, last: Option<Block>, numberOf: Hash -> nat)
    requires Consecutive(chain, numberOf) && Follows(l, chain, last, numberOf)
    requires l.status == SendBlock && Saved(chain, l.blockHash.value)
    ensures OnTop(l, chain)
  {
    var i :| 0 <= i < |chain| && chain[i].hash == l.blockHash.value;
  }

  /** A finished league has its block on top. */
  lemma FinalIsOnTop(l: League, chain: seq<Block>, last: Option<Block>, numberOf: Hash -> nat)
    requires Follows(l, chain, last, numberOf) && l.status == Finalize
    ensures chain != [] && Height(chain) == l.current + 1
  {}

  lemma DecidedHasHashes(l: League, chain: seq<Block>, last: Option<Block>, numberOf: Hash -> nat)
    requires Follows(l, chain, last, numberOf) && Decided(l.status)
    ensures l.blockHash.Some? && l.voteHash.Some?
  {}

  lemma FollowsEmpty(l: League, chain: seq<Block>, last: Option<Block>, numberOf: Hash -> nat)
    requires Follows(l, chain, last, numberOf) && chain == []
    ensures last.None?
  {}

  /** A league without a decision that works on the next height. */
  lemma Undecided(l: League, chain: seq<Block>, last: Option<Block>, numberOf: Hash -> nat)
    requires l.status in {Pending, MakeJoinTx, Reject} && l.blockHash.None? && l.voteHash.None?
    requires l.current == Height(chain) && last == Last(chain)
    ensures Follows(l, chain, last, numberOf)
  {}

  /** The block the league waits for follows the final ones. */
  lemma Appended(l: League, chain: seq<Block>, last: Option<Block>, numberOf: Hash -> nat, block: Block)
    requires Consecutive(chain, numberOf) && Follows(l, chain, last, numberOf) && l.status == SendBlock
    requires block.number == numberOf(block.hash) && block.hash != 0 && l.blockHash == Some(block.hash)
    ensures block.number == l.current + 1
    ensures !Saved(chain, block.hash) ==>
              Consecutive(chain + [block], numberOf) && Follows(l, chain + [block], last, numberOf)
  {
    assert OnTop(l, chain) ==> Saved(chain, block.hash);
  }

  // ---------- votes ----------

  ghost predicate VotesFit(votes: Votes, numberOf: Hash -> nat) {
    forall key, v :: key in votes && v in votes[key] ==> v.number == key.1 == numberOf(v.hash)
  }

  function VotersFor(votes: Votes, otprn: Hash, number: nat): seq<Header> {
    if (otprn, number) in votes then votes[(otprn, number)] else []
  }

  /** No header voted for outranks this one. */
  ghost predicate Elected(voters: seq<Header>, hash: Hash) {
    if voters == [] then hash == 0 else exists scores :: Scores(voters, scores) && Best(scores, hash)
  }

  /** In terms of the votes: exactly the hashes of the headers that lead in votes, then difficulty, then nonce, then
      coinbase. */
  lemma ElectedLeads(voters: seq<Header>, hash: Hash)
    requires voters != [] && ContentAddressed(voters)
    ensures Elected(voters, hash) <==> exists top :: Leads(voters, top) && top.hash == hash
  {
    hide Scores, Best, Leads, ContentAddressed;
    if Elected(voters, hash) {
      var scores :| Scores(voters, scores) && Best(scores, hash);
      BestLeads(voters, scores, hash);
    }
    if top :| Leads(voters, top) && top.hash == hash {
      ScoresExist(voters);
      var scores :| Scores(voters, scores);
      LeaderIsBest(voters, scores, top);
    }
  }

  // ---------- signatures ----------

  /** Within one league at most one pair of hashes is signed per height. */
  ghost predicate OneSignature(signed: set<Signed>) {
    forall a, b :: a in signed && b in signed && a.league == b.league && a.height == b.height ==> a == b
  }

  /** What a league has signed is below the height it works on, or is the pair it has decided for. */
  ghost predicate Within(s: Signed, l: League) {
    s.height <= l.current ||
      (s.height == l.current + 1 && l.blockHash == Some(s.blockHash) && l.voteHash == Some(s.voteHash))
  }

  ghost predicate Bounded(signed: set<Signed>, used: set<Hash>, leagues: map<Hash, League>, pending: Option<Hash>) {
    && (forall s :: s in signed ==> s.league in used && Some(s.league) != pending)
    && (forall s :: s in signed && s.league in leagues ==> Within(s, leagues[s.league]))
    && leagues.Keys <= used
  }

  /** The pair of a height may be set once, kept, or given up by going to a higher one. */
  predicate Progresses(l: League, m: League) {
    || m.current > l.current
    || (m.current == l.current && m.blockHash == l.blockHash && m.voteHash == l.voteHash)
    || (m.current == l.current && l.blockHash.None?)
  }

  lemma BoundedStep(signed: set<Signed>, used: set<Hash>, leagues: map<Hash, League>, pending: Option<Hash>, h: Hash,
                    m: League)
    requires Bounded(signed, used, leagues, pending) && h in leagues && Progresses(leagues[h], m)
    ensures Bounded(signed, used, leagues[h := m], pending)
  {
    forall s | s in signed && s.league in leagues[h := m]
      ensures Within(s, leagues[h := m][s.league])
    {
      assert Within(s, leagues[s.league]);
    }
  }

  lemma BoundedNew(signed: set<Signed>, used: set<Hash>, leagues: map<Hash, League>, pending: Option<Hash>, h: Hash,
                   m: League, pending': Option<Hash>)
    requires Bounded(signed, used, leagues, pending) && h !in used && (pending' == pending || pending' == Some(h))
    ensures Bounded(signed, used + {h}, leagues[h := m], pending')
  {
    forall s | s in signed
      ensures s.league in used && s.league != h
    {
    }
    forall s | s in signed && s.league in leagues[h := m]
      ensures Within(s, leagues[h := m][s.league])
    {
      assert Within(s, leagues[s.league]);
    }
  }

  /** The pending league, which has signed nothing, takes the place of the rejected one. */
  lemma BoundedPromote(signed: set<Signed>, used: set<Hash>, leagues: map<Hash, League>, h: Hash, p: Hash, m: League)
    requires Bounded(signed, used, leagues, Some(p)) && p in leagues && p != h
    ensures Bounded(signed, used, (leagues - {h})[p := m], None)
  {
    forall s | s in signed && s.league in (leagues - {h})[p := m]
      ensures Within(s, (leagues - {h})[p := m][s.league])
    {
      assert Some(s.league) != Some(p);
      assert Within(s, leagues[s.league]);
    }
  }

  lemma BoundedDrop(signed: set<Signed>, used: set<Hash>, leagues: map<Hash, League>, pending: Option<Hash>, h: Hash)
    requires Bounded(signed, used, leagues, pending)
    ensures Bounded(signed, used, leagues - {h}, pending)
  {
    forall s | s in signed && s.league in leagues - {h}
      ensures Within(s, (leagues - {h})[s.league])
    {
      assert Within(s, leagues[s.league]);
    }
  }

  /** Signing the decided pair at the height the league works on is safe. */
  lemma SignOnce(signed: set<Signed>, used: set<Hash>, leagues: map<Hash, League>, pending: Option<Hash>, s: Signed)
    requires Bounded(signed, used, leagues, pending) && OneSignature(signed)
    requires s.league in leagues && Some(s.league) != pending
    requires leagues[s.league].blockHash == Some(s.blockHash) && leagues[s.league].voteHash == Some(s.voteHash)
    requires s.height == leagues[s.league].current + 1
    ensures Bounded(signed + {s}, used, leagues, pending) && OneSignature(signed + {s})
  {
    forall a | a in signed && a.league == s.league && a.height == s.height
      ensures a == s
    {
      assert Within(a, leagues[a.league]);
    }
  }

  /** The block a league has decided for and is waiting for. */
  predicate Awaited(leagues: map<Hash, League>, block: Block) {
    block.otprn in leagues && leagues[block.otprn].status == SendBlock &&
    leagues[block.otprn].blockHash == Some(block.hash) && leagues[block.otprn].voteHash == Some(block.voterHash)
  }

  // ---------- the fairnode ----------

  class Fairnode {
    const votersHash: seq<Header> -> Hash
    const numberOf: Hash -> nat

    var leagues: map<Hash, League>
    var currentLeague: Option<Hash>
    var pendingLeague: Option<Hash>
    var lastBlock: Option<Block>
    var minMiner: nat
    var sendBlockAttempt: nat
    var leagueWaitAttempt: nat

    /** A panic in the hand-off has ended the process. */
    var halted: bool

    /** The database: final blocks, the current one last, and the votes of each league and height. */
    var chain: seq<Block>
    var votes: Votes

    /** Every signature given, and every OTPRN ever made. */
    ghost var signed: set<Signed>
    ghost var used: set<Hash>

    ghost predicate Valid()
      reads this
    {
      && Slots(leagues, currentLeague, pendingLeague)
      && Consecutive(chain, numberOf) && VotesFit(votes, numberOf)
      && Bounded(signed, used, leagues, pendingLeague) && OneSignature(signed)
      && (pendingLeague.Some? ==> chain != [])
      && if halted then currentLeague.Some? && leagues[currentLeague.value].status == Finalize
         else if currentLeague.Some? then Follows(leagues[currentLeague.value], chain, lastBlock, numberOf)
         else lastBlock == Last(chain)
    }

    ghost predicate Running()
      reads this
    {
      Valid() && !halted
    }

    /** A fairnode starting on the final blocks found in the database. */
    constructor (chain: seq<Block>, votersHash: seq<Header> -> Hash, numberOf: Hash -> nat)
      requires Consecutive(chain, numberOf)
      ensures Running() && this.chain == chain && signed == {} && currentLeague.None?
    {
      this.votersHash, this.numberOf, this.chain := votersHash, numberOf, chain;
      leagues, currentLeague, pendingLeague, votes := map[], None, None, map[];
      minMiner, sendBlockAttempt, leagueWaitAttempt, halted := 0, 0, 0, false;
      signed, used := {}, {};
      lastBlock := Last(chain);
    }

    /** newOtprn with addLeague. OTPRN hashes never repeat. */
    method NewOtprn(isCurrent: bool, activeNodes: nat, otprn: Otprn) returns (ok: bool)
      requires Running() && otprn.hash !in used && (!isCurrent ==> currentLeague.Some? && chain != [])
      modifies this`leagues, this`currentLeague, this`pendingLeague, this`used
      ensures Running() && currentLeague.Some? == (old(currentLeague).Some? || (isCurrent && ok))
      ensures used <= old(used) + {otprn.hash}
      ensures ok == (activeNodes >= otprn.minMiner &&
                     if isCurrent then old(currentLeague).None? else old(pendingLeague).None?)
      ensures !ok ==>
                leagues == old(leagues) && currentLeague == old(currentLeague) && pendingLeague == old(pendingLeague)
      ensures ok ==> leagues == old(leagues)[otprn.hash := League(otprn.epoch, otprn.minMiner, Pending,
                                                                  LastNumber(lastBlock), None, None)]
      ensures ok ==> currentLeague == (if isCurrent then Some(otprn.hash) else old(currentLeague)) &&
                     pendingLeague == if isCurrent then old(pendingLeague) else Some(otprn.hash)
    {
      hide Bounded, Consecutive, VotesFit, OneSignature, Follows;
      if activeNodes < otprn.minMiner {
        return false;
      }
      if (isCurrent && currentLeague.Some?) || (!isCurrent && pendingLeague.Some?) {
        return false;
      }
      var l := League(otprn.epoch, otprn.minMiner, Pending, LastNumber(lastBlock), None, None);
      if isCurrent {
        Undecided(l, chain, lastBlock, numberOf);
      }
      NewInUse(signed, used, leagues, pendingLeague, otprn.hash);
      BoundedNew(signed, used, leagues, pendingLeague, otprn.hash, l,
                 if isCurrent then pendingLeague else Some(otprn.hash));
      if isCurrent {
        currentLeague := Some(otprn.hash);
      } else {
        pendingLeague := Some(otprn.hash);
      }
      leagues := leagues[otprn.hash := l];
      used := used + {otprn.hash};
      return true;
    }

    /** Change the current league in a way that keeps what has been signed. */
    method Update(m: League)
      requires Running() && currentLeague.Some? && m.epoch == leagues[currentLeague.value].epoch
      requires Progresses(leagues[currentLeague.value], m) && Follows(m, chain, lastBlock, numberOf)
      modifies this`leagues
      ensures Running() && leagues == old(leagues)[currentLeague.value := m] && SameEpochs(old(leagues), leagues)
    {
      hide Bounded, Consecutive, VotesFit, OneSignature, Progresses, Follows, SameEpochs;
      SameEpochsUpdate(leagues, currentLeague.value, m);
      BoundedStep(signed, used, leagues, pendingLeague, currentLeague.value, m);
      leagues := leagues[currentLeague.value := m];
    }

    /** The statuses that only wait; MakeJoinTx also takes over the height of the last block. */
    method Advance()
      requires Running() && currentLeague.Some? && Next(leagues[currentLeague.value].status).Some?
      modifies this`leagues
      ensures Running() && SameEpochs(old(leagues), leagues)
      ensures leagues == old(leagues)[currentLeague.value := old(leagues[currentLeague.value]).(
                           status := Next(old(leagues[currentLeague.value]).status).value)]
    {
      hide Bounded, Consecutive, VotesFit, OneSignature, SameEpochs;
      var l := leagues[currentLeague.value];
      if l.status == MakeJoinTx && lastBlock.Some? {
        l := l.(current := lastBlock.value.number);
      }
      Update(l.(status := Next(l.status).value));
    }

    /** Enough nodes are waited for. */
    method AwaitNodes(leagueNodes: nat)
      requires Running() && currentLeague.Some? && leagues[currentLeague.value].status == Pending
      modifies this`leagues, this`minMiner, this`leagueWaitAttempt
      ensures Running() && minMiner == old(leagues[currentLeague.value]).minMiner && SameEpochs(old(leagues), leagues)
      ensures leagues == old(leagues)[currentLeague.value := old(leagues[currentLeague.value]).(
                           status := if leagueNodes >= minMiner then MakeLeague
                                     else if old(leagueWaitAttempt) < LEAGUE_WAIT_TIME_OUT then Pending else Reject)]
      ensures leagueWaitAttempt ==
                if leagues[currentLeague.value].status == Pending then old(leagueWaitAttempt) + 1 else 0
    {
      hide Bounded, Consecutive, VotesFit, OneSignature, SameEpochs;
      SameEpochsNothing(leagues);
      var l := leagues[currentLeague.value];
      minMiner := l.minMiner;
      if leagueNodes >= minMiner {
        Update(l.(status := MakeLeague));
      } else {
        leagueWaitAttempt := leagueWaitAttempt + 1;
        if leagueWaitAttempt <= LEAGUE_WAIT_TIME_OUT {
          assert leagues == leagues[currentLeague.value := l];
          return;
        }
        Update(l.(status := Reject));
      }
      leagueWaitAttempt := 0;
    }

    /** The votes for the next height decide the block, if there are enough of them: one less than the least number of
        miners, in 64-bit arithmetic. No other block has more votes. */
    method CountVotes()
      requires Running() && currentLeague.Some? && leagues[currentLeague.value].status == VoteCounting
      modifies this`leagues
      ensures Running() && leagues == old(leagues)[currentLeague.value := leagues[currentLeague.value]]
      ensures SameEpochs(old(leagues), leagues)
      ensures var l, m := old(leagues[currentLeague.value]), leagues[currentLeague.value];
              var voters := VotersFor(votes, currentLeague.value, l.current + 1);
              if |voters| + 1 < minMiner || (minMiner == 0 && |voters| < MAX_UINT64) then m == l.(status := Reject)
              else
                && m.blockHash.Some? && Elected(voters, m.blockHash.value)
                && (forall v :: v in voters ==> CountOf(voters, v.hash) <= CountOf(voters, m.blockHash.value))
                && m == l.(status := VoteComplete, blockHash := m.blockHash, voteHash := Some(votersHash(voters)))
    {
      hide Bounded, Consecutive, OneSignature, SameEpochs, ContentAddressed, Leads, CountOf;
      var h := currentLeague.value;
      var l := leagues[h];
      var voters := VotersFor(votes, h, l.current + 1);
      var enough := if minMiner == 0 then MAX_UINT64 else minMiner - 1;
      if |voters| < enough {
        Update(l.(status := Reject));
      } else {
        var blockHash, scores := FinalBlockHash(voters);
        assert voters != [] ==> scores[blockHash].header in voters;
        Update(l.(status := VoteComplete, blockHash := Some(blockHash), voteHash := Some(votersHash(voters))));
      }
    }

    /** The block the votes decided for is waited for. */
    method AwaitBlock()
      requires Running() && currentLeague.Some? && leagues[currentLeague.value].status == SendBlock
      modifies this`leagues, this`sendBlockAttempt
      ensures Running() && SameEpochs(old(leagues), leagues)
      ensures var l := old(leagues[currentLeague.value]);
              l.blockHash.Some? &&
              leagues == old(leagues)[currentLeague.value := l.(
                           status := if Saved(chain, l.blockHash.value) then ReqFairnodeSign
                                     else if old(sendBlockAttempt) < SEND_BLOCK_TIME_OUT then SendBlock else Reject)]
      ensures sendBlockAttempt ==
                if leagues[currentLeague.value].status == SendBlock then old(sendBlockAttempt) + 1 else 0
    {
      hide Bounded, VotesFit, OneSignature, Saved, SameEpochs;
      SameEpochsNothing(leagues);
      var l := leagues[currentLeague.value];
      var hash := l.blockHash.value;
      if Saved(chain, hash) {
        SavedIsOnTop(l, chain, lastBlock, numberOf);
        Update(l.(status := ReqFairnodeSign));
      } else {
        sendBlockAttempt := sendBlockAttempt + 1;
        if sendBlockAttempt <= SEND_BLOCK_TIME_OUT {
          assert leagues == leagues[currentLeague.value := l];
          return;
        }
        Update(l.(status := Reject));
      }
      sendBlockAttempt := 0;
    }

    /** The block is final, and the league goes on with the next height or ends with its epoch. Halfway through an
        epoch the next league is prepared. The source's branch for a missing current block is unreachable: the
        block was found in the database two statuses before. The hand-off panics for exactly two epochs. */
    method Conclude(activeNodes: nat, otprn: Otprn)
      requires Running() && currentLeague.Some? && leagues[currentLeague.value].status == Finalize
      requires otprn.hash !in used
      modifies this`leagues, this`currentLeague, this`pendingLeague, this`lastBlock, this`used, this`halted
      ensures Valid() && currentLeague == old(currentLeague) && used <= old(used) + {otprn.hash}
      ensures lastBlock == Last(chain) && Inherited(old(leagues), leagues, otprn)
      ensures var l := old(leagues[currentLeague.value]);
              var next := l.current + 1;
              var over := Halfway(l.epoch, next) && next % l.epoch == 0;
              && halted == Panics(l.epoch)
              && leagues[currentLeague.value] ==
                   l.(current := next, blockHash := None, voteHash := None,
                      status := if halted then Finalize else if over then Reject else MakeJoinTx)
              && pendingLeague ==
                   if Halfway(l.epoch, next) && !over && activeNodes >= otprn.minMiner && old(pendingLeague).None?
                   then Some(otprn.hash) else old(pendingLeague)
    {
      hide Bounded, Consecutive, VotesFit, OneSignature, Halfway, Panics, Follows, Inherited, SameEpochs;
      var l := leagues[currentLeague.value];
      FinalIsOnTop(l, chain, lastBlock, numberOf);
      var block := chain[|chain| - 1];
      l := l.(current := block.number, voteHash := None, blockHash := None);
      lastBlock := Some(block);
      BoundedStep(signed, used, leagues, pendingLeague, currentLeague.value, l);
      SameEpochsUpdate(leagues, currentLeague.value, l);
      leagues := leagues[currentLeague.value := l];
      ghost var mid := leagues;
      HandOff(activeNodes, otprn);
      InheritedLater(old(leagues), mid, leagues, otprn);
    }

    /** The hand-off to the goroutine that makes leagues. A block is final, so the height is not 0 and the source's
        test for that is never met. */
    method HandOff(activeNodes: nat, otprn: Otprn)
      requires Slots(leagues, currentLeague, pendingLeague) && Consecutive(chain, numberOf) && VotesFit(votes, numberOf)
      requires Bounded(signed, used, leagues, pendingLeague) && OneSignature(signed) && chain != [] && !halted
      requires currentLeague.Some? && lastBlock == Last(chain) && otprn.hash !in used
      requires var l := leagues[currentLeague.value];
               l.status == Finalize && l.blockHash.None? && l.voteHash.None? && 0 < l.current == Height(chain)
      modifies this`leagues, this`currentLeague, this`pendingLeague, this`used, this`halted
      ensures Valid() && currentLeague == old(currentLeague) && used <= old(used) + {otprn.hash}
      ensures Inherited(old(leagues), leagues, otprn)
      ensures var l := old(leagues[currentLeague.value]);
              var over := Halfway(l.epoch, l.current) && l.current % l.epoch == 0;
              && halted == Panics(l.epoch)
              && leagues[currentLeague.value] ==
                   l.(status := if halted then Finalize else if over then Reject else MakeJoinTx)
              && pendingLeague ==
                   if Halfway(l.epoch, l.current) && !over && activeNodes >= otprn.minMiner && old(pendingLeague).None?
                   then Some(otprn.hash) else old(pendingLeague)
    {
      hide Bounded, Consecutive, VotesFit, OneSignature, Halfway, Panics, Follows, Inherited, SameEpochs;
      var l := leagues[currentLeague.value];
      SameEpochsNothing(leagues);
      SameInherited(leagues, leagues, otprn);
      var panics, over, prepare := AtHalf(l.epoch, l.current);
      if panics {
        halted := true;
        return;
      }
      var m := l.(status := if over then Reject else MakeJoinTx);
      Undecided(m, chain, lastBlock, numberOf);
      BoundedStep(signed, used, leagues, pendingLeague, currentLeague.value, m);
      SameEpochsUpdate(leagues, currentLeague.value, m);
      leagues := leagues[currentLeague.value := m];
      ghost var mid := leagues;
      SameEpochsNothing(mid);
      SameInherited(mid, mid, otprn);
      if prepare {
        NewInUse(signed, used, leagues, pendingLeague, otprn.hash);
        var made := NewOtprn(false, activeNodes, otprn);
        if made {
          InheritedNew(mid, otprn, leagues[otprn.hash]);
        }
      }
      InheritedLater(old(leagues), mid, leagues, otprn);
    }

    /** Where the height stands in the epoch. */
    static method AtHalf(epoch: Uint64, height: nat) returns (panics: bool, over: bool, prepare: bool)
      ensures panics == Panics(epoch) && over == (Halfway(epoch, height) && height % epoch == 0)
      ensures prepare == (Halfway(epoch, height) && !over) && (panics ==> !over && !prepare)
    {
      panics, over, prepare := false, false, false;
      if epoch != 0 {
        var half := HalfEpoch(epoch);
        if half == 0 {
          panics := true;
        } else if height % half == 0 {
          if height % epoch == 0 {
            over := true;
          } else {
            prepare := true;
          }
        }
      }
    }

    /** A rejected league is deleted, and the pending one takes its place. */
    method Replace()
      requires Running() && currentLeague.Some? && leagues[currentLeague.value].status == Reject
      modifies this`leagues, this`currentLeague, this`pendingLeague, this`lastBlock
      ensures Running() && pendingLeague.None? && currentLeague == old(pendingLeague)
      ensures old(currentLeague).value !in leagues && lastBlock == Last(chain) && SameEpochs(old(leagues), leagues)
      ensures currentLeague.Some? ==>
                leagues == map[currentLeague.value := old(leagues[pendingLeague.value]).(current := Height(chain))]
    {
      hide Bounded, Consecutive, VotesFit, OneSignature, Follows, SameEpochs;
      var cur := currentLeague.value;
      if chain == [] {
        FollowsEmpty(leagues[cur], chain, lastBlock, numberOf);
      }
      if pendingLeague.Some? {
        var p := pendingLeague.value;
        var l := leagues[p].(current := chain[|chain| - 1].number);
        Undecided(l, chain, Last(chain), numberOf);
        BoundedPromote(signed, used, leagues, cur, p, l);
        leagues := (leagues - {cur})[p := l];
        currentLeague, pendingLeague := pendingLeague, None;
      } else {
        BoundedDrop(signed, used, leagues, pendingLeague, cur);
        leagues := leagues - {cur};
        currentLeague := None;
      }
      if chain != [] {
        lastBlock := Some(chain[|chain| - 1]);
      }
      KeepsEpochs(old(leagues), leagues);
    }

    /** A tick in any status but Finalize. */
    method Work(leagueNodes: nat)
      requires Running() && currentLeague.Some? && leagues[currentLeague.value].status != Finalize
      modifies this`leagues, this`currentLeague, this`pendingLeague, this`lastBlock, this`minMiner,
               this`sendBlockAttempt, this`leagueWaitAttempt
      ensures Running() && SameEpochs(old(leagues), leagues)
      ensures var s := old(leagues[currentLeague.value]).status;
              if s == Reject then currentLeague == old(pendingLeague) && old(currentLeague).value !in leagues
              else currentLeague == old(currentLeague) && Moves(s, leagues[currentLeague.value].status)
    {
      hide Bounded, Consecutive, VotesFit, OneSignature, Follows, SameEpochs, Elected, Saved;
      var status := leagues[currentLeague.value].status;
      if status == Pending {
        AwaitNodes(leagueNodes);
      } else if status == VoteCounting {
        CountVotes();
      } else if status == SendBlock {
        AwaitBlock();
      } else if status == Reject {
        Replace();
      } else {
        Advance();
      }
    }

    /** One tick of processManageLoop. */
    method Tick(leagueNodes: nat, activeNodes: nat, otprn: Otprn)
      requires Running() && otprn.hash !in used
      modifies this
      ensures Valid() && signed == old(signed) && chain == old(chain) && votes == old(votes)
      ensures used <= old(used) + {otprn.hash} && Inherited(old(leagues), leagues, otprn)
      ensures old(currentLeague).None? ==> leagues == old(leagues) && currentLeague.None?
      ensures halted == (old(currentLeague).Some? && old(leagues[currentLeague.value]).status == Finalize &&
                         Panics(old(leagues[currentLeague.value]).epoch))
      ensures old(currentLeague).Some? && !halted ==>
                var s := old(leagues[currentLeague.value]).status;
                if s == Reject then currentLeague == old(pendingLeague) && old(currentLeague).value !in leagues
                else currentLeague == old(currentLeague) && Moves(s, leagues[currentLeague.value].status)
    {
      hide Bounded, Consecutive, VotesFit, OneSignature, Follows, Panics, Halfway, SameEpochs, Inherited, Elected,
           Saved;
      if currentLeague.None? {
        SameEpochsNothing(leagues);
        SameInherited(leagues, leagues, otprn);
        return;
      }
      var l := leagues[currentLeague.value];
      if l.status == Finalize {
        Conclude(activeNodes, otprn);
        return;
      }
      Work(leagueNodes);
      SameInherited(old(leagues), leagues, otprn);
    }

    /** Vote, once the request is well formed and its signatures and difficulty are checked. */
    method OnVote(otprn: Hash, header: Header) returns (ok: bool)
      requires Running() && numberOf(header.hash) == header.number
      modifies this`votes
      ensures Running() && ok == (otprn in leagues && leagues[otprn].current + 1 == header.number)
      ensures votes ==
                if ok then old(votes)[(otprn, header.number) := VotersFor(old(votes), otprn, header.number) + [header]]
                else old(votes)
    {
      hide Bounded, Consecutive, OneSignature, Follows;
      if otprn !in leagues {
        return false;
      }
      if leagues[otprn].current + 1 != header.number {
        return false;
      }
      votes := votes[(otprn, header.number) := VotersFor(votes, otprn, header.number) + [header]];
      return true;
    }

    /** SendBlock, once the request is well formed and its signature is checked: the decided block is signed
        and becomes the current one. */
    method OnSendBlock(block: Block) returns (ok: bool)
      requires Running() && numberOf(block.hash) == block.number && block.hash != 0
      modifies this`chain, this`signed
      ensures Running() && chain == if ok then old(chain) + [block] else old(chain)
      ensures ok == (Awaited(leagues, block) && !Saved(old(chain), block.hash))
      ensures ok ==> block.number == leagues[block.otprn].current + 1
      ensures signed ==
                if Awaited(leagues, block)
                then old(signed) + {Signed(block.otprn, block.number, block.hash, block.voterHash)}
                else old(signed)
    {
      hide Bounded, Consecutive, VotesFit, OneSignature, Follows, Saved;
      if block.otprn !in leagues {
        return false;
      }
      var l := leagues[block.otprn];
      if l.status != SendBlock {
        return false;
      }
      DecidedHasHashes(l, chain, lastBlock, numberOf);
      if l.blockHash.value != block.hash || l.voteHash.value != block.voterHash {
        return false;
      }
      var s := Signed(block.otprn, block.number, block.hash, block.voterHash);
      Appended(l, chain, lastBlock, numberOf, block);
      SignOnce(signed, used, leagues, pendingLeague, s);
      signed := signed + {s};
      if Saved(chain, block.hash) {
        return false;
      }
      chain := chain + [block];
      return true;
    }

    /** RequestFairnodeSign, once the request is well formed and its signature is checked. */
    method OnRequestSign(otprn: Hash, blockHash: Hash, voteHash: Hash) returns (ok: bool)
      requires Running()
      modifies this`signed
      ensures Running()
      ensures ok == (otprn in leagues && leagues[otprn].blockHash == Some(blockHash) &&
                     leagues[otprn].voteHash == Some(voteHash))
      ensures signed ==
                if ok then old(signed) + {Signed(otprn, leagues[otprn].current + 1, blockHash, voteHash)}
                else old(signed)
    {
      hide Bounded, Consecutive, VotesFit, OneSignature, Follows;
      if otprn !in leagues {
        return false;
      }
      var l := leagues[otprn];
      if l.voteHash.None? || l.blockHash.None? {
        return false;
      }
      if l.voteHash.value != voteHash || l.blockHash.value != blockHash {
        return false;
      }
      var s := Signed(otprn, l.current + 1, blockHash, voteHash);
      SignOnce(signed, used, leagues, pendingLeague, s);
      signed := signed + {s};
      return true;
    }

    method Step(e: Event)
      requires Valid() && WellFormed(e, numberOf) && Brings(e) !! used
      modifies this
      ensures Valid() && old(signed) <= signed && used <= old(used) + Brings(e)
      ensures old(halted) ==> halted && leagues == old(leagues) && chain == old(chain) && signed == old(signed)
      ensures old(!halted && Calm(leagues)) && Unhurried(e) ==> !halted && Calm(leagues)
    {
      hide Bounded, Consecutive, VotesFit, OneSignature, Follows, Slots, Panics, Inherited, Moves;
      if halted {
        return;
      }
      match e
      case Ticked(leagueNodes, activeNodes, otprn) =>
        if Calm(leagues) {
          CalmAt(leagues, currentLeague, pendingLeague);
        }
        Tick(leagueNodes, activeNodes, otprn);
        if old(Calm(leagues)) && !Panics(otprn.epoch) {
          InheritedCalm(old(leagues), leagues, otprn);
        }
      case OtprnMade(activeNodes, otprn) =>
        if currentLeague.None? {
          var ok := NewOtprn(true, activeNodes, otprn);
        }
      case Voted(league, header) => var ok := OnVote(league, header);
      case BlockSent(block) => var ok := OnSendBlock(block);
      case SignRequested(league, blockHash, voteHash) => var ok := OnRequestSign(league, blockHash, voteHash);
    }

    /** In every run the league map holds only the current and the pending league, the hashes are set whenever
        they are used, the final blocks are consecutive, and within one league at most one pair of hashes is
        signed per height. A panic of the hand-off ends the run; there is none if no OTPRN has one of the two
        epochs that cause it. */
    method Run(events: seq<Event>)
      requires Valid() && forall i :: 0 <= i < |events| ==> WellFormed(events[i], numberOf) && Brings(events[i]) !! used
      requires forall i, j :: 0 <= i < j < |events| ==> Brings(events[i]) !! Brings(events[j])
      modifies this
      ensures Valid() && leagues.Keys == Held(currentLeague) + Held(pendingLeague)
      ensures forall h ::
                h in leagues && (Completing(leagues[h].status) || (leagues[h].status == Finalize && !halted)) ==>
                leagues[h].blockHash.Some? && leagues[h].voteHash.Some?
      ensures Consecutive(chain, numberOf)
      ensures OneSignature(signed) && old(signed) <= signed
      ensures old(!halted && Calm(leagues)) && (forall i :: 0 <= i < |events| ==> Unhurried(events[i])) ==> !halted
    {
      hide Bounded, Consecutive, VotesFit, OneSignature, Follows, Slots, Panics, Calm;
      for i := 0 to |events|
        invariant Valid() && old(signed) <= signed
        invariant forall j :: i <= j < |events| ==> Brings(events[j]) !! used
        invariant old(!halted && Calm(leagues)) && (forall j :: 0 <= j < i ==> Unhurried(events[j])) ==>
                    !halted && Calm(leagues)
      {
        Step(events[i]);
      }
      SlotsFit(leagues, currentLeague, pendingLeague, halted, chain, lastBlock, numberOf);
    }
  }

  lemma SlotsFit(leagues: map<Hash, League>, current: Option<Hash>, pending: Option<Hash>, halted: bool,
                 chain: seq<Block>, last: Option<Block>, numberOf: Hash -> nat)
    requires Slots(leagues, current, pending)
    requires current.Some? && current.value in leagues ==>
               if halted then leagues[current.value].status == Finalize
               else Follows(leagues[current.value], chain, last, numberOf)
    ensures leagues.Keys == Held(current) + Held(pending)
    ensures forall h ::
              h in leagues && (Completing(leagues[h].status) || (leagues[h].status == Finalize && !halted)) ==>
              leagues[h].blockHash.Some? && leagues[h].voteHash.Some?
  {}

  lemma NewInUse(signed: set<Signed>, used: set<Hash>, leagues: map<Hash, League>, pending: Option<Hash>, h: Hash)
    requires Bounded(signed, used, leagues, pending) && h !in used
    ensures h !in leagues
  {}
}
