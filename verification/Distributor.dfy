/** les/distributor.go: requests wait in creation order until a peer can serve them. */
module Distributors {
  import opened Basics

  type Request = nat
  type Peer = nat
  type Channel = nat

  /** A channel is open until it is closed, with or without a peer sent on it. */
  datatype ChannelState = Open | Closed(peer: Option<Peer>)

  /** What the callbacks answer during one call of nextRequest. A waiting time of 0 means that the request
      can be sent at once. */
  datatype World = World(canQueue: Peer -> bool, canSend: (Request, Peer) -> bool, waitBefore: (Peer, Request) -> nat)

  predicate Serves(w: World, p: Peer, r: Request) {
    w.canQueue(p) && w.canSend(r, p)
  }

  datatype Event =
    | Registered(peer: Peer)
    | Unregistered(peer: Peer)
    | Queued(request: Request)
    | Cancelled(request: Request)
    | Signalled(worlds: nat -> World)

  // ---------- the queue ----------

  function OrderOf(order: map<Request, nat>, r: Request): nat {
    if r in order then order[r] else 0
  }

  /** Strictly by request order, which starts at 1. */
  ghost predicate Sorted(queue: seq<Request>, order: map<Request, nat>) {
    && (forall i :: 0 <= i < |queue| ==> OrderOf(order, queue[i]) > 0)
    && (forall i, j :: 0 <= i < j < |queue| ==> OrderOf(order, queue[i]) < OrderOf(order, queue[j]))
  }

  /** No two requests have the same order. */
  ghost predicate Distinct(order: map<Request, nat>, last: nat) {
    && (forall r :: r in order ==> 0 < order[r] <= last)
    && (forall r, s :: r in order && s in order && order[r] == order[s] ==> r == s)
  }

  function Without(queue: seq<Request>, r: Request): seq<Request> {
    if queue == [] then []
    else if queue[0] == r then queue[1..]
    else [queue[0]] + Without(queue[1..], r)
  }

  lemma {:induction false} WithoutTakesOut(queue: seq<Request>, order: map<Request, nat>, r: Request)
    requires Sorted(queue, order)
    ensures Sorted(Without(queue, r), order)
    ensures forall s :: s in Without(queue, r) <==> s in queue && s != r
    ensures r in queue ==> |Without(queue, r)| == |queue| - 1
  {
    if queue != [] {
      assert queue == [queue[0]] + queue[1..];
      if queue[0] == r {
        assert r !in queue[1..];
      } else {
        WithoutTakesOut(queue[1..], order, r);
        var rest := Without(queue[1..], r);
        forall j | 0 <= j < |rest|
          ensures OrderOf(order, queue[0]) < OrderOf(order, rest[j])
        {
          assert rest[j] in queue[1..];
        }
      }
    }
  }

  /** Where a request belongs. */
  method Position(queue: seq<Request>, order: map<Request, nat>, o: nat) returns (k: nat)
    requires Sorted(queue, order)
    requires forall i :: 0 <= i < |queue| ==> OrderOf(order, queue[i]) != o
    ensures k <= |queue|
    ensures forall i :: 0 <= i < k ==> OrderOf(order, queue[i]) < o
    ensures forall i :: k <= i < |queue| ==> OrderOf(order, queue[i]) > o
  {
    if |queue| == 0 || o > OrderOf(order, queue[|queue| - 1]) {
      return |queue|;
    }
    k := 0;
    while OrderOf(order, queue[k]) < o
      invariant k < |queue|
      invariant forall i :: 0 <= i < k ==> OrderOf(order, queue[i]) < o
      decreases |queue| - k
    {
      k := k + 1;
    }
  }

  function Inserted(queue: seq<Request>, k: nat, r: Request): seq<Request>
    requires k <= |queue|
  {
    queue[..k] + [r] + queue[k..]
  }

  lemma InsertSorted(queue: seq<Request>, order: map<Request, nat>, k: nat, r: Request)
    requires Sorted(queue, order) && k <= |queue| && OrderOf(order, r) > 0
    requires forall i :: 0 <= i < k ==> OrderOf(order, queue[i]) < OrderOf(order, r)
    requires forall i :: k <= i < |queue| ==> OrderOf(order, queue[i]) > OrderOf(order, r)
    ensures Sorted(Inserted(queue, k, r), order)
    ensures forall s :: s in Inserted(queue, k, r) <==> s in queue || s == r
  {
    assert queue == queue[..k] + queue[k..];
  }

  // ---------- the channels ----------

  /** Exactly the queued requests have a channel, each its own, and those are exactly the open ones. */
  ghost predicate Channeled(queue: seq<Request>, sentChn: map<Request, Channel>, channels: map<Channel, ChannelState>,
                            next: nat)
  {
    && (forall r :: r in sentChn <==> r in queue)
    && (forall r :: r in sentChn ==> sentChn[r] in channels && channels[sentChn[r]] == Open)
    && (forall r, s :: r in sentChn && s in sentChn && sentChn[r] == sentChn[s] ==> r == s)
    && (forall c :: c in channels && channels[c] == Open ==> exists r :: r in sentChn && sentChn[r] == c)
    && (forall c :: c in channels ==> c < next)
  }

  lemma ChannelClosed(queue: seq<Request>, sentChn: map<Request, Channel>, channels: map<Channel, ChannelState>,
                      next: nat, r: Request, peer: Option<Peer>, rest: seq<Request>)
    requires Channeled(queue, sentChn, channels, next) && r in sentChn
    requires forall s :: s in rest <==> s in queue && s != r
    ensures Channeled(rest, sentChn - {r}, channels[sentChn[r] := Closed(peer)], next)
  {
    var after := channels[sentChn[r] := Closed(peer)];
    forall c | c in after && after[c] == Open
      ensures exists s :: s in sentChn - {r} && (sentChn - {r})[s] == c
    {
      var s :| s in sentChn && sentChn[s] == c;
      assert s in sentChn - {r};
    }
  }

  lemma ChannelOpened(queue: seq<Request>, sentChn: map<Request, Channel>, channels: map<Channel, ChannelState>,
                      next: nat, r: Request, more: seq<Request>)
    requires Channeled(queue, sentChn, channels, next) && r !in sentChn
    requires forall s :: s in more <==> s in queue || s == r
    ensures Channeled(more, sentChn[r := next], channels[next := Open], next + 1)
  {
    var after, sent := channels[next := Open], sentChn[r := next];
    forall c | c in after && after[c] == Open
      ensures exists s :: s in sent && sent[s] == c
    {
      if c == next {
        assert sent[r] == c;
      } else {
        var s :| s in sentChn && sentChn[s] == c;
        assert sent[s] == c;
      }
    }
  }

  // ---------- choosing ----------

  /** The earliest queued request a peer can serve. */
  ghost function FirstFor(w: World, queue: seq<Request>, p: Peer): Option<Request> {
    if queue == [] then None
    else
      var before := FirstFor(w, queue[..|queue| - 1], p);
      if before.Some? then before
      else if Serves(w, p, queue[|queue| - 1]) then Some(queue[|queue| - 1]) else None
  }

  ghost predicate Unservable(w: World, peers: set<Peer>, r: Request) {
    forall p :: p in peers ==> !Serves(w, p, r)
  }

  /** The earliest request of every registered peer that can serve any. */
  ghost predicate Firsts(w: World, peers: set<Peer>, queue: seq<Request>, first: map<Peer, Request>) {
    && (forall p :: p in first ==> p in peers && FirstFor(w, queue, p) == Some(first[p]))
    && (forall p :: p in peers && FirstFor(w, queue, p).Some? ==> p in first)
  }

  /** The candidates: peers that can be served at once, and the one with the shortest wait. */
  datatype Choice = Choice(ready: map<Peer, Request>, best: Option<(Peer, Request)>, bestWait: nat)

  ghost predicate Collected(w: World, first: map<Peer, Request>, c: Choice) {
    && (forall p :: p in c.ready ==> p in first && c.ready[p] == first[p])
    && (forall p :: p in first ==> (p in c.ready <==> w.waitBefore(p, first[p]) == 0))
    && (c.best.Some? ==> c.best.value.0 in first && first[c.best.value.0] == c.best.value.1)
    && (c.best.Some? ==> c.bestWait == w.waitBefore(c.best.value.0, c.best.value.1) && c.bestWait > 0)
    && (forall p :: p in first && p !in c.ready ==> c.best.Some? && c.bestWait <= w.waitBefore(p, first[p]))
    && (c.best.None? ==> c.bestWait == 0)
  }

  /** One peer that was not checked before can serve the request. */
  method Consider(w: World, p: Peer, r: Request, c: Choice, ghost first: map<Peer, Request>) returns (c': Choice)
    requires Collected(w, first, c) && p !in first
    ensures Collected(w, first[p := r], c')
  {
    var wait := w.waitBefore(p, r);
    if wait == 0 {
      c' := c.(ready := c.ready[p := r]);
    } else if c.best.None? || wait < c.bestWait {
      c' := c.(best := Some((p, r)), bestWait := wait);
    } else {
      c' := c;
    }
  }

  /** All peers are asked about one request. */
  method ScanPeers(w: World, peers: set<Peer>, r: Request, checked0: set<Peer>, c0: Choice,
                   ghost queue: seq<Request>, ghost first0: map<Peer, Request>)
    returns (canSend: bool, checked: set<Peer>, c: Choice, ghost first: map<Peer, Request>)
    requires Firsts(w, peers, queue, first0) && Collected(w, first0, c0) && checked0 == first0.Keys
    ensures Firsts(w, peers, queue + [r], first) && Collected(w, first, c) && checked == first.Keys
    ensures checked0 <= checked && canSend == exists p :: p in peers && p !in checked0 && Serves(w, p, r)
    ensures !canSend ==> first == first0 && c == c0
  {
    hide Collected;
    canSend, checked, c, first := false, checked0, c0, first0;
    assert (queue + [r])[..|queue|] == queue;
    var left := peers;
    while left != {}
      invariant left <= peers && checked0 <= checked == first.Keys && Collected(w, first, c)
      invariant forall p :: p in first ==> p in peers && FirstFor(w, queue + [r], p) == Some(first[p])
      invariant forall p :: p in peers - left && FirstFor(w, queue + [r], p).Some? ==> p in first
      invariant forall p :: p in left && p in first ==> p in first0
      invariant canSend == exists p :: p in peers - left && p !in checked0 && Serves(w, p, r)
      invariant !canSend ==> first == first0 && c == c0
    {
      var p :| p in left;
      left := left - {p};
      if p !in checked && Serves(w, p, r) {
        canSend := true;
        c := Consider(w, p, r, c, first);
        checked, first := checked + {p}, first[p := r];
      }
    }
  }

  /** A peer that can serve a queued request has an earliest one. */
  lemma {:induction false} FirstForSome(w: World, queue: seq<Request>, p: Peer, j: nat)
    requires j < |queue| && Serves(w, p, queue[j])
    ensures FirstFor(w, queue, p).Some?
  {
    if j < |queue| - 1 {
      FirstForSome(w, queue[..|queue| - 1], p, j);
    }
  }

  /** The earliest request is in the queue, the peer serves it, and it serves none before it. */
  lemma {:induction false} FirstForIsFirst(w: World, queue: seq<Request>, p: Peer)
    requires FirstFor(w, queue, p).Some?
    ensures exists i :: 0 <= i < |queue| && queue[i] == FirstFor(w, queue, p).value && Serves(w, p, queue[i]) &&
                        forall j :: 0 <= j < i ==> !Serves(w, p, queue[j])
  {
    var before := queue[..|queue| - 1];
    if FirstFor(w, before, p).Some? {
      FirstForIsFirst(w, before, p);
      var i :| 0 <= i < |before| && before[i] == FirstFor(w, before, p).value && Serves(w, p, before[i]) &&
               forall j :: 0 <= j < i ==> !Serves(w, p, before[j]);
      assert queue[i] == before[i];
      forall j | 0 <= j < i
        ensures !Serves(w, p, queue[j])
      {
        assert before[j] == queue[j];
      }
    } else {
      forall j | 0 <= j < |queue| - 1
        ensures !Serves(w, p, queue[j])
      {
        if Serves(w, p, queue[j]) {
          FirstForSome(w, before, p, j);
        }
      }
    }
  }

  /** Requests no peer can serve do not matter for what comes first. */
  lemma {:induction false} FirstForSkips(w: World, queue: seq<Request>, k: nat, p: Peer)
    requires k <= |queue| && forall i :: 0 <= i < k ==> !Serves(w, p, queue[i])
    ensures FirstFor(w, queue[k..], p) == FirstFor(w, queue, p)
  {
    if k == |queue| {
      if FirstFor(w, queue, p).Some? {
        FirstForIsFirst(w, queue, p);
      }
    } else {
      FirstForSkips(w, queue[..|queue| - 1], k, p);
      assert queue[k..][..|queue| - k - 1] == queue[..|queue| - 1][k..];
    }
  }

  /** The earliest request that some registered peer can serve need not wait for it. */
  ghost predicate Sendable(w: World, peers: set<Peer>, queue: seq<Request>) {
    exists p, i ::
      && p in peers && 0 <= i < |queue| && Serves(w, p, queue[i]) && w.waitBefore(p, queue[i]) == 0
      && forall j :: 0 <= j < i ==> !Serves(w, p, queue[j])
  }

  lemma SendableNow(w: World, peers: set<Peer>, queue: seq<Request>, p: Peer)
    requires p in peers && FirstFor(w, queue, p).Some? && w.waitBefore(p, FirstFor(w, queue, p).value) == 0
    ensures Sendable(w, peers, queue)
  {
    FirstForIsFirst(w, queue, p);
  }

  lemma NotSendable(w: World, peers: set<Peer>, queue: seq<Request>)
    requires forall p :: p in peers && FirstFor(w, queue, p).Some? ==> w.waitBefore(p, FirstFor(w, queue, p).value) > 0
    ensures !Sendable(w, peers, queue)
  {
    if Sendable(w, peers, queue) {
      var p, i :| p in peers && 0 <= i < |queue| && Serves(w, p, queue[i]) && w.waitBefore(p, queue[i]) == 0 &&
                  forall j :: 0 <= j < i ==> !Serves(w, p, queue[j]);
      FirstForSome(w, queue, p, i);
      FirstForIsFirst(w, queue, p);
    }
  }

  /** Requests no peer can serve do not matter for whether one can be sent. */
  lemma SendableSkips(w: World, peers: set<Peer>, all: seq<Request>, queue: seq<Request>, dropped: nat)
    requires Trimmed(w, peers, all, queue, dropped) && !Sendable(w, peers, all)
    ensures !Sendable(w, peers, queue)
  {
    if Sendable(w, peers, queue) {
      var p, i :| p in peers && 0 <= i < |queue| && Serves(w, p, queue[i]) && w.waitBefore(p, queue[i]) == 0 &&
                  forall j :: 0 <= j < i ==> !Serves(w, p, queue[j]);
      assert all[dropped + i] == queue[i];
      forall j | 0 <= j < dropped + i
        ensures !Serves(w, p, all[j])
      {
        if j >= dropped {
          assert all[j] == queue[j - dropped];
        }
      }
    }
  }

  lemma NothingToSend(w: World, peers: set<Peer>, all: seq<Request>, dropped: nat)
    requires Trimmed(w, peers, all, [], dropped)
    ensures !Sendable(w, peers, all)
  {
    assert |all[dropped..]| == |all| - dropped;
  }

  /** Closed channels stay as they are. */
  ghost predicate StaysClosed(before: map<Channel, ChannelState>, after: map<Channel, ChannelState>) {
    forall c :: c in before ==> c in after && (before[c].Closed? ==> after[c] == before[c])
  }

  lemma StaysClosedOn(before: map<Channel, ChannelState>, between: map<Channel, ChannelState>,
                      after: map<Channel, ChannelState>)
    requires StaysClosed(before, between) && StaysClosed(between, after)
    ensures StaysClosed(before, after)
  {}

  lemma NewChannel(queue: seq<Request>, sentChn: map<Request, Channel>, channels: map<Channel, ChannelState>, next: nat,
                   r: Request, more: seq<Request>, k: nat)
    requires Channeled(queue, sentChn, channels, next) && r !in queue && k <= |queue| && more == Inserted(queue, k, r)
    ensures next !in channels && more != [] && StaysClosed(channels, channels[next := Open])
    ensures Channeled(more, sentChn[r := next], channels[next := Open], next + 1)
  {
    NoChannel(queue, sentChn, channels, next, r);
    ChannelOpened(queue, sentChn, channels, next, r, more);
    OpeningClosesNothing(channels, next);
  }

  lemma OpeningClosesNothing(channels: map<Channel, ChannelState>, c: Channel)
    requires c !in channels
    ensures StaysClosed(channels, channels[c := Open])
  {}

  lemma ClosingClosesOne(channels: map<Channel, ChannelState>, c: Channel, peer: Option<Peer>)
    requires c in channels && channels[c] == Open
    ensures StaysClosed(channels, channels[c := Closed(peer)])
  {}

  lemma NothingClosed(channels: map<Channel, ChannelState>)
    ensures StaysClosed(channels, channels)
  {}

  /** The requests dropped from the front are some that no registered peer can serve. */
  ghost predicate Trimmed(w: World, peers: set<Peer>, all: seq<Request>, queue: seq<Request>, dropped: nat) {
    && dropped <= |all| && queue == all[dropped..]
    && forall j :: 0 <= j < dropped ==> Unservable(w, peers, all[j])
  }

  lemma TrimOne(w: World, peers: set<Peer>, all: seq<Request>, queue: seq<Request>, dropped: nat)
    requires Trimmed(w, peers, all, queue, dropped) && queue != [] && Unservable(w, peers, queue[0])
    ensures Trimmed(w, peers, all, queue[1..], dropped + 1)
  {}

  /** The first `i` requests have been looked at. No peer is marked as checked while the element looked at is
      the front. */
  ghost predicate Scanned(w: World, peers: set<Peer>, queue: seq<Request>, i: nat, first: map<Peer, Request>,
                          checked: set<Peer>, c: Choice)
  {
    && i <= |queue| && checked == first.Keys
    && Firsts(w, peers, queue[..i], first) && Collected(w, first, c)
    && if i == 0 then first == map[] && c == NOTHING else !Unservable(w, peers, queue[0])
  }

  const NOTHING: Choice := Choice(map[], None, 0)

  lemma ScanStarts(w: World, peers: set<Peer>, queue: seq<Request>)
    ensures Scanned(w, peers, queue, 0, map[], {}, NOTHING)
  {}

  /** Look at one more request; the front one may turn out to be unservable. */
  method ScanNext(w: World, peers: set<Peer>, queue: seq<Request>, i: nat, checked: set<Peer>, c: Choice,
                  ghost first: map<Peer, Request>)
    returns (drop: bool, checked': set<Peer>, c': Choice, ghost first': map<Peer, Request>)
    requires Scanned(w, peers, queue, i, first, checked, c) && i < |queue|
    ensures drop ==> i == 0 && Unservable(w, peers, queue[0]) && first' == map[] && checked' == {} && c' == NOTHING
    ensures !drop ==> Scanned(w, peers, queue, i + 1, first', checked', c')
  {
    hide Collected;
    var canSend;
    canSend, checked', c', first' := ScanPeers(w, peers, queue[i], checked, c, queue[..i], first);
    assert queue[..i] + [queue[i]] == queue[..i + 1];
    drop := !canSend && i == 0;
  }

  // ---------- why requests leave the queue ----------

  /** What a closed channel tells: the peer that the request was sent to at once, or that no registered peer can
      serve it. */
  ghost predicate Answered(w: World, peers: set<Peer>, r: Request, s: ChannelState) {
    match s
    case Open => false
    case Closed(None) => Unservable(w, peers, r)
    case Closed(Some(p)) => p in peers && Serves(w, p, r) && w.waitBefore(p, r) == 0
  }

  /** Every request that left the queue was answered. */
  ghost predicate AllAnswered(w: World, peers: set<Peer>, queue0: seq<Request>, sent0: map<Request, Channel>,
                              queue: seq<Request>, channels: map<Channel, ChannelState>) {
    forall r :: r in queue0 && r !in queue ==>
      r in sent0 && sent0[r] in channels && Answered(w, peers, r, channels[sent0[r]])
  }

  /** The requests still queued were queued before, with the same channels. */
  ghost predicate Kept(queue0: seq<Request>, sent0: map<Request, Channel>, queue: seq<Request>,
                       sent: map<Request, Channel>)
  {
    && (forall r :: r in queue ==> r in queue0)
    && (forall r :: r in sent ==> r in sent0 && sent[r] == sent0[r])
  }

  lemma NoneLeft(w: World, peers: set<Peer>, queue: seq<Request>, sent: map<Request, Channel>,
                 channels: map<Channel, ChannelState>)
    ensures AllAnswered(w, peers, queue, sent, queue, channels) && Kept(queue, sent, queue, sent)
  {}

  lemma OneAnswered(w: World, peers: set<Peer>, queue0: seq<Request>, sent0: map<Request, Channel>, queue: seq<Request>,
                    sent: map<Request, Channel>, channels: map<Channel, ChannelState>, r: Request, s: ChannelState,
                    rest: seq<Request>)
    requires AllAnswered(w, peers, queue0, sent0, queue, channels) && Kept(queue0, sent0, queue, sent)
    requires r in sent && sent[r] in channels && channels[sent[r]] == Open && Answered(w, peers, r, s)
    requires forall q :: q in rest <==> q in queue && q != r
    ensures AllAnswered(w, peers, queue0, sent0, rest, channels[sent[r] := s]) && Kept(queue0, sent0, rest, sent - {r})
  {}

  /** In one of the first `rounds` rounds. */
  ghost predicate AnsweredWithin(worlds: nat -> World, rounds: nat, peers: set<Peer>, queue0: seq<Request>,
                                 sent0: map<Request, Channel>, queue: seq<Request>,
                                 channels: map<Channel, ChannelState>)
  {
    forall r :: r in queue0 && r !in queue ==>
      && r in sent0 && sent0[r] in channels
      && exists k :: 0 <= k < rounds && Answered(worlds(k), peers, r, channels[sent0[r]])
  }

  lemma AnsweredNone(worlds: nat -> World, peers: set<Peer>, queue: seq<Request>, sent: map<Request, Channel>,
                     channels: map<Channel, ChannelState>)
    ensures AnsweredWithin(worlds, 0, peers, queue, sent, queue, channels) && Kept(queue, sent, queue, sent)
  {}

  lemma AnsweredRound(worlds: nat -> World, k: nat, peers: set<Peer>, queue0: seq<Request>,
                      sent0: map<Request, Channel>, queue1: seq<Request>, sent1: map<Request, Channel>,
                      channels1: map<Channel, ChannelState>,
                      queue2: seq<Request>, sent2: map<Request, Channel>, channels2: map<Channel, ChannelState>)
    requires AnsweredWithin(worlds, k, peers, queue0, sent0, queue1, channels1) && Kept(queue0, sent0, queue1, sent1)
    requires AllAnswered(worlds(k), peers, queue1, sent1, queue2, channels2) && Kept(queue1, sent1, queue2, sent2)
    requires StaysClosed(channels1, channels2)
    ensures AnsweredWithin(worlds, k + 1, peers, queue0, sent0, queue2, channels2) && Kept(queue0, sent0, queue2, sent2)
  {
    forall r | r in queue0 && r !in queue2
      ensures r in sent0 && sent0[r] in channels2
      ensures exists j :: 0 <= j < k + 1 && Answered(worlds(j), peers, r, channels2[sent0[r]])
    {
      if r in queue1 {
        assert Answered(worlds(k), peers, r, channels2[sent0[r]]);
      } else {
        var j :| 0 <= j < k && Answered(worlds(j), peers, r, channels1[sent0[r]]);
        assert Answered(worlds(j), peers, r, channels2[sent0[r]]);
      }
    }
  }

  // ---------- the distributor ----------

  class Distributor {
    var queue: seq<Request>
    var lastOrder: nat
    var order: map<Request, nat>
    var sentChn: map<Request, Channel>
    var peers: set<Peer>
    var loopNextSent: bool

    /** The channels made so far, and the wake-up signals on their way to the loop. */
    var channels: map<Channel, ChannelState>
    var nextChannel: nat
    var signals: nat

    ghost predicate Consistent()
      reads this
    {
      Sorted(queue, order) && Distinct(order, lastOrder) && Channeled(queue, sentChn, channels, nextChannel)
    }

    /** While requests are queued a wake-up signal is on its way, and never more than one. */
    ghost predicate Valid()
      reads this
    {
      Consistent() && (queue != [] ==> loopNextSent) && signals == if loopNextSent then 1 else 0
    }

    constructor ()
      ensures Valid() && queue == [] && peers == {}
    {
      queue, lastOrder, order, sentChn, peers := [], 0, map[], map[], {};
      channels, nextChannel, loopNextSent, signals := map[], 0, false, 0;
    }

    method RegisterPeer(p: Peer)
      requires Valid()
      modifies this`peers
      ensures Valid() && peers == old(peers) + {p}
    {
      peers := peers + {p};
    }

    method UnregisterPeer(p: Peer)
      requires Valid()
      modifies this`peers
      ensures Valid() && peers == old(peers) - {p}
    {
      peers := peers - {p};
    }

    /** Queue a request that is not queued, for the first time or again. It keeps its order when resent. */
    method Enqueue(r: Request) returns (ch: Channel)
      requires Valid() && r !in queue
      modifies this
      ensures Valid() && peers == old(peers) && StaysClosed(old(channels), channels)
      ensures ch !in old(channels) && sentChn == old(sentChn)[r := ch]
      ensures order == if r in old(order) then old(order) else old(order)[r := old(lastOrder) + 1]
      ensures exists k :: 0 <= k <= |old(queue)| && queue == Inserted(old(queue), k, r)
    {
      hide Sorted, Distinct, Channeled, Inserted, StaysClosed;
      var line, number, last, k := Place(queue, order, lastOrder, r);
      ch := nextChannel;
      NewChannel(queue, sentChn, channels, ch, r, line, k);
      queue, order, lastOrder := line, number, last;
      Wake();
      sentChn, channels, nextChannel := sentChn[r := ch], channels[ch := Open], ch + 1;
    }

    /** Send the loop a wake-up signal, unless one is on its way. */
    method Wake()
      requires signals == if loopNextSent then 1 else 0
      modifies this`loopNextSent, this`signals
      ensures loopNextSent && signals == 1
    {
      if !loopNextSent {
        loopNextSent := true;
        signals := signals + 1;
      }
    }

    /** Give the request its order, if it has none, and find its place. */
    static method Place(queue: seq<Request>, order: map<Request, nat>, last: nat, r: Request)
      returns (queue': seq<Request>, order': map<Request, nat>, last': nat, ghost k: nat)
      requires Sorted(queue, order) && Distinct(order, last) && r !in queue
      ensures k <= |queue| && queue' == Inserted(queue, k, r) && Sorted(queue', order') && Distinct(order', last')
      ensures order' == if r in order then order else order[r := last + 1]
    {
      order', last' := order, last;
      if r !in order {
        last' := last + 1;
        order' := order[r := last'];
      }
      NewOrder(queue, order, order', last', r);
      hide Sorted, Distinct;
      var at := Position(queue, order', order'[r]);
      InsertSorted(queue, order', at, r);
      queue', k := Inserted(queue, at, r), at;
    }

    /** Close the request's channel and take it out of the queue. Its channel is open, so the close cannot
        panic. */
    method Finish(r: Request, peer: Option<Peer>)
      requires Consistent() && r in queue
      modifies this`queue, this`sentChn, this`channels
      ensures Consistent() && queue == Without(old(queue), r) && |queue| == |old(queue)| - 1
      ensures forall q :: q in queue <==> q in old(queue) && q != r
      ensures r in old(sentChn) && old(sentChn)[r] in old(channels) && old(channels)[old(sentChn)[r]] == Open
      ensures sentChn == old(sentChn) - {r} && channels == old(channels)[old(sentChn)[r] := Closed(peer)]
      ensures StaysClosed(old(channels), channels)
    {
      hide Sorted, Distinct, Channeled, StaysClosed, Without;
      WithoutTakesOut(queue, order, r);
      QueuedIsOpen(queue, sentChn, channels, nextChannel, r);
      ClosingClosesOne(channels, sentChn[r], peer);
      ChannelClosed(queue, sentChn, channels, nextChannel, r, peer, Without(queue, r));
      channels := channels[sentChn[r] := Closed(peer)];
      sentChn := sentChn - {r};
      queue := Without(queue, r);
    }

    method Cancel(r: Request) returns (ok: bool)
      requires Valid()
      modifies this`queue, this`sentChn, this`channels
      ensures Valid() && ok == (r in old(queue)) && StaysClosed(old(channels), channels)
      ensures queue == if ok then Without(old(queue), r) else old(queue)
      ensures ok ==> r in old(sentChn) && channels == old(channels)[old(sentChn)[r] := Closed(None)]
    {
      if r !in sentChn {
        return false;
      }
      Finish(r, None);
      return true;
    }

    /** Requests at the front that no registered peer can serve are dropped. The peer chosen gets the earliest
        request it can serve, and no peer would have to wait less; there is no choice exactly if no
        request is left. */
    method NextRequest(w: World) returns (choice: Option<(Peer, Request)>, wait: nat, ghost dropped: nat)
      requires Consistent()
      modifies this`queue, this`sentChn, this`channels
      ensures Consistent() && StaysClosed(old(channels), channels)
      ensures Kept(old(queue), old(sentChn), queue, sentChn)
      ensures AllAnswered(w, peers, old(queue), old(sentChn), queue, channels)
      ensures Trimmed(w, peers, old(queue), queue, dropped)
      ensures queue != [] ==> !Unservable(w, peers, queue[0])
      ensures choice.None? <==> queue == []
      ensures choice.None? ==> wait == 0
      ensures choice.Some? ==>
                && choice.value.0 in peers && choice.value.1 in queue
                && FirstFor(w, old(queue), choice.value.0) == Some(choice.value.1)
                && wait == w.waitBefore(choice.value.0, choice.value.1)
                && forall p :: p in peers && FirstFor(w, old(queue), p).Some? ==>
                     wait <= w.waitBefore(p, FirstFor(w, old(queue), p).value)
    {
      hide Sorted, Distinct, Channeled, Trimmed, Scanned, StaysClosed, FirstFor, Unservable, Firsts, Collected,
           AllAnswered, Kept, Without;
      NoneLeft(w, peers, queue, sentChn, channels);
      var checked, c := {}, NOTHING;
      ghost var all, first := queue, map[];
      ScanStarts(w, peers, queue);
      NothingClosed(channels);
      assert Trimmed(w, peers, all, queue, 0) by { TrimStarts(w, peers, all); }
      var i: nat := 0;
      dropped := 0;
      while (|peers| > 0 || i == 0) && i < |queue|
        invariant Consistent() && StaysClosed(old(channels), channels) && i <= |queue|
        invariant Kept(all, old(sentChn), queue, sentChn) && AllAnswered(w, peers, all, old(sentChn), queue, channels)
        invariant Trimmed(w, peers, all, queue, dropped) && Scanned(w, peers, queue, i, first, checked, c)
        decreases |queue| - i
      {
        var drop;
        drop, checked, c, first := ScanNext(w, peers, queue, i, checked, c, first);
        if drop {
          TrimOne(w, peers, all, queue, dropped);
          ghost var was, before, chns := channels, queue, sentChn;
          WithoutFirst(queue);
          Finish(queue[0], None);
          OneAnswered(w, peers, all, old(sentChn), before, chns, was, before[0], Closed(None), queue);
          dropped := dropped + 1;
          StaysClosedOn(old(channels), was, channels);
          ScanStarts(w, peers, queue);
        } else {
          i := i + 1;
        }
      }
      ScanEnds(w, peers, queue, i, first, checked, c);
      choice, wait := Pick(w, peers, old(queue), queue, dropped, first, c);
    }

    /** The last step of nextRequest. weightedRandomSelect may choose any of its candidates. */
    static method Pick(w: World, peers: set<Peer>, ghost all: seq<Request>, queue: seq<Request>, ghost dropped: nat,
                       ghost first: map<Peer, Request>, c: Choice)
      returns (choice: Option<(Peer, Request)>, wait: nat)
      requires Trimmed(w, peers, all, queue, dropped) && Firsts(w, peers, queue, first) && Collected(w, first, c)
      requires queue != [] ==> !Unservable(w, peers, queue[0])
      ensures choice.None? <==> queue == []
      ensures choice.None? ==> wait == 0
      ensures choice.Some? ==>
                && choice.value.0 in peers && choice.value.1 in queue
                && FirstFor(w, all, choice.value.0) == Some(choice.value.1)
                && wait == w.waitBefore(choice.value.0, choice.value.1)
                && forall p :: p in peers && FirstFor(w, all, p).Some? ==>
                     wait <= w.waitBefore(p, FirstFor(w, all, p).value)
    {
      forall p | p in peers
        ensures FirstFor(w, queue, p) == FirstFor(w, all, p)
      {
        FirstForSkips(w, all, dropped, p);
      }
      if queue != [] {
        ghost var p :| p in peers && Serves(w, p, queue[0]);
        FirstForSome(w, queue, p, 0);
        assert p in first;
      }
      if c.ready != map[] {
        var p :| p in c.ready;
        FirstForIsFirst(w, queue, p);
        return Some((p, c.ready[p])), 0;
      }
      if c.best.Some? {
        FirstForIsFirst(w, queue, c.best.value.0);
      }
      return c.best, c.bestWait;
    }

    /** One round of the loop: a request that can be sent at once goes to the peer chosen for it, whose
        earliest request it is; none is sent exactly if no peer's earliest request can be sent at once. Besides, the
        requests at the front that cannot be served leave the queue, and no others. */
    method Serve(w: World) returns (sent: Option<(Peer, Request)>, wait: nat, ghost dropped: nat)
      requires Consistent()
      modifies this`queue, this`sentChn, this`channels
      ensures Consistent() && StaysClosed(old(channels), channels) && Kept(old(queue), old(sentChn), queue, sentChn)
      ensures AllAnswered(w, peers, old(queue), old(sentChn), queue, channels)
      ensures sent.Some? ==>
                && |queue| < |old(queue)| && sent.value.0 in peers && w.waitBefore(sent.value.0, sent.value.1) == 0
                && FirstFor(w, old(queue), sent.value.0) == Some(sent.value.1)
                && sent.value.1 in old(sentChn) && old(sentChn)[sent.value.1] in channels
                && channels[old(sentChn)[sent.value.1]] == Closed(Some(sent.value.0))
      ensures sent.None? ==> (wait == 0 <==> queue == [])
      ensures sent.None? && queue != [] ==> !Unservable(w, peers, queue[0])
      ensures sent.Some? <==> Sendable(w, peers, old(queue))
      ensures sent.None? ==> Trimmed(w, peers, old(queue), queue, dropped) && !Sendable(w, peers, queue)
      ensures sent.Some? ==>
                && dropped <= |old(queue)| && Trimmed(w, peers, old(queue), old(queue)[dropped..], dropped)
                && queue == Without(old(queue)[dropped..], sent.value.1)
    {
      hide Sorted, Distinct, Channeled, FirstFor, StaysClosed, Unservable, AllAnswered, Kept, Trimmed, Without,
           Sendable;
      sent, wait, dropped := NextRequest(w);
      TrimmedLength(w, peers, old(queue), queue, dropped);
      if sent.None? || wait > 0 {
        if sent.None? {
          NothingToSend(w, peers, old(queue), dropped);
        } else {
          NotSendable(w, peers, old(queue));
        }
        SendableSkips(w, peers, old(queue), queue, dropped);
        sent := None;
        return;
      }
      SendableNow(w, peers, old(queue), sent.value.0);
      ghost var was, before, chns := channels, queue, sentChn;
      FirstForServes(w, old(queue), sent.value.0);
      Finish(sent.value.1, Some(sent.value.0));
      KeptAt(old(queue), old(sentChn), before, chns, sent.value.1);
      OneAnswered(w, peers, old(queue), old(sentChn), before, chns, was, sent.value.1, Closed(Some(sent.value.0)),
                  queue);
      StaysClosedOn(old(channels), was, channels);
    }

    /** The loop's reaction to a wake-up signal: send while some request can be sent at once. Every round may
        find the peers in another state. Every round but the last sends a request, and after the last one none can be
        sent at once. A request leaves the queue only when it is sent, or in a round in which no registered peer can
        serve it. */
    method OnSignal(worlds: nat -> World) returns (ghost rounds: nat)
      requires Valid() && signals > 0
      modifies this`queue, this`sentChn, this`channels, this`loopNextSent, this`signals
      ensures Valid() && StaysClosed(old(channels), channels) && Kept(old(queue), old(sentChn), queue, sentChn)
      ensures AnsweredWithin(worlds, rounds, peers, old(queue), old(sentChn), queue, channels)
      ensures rounds > 0 && !Sendable(worlds(rounds - 1), peers, queue) && |queue| + rounds - 1 <= |old(queue)|
      ensures queue != [] ==> !Unservable(worlds(rounds - 1), peers, queue[0])
      ensures (loopNextSent <==> queue != []) && signals == if queue != [] then 1 else 0
    {
      hide Sorted, Distinct, Channeled, FirstFor, StaysClosed, Kept, AllAnswered, AnsweredWithin, Sendable, Trimmed,
           Without, Unservable;
      NothingClosed(channels);
      AnsweredNone(worlds, peers, queue, sentChn, channels);
      signals := signals - 1;
      loopNextSent := false;
      var round := 0;
      while true
        invariant Consistent() && StaysClosed(old(channels), channels) && Kept(old(queue), old(sentChn), queue, sentChn)
        invariant AnsweredWithin(worlds, round, peers, old(queue), old(sentChn), queue, channels)
        invariant !loopNextSent && signals == 0 && |queue| + round <= |old(queue)|
        decreases |queue|
      {
        ghost var before, waiting, chns := channels, queue, sentChn;
        var sent, wait, dropped := Serve(worlds(round));
        StaysClosedOn(old(channels), before, channels);
        AnsweredRound(worlds, round, peers, old(queue), old(sentChn), waiting, chns, before, queue, sentChn, channels);
        round := round + 1;
        if sent.None? {
          TrimmedLength(worlds(round - 1), peers, waiting, queue, dropped);
          if wait > 0 {
            loopNextSent := true;
            signals := signals + 1;
          }
          break;
        }
      }
      rounds := round;
    }

    /** In every run before the stop the queue is sorted by request order, exactly the queued requests have an
        open channel, a channel once closed is never touched again, and no request waits without a
        wake-up signal. */
    method Run(events: seq<Event>)
      requires Valid()
      modifies this
      ensures Valid() && Sorted(queue, order) && Channeled(queue, sentChn, channels, nextChannel)
      ensures StaysClosed(old(channels), channels)
      ensures queue != [] ==> signals == 1
    {
      hide Sorted, Distinct, Channeled, StaysClosed, Inserted, Without;
      NothingClosed(channels);
      for i := 0 to |events|
        invariant Valid() && StaysClosed(old(channels), channels)
      {
        ghost var before := channels;
        Step(events[i]);
        StaysClosedOn(old(channels), before, channels);
      }
    }

    method Step(e: Event)
      requires Valid()
      modifies this
      ensures Valid() && StaysClosed(old(channels), channels)
    {
      hide Sorted, Distinct, Channeled, StaysClosed, Inserted, Without, Kept, AnsweredWithin;
      NothingClosed(channels);
      match e
      case Registered(p) => RegisterPeer(p);
      case Unregistered(p) => UnregisterPeer(p);
      case Queued(r) =>
        if r !in queue {
          var ch := Enqueue(r);
        }
      case Cancelled(r) => var ok := Cancel(r);
      case Signalled(worlds) =>
        if signals > 0 {
          var rounds := OnSignal(worlds);
        }
    }

    /** Cancelling the request would close a channel a second time, which panics. */
    predicate CancelPanics(r: Request)
      reads this
    {
      r in sentChn && sentChn[r] in channels && channels[sentChn[r]].Closed?
    }

    /** Before the stop no cancellation panics. */
    lemma NoCancelPanics(r: Request)
      requires Valid()
      ensures !CancelPanics(r)
    {}

    /** When the distributor stops, every channel still open is closed; the requests stay queued, and cancelling
        exactly those would panic. */
    method Stop()
      requires Valid()
      modifies this`channels
      ensures StaysClosed(old(channels), channels) && channels.Keys == old(channels).Keys
      ensures forall c :: c in channels ==> channels[c].Closed?
      ensures forall r :: CancelPanics(r) <==> r in queue
    {
      QueuedHaveChannels(queue, sentChn, channels, nextChannel);
      channels := CloseAll(queue, sentChn, channels, order, nextChannel);
    }

    /** A run into the panic: queue a request, stop, cancel. */
    static method CancelAfterStop(r: Request) returns (d: Distributor)
      ensures fresh(d) && d.queue == [r] && d.CancelPanics(r)
    {
      hide Sorted, Distinct, Channeled, StaysClosed;
      d := new Distributor();
      var ch := d.Enqueue(r);
      d.Stop();
    }

    static method CloseAll(queue: seq<Request>, sentChn: map<Request, Channel>, channels: map<Channel, ChannelState>,
                           ghost order: map<Request, nat>, ghost next: nat)
      returns (r: map<Channel, ChannelState>)
      requires Sorted(queue, order) && Channeled(queue, sentChn, channels, next)
      ensures StaysClosed(channels, r) && r.Keys == channels.Keys && forall c :: c in r ==> r[c].Closed?
    {
      hide Sorted, Channeled;
      r := channels;
      ghost var left := sentChn;
      assert queue[0..] == queue;
      for i := 0 to |queue|
        invariant Channeled(queue[i..], left, r, next) && r.Keys == channels.Keys && StaysClosed(channels, r)
        invariant forall s :: s in left ==> s in sentChn && left[s] == sentChn[s]
      {
        var q := queue[i];
        CloseNext(queue, order, i, left, r, next);
        r := r[sentChn[q] := Closed(None)];
        left := left - {q};
      }
      AllClosed(queue, left, r, next);
    }
  }

  lemma CloseNext(queue: seq<Request>, order: map<Request, nat>, i: nat, left: map<Request, Channel>,
                  channels: map<Channel, ChannelState>, next: nat)
    requires Sorted(queue, order) && i < |queue| && Channeled(queue[i..], left, channels, next)
    ensures queue[i] in left && left[queue[i]] in channels && channels[left[queue[i]]] == Open
    ensures Channeled(queue[i + 1..], left - {queue[i]}, channels[left[queue[i]] := Closed(None)], next)
  {
    assert queue[i..] == [queue[i]] + queue[i + 1..];
    assert queue[i] !in queue[i + 1..];
    ChannelClosed(queue[i..], left, channels, next, queue[i], None, queue[i + 1..]);
  }

  lemma AllClosed(queue: seq<Request>, left: map<Request, Channel>, channels: map<Channel, ChannelState>, next: nat)
    requires Channeled(queue[|queue|..], left, channels, next)
    ensures forall c :: c in channels ==> channels[c].Closed?
  {}

  lemma NewOrder(queue: seq<Request>, before: map<Request, nat>, after: map<Request, nat>, last: nat, r: Request)
    requires Sorted(queue, before) && r !in queue
    requires r in before ==> after == before && Distinct(before, last)
    requires r !in before ==> last > 0 && after == before[r := last] && Distinct(before, last - 1)
    ensures Sorted(queue, after) && Distinct(after, last) && r in after && after[r] > 0
    ensures forall i :: 0 <= i < |queue| ==> OrderOf(after, queue[i]) != after[r]
  {
    forall i | 0 <= i < |queue|
      ensures OrderOf(after, queue[i]) == OrderOf(before, queue[i]) != after[r]
    {
      assert queue[i] in before;
    }
  }

  lemma QueuedHaveChannels(queue: seq<Request>, sentChn: map<Request, Channel>, channels: map<Channel, ChannelState>,
                           next: nat)
    requires Channeled(queue, sentChn, channels, next)
    ensures forall r :: r in queue <==> r in sentChn
    ensures forall r :: r in sentChn ==> sentChn[r] in channels
  {}

  lemma WithoutFirst(queue: seq<Request>)
    requires queue != []
    ensures Without(queue, queue[0]) == queue[1..]
  {}

  lemma TrimmedLength(w: World, peers: set<Peer>, all: seq<Request>, queue: seq<Request>, dropped: nat)
    requires Trimmed(w, peers, all, queue, dropped)
    ensures |queue| <= |all| && dropped <= |all| && queue == all[dropped..]
  {}

  lemma FirstForServes(w: World, queue: seq<Request>, p: Peer)
    requires FirstFor(w, queue, p).Some?
    ensures Serves(w, p, FirstFor(w, queue, p).value)
  {
    FirstForIsFirst(w, queue, p);
  }

  lemma KeptAt(queue0: seq<Request>, sent0: map<Request, Channel>, queue: seq<Request>, sent: map<Request, Channel>,
               r: Request)
    requires Kept(queue0, sent0, queue, sent) && r in sent
    ensures r in sent0 && sent0[r] == sent[r]
  {}

  lemma QueuedIsOpen(queue: seq<Request>, sentChn: map<Request, Channel>, channels: map<Channel, ChannelState>,
                     next: nat, r: Request)
    requires Channeled(queue, sentChn, channels, next) && r in queue
    ensures r in sentChn && sentChn[r] in channels && channels[sentChn[r]] == Open
  {}

  lemma NoChannel(queue: seq<Request>, sentChn: map<Request, Channel>, channels: map<Channel, ChannelState>, next: nat,
                  r: Request)
    requires Channeled(queue, sentChn, channels, next) && r !in queue
    ensures r !in sentChn && next !in channels
  {}

  lemma TrimStarts(w: World, peers: set<Peer>, queue: seq<Request>)
    ensures Trimmed(w, peers, queue, queue, 0)
  {
    assert queue[0..] == queue;
  }

  /** The scan ends early only without peers, and then nothing is left to look at. */
  lemma ScanEnds(w: World, peers: set<Peer>, queue: seq<Request>, i: nat, first: map<Peer, Request>, checked: set<Peer>,
                 c: Choice)
    requires Scanned(w, peers, queue, i, first, checked, c) && !((|peers| > 0 || i == 0) && i < |queue|)
    ensures Firsts(w, peers, queue, first) && Collected(w, first, c) &&
            (queue != [] ==> !Unservable(w, peers, queue[0]))
  {
    assert i > 0 ==> peers != {};
    assert queue[..i] == queue;
  }
}
