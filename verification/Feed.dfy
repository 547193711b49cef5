/** event/feed.go: one-to-many delivery. Send partitions the shared slice sendCases in place while channels
    become ready and subscribers leave in any order. */
module Feeds {
  /** A channel; 0 is removeSub, which no subscriber can name. */
  type Channel = nat

  const REMOVE_SUB: Channel := 0
  const FIRST_SUB_SEND_CASE: nat := 1

  // ---------- case lists ----------

  /** The first case with the given channel. */
  method Find(cases: seq<Channel>, ch: Channel) returns (index: int)
    ensures index == -1 <==> ch !in cases
    ensures index != -1 ==> 0 <= index < |cases| && cases[index] == ch && ch !in cases[..index]
  {
    for i := 0 to |cases|
      invariant ch !in cases[..i]
    {
      if cases[i] == ch {
        return i;
      }
    }
    return -1;
  }

  function Delete(cases: seq<Channel>, index: nat): (r: seq<Channel>)
    requires index < |cases|
    ensures |r| == |cases| - 1
  {
    cases[..index] + cases[index + 1..]
  }

  /** Deleting takes one copy out, and shifts the cases after it. */
  lemma DeleteTakesOne(cases: seq<Channel>, index: nat)
    requires index < |cases|
    ensures multiset(Delete(cases, index)) + multiset{cases[index]} == multiset(cases)
  {
    assert cases == cases[..index] + [cases[index]] + cases[index + 1..];
  }

  function Swap(cases: seq<Channel>, i: nat, j: nat): (r: seq<Channel>)
    requires i < |cases| && j < |cases|
    ensures |r| == |cases|
  {
    cases[i := cases[j]][j := cases[i]]
  }

  // ---------- the partition ----------

  function Active(cases: seq<Channel>, n: nat): multiset<Channel>
    requires 1 <= n <= |cases|
  {
    multiset(cases[FIRST_SUB_SEND_CASE..n])
  }

  function Done(cases: seq<Channel>, n: nat): multiset<Channel>
    requires n <= |cases|
  {
    multiset(cases[n..])
  }

  lemma Splits(cases: seq<Channel>, n: nat)
    requires 1 <= n <= |cases|
    ensures multiset(cases[1..]) == Active(cases, n) + Done(cases, n)
  {
    assert cases[1..] == cases[1..n] + cases[n..];
  }

  /** Deactivating case `i` moves it from the active part to the done part. */
  lemma Deactivate(cases: seq<Channel>, n: nat, i: nat)
    requires 1 <= i < n <= |cases|
    ensures var moved := Swap(cases, i, n - 1);
            && moved[0] == cases[0]
            && Active(moved, n - 1) + multiset{cases[i]} == Active(cases, n)
            && Done(moved, n - 1) == Done(cases, n) + multiset{cases[i]}
            && multiset(moved[1..]) == multiset(cases[1..])
  {
    var moved := Swap(cases, i, n - 1);
    MovesToEnd(cases, n, i);
    assert moved[n - 1..] == [cases[i]] + cases[n..];
    Splits(cases, n);
    Splits(moved, n - 1);
  }

  lemma MovesToEnd(cases: seq<Channel>, n: nat, i: nat)
    requires 1 <= i < n <= |cases|
    ensures multiset(Swap(cases, i, n - 1)[1..n - 1]) + multiset{cases[i]} == multiset(cases[1..n])
  {
    var moved := Swap(cases, i, n - 1);
    assert cases[1..n] == cases[1..n - 1] + [cases[n - 1]];
    if i < n - 1 {
      assert cases[1..n - 1] == cases[1..i] + [cases[i]] + cases[i + 1..n - 1];
      assert moved[1..n - 1] == cases[1..i] + [cases[n - 1]] + cases[i + 1..n - 1];
    } else {
      assert moved[1..n - 1] == cases[1..n - 1];
    }
  }

  /** Deleting an active case shrinks the active part; deleting any other one leaves it alone. */
  lemma DeleteAt(cases: seq<Channel>, n: nat, i: nat)
    requires 1 <= n <= |cases| && 1 <= i < |cases|
    ensures var less := Delete(cases, i);
            && less[0] == cases[0]
            && multiset(less[1..]) + multiset{cases[i]} == multiset(cases[1..])
            && (i < n ==>
                  Active(less, n - 1) + multiset{cases[i]} == Active(cases, n) && Done(less, n - 1) == Done(cases, n))
            && (i >= n ==> Active(less, n) == Active(cases, n) && Done(less, n) + multiset{cases[i]} == Done(cases, n))
  {
    hide Delete;
    DeleteSlices(cases, n, i);
    DeleteTakesOne(cases[1..], i - 1);
    if i < n {
      DeleteTakesOne(cases[1..n], i - 1);
    } else {
      DeleteTakesOne(cases[n..], i - n);
    }
  }

  lemma DeleteSlices(cases: seq<Channel>, n: nat, i: nat)
    requires 1 <= n <= |cases| && 1 <= i < |cases|
    ensures var less := Delete(cases, i);
            && less[0] == cases[0] && less[1..] == Delete(cases[1..], i - 1)
            && (i < n ==> less[1..n - 1] == Delete(cases[1..n], i - 1) && less[n - 1..] == cases[n..])
            && (i >= n ==> less[1..n] == cases[1..n] && less[n..] == Delete(cases[n..], i - n))
  {}

  /** What became of the channels subscribed when Send started: given the value, removed before they got it,
      or removed after. */
  datatype Tally = Tally(delivered: multiset<Channel>, dropped: multiset<Channel>, late: multiset<Channel>)

  const NOBODY: Tally := Tally(multiset{}, multiset{}, multiset{})

  /** The channels at the start of Send, and what had been received and asked for by then. */
  datatype Start = Start(channels: multiset<Channel>, received: multiset<Channel>, history: History)

  /** The active cases are those neither given the value nor removed; the others were given it. */
  ghost predicate Progress(start: Start, cases: seq<Channel>, received: multiset<Channel>, n: nat, t: Tally) {
    && 1 <= n <= |cases|
    && received == start.received + t.delivered
    && Active(cases, n) + (t.delivered + t.dropped) == start.channels
    && Done(cases, n) + t.late == t.delivered
  }

  lemma ProgressSent(start: Start, cases: seq<Channel>, received: multiset<Channel>, n: nat, t: Tally, i: nat)
    requires Progress(start, cases, received, n, t) && 1 <= i < n
    ensures Progress(start, Swap(cases, i, n - 1), received + multiset{cases[i]}, n - 1,
                     t.(delivered := t.delivered + multiset{cases[i]}))
  {
    hide Active, Done, Swap;
    Deactivate(cases, n, i);
    var x := multiset{cases[i]};
    var moved := Swap(cases, i, n - 1);
    assert Active(moved, n - 1) + (t.delivered + x + t.dropped) == Active(moved, n - 1) + x + (t.delivered + t.dropped);
    assert Done(moved, n - 1) + t.late == Done(cases, n) + t.late + x;
  }

  lemma ProgressRemoved(start: Start, cases: seq<Channel>, received: multiset<Channel>, n: nat, t: Tally, i: nat)
    requires Progress(start, cases, received, n, t) && 1 <= i < |cases|
    ensures i < n ==> Progress(start, Delete(cases, i), received, n - 1, t.(dropped := t.dropped + multiset{cases[i]}))
    ensures i >= n ==> Progress(start, Delete(cases, i), received, n, t.(late := t.late + multiset{cases[i]}))
  {
    hide Active, Done;
    DeleteAt(cases, n, i);
    var x := multiset{cases[i]};
    var less := Delete(cases, i);
    if i < n {
      assert Active(less, n - 1) + (t.delivered + (t.dropped + x)) ==
             Active(less, n - 1) + x + (t.delivered + t.dropped);
    } else {
      assert Done(less, n) + (t.late + x) == Done(less, n) + x + t.late;
    }
  }

  // ---------- who has a case ----------

  /** Every subscription has exactly one case, in the inbox or among the send cases, and those that wait to
      be removed are among the send cases. */
  ghost predicate Balanced(inbox: multiset<Channel>, cases: multiset<Channel>, subscribed: multiset<Channel>,
                           leaving: multiset<Channel>) {
    inbox + cases == subscribed + leaving && leaving <= cases && REMOVE_SUB !in cases && REMOVE_SUB !in inbox
  }

  lemma Joins(inbox: multiset<Channel>, cases: multiset<Channel>, subscribed: multiset<Channel>,
              leaving: multiset<Channel>, ch: Channel)
    requires Balanced(inbox, cases, subscribed, leaving) && ch != REMOVE_SUB
    ensures Balanced(inbox + multiset{ch}, cases, subscribed + multiset{ch}, leaving)
  {
    assert inbox + multiset{ch} + cases == inbox + cases + multiset{ch};
    assert subscribed + multiset{ch} + leaving == subscribed + leaving + multiset{ch};
  }

  lemma LeavesInbox(inbox: multiset<Channel>, cases: multiset<Channel>, subscribed: multiset<Channel>,
                    leaving: multiset<Channel>, ch: Channel)
    requires Balanced(inbox, cases, subscribed, leaving) && ch in inbox && ch in subscribed
    ensures Balanced(inbox - multiset{ch}, cases, subscribed - multiset{ch}, leaving)
  {
    assert inbox - multiset{ch} + cases == inbox + cases - multiset{ch};
    assert subscribed - multiset{ch} + leaving == subscribed + leaving - multiset{ch};
  }

  /** A goroutine that does not find its channel in the inbox will find it among the send cases, however many
      others wait for the same channel. */
  lemma StartsLeaving(inbox: multiset<Channel>, cases: multiset<Channel>, subscribed: multiset<Channel>,
                      leaving: multiset<Channel>, ch: Channel)
    requires Balanced(inbox, cases, subscribed, leaving) && ch !in inbox && ch in subscribed
    ensures Balanced(inbox, cases, subscribed - multiset{ch}, leaving + multiset{ch})
  {
    assert subscribed - multiset{ch} + (leaving + multiset{ch}) == subscribed + leaving;
    assert (inbox + cases)[ch] == (subscribed + leaving)[ch];
  }

  lemma FinishesLeaving(inbox: multiset<Channel>, cases: multiset<Channel>, subscribed: multiset<Channel>,
                        leaving: multiset<Channel>, ch: Channel)
    requires Balanced(inbox, cases, subscribed, leaving) && ch in leaving
    ensures Balanced(inbox, cases - multiset{ch}, subscribed, leaving - multiset{ch})
  {
    assert inbox + (cases - multiset{ch}) == inbox + cases - multiset{ch};
    assert subscribed + (leaving - multiset{ch}) == subscribed + leaving - multiset{ch};
  }

  lemma Merges(inbox: multiset<Channel>, cases: multiset<Channel>, subscribed: multiset<Channel>,
               leaving: multiset<Channel>)
    requires Balanced(inbox, cases, subscribed, leaving)
    ensures Balanced(multiset{}, cases + inbox, subscribed, leaving)
  {
    assert multiset{} + (cases + inbox) == inbox + cases;
  }

  // ---------- who asked for what ----------

  /** What another goroutine does while Send is running. */
  datatype Action = Join(ch: Channel) | Leave(ch: Channel)

  /** All that was ever asked of the feed: subscriptions, cancellations that had to wait, cancellations answered
      from the inbox, and those answered from the send cases. */
  datatype History = History(joined: multiset<Channel>, asked: multiset<Channel>, left: multiset<Channel>,
                             released: multiset<Channel>)

  /** Every subscription is still wanted, waiting to be removed, or was removed on request. */
  ghost predicate Ledger(subscribed: multiset<Channel>, leaving: multiset<Channel>, h: History) {
    subscribed + (h.asked + h.left) == h.joined && leaving + h.released == h.asked
  }

  lemma LedgerJoin(subscribed: multiset<Channel>, leaving: multiset<Channel>, h: History, ch: Channel)
    requires Ledger(subscribed, leaving, h)
    ensures Ledger(subscribed + multiset{ch}, leaving, h.(joined := h.joined + multiset{ch}))
  {
    assert subscribed + multiset{ch} + (h.asked + h.left) == subscribed + (h.asked + h.left) + multiset{ch};
  }

  lemma LedgerLeft(subscribed: multiset<Channel>, leaving: multiset<Channel>, h: History, ch: Channel)
    requires Ledger(subscribed, leaving, h) && ch in subscribed
    ensures Ledger(subscribed - multiset{ch}, leaving, h.(left := h.left + multiset{ch}))
  {
    assert subscribed - multiset{ch} + (h.asked + (h.left + multiset{ch})) == subscribed + (h.asked + h.left);
  }

  lemma LedgerAsked(subscribed: multiset<Channel>, leaving: multiset<Channel>, h: History, ch: Channel)
    requires Ledger(subscribed, leaving, h) && ch in subscribed
    ensures Ledger(subscribed - multiset{ch}, leaving + multiset{ch}, h.(asked := h.asked + multiset{ch}))
  {
    assert subscribed - multiset{ch} + (h.asked + multiset{ch} + h.left) == subscribed + (h.asked + h.left);
    assert leaving + multiset{ch} + h.released == leaving + h.released + multiset{ch};
  }

  lemma LedgerReleased(subscribed: multiset<Channel>, leaving: multiset<Channel>, h: History, ch: Channel)
    requires Ledger(subscribed, leaving, h) && ch in leaving
    ensures Ledger(subscribed, leaving - multiset{ch}, h.(released := h.released + multiset{ch}))
  {
    assert leaving - multiset{ch} + (h.released + multiset{ch}) == leaving + h.released;
  }

  ghost predicate Consistent(cases: seq<Channel>, inbox: seq<Channel>, subscribed: multiset<Channel>,
                             leaving: multiset<Channel>, h: History) {
    && |cases| >= 1 && cases[0] == REMOVE_SUB
    && Balanced(multiset(inbox), multiset(cases[1..]), subscribed, leaving)
    && Ledger(subscribed, leaving, h)
  }

  lemma OutOfInbox(cases: seq<Channel>, inbox: seq<Channel>, subscribed: multiset<Channel>,
                   leaving: multiset<Channel>, h: History, index: nat)
    requires Consistent(cases, inbox, subscribed, leaving, h) && index < |inbox| && inbox[index] in subscribed
    ensures var x := multiset{inbox[index]};
            && multiset(Delete(inbox, index)) == multiset(inbox) - x
            && Consistent(cases, Delete(inbox, index), subscribed - x, leaving, h.(left := h.left + x))
  {
    hide Balanced, Ledger, Delete;
    LeavesInbox(multiset(inbox), multiset(cases[1..]), subscribed, leaving, inbox[index]);
    LedgerLeft(subscribed, leaving, h, inbox[index]);
    OneFewer(inbox, index);
  }

  lemma Waiting(cases: seq<Channel>, inbox: seq<Channel>, subscribed: multiset<Channel>,
                leaving: multiset<Channel>, h: History, ch: Channel)
    requires Consistent(cases, inbox, subscribed, leaving, h) && ch !in inbox && ch in subscribed
    ensures var x := multiset{ch};
            Consistent(cases, inbox, subscribed - x, leaving + x, h.(asked := h.asked + x))
  {
    hide Balanced, Ledger;
    StartsLeaving(multiset(inbox), multiset(cases[1..]), subscribed, leaving, ch);
    LedgerAsked(subscribed, leaving, h, ch);
  }

  lemma Released(cases: seq<Channel>, inbox: seq<Channel>, subscribed: multiset<Channel>,
                 leaving: multiset<Channel>, h: History, index: nat)
    requires Consistent(cases, inbox, subscribed, leaving, h) && 1 <= index < |cases| && cases[index] in leaving
    ensures var x := multiset{cases[index]};
            Consistent(Delete(cases, index), inbox, subscribed, leaving - x, h.(released := h.released + x))
  {
    hide Balanced, Ledger, Delete;
    OneCaseFewer(cases, index);
    FinishesLeaving(multiset(inbox), multiset(cases[1..]), subscribed, leaving, cases[index]);
    LedgerReleased(subscribed, leaving, h, cases[index]);
  }

  ghost function Joining(actions: seq<Action>): multiset<Channel> {
    if actions == [] then multiset{}
    else
      var last := actions[|actions| - 1];
      Joining(actions[..|actions| - 1]) + if last.Join? then multiset{last.ch} else multiset{}
  }

  ghost function Leaving(actions: seq<Action>): multiset<Channel> {
    if actions == [] then multiset{}
    else
      var last := actions[|actions| - 1];
      Leaving(actions[..|actions| - 1]) + if last.Leave? then multiset{last.ch} else multiset{}
  }

  ghost function JoinsBefore(env: nat -> seq<Action>, k: nat): multiset<Channel> {
    if k == 0 then multiset{} else JoinsBefore(env, k - 1) + Joining(env(k - 1))
  }

  ghost function LeavesBefore(env: nat -> seq<Action>, k: nat): multiset<Channel> {
    if k == 0 then multiset{} else LeavesBefore(env, k - 1) + Leaving(env(k - 1))
  }

  /** The history has grown, by no more than the given requests; nothing was released. */
  ghost predicate Grown(h: History, g: History, joins: multiset<Channel>, leaves: multiset<Channel>) {
    && h.joined <= g.joined <= h.joined + joins
    && h.asked <= g.asked && h.left <= g.left && g.asked + g.left <= h.asked + h.left + leaves
    && g.released == h.released
  }

  lemma GrownStep(h: History, g: History, joins: multiset<Channel>, leaves: multiset<Channel>, a: Action, f: History)
    requires Grown(h, g, joins, leaves)
    requires || f == g || (a.Join? && f == g.(joined := g.joined + multiset{a.ch}))
             || (a.Leave? && f in [g.(left := g.left + multiset{a.ch}), g.(asked := g.asked + multiset{a.ch})])
    ensures Grown(h, f, joins + (if a.Join? then multiset{a.ch} else multiset{}),
                  leaves + if a.Leave? then multiset{a.ch} else multiset{})
  {
    var none: multiset<Channel>, x := multiset{}, multiset{a.ch};
    if f == g {
      Bounded(f.joined, g.joined, h.joined, joins, if a.Join? then x else none);
      Bounded(f.asked + f.left, g.asked + g.left, h.asked + h.left, leaves, if a.Leave? then x else none);
    } else if a.Join? {
      Bounded(f.joined, g.joined, h.joined, joins, x);
      Bounded(f.asked + f.left, g.asked + g.left, h.asked + h.left, leaves, none);
    } else {
      Bounded(f.joined, g.joined, h.joined, joins, none);
      assert f.asked + f.left == g.asked + g.left + x;
      Bounded(f.asked + f.left, g.asked + g.left, h.asked + h.left, leaves, x);
    }
  }

  lemma Bounded(f: multiset<Channel>, g: multiset<Channel>, h: multiset<Channel>, m: multiset<Channel>,
                x: multiset<Channel>)
    requires g <= h + m && f <= g + x
    ensures f <= h + (m + x)
  {}

  /** What happened since Send started: the environment asked for no more than it did in its first `k` turns, and
      the cases removed are those of goroutines that waited. */
  ghost predicate Traced(start: History, h: History, env: nat -> seq<Action>, k: nat, t: Tally) {
    && start.joined <= h.joined <= start.joined + JoinsBefore(env, k)
    && start.asked <= h.asked && start.left <= h.left
    && h.asked + h.left <= start.asked + start.left + LeavesBefore(env, k)
    && h.released == start.released + (t.dropped + t.late)
  }

  lemma TracedStart(h: History, env: nat -> seq<Action>)
    ensures Traced(h, h, env, 0, NOBODY)
  {
    assert h.released + (multiset{} + multiset{}) == h.released;
  }

  lemma TracedTurn(start: History, h: History, g: History, env: nat -> seq<Action>, k: nat, t: Tally)
    requires Traced(start, h, env, k, t) && Grown(h, g, Joining(env(k)), Leaving(env(k)))
    ensures Traced(start, g, env, k + 1, t)
  {
    TurnAdds(env, k);
    hide Joining, Leaving, JoinsBefore, LeavesBefore;
    Bounded(g.joined, h.joined, start.joined, JoinsBefore(env, k), Joining(env(k)));
    Bounded(g.asked + g.left, h.asked + h.left, start.asked + start.left, LeavesBefore(env, k), Leaving(env(k)));
  }

  lemma TurnAdds(env: nat -> seq<Action>, k: nat)
    ensures JoinsBefore(env, k + 1) == JoinsBefore(env, k) + Joining(env(k))
    ensures LeavesBefore(env, k + 1) == LeavesBefore(env, k) + Leaving(env(k))
  {
    hide Joining, Leaving;
  }

  lemma TracedSent(start: History, h: History, env: nat -> seq<Action>, k: nat, t: Tally, ch: Channel)
    requires Traced(start, h, env, k, t)
    ensures Traced(start, h, env, k, t.(delivered := t.delivered + multiset{ch}))
  {}

  lemma TracedRemoved(start: History, h: History, env: nat -> seq<Action>, k: nat, t: Tally, ch: Channel)
    requires Traced(start, h, env, k, t)
    ensures Traced(start, h.(released := h.released + multiset{ch}), env, k, t.(dropped := t.dropped + multiset{ch}))
    ensures Traced(start, h.(released := h.released + multiset{ch}), env, k, t.(late := t.late + multiset{ch}))
  {
    var x := multiset{ch};
    assert start.released + (t.dropped + x + t.late) == start.released + (t.dropped + t.late) + x;
    assert start.released + (t.dropped + (t.late + x)) == start.released + (t.dropped + t.late) + x;
  }

  /** Nobody cancels. */
  ghost predicate Quiet(env: nat -> seq<Action>) {
    forall k: nat :: Leaving(env(k)) == multiset{}
  }

  lemma {:induction false} QuietLeaves(env: nat -> seq<Action>, k: nat)
    requires Quiet(env)
    ensures LeavesBefore(env, k) == multiset{}
  {
    if k > 0 {
      QuietLeaves(env, k - 1);
    }
  }

  /** The cases removed are exactly those whose goroutine waited and no longer does; the subscriptions left are the
      old ones and the new ones without those cancelled; and if nobody waits and nobody cancels, nobody is
      removed. */
  lemma Accounted(start: History, h: History, env: nat -> seq<Action>, k: nat, t: Tally,
                  subscribed0: multiset<Channel>, leaving0: multiset<Channel>, subscribed: multiset<Channel>,
                  leaving: multiset<Channel>)
    requires Traced(start, h, env, k, t) && Ledger(subscribed0, leaving0, start) && Ledger(subscribed, leaving, h)
    ensures t.dropped + t.late + leaving == leaving0 + (h.asked - start.asked)
    ensures subscribed + (h.asked - start.asked) + (h.left - start.left) == subscribed0 + (h.joined - start.joined)
    ensures Quiet(env) && leaving0 == multiset{} ==> t.dropped == t.late == multiset{}
  {
    if Quiet(env) && leaving0 == multiset{} {
      QuietLeaves(env, k);
      NoneAsked(start, h);
      assert h.asked - start.asked == multiset{};
      NothingIn(t.dropped, t.late, leaving);
    }
  }

  lemma NoneAsked(start: History, h: History)
    requires start.asked <= h.asked && start.left <= h.left && h.asked + h.left <= start.asked + start.left + multiset{}
    ensures h.asked == start.asked
  {
    forall c
      ensures h.asked[c] == start.asked[c]
    {
      assert (h.asked + h.left)[c] <= (start.asked + start.left + multiset{})[c];
    }
  }

  lemma NothingIn(a: multiset<Channel>, b: multiset<Channel>, c: multiset<Channel>)
    requires a + b + c == multiset{}
    ensures a == b == multiset{}
  {
    forall x
      ensures a[x] == b[x] == 0
    {
      assert (a + b + c)[x] == 0;
    }
  }

  // ---------- the feed ----------

  class Feed {
    var sendCases: seq<Channel>
    var inbox: seq<Channel>

    /** Subscriptions nobody has asked to remove. */
    var subscribed: multiset<Channel>

    /** Channels whose unsubscribing goroutine did not find them in the inbox and waits in `select`. */
    var leaving: multiset<Channel>

    /** The values the subscribers' channels have received so far. */
    var received: multiset<Channel>

    ghost var history: History

    ghost predicate Valid()
      reads this
    {
      Consistent(sendCases, inbox, subscribed, leaving, history)
    }

    constructor ()
      ensures Valid() && subscribed == leaving == received == multiset{}
    {
      sendCases, inbox, leaving, subscribed, received := [REMOVE_SUB], [], multiset{}, multiset{}, multiset{};
      history := History(multiset{}, multiset{}, multiset{}, multiset{});
    }

    method Subscribe(ch: Channel)
      requires Valid() && ch != REMOVE_SUB
      modifies this`inbox, this`subscribed, this`history
      ensures Valid() && inbox == old(inbox) + [ch] && subscribed == old(subscribed) + multiset{ch}
      ensures history == old(history).(joined := old(history).joined + multiset{ch})
    {
      hide Balanced, Ledger;
      Joins(multiset(inbox), multiset(sendCases[1..]), subscribed, leaving, ch);
      LedgerJoin(subscribed, leaving, history, ch);
      inbox := inbox + [ch];
      subscribed := subscribed + multiset{ch};
      history := history.(joined := history.joined + multiset{ch});
    }

    /** The first half of remove: take the channel out of the inbox, or start waiting. */
    method Unsubscribe(ch: Channel)
      requires Valid() && ch in subscribed
      modifies this`inbox, this`leaving, this`subscribed, this`history
      ensures Valid() && subscribed == old(subscribed) - multiset{ch}
      ensures if ch in old(inbox) then
                && multiset(inbox) == multiset(old(inbox)) - multiset{ch} && leaving == old(leaving)
                && history == old(history).(left := old(history).left + multiset{ch})
              else
                && inbox == old(inbox) && leaving == old(leaving) + multiset{ch}
                && history == old(history).(asked := old(history).asked + multiset{ch})
    {
      hide Consistent, Delete;
      var index := Find(inbox, ch);
      if index != -1 {
        OutOfInbox(sendCases, inbox, subscribed, leaving, history, index);
        inbox := Delete(inbox, index);
        history := history.(left := history.left + multiset{ch});
      } else {
        Waiting(sendCases, inbox, subscribed, leaving, history, ch);
        leaving := leaving + multiset{ch};
        history := history.(asked := history.asked + multiset{ch});
      }
      subscribed := subscribed - multiset{ch};
    }

    /** A waiting goroutine's channel always has a case, and not in slot 0, so `delete` does not panic. */
    method FindLeaving(ch: Channel) returns (index: nat)
      requires Valid() && ch in leaving
      ensures 1 <= index < |sendCases| && sendCases[index] == ch && ch !in sendCases[..index]
    {
      assert ch in sendCases[1..];
      index := Find(sendCases, ch);
    }

    /** Delete the case of a waiting goroutine and let it go on. */
    method Release(index: nat)
      requires Valid() && 1 <= index < |sendCases| && sendCases[index] in leaving
      modifies this`sendCases, this`leaving, this`history
      ensures Valid() && leaving == old(leaving) - multiset{old(sendCases)[index]}
      ensures sendCases == Delete(old(sendCases), index)
      ensures history == old(history).(released := old(history).released + multiset{old(sendCases)[index]})
    {
      hide Consistent, Delete;
      var ch := sendCases[index];
      Released(sendCases, inbox, subscribed, leaving, history, index);
      sendCases := Delete(sendCases, index);
      leaving := leaving - multiset{ch};
      history := history.(released := history.released + multiset{ch});
    }

    /** The second half of remove when no Send is in progress. */
    method RemoveIdle(ch: Channel)
      requires Valid() && ch in leaving
      modifies this`sendCases, this`leaving, this`history
      ensures Valid() && leaving == old(leaving) - multiset{ch}
      ensures multiset(sendCases[1..]) == multiset(old(sendCases)[1..]) - multiset{ch}
    {
      hide Balanced, Ledger;
      var index := FindLeaving(ch);
      OneCaseFewer(sendCases, index);
      Release(index);
    }

    /** What other goroutines do meanwhile. A subscription is cancelled at most once. */
    method Interleave(actions: seq<Action>)
      requires Valid()
      modifies this`inbox, this`leaving, this`subscribed, this`history
      ensures Valid() && Grown(old(history), history, Joining(actions), Leaving(actions))
    {
      hide Balanced, Ledger, Grown;
      GrownNothing(history);
      for i := 0 to |actions|
        invariant Valid() && Grown(old(history), history, Joining(actions[..i]), Leaving(actions[..i]))
      {
        var a := actions[i];
        assert actions[..i + 1][..i] == actions[..i];
        ghost var before := history;
        if a.Join? && a.ch != REMOVE_SUB {
          Subscribe(a.ch);
        } else if a.Leave? && a.ch in subscribed {
          Unsubscribe(a.ch);
        }
        GrownStep(old(history), before, Joining(actions[..i]), Leaving(actions[..i]), a, history);
      }
      assert actions[..|actions|] == actions;
    }

    /** Case `i` accepted the value: it moves out of the active part. */
    method Deliver(n: nat, i: nat)
      requires Valid() && 1 <= i < n <= |sendCases|
      modifies this`sendCases, this`received
      ensures Valid() && sendCases == Swap(old(sendCases), i, n - 1)
      ensures received == old(received) + multiset{old(sendCases)[i]}
    {
      hide Balanced, Ledger, Active, Done;
      Deactivate(sendCases, n, i);
      received := received + multiset{sendCases[i]};
      sendCases := Swap(sendCases, i, n - 1);
    }

    /** Merge the inbox at the start of Send. */
    method TakeInbox()
      requires Valid()
      modifies this`sendCases, this`inbox
      ensures Valid() && sendCases == old(sendCases) + old(inbox) && inbox == []
    {
      hide Balanced, Ledger;
      Merges(multiset(inbox), multiset(sendCases[1..]), subscribed, leaving);
      assert (sendCases + inbox)[1..] == sendCases[1..] + inbox;
      sendCases, inbox := sendCases + inbox, [];
    }

    /** The fast path: offer the value to each active case without blocking. Any of them may accept it, and the
        others take their turns meanwhile. */
    method TryAll(n0: nat, env: nat -> seq<Action>, k0: nat, ghost start: Start, ghost t0: Tally)
      returns (n: nat, sent: nat, k: nat, ghost t: Tally)
      requires Valid() && Progress(start, sendCases, received, n0, t0) && Traced(start.history, history, env, k0, t0)
      modifies this
      ensures Valid() && Progress(start, sendCases, received, n, t) && Traced(start.history, history, env, k, t)
      ensures |sendCases| == |old(sendCases)| && n <= n0 && sent == n0 - n && |t.delivered| == |t0.delivered| + sent
    {
      hide Valid, Progress, Traced, Grown;
      Within(start, sendCases, received, n0, t0);
      n, sent, k, t := n0, 0, k0, t0;
      var i := FIRST_SUB_SEND_CASE;
      while i < n
        invariant Valid() && Progress(start, sendCases, received, n, t) && Traced(start.history, history, env, k, t)
        invariant |sendCases| == |old(sendCases)|
        invariant 1 <= i <= n <= n0 && sent == n0 - n && |t.delivered| == |t0.delivered| + sent
        decreases n - i
      {
        ghost var before := history;
        Interleave(env(k));
        TracedTurn(start.history, before, history, env, k, t);
        k := k + 1;
        Within(start, sendCases, received, n, t);
        var accepted: bool := *;
        if accepted {
          ProgressSent(start, sendCases, received, n, t, i);
          TracedSent(start.history, history, env, k, t, sendCases[i]);
          t := t.(delivered := t.delivered + multiset{sendCases[i]});
          Deliver(n, i);
          n, sent := n - 1, sent + 1;
        } else {
          i := i + 1;
        }
      }
    }

    /** The blocking select: some active case accepts the value, or the case of a waiting goroutine is removed and
        it waits no longer. Either way the measure goes down. */
    method Select(n0: nat, ghost env: nat -> seq<Action>, ghost k: nat, ghost start: Start, ghost t0: Tally)
      returns (n: nat, sent: nat, ghost t: Tally)
      requires Valid() && Progress(start, sendCases, received, n0, t0) && Traced(start.history, history, env, k, t0)
      requires n0 > FIRST_SUB_SEND_CASE
      modifies this`sendCases, this`leaving, this`received, this`history
      ensures Valid() && Progress(start, sendCases, received, n, t) && Traced(start.history, history, env, k, t)
      ensures |sendCases| + n < |old(sendCases)| + n0 && |t.delivered| == |t0.delivered| + sent
      ensures if sent == 0 then exists ch :: ch in old(leaving) && leaving == old(leaving) - multiset{ch}
              else sent == 1 && leaving == old(leaving)
    {
      hide Balanced, Ledger, Progress, Traced;
      Within(start, sendCases, received, n0, t0);
      n, sent, t := n0, 0, t0;
      var remove: bool := *;
      if remove && leaving != multiset{} {
        var ch :| ch in leaving;
        var index := FindLeaving(ch);
        ProgressRemoved(start, sendCases, received, n, t, index);
        TracedRemoved(start.history, history, env, k, t, ch);
        Release(index);
        if index < n {
          n, t := n - 1, t.(dropped := t.dropped + multiset{ch});
        } else {
          t := t.(late := t.late + multiset{ch});
        }
      } else {
        var chosen: nat :| 1 <= chosen < n;
        ProgressSent(start, sendCases, received, n, t, chosen);
        TracedSent(start.history, history, env, k, t, sendCases[chosen]);
        t := t.(delivered := t.delivered + multiset{sendCases[chosen]});
        Deliver(n, chosen);
        n, sent := n - 1, 1;
      }
    }

    /** For every schedule of ready channels and removals: each channel subscribed at the start is given the
        value exactly once, unless it is removed first; `nsent` counts the deliveries; the cases left are the
        initial ones without the removed ones, with slot 0 in place. A case is removed only for a goroutine that
        asked for it, before Send or in one of the environment's turns; if nobody did, everybody gets the
        value. */
    method Send(env: nat -> seq<Action>) returns (nsent: nat, ghost t: Tally, ghost turns: nat)
      requires Valid()
      modifies this
      ensures Valid() && received == old(received) + t.delivered && nsent == |t.delivered|
      ensures t.delivered + t.dropped == multiset(old(sendCases)[1..]) + multiset(old(inbox))
      ensures multiset(sendCases[1..]) + t.late == t.delivered
      ensures Traced(old(history), history, env, turns, t)
      ensures t.dropped + t.late + leaving == old(leaving) + (history.asked - old(history).asked)
      ensures subscribed + (history.asked - old(history).asked) + (history.left - old(history).left) ==
              old(subscribed) + (history.joined - old(history).joined)
      ensures Quiet(env) && old(leaving) == multiset{} ==>
                t.delivered == multiset(sendCases[1..]) == multiset(old(sendCases)[1..]) + multiset(old(inbox))
    {
      hide Balanced, Traced, Active, Done;
      ghost var start := Start(multiset(sendCases[1..]) + multiset(inbox), received, history);
      assert (sendCases + inbox)[1..] == sendCases[1..] + inbox;
      TakeInbox();
      Everyone(start, sendCases);
      TracedStart(history, env);
      nsent, t, turns := SendAll(env, start);
      NoneActive(start, sendCases, received, t);
      Accounted(start.history, history, env, turns, t, old(subscribed), old(leaving), subscribed, leaving);
    }

    method SendAll(env: nat -> seq<Action>, ghost start: Start) returns (nsent: nat, ghost t: Tally, k: nat)
      requires Valid() && Progress(start, sendCases, received, |sendCases|, NOBODY)
      requires Traced(start.history, history, env, 0, NOBODY)
      modifies this
      ensures Valid() && Progress(start, sendCases, received, FIRST_SUB_SEND_CASE, t)
      ensures Traced(start.history, history, env, k, t) && nsent == |t.delivered|
    {
      hide Valid, Progress, Traced, Grown;
      nsent, t, k := 0, NOBODY, 0;
      var n: nat := |sendCases|;
      while true
        invariant Valid() && Progress(start, sendCases, received, n, t) && Traced(start.history, history, env, k, t)
        invariant nsent == |t.delivered|
        decreases |sendCases| + n
      {
        var sent;
        n, sent, k, t := TryAll(n, env, k, start, t);
        nsent := nsent + sent;
        if n == FIRST_SUB_SEND_CASE {
          break;
        }
        ghost var before := history;
        Interleave(env(k));
        TracedTurn(start.history, before, history, env, k, t);
        k := k + 1;
        Within(start, sendCases, received, n, t);
        n, sent, t := Select(n, env, k, start, t);
        nsent := nsent + sent;
      }
    }
  }

  lemma GrownNothing(h: History)
    ensures Grown(h, h, Joining([]), Leaving([]))
  {}

  lemma OneFewer(cases: seq<Channel>, index: nat)
    requires index < |cases|
    ensures multiset(Delete(cases, index)) == multiset(cases) - multiset{cases[index]}
  {
    DeleteTakesOne(cases, index);
  }

  lemma OneCaseFewer(cases: seq<Channel>, index: nat)
    requires 1 <= index < |cases|
    ensures Delete(cases, index)[0] == cases[0]
    ensures multiset(Delete(cases, index)[1..]) == multiset(cases[1..]) - multiset{cases[index]}
  {
    assert Delete(cases, index)[1..] == Delete(cases[1..], index - 1);
    OneFewer(cases[1..], index - 1);
  }

  lemma Everyone(start: Start, cases: seq<Channel>)
    requires |cases| >= 1 && start.channels == multiset(cases[1..])
    ensures Progress(start, cases, start.received, |cases|, NOBODY)
  {
    assert cases[1..|cases|] == cases[1..];
    assert cases[|cases|..] == [];
    assert start.channels + (multiset{} + multiset{}) == start.channels;
    assert start.received + multiset{} == start.received;
  }

  lemma Within(start: Start, cases: seq<Channel>, received: multiset<Channel>, n: nat, t: Tally)
    requires Progress(start, cases, received, n, t)
    ensures 1 <= n <= |cases|
  {}

  lemma NoneActive(start: Start, cases: seq<Channel>, received: multiset<Channel>, t: Tally)
    requires Progress(start, cases, received, 1, t)
    ensures t.delivered + t.dropped == start.channels && multiset(cases[1..]) + t.late == t.delivered
    ensures received == start.received + t.delivered
  {
    assert cases[1..1] == [];
    assert multiset{} + (t.delivered + t.dropped) == t.delivered + t.dropped;
  }
}
