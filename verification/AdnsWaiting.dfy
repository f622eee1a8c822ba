/**
 Waiting for the network: retries, the TCP connection and time-outs, for the queues of module
 `AdnsQueues` (adns/event.c:53-287).
 */
module AdnsWaiting {
  import opened Wrappers
  import opened Sequences
  import opened AdnsQueues
  import TimeVal

  // ----- the retries that are left -----

  /** How many retries the queries of `s` have left before all of them must have been failed. */
  ghost function Slack(q: map<Id, Query>, s: seq<Id>, n: nat): nat
    requires forall x :: x in s ==> x in q
  {
    if s == [] then 0
    else
      var x := s[|s| - 1];
      Slack(q, s[..|s| - 1], n) + if q[x].retries <= n then n + 1 - q[x].retries else 0
  }

  lemma SlackOfNone(q: map<Id, Query>, n: nat)
    ensures Slack(q, [], n) == 0
  {
  }

  lemma SlackOfLast(q: map<Id, Query>, s: seq<Id>, x: Id, n: nat)
    requires x in q && forall y :: y in s ==> y in q
    ensures Slack(q, s + [x], n) == Slack(q, s, n) + if q[x].retries <= n then n + 1 - q[x].retries else 0
  {
    assert (s + [x])[..|s|] == s;
  }

  /** Unlinking queries and adding retries never gives slack back, and when every query either
      leaves or is retried once more, at least one unit a query is gone. */
  lemma {:induction false} SlackDrops(q: map<Id, Query>, q': map<Id, Query>, s: seq<Id>, d: set<Id>, n: nat)
    requires forall x :: x in s ==> x in q
    requires forall x :: x in s && x !in d ==> x in q' && q'[x].retries >= q[x].retries
    ensures Slack(q', Without(s, d), n) <= Slack(q, s, n)
    ensures (forall x :: x in s ==> q[x].retries <= n)
            && (forall x :: x in s && x !in d ==> q'[x].retries > q[x].retries)
            ==> Slack(q', Without(s, d), n) + |s| <= Slack(q, s, n)
  {
    hide Slack, Without;
    if s == [] {
      WithoutBounds(s, d);
      SlackOfNone(q, n);
      SlackOfNone(q', n);
    } else {
      var front, x := s[..|s| - 1], s[|s| - 1];
      assert s == front + [x];
      SlackDrops(q, q', front, d, n);
      WithoutLast(front, x, d);
      SlackOfLast(q, front, x, n);
      if x !in d {
        SlackOfLast(q', Without(front, d), x, n);
      } else {
        assert Without(front, d) + [] == Without(front, d);
      }
    }
  }

  /** One query of `s` retried once more costs slack, if it had any. */
  lemma {:induction false} SlackOfOne(q: map<Id, Query>, s: seq<Id>, x: Id, n: nat)
    requires forall y :: y in s ==> y in q
    requires x in s && q[x].retries <= n
    ensures Slack(q[x := q[x].(retries := q[x].retries + 1)], s, n) < Slack(q, s, n)
  {
    hide Without;
    var q' := q[x := q[x].(retries := q[x].retries + 1)];
    var front := s[..|s| - 1];
    SlackDrops(q, q', front, {}, n);
    WithoutBounds(front, {});
    if s[|s| - 1] != x {
      SlackOfOne(q, front, x, n);
    }
  }

  // ----- waiting for the network -----

  /** Only the retries of queries that wait for TCP changed. */
  ghost predicate OnlyRetries(v: View, w: View) {
    && w == v.(q := w.q, breaks := w.breaks) && w.breaks >= v.breaks && w.q.Keys == v.q.Keys
    && (forall x :: x in v.q ==> w.q[x] == v.q[x].(retries := w.q[x].retries))
    && (forall x :: x in v.q && x !in v.tcpw ==> w.q[x] == v.q[x])
    && (forall x :: x in v.tcpw && x in v.q ==> w.q[x].retries >= v.q[x].retries)
  }

  lemma RetriesKeepInv(v: View, w: View, f: set<Id>, nservers: nat, cap: nat, cap': nat)
    requires v.Inv(f, nservers, cap) && OnlyRetries(v, w)
    requires forall x :: x in v.tcpw ==> w.q[x].retries <= cap'
    ensures w.Inv(f, nservers, cap')
  {
    hide Without;
    forall y | y in w.q
      ensures w.Sound(y, f, nservers, cap')
    {
      RetriesKeepSound(v, w, y, f, nservers, cap, cap');
    }
    SameHistory(v, w);
  }

  lemma RetriesKeepSound(v: View, w: View, y: Id, f: set<Id>, nservers: nat, cap: nat, cap': nat)
    requires y in v.q && v.Sound(y, f, nservers, cap) && OnlyRetries(v, w)
    requires y in v.tcpw ==> w.q[y].retries <= cap'
    ensures w.Sound(y, f, nservers, cap')
  {
    hide Without;
  }

  /** What TCP events do to everybody else: queries that wait for TCP may be retried or finished, but
      those that stay keep their place, and those that wait for UDP are not touched. */
  ghost predicate Aged(v: View, w: View) {
    && w.udpw == v.udpw
    && w.tcpw == Without(v.tcpw, Missing(v, w))
    && (forall x :: x in w.udpw && x in v.q ==> x in w.q && w.q[x] == v.q[x])
    && (forall x :: x in w.tcpw && x in v.q ==>
          x in w.q && w.q[x] == v.q[x].(retries := w.q[x].retries) && w.q[x].retries >= v.q[x].retries)
    && w.submitted == v.submitted && w.taken == v.taken && w.cancelled == v.cancelled && w.next == v.next
    && v.answered <= w.answered && w.breaks >= v.breaks && w.waits == v.waits && SameAsks(v, w)
  }

  ghost function Missing(v: View, w: View): set<Id> {
    set x | x in v.tcpw && x !in w.tcpw
  }

  lemma AgedTwice(u: View, v: View, w: View)
    requires Aged(u, v) && Aged(v, w)
    requires forall x :: x in u.udpw || x in u.tcpw ==> x in u.q
    ensures Aged(u, w)
  {
    hide Without;
    WithoutTwice(u.tcpw, Missing(u, v), Missing(v, w));
    assert Missing(u, v) + Missing(v, w) == Missing(u, w);
  }

  lemma RetriesAge(v: View, w: View)
    requires OnlyRetries(v, w) && forall x :: x in v.udpw ==> x !in v.tcpw
    ensures Aged(v, w)
  {
    hide Without;
    WithoutBounds(v.tcpw, {});
    assert Missing(v, w) == {};
  }

  /** A query that leaves a queue of waiting queries and is finished: of the others on those queues,
      none moves and none changes. */
  lemma FailedAlone(v: View, x: Id, nservers: nat, cap: nat)
    requires v.Inv({}, nservers, cap) && (x in v.udpw || x in v.tcpw)
    ensures x in v.q && v.q[x].state != Done && v.Unlinked(x).Linked(x) && v.Unlinked(x).Inv({x}, nservers, cap)
    ensures var w := v.Unlinked(x).Completed(x);
            && w.Inv({}, nservers, cap)
            && w.udpw == Without(v.udpw, {x}) && w.tcpw == Without(v.tcpw, {x})
            && (forall y :: y in w.udpw || y in w.tcpw ==> y in w.q && w.q[y] == v.q[y])
            && w.submitted == v.submitted && w.taken == v.taken && w.cancelled == v.cancelled && w.next == v.next
            && v.answered <= w.answered && w.breaks == v.breaks && w.waits == v.waits && SameAsks(v, w)
  {
    hide Without, View.HistoryInv, SameAsks;
    OneQueue(v, x, {}, nservers, cap);
    CompletedAsks(v, x);
    assert v.Sound(x, {}, nservers, cap);
    UnlinkedKeepsInv(v, x, {}, nservers, cap);
    assert {} + {x} == {x};
    var u := v.Unlinked(x);
    CompletedInSteps(u, x, nservers, cap);
    FinishingMovesNobody(u, x, nservers, cap);
  }

  /** Finishing a childless query on no queue leaves the waiting queues as they are. */
  lemma FinishingMovesNobody(v: View, x: Id, nservers: nat, cap: nat)
    requires v.Inv({x}, nservers, cap) && x in v.q && v.q[x].state != Done && v.Linked(x)
    requires v.q[x].children == []
    ensures var w := v.Completed(x);
            && w.udpw == v.udpw && w.tcpw == v.tcpw
            && (forall y :: y in w.udpw || y in w.tcpw ==> y in w.q && w.q[y] == v.q[y])
            && w.submitted == v.submitted && w.taken == v.taken && w.cancelled == v.cancelled && w.next == v.next
            && v.answered <= w.answered && w.breaks == v.breaks && w.waits == v.waits
  {
    hide Without, View.HistoryInv, View.QueueInv, View.Sound;
    OneQueue(v, x, {x}, nservers, cap);
    assert v.ChildSet(x) == {};
    DroppedNothing(v);
    forall y | y in v.udpw || y in v.tcpw
      ensures y in v.q && y != x && v.q[x].parent != Some(y) && Without(v.q[y].children, {x}) == v.q[y].children
    {
      Bystander(v, x, y, nservers, cap);
    }
    match v.q[x].parent {
      case None =>
      case Some(p) =>
        LastChildMovesNobody(v, x, p);
        assert v.Completed(x) ==
          (var u := v.Unlinked(p).Dropped({x});
           if p !in u.q then u else if u.q[p].children != [] then u.Waiting(p) else u.Finished(p));
    }
  }

  /** A child leaves, and its parent is moved: neither waits for the network. */
  lemma LastChildMovesNobody(v: View, x: Id, p: Id)
    requires forall y :: y in v.udpw || y in v.tcpw ==>
      y in v.q && y != x && y != p && Without(v.q[y].children, {x}) == v.q[y].children
    ensures var u := v.Unlinked(p).Dropped({x});
            && u.udpw == v.udpw && u.tcpw == v.tcpw
            && (forall y :: y in v.udpw || y in v.tcpw ==> y in u.q && y != p && u.q[y] == v.q[y])
            && u == v.(q := u.q, childw := u.childw, output := u.output)
  {
    hide Without;
    WithoutBounds(v.udpw, {p});
    WithoutBounds(v.tcpw, {p});
    WithoutBounds(v.udpw, {x});
    WithoutBounds(v.tcpw, {x});
  }

  lemma Bystander(v: View, x: Id, y: Id, nservers: nat, cap: nat)
    requires v.QueueInv({x}, nservers, cap) && x in v.q && v.Linked(x) && (y in v.udpw || y in v.tcpw)
    ensures y in v.q && y != x && v.q[x].parent != Some(y) && Without(v.q[y].children, {x}) == v.q[y].children
  {
    hide Without;
    OneQueue(v, x, {x}, nservers, cap);
    OneQueue(v, y, {x}, nservers, cap);
    assert v.Sound(y, {x}, nservers, cap);
    WithoutBounds(v.q[y].children, {x});
  }

  /** One query of those that wait for TCP was retried once more. */
  lemma RetriedOnce(v: View, x: Id, nservers: nat, cap: nat)
    requires v.Inv({}, nservers, cap) && x in v.tcpw && x in v.q && v.q[x].retries < cap
    ensures var w := v.(q := v.q[x := v.q[x].(retries := v.q[x].retries + 1)]);
            w.Inv({}, nservers, cap) && OnlyRetries(v, w)
  {
    hide Without;
    var w := v.(q := v.q[x := v.q[x].(retries := v.q[x].retries + 1)]);
    forall y | y in v.tcpw
      ensures w.q[y].retries <= cap
    {
      assert v.Sound(y, {}, nservers, cap);
    }
    RetriesKeepInv(v, w, {}, nservers, cap, cap);
  }

  /** All queries that wait for TCP were retried once more. */
  lemma RetriedAll(v: View, nservers: nat, cap: nat)
    requires v.Inv({}, nservers, cap)
    ensures v.(q := Bumped(v.q, v.tcpw)).Inv({}, nservers, cap + 1)
    ensures OnlyRetries(v, v.(q := Bumped(v.q, v.tcpw)))
  {
    hide Without;
    var w := v.(q := Bumped(v.q, v.tcpw));
    forall y | y in v.tcpw
      ensures w.q[y].retries <= cap + 1
    {
      assert v.Sound(y, {}, nservers, cap);
    }
    RetriesKeepInv(v, w, {}, nservers, cap, cap + 1);
  }

  /** With a larger cap the invariant still holds; with a smaller one, if nobody exceeds it. */
  lemma OtherCap(v: View, f: set<Id>, nservers: nat, cap: nat, cap': nat)
    requires v.Inv(f, nservers, cap)
    requires cap <= cap' || forall x :: x in v.tcpw && x in v.q ==> v.q[x].retries <= cap'
    ensures v.Inv(f, nservers, cap')
  {
    forall y | y in v.q
      ensures v.Sound(y, f, nservers, cap')
    {
      assert v.Sound(y, f, nservers, cap);
    }
  }

  /** Nobody who waits for TCP has more than `cap` retries, and nobody waits for both. */
  lemma WaitingForTcp(v: View, f: set<Id>, nservers: nat, cap: nat)
    requires v.Inv(f, nservers, cap)
    ensures NoDup(v.tcpw)
    ensures forall x :: x in v.tcpw ==> x in v.q && v.q[x].state == TcpW && v.q[x].retries <= cap && x !in v.udpw
    ensures forall x :: x in v.udpw ==>
      x in v.q && v.q[x].state == ToSend && v.q[x].children == [] && !v.q[x].WantsTcp()
  {
    forall x | x in v.tcpw
      ensures x in v.q && v.q[x].state == TcpW && v.q[x].retries <= cap && x !in v.udpw
    {
      assert v.Sound(x, f, nservers, cap);
    }
    forall x | x in v.udpw
      ensures x in v.q && v.q[x].state == ToSend && v.q[x].children == [] && !v.q[x].WantsTcp()
    {
      assert v.Sound(x, f, nservers, cap);
    }
  }

  lemma AgedNothing(v: View)
    ensures Aged(v, v)
  {
    hide Without;
    assert Missing(v, v) == {};
    WithoutBounds(v.tcpw, {});
  }

  /** The queries that have used up their retries, with `n` servers. */
  ghost function Exhausted(v: View, s: seq<Id>, n: nat): set<Id> {
    set x | x in s && x in v.q && v.q[x].retries > n
  }

  /** Aging uses up slack; a retry for everybody uses up at least one unit each. */
  lemma AgedSlack(v: View, w: View, n: nat)
    requires Aged(v, w)
    requires forall x :: x in v.tcpw ==> x in v.q
    ensures forall x :: x in w.tcpw ==> x in w.q
    ensures Slack(w.q, w.tcpw, n) <= Slack(v.q, v.tcpw, n)
    ensures (forall x :: x in v.tcpw ==> v.q[x].retries <= n)
            && (forall x :: x in w.tcpw ==> w.q[x].retries > v.q[x].retries)
            ==> Slack(w.q, w.tcpw, n) + |v.tcpw| <= Slack(v.q, v.tcpw, n)
  {
    hide Without;
    SlackDrops(v.q, w.q, v.tcpw, Missing(v, w), n);
  }

  /** One more query that waits for TCP is failed. */
  lemma FailedWhileAging(u: View, v: View, x: Id, nservers: nat, cap: nat)
    requires v.Inv({}, nservers, cap) && x in v.tcpw && Aged(u, v)
    requires forall y :: y in u.udpw || y in u.tcpw ==> y in u.q
    ensures x in v.q && v.q[x].state != Done && v.Unlinked(x).Linked(x) && v.Unlinked(x).Inv({x}, nservers, cap)
    ensures var w := v.Unlinked(x).Completed(x);
            && Aged(u, w) && w.tcpw == Without(v.tcpw, {x}) && |w.tcpw| < |v.tcpw| && w.breaks == v.breaks
            && Missing(u, w) == Missing(u, v) + {x}
            && (forall y :: y in w.tcpw ==> y in w.q && w.q[y] == v.q[y])
  {
    hide Without, View.QueueInv, View.HistoryInv, View.Sound, View.Completed, Aged;
    FailedAlone(v, x, nservers, cap);
    WaitingForTcp(v, {}, nservers, cap);
    WithoutShorter(v.tcpw, x);
    var w := v.Unlinked(x).Completed(x);
    FailedAges(v, w, x);
    AgedTwice(u, v, w);
    AgedKeepsOrder(u, v);
  }

  lemma FailedAges(v: View, w: View, x: Id)
    requires x in v.tcpw && x !in v.udpw && forall y :: y in v.udpw || y in v.tcpw ==> y in v.q
    requires w.udpw == Without(v.udpw, {x}) && w.tcpw == Without(v.tcpw, {x})
    requires forall y :: y in w.udpw || y in w.tcpw ==> y in w.q && w.q[y] == v.q[y]
    requires w.submitted == v.submitted && w.taken == v.taken && w.cancelled == v.cancelled && w.next == v.next
    requires v.answered <= w.answered && w.breaks == v.breaks && w.waits == v.waits && SameAsks(v, w)
    ensures Aged(v, w) && Missing(v, w) == {x}
  {
    hide Without;
    WithoutBounds(v.udpw, {x});
    assert Missing(v, w) == {x};
  }

  lemma AgedKeepsOrder(u: View, v: View)
    requires Aged(u, v)
    ensures forall x :: x in v.tcpw ==> x in u.tcpw
  {
    hide Without;
  }

  /** `tcp_broken_events` under way: among the first `i` of the queue nobody has used up the retries,
      and only queries that have are gone. */
  ghost predicate Purged(v: View, w: View, i: nat, n: nat) {
    && Aged(v, w) && w.breaks == v.breaks && i <= |w.tcpw|
    && (forall x :: x in v.udpw || x in v.tcpw ==> x in v.q)
    && Missing(v, w) <= Exhausted(v, v.tcpw, n)
    && (forall x :: x in w.tcpw ==> x in w.q && x in v.q && w.q[x] == v.q[x])
    && (forall j :: 0 <= j < i ==> w.q[w.tcpw[j]].retries <= n)
  }

  lemma PurgeStarts(v: View, n: nat, cap: nat)
    requires v.Inv({}, n, cap)
    ensures Purged(v, v, 0, n)
  {
    hide Without, View.QueueInv, View.HistoryInv, View.Sound;
    AgedNothing(v);
    WaitingForTcp(v, {}, n, cap);
  }

  lemma PurgeStep(v: View, w: View, i: nat, n: nat, nservers: nat, cap: nat)
    requires Purged(v, w, i, n) && w.Inv({}, nservers, cap) && i < |w.tcpw|
    ensures w.tcpw[i] in w.q && (w.q[w.tcpw[i]].retries <= n ==> Purged(v, w, i + 1, n))
    ensures var x := w.tcpw[i];
            && w.q[x].state != Done && w.Unlinked(x).Linked(x) && w.Unlinked(x).Inv({x}, nservers, cap)
            && |w.Unlinked(x).Completed(x).tcpw| < |w.tcpw|
            && (w.q[x].retries > n ==>
                  Purged(v, w.Unlinked(x).Completed(x), i, n) && i <= |w.Unlinked(x).Completed(x).tcpw|)
  {
    hide Without, View.QueueInv, View.HistoryInv, View.Sound, SameAsks;
    var x := w.tcpw[i];
    FailedWhileAging(v, w, x, nservers, cap);
    WaitingForTcp(w, {}, nservers, cap);
    WithoutIndex(w.tcpw, i);
  }

  lemma PurgeEnds(v: View, w: View, n: nat, nservers: nat)
    requires Purged(v, w, |w.tcpw|, n) && w.Inv({}, nservers, n + 1)
    ensures w.Inv({}, nservers, n) && Aged(v, w) && w.breaks == v.breaks
    ensures w.tcpw == Without(v.tcpw, Exhausted(v, v.tcpw, n))
    ensures forall x :: x in w.tcpw ==> x in w.q && x in v.q && w.q[x] == v.q[x]
  {
    hide Without, View.QueueInv, View.HistoryInv, View.Sound;
    assert Missing(v, w) == Exhausted(v, v.tcpw, n);
    OtherCap(w, {}, nservers, n + 1, n);
  }

  /** A retry of the first in the queue, or of everybody, costs slack. */
  lemma RetriesCostSlack(v: View, w: View, n: nat, nservers: nat)
    requires v.Inv({}, nservers, n) && OnlyRetries(v, w) && v.tcpw != []
    requires v.tcpw[0] in v.q && v.tcpw[0] in w.q && w.q[v.tcpw[0]].retries > v.q[v.tcpw[0]].retries
    ensures Aged(v, w) && (forall x :: x in w.tcpw ==> x in w.q) && (forall x :: x in v.tcpw ==> x in v.q)
    ensures Slack(w.q, w.tcpw, n) < Slack(v.q, v.tcpw, n)
  {
    hide Without, View.QueueInv, View.HistoryInv, View.Sound, Slack, Missing;
    WaitingForTcp(v, {}, nservers, n);
    RetriesAge(v, w);
    var x := v.tcpw[0];
    var u := v.q[x := v.q[x].(retries := v.q[x].retries + 1)];
    SlackOfOne(v.q, v.tcpw, x, n);
    SlackDrops(u, w.q, v.tcpw, {}, n);
    WithoutBounds(v.tcpw, {});
  }

  ghost predicate WellQueued(v: View) {
    forall x :: x in v.udpw || x in v.tcpw ==> x in v.q
  }

  lemma AfterConnected(v: View, w: View, n: nat)
    requires v.Inv({}, n, n) && OnlyRetries(v, w)
    requires v.tcpw != [] ==> var x := v.tcpw[0]; x in v.q && x in w.q && w.q[x].retries > v.q[x].retries
    ensures Aged(v, w) && WellQueued(v) && WellQueued(w)
    ensures Slack(w.q, w.tcpw, n) <= Slack(v.q, v.tcpw, n)
    ensures v.tcpw != [] ==> Slack(w.q, w.tcpw, n) < Slack(v.q, v.tcpw, n)
  {
    hide Without, View.QueueInv, View.HistoryInv, View.Sound;
    WaitingForTcp(v, {}, n, n);
    RetriesAge(v, w);
    AgedSlack(v, w, n);
    if v.tcpw != [] {
      RetriesCostSlack(v, w, n, n);
    }
  }

  /** A query that joins the queue its state names. */
  ghost predicate Requeued(v: View, w: View, x: Id, nservers: nat, cap: nat)
    requires x in v.q && x in w.q
  {
    && w == v.(q := v.q[x := w.q[x]], udpw := w.udpw, tcpw := w.tcpw, waits := w.waits)
    && w.udpw == v.udpw + (if w.q[x].state == ToSend then [x] else [])
    && w.tcpw == v.tcpw + (if w.q[x].state == TcpW then [x] else [])
    && w.q[x].parent == v.q[x].parent && w.q[x].children == v.q[x].children == [] && w.q[x].flat == v.q[x].flat
    && w.q[x].InTurn(nservers)
    && match w.q[x].state
       case ToSend => 1 <= w.q[x].retries <= UDPMAXRETRIES && w.q[x].udpsent != {} && !w.q[x].WantsTcp()
       case TcpW => w.q[x].retries <= cap
       case _ => false
  }

  lemma RequeuedKeepsQueues(v: View, w: View, x: Id, nservers: nat, cap: nat)
    requires v.QueueInv({x}, nservers, cap) && x in v.q && v.Linked(x) && x in w.q && Requeued(v, w, x, nservers, cap)
    ensures w.QueueInv({}, nservers, cap)
  {
    hide Without;
    assert {} + {x} == {x};
    forall y | y in w.q
      ensures w.Sound(y, {}, nservers, cap)
    {
      assert v.Sound(y, {} + {x}, nservers, cap) && v.Sound(x, {} + {x}, nservers, cap);
      RequeuedKeepsSound(v, w, y, x, {}, nservers, cap);
    }
    assert v.Sound(x, {x}, nservers, cap);
  }

  lemma SentUdpKeepsInv(v: View, x: Id, now: int, nservers: nat, cap: nat)
    requires v.Inv({x}, nservers, cap) && x in v.q && v.Linked(x) && nservers > 0
    requires v.q[x].state == ToSend && v.q[x].children == [] && v.q[x].retries < UDPMAXRETRIES && !v.q[x].WantsTcp()
    ensures v.SentUdp(x, now, nservers).Inv({}, nservers, cap)
  {
    hide Without, View.HistoryInv;
    var w := v.SentUdp(x, now, nservers);
    assert v.Sound(x, {x}, nservers, cap);
    RequeuedKeepsQueues(v, w, x, nservers, cap);
    SameHistory(v, w);
  }

  lemma QueuedTcpKeepsInv(v: View, x: Id, now: int, retries: nat, nservers: nat, cap: nat)
    requires v.Inv({x}, nservers, cap) && x in v.q && v.Linked(x)
    requires v.q[x].state != Done && v.q[x].children == [] && retries <= cap
    ensures v.QueuedTcp(x, now, retries).Inv({}, nservers, cap)
  {
    hide Without, View.HistoryInv;
    var w := v.QueuedTcp(x, now, retries);
    assert v.Sound(x, {x}, nservers, cap);
    RequeuedKeepsQueues(v, w, x, nservers, cap);
    SameHistory(v, w);
  }

  lemma SendingOneAges(v: View, x: Id, broken: nat, nservers: nat, cap: nat)
    requires v.Inv({}, nservers, cap) && x in v.tcpw && x in v.q
    ensures Aged(v, v.(q := v.q[x := v.q[x].(retries := v.q[x].retries + 1)], breaks := v.breaks + broken))
    ensures WellQueued(v)
  {
    hide Without, View.QueueInv, View.HistoryInv, View.Sound;
    WaitingForTcp(v, {}, nservers, cap);
    RetriesAge(v, v.(q := v.q[x := v.q[x].(retries := v.q[x].retries + 1)], breaks := v.breaks + broken));
  }

  /** What holds of a query that waits for the network once it is taken off its queue to be processed. */
  lemma TakenUp(v: View, x: Id, nservers: nat, cap: nat)
    requires v.Inv({}, nservers, cap) && (x in v.udpw || x in v.tcpw)
    ensures var u := v.Unlinked(x);
            && u.Inv({x}, nservers, cap) && x in u.q && u.Linked(x) && x < u.next
            && u.q[x].state != Done && u.q[x].children == [] && (!u.q[x].flat ==> u.q[x].parent == None)
  {
    hide Without, View.HistoryInv;
    FailedAlone(v, x, nservers, cap);
    assert v.Sound(x, {}, nservers, cap);
    IdsAreBelowNext(v, x);
    assert v.q[x].parent.Some? ==> v.q[x].flat;
  }

  // ----- time -----

  function TimesOf(t: Option<int>): set<int> {
    match t
    case None => {}
    case Some(d) => {d}
  }

  /** One of the two queues whose entries time out. */
  function TimedQueue(v: View, tcp: bool): seq<Id> {
    if tcp then v.tcpw else v.udpw
  }

  ghost function Expired(v: View, tcp: bool, now: int): set<Id> {
    set x | x in TimedQueue(v, tcp) && x in v.q && now > v.q[x].timeout
  }

  ghost function DueTimes(v: View, tcp: bool, n: nat, now: int): set<int>
    requires n <= |TimedQueue(v, tcp)|
  {
    set x | x in TimedQueue(v, tcp)[..n] && x in v.q :: TimeVal.Left(v.q[x].timeout, now)
  }

  /** `w` is the least of the caller's `wait` (`None` is for ever) and of the times in `due`. */
  ghost predicate IsEarliest(w: Option<int>, wait: Option<int>, due: set<int>) {
    match w
    case None => wait == None && due == {}
    case Some(t) => (wait == w || t in due) && (wait.Some? ==> t <= wait.value) && forall d :: d in due ==> t <= d
  }

  /** The resend or failure of an expired query takes it out of those that are expired, and leaves the
      rest of the queue as it was. */
  lemma ExpiredShrinks(v: View, w: View, x: Id, now: int, n: nat, cap: nat)
    requires v.Inv({}, n, cap) && x in v.udpw && x in v.q && now > v.q[x].timeout && n > 0
    requires var u := v.Unlinked(x);
      w == u.Completed(x) || w == u.SentUdp(x, now, n) || Aged(u.QueuedTcp(x, now, 0), w)
    ensures Expired(w, false, now) == Expired(v, false, now) - {x}
  {
    hide SameAsks, Without, View.QueueInv, View.HistoryInv, View.Sound;
    FailedAlone(v, x, n, cap);
    WaitingForTcp(v, {}, n, cap);
    assert x !in v.tcpw;
  }

  /** Whoever waits for UDP, unless it is overdue and has had its 15 retries, goes on waiting: as before, or for an
      answer that is not overdue, or it has joined those that wait for TCP. */
  ghost predicate KeepsTrying(v: View, w: View, now: int) {
    && (forall x :: x in v.waits ==> x in w.waits)
    && (forall x :: x in v.udpw && x in v.q && (v.q[x].retries < UDPMAXRETRIES || now <= v.q[x].timeout) ==>
          x in w.waits || (x in w.udpw && x in w.q && (w.q[x] == v.q[x] || now <= w.q[x].timeout)))
  }

  lemma KeepsTryingTwice(u: View, v: View, w: View, now: int)
    requires KeepsTrying(u, v, now) && KeepsTrying(v, w, now)
    ensures KeepsTrying(u, w, now)
  {
  }

  lemma NothingTried(v: View, now: int)
    requires WellQueued(v)
    ensures KeepsTrying(v, v, now)
  {
  }

  lemma AgedKeepsTrying(v: View, w: View, now: int)
    requires Aged(v, w)
    ensures KeepsTrying(v, w, now)
  {
  }

  /** What becomes of an overdue query that waited for UDP. */
  ghost predicate TriedAgain(v: View, w: View, x: Id, now: int, n: nat)
    requires x in v.q && n > 0
  {
    var u := v.Unlinked(x);
    if v.q[x].retries >= UDPMAXRETRIES then w == u.Completed(x)
    else w == u.SentUdp(x, now, n) || Aged(u.QueuedTcp(x, now, 0), w)
  }

  lemma OverdueKeepsTrying(v: View, w: View, x: Id, now: int, n: nat, cap: nat)
    requires v.Inv({}, n, cap) && x in v.udpw && x in v.q && now > v.q[x].timeout && n > 0
    requires TriedAgain(v, w, x, now, n)
    ensures KeepsTrying(v, w, now)
  {
    hide SameAsks, Without, View.QueueInv, View.HistoryInv, View.Sound, View.Completed;
    FailedAlone(v, x, n, cap);
    WaitingForTcp(v, {}, n, cap);
  }

  lemma FailedKeepsTrying(v: View, x: Id, now: int, n: nat, cap: nat)
    requires v.Inv({}, n, cap) && x in v.tcpw && x in v.q
    ensures KeepsTrying(v, v.Unlinked(x).Completed(x), now)
    ensures InTime(v, v.Unlinked(x).Completed(x), now) || now <= v.q[x].timeout
  {
    hide SameAsks, Without, View.QueueInv, View.HistoryInv, View.Sound, View.Completed;
    FailedAlone(v, x, n, cap);
    WaitingForTcp(v, {}, n, cap);
    OneQueue(v, x, {}, n, cap);
  }

  /** Whoever waits for TCP and is not overdue stays where it is. */
  ghost predicate InTime(v: View, w: View, now: int) {
    forall x :: x in v.tcpw && x in v.q && now <= v.q[x].timeout ==> x in w.tcpw && x in w.q && w.q[x] == v.q[x]
  }

  /** The scan of a queue for expired entries: none among the first `i`, and `w` is the time until the
      first of these expires. */
  ghost predicate Scanned(v: View, tcp: bool, i: nat, now: int, w: Option<int>, wait: Option<int>) {
    && i <= |TimedQueue(v, tcp)|
    && (forall j :: 0 <= j < i ==> TimedQueue(v, tcp)[j] in v.q && now <= v.q[TimedQueue(v, tcp)[j]].timeout)
    && IsEarliest(w, wait, DueTimes(v, tcp, i, now))
  }

  lemma ScanStarts(v: View, tcp: bool, now: int, wait: Option<int>)
    ensures Scanned(v, tcp, 0, now, wait, wait)
  {
  }

  lemma ScanStep(v: View, tcp: bool, i: nat, now: int, w: Option<int>, wait: Option<int>)
    requires Scanned(v, tcp, i, now, w, wait) && i < |TimedQueue(v, tcp)| && TimedQueue(v, tcp)[i] in v.q
    requires now <= v.q[TimedQueue(v, tcp)[i]].timeout
    ensures Scanned(v, tcp, i + 1, now, TimeVal.Sooner(w, TimeVal.Left(v.q[TimedQueue(v, tcp)[i]].timeout, now)), wait)
  {
    var s := TimedQueue(v, tcp);
    assert s[..i + 1] == s[..i] + [s[i]];
    assert DueTimes(v, tcp, i + 1, now) == DueTimes(v, tcp, i, now) + {TimeVal.Left(v.q[s[i]].timeout, now)};
  }

  lemma ScanEnds(v: View, tcp: bool, i: nat, now: int, w: Option<int>, wait: Option<int>)
    requires Scanned(v, tcp, i, now, w, wait) && i == |TimedQueue(v, tcp)|
    ensures Expired(v, tcp, now) == {} && IsEarliest(w, wait, DueTimes(v, tcp, |TimedQueue(v, tcp)|, now))
  {
  }

  /** Something has expired: the time left is nothing. */
  lemma ScanStops(v: View, tcp: bool, x: Id, now: int, wait: Option<int>)
    requires x in TimedQueue(v, tcp) && x in v.q && now > v.q[x].timeout && (wait.Some? ==> wait.value >= 0)
    ensures IsEarliest(Some(0), wait, DueTimes(v, tcp, |TimedQueue(v, tcp)|, now))
  {
    var s := TimedQueue(v, tcp);
    assert s[..|s|] == s;
    assert TimeVal.Left(v.q[x].timeout, now) in DueTimes(v, tcp, |s|, now);
  }

  lemma EarliestOfBoth(w1: Option<int>, w2: Option<int>, wait: Option<int>, a: set<int>, b: set<int>)
    requires IsEarliest(w1, wait, a) && IsEarliest(w2, w1, b)
    ensures IsEarliest(w2, wait, a + b)
  {
    assert w2 == None ==> a + b == {};
  }

  lemma SoonerIsEarliest(w: Option<int>, t: int)
    ensures IsEarliest(TimeVal.Sooner(w, t), w, {t}) && IsEarliest(w, w, {})
  {
  }

  /** Orders the TCP states within one round of events, for a queue that is empty or not. */
  ghost function Rank(idle: bool, t: TcpState): nat {
    match t
    case Connecting => 2
    case Broken => if idle then 1 else 3
    case Disconnected => if idle then 0 else 3
    case Connected => 1
  }

  /** What waits for TCP, and what expires there, stays as it is when TCP events age the queues. */
  lemma AgedExpired(v: View, w: View, now: int)
    requires Aged(v, w) && WellQueued(v)
    ensures Expired(w, false, now) == Expired(v, false, now)
    ensures Expired(w, true, now) <= Expired(v, true, now)
    ensures v.tcpw == [] ==> w.tcpw == []
  {
    hide Without;
  }
}
