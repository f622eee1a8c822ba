/**
 The queues that a query of the bundled asynchronous resolver moves through
 (adns/internal.h:253-304), the moves, and the consistency conditions that adns/check.c evaluates
 at run time, proved here for every move. Module `AdnsEngine` has the operations made of them.

 A query's memory address becomes an `Id`; the four linked lists are sequences of ids (the
 linked lists themselves are in module `LinkedQueue`). The set `f` that the invariant takes is
 the set of queries that are being processed and are on no queue just then.
 */
module AdnsQueues {
  import opened Wrappers
  import opened Sequences

  type Id = nat

  const MAXSERVERS := 5
  const UDPMAXRETRIES := 15
  const DNS_HDRSIZE := 12
  const DNS_MAXUDP := 512
  // Times are in microseconds; see module `TimeVal` for the two-field form.
  const UDPRETRY := 2_000_000
  const TCPWAIT := 30_000_000
  const TCPCONN := 14_000_000
  const TCPIDLE := 30_000_000

  datatype QueryState = ToSend | TcpW | ChildW | Done
  datatype TcpState = Disconnected | Connecting | Connected | Broken

  /** `flat` says that the record type never asks for child queries (its parser only copies data);
      `question` is the query datagram after its header. */
  datatype Query = Query(
    state: QueryState, parent: Option<Id>, children: seq<Id>, flat: bool,
    dnsId: nat, question: seq<nat>, usevc: bool,
    retries: nat, udpnext: nat, udpsent: set<nat>, timeout: int)
  {
    function Dglen(): nat { DNS_HDRSIZE + |question| }

    predicate WantsTcp() { usevc || Dglen() > DNS_MAXUDP }

    /** The servers are asked over UDP one after the other, beginning with the first: each of them was asked,
        or so far only those before the one whose turn it is, each for one retry at most. */
    ghost predicate InTurn(nservers: nat) {
      && udpnext < nservers && (forall s :: s in udpsent ==> s < nservers)
      && ((forall s :: 0 <= s < nservers ==> s in udpsent)
          || ((forall s :: 0 <= s < udpnext ==> s in udpsent) && (forall s :: s in udpsent ==> s < udpnext)
              && (state == ToSend ==> retries <= udpnext)))
    }
  }

  /** Every query of `s` has one more retry. */
  function Bumped(q: map<Id, Query>, s: seq<Id>): map<Id, Query> {
    map x | x in q :: if x in s then q[x].(retries := q[x].retries + 1) else q[x]
  }

  lemma BumpedNext(q: map<Id, Query>, s: seq<Id>, i: nat)
    requires i < |s| && NoDup(s) && s[i] in q
    ensures s[i] in Bumped(q, s[..i])
    ensures Bumped(q, s[..i + 1]) == var b := Bumped(q, s[..i]); b[s[i] := b[s[i]].(retries := b[s[i]].retries + 1)]
  {
    assert s[i] !in s[..i];
    assert s[..i + 1] == s[..i] + [s[i]];
  }

  /** What a datagram asks: its id, and the bytes after the header. */
  datatype Question = Question(id: nat, bytes: seq<nat>)

  /** `query_alloc`, and what the caller's flags and type add. */
  function NewQuery(parent: Option<Id>, flat: bool, question: Question, usevc: bool): Query {
    Query(ToSend, parent, [], flat, question.id, question.bytes, usevc, 0, 0, {}, 0)
  }

  function ChildQuery(p: Id, host: Question, now: int, nservers: nat): Query
    requires nservers > 0
  {
    NewQuery(Some(p), true, host, false).(retries := 1, udpsent := {0}, udpnext := 1 % nservers,
                                          timeout := now + UDPRETRY)
  }

  /** The queries without those in `gone`, which also leave the lists of children. */
  function Forgetting(q: map<Id, Query>, gone: set<Id>): map<Id, Query> {
    map x | x in q && x !in gone :: q[x].(children := Without(q[x].children, gone))
  }

  lemma ForgettingTwice(q: map<Id, Query>, a: set<Id>, b: set<Id>)
    ensures Forgetting(Forgetting(q, a), b) == Forgetting(q, a + b)
  {
    hide Without;
    forall x | x in q
      ensures Without(Without(q[x].children, a), b) == Without(q[x].children, a + b)
    {
      WithoutTwice(q[x].children, a, b);
    }
  }

  // ----- the queues as one value -----

  /** When a query joined those that wait for TCP: its place among them, and how many connections had
      been broken. */
  datatype Wait = Wait(place: nat, since: nat)

  /** What the queue operations read and change. `answered` lists the top-level queries in the order
      in which they reached the output queue; `submitted`, `taken` and `cancelled` say what the caller
      asked for, was handed and gave up; `breaks` counts the connections that were broken, and `waits`
      says since when who waits for TCP. */
  datatype View = View(
    q: map<Id, Query>, udpw: seq<Id>, tcpw: seq<Id>, childw: seq<Id>, output: seq<Id>,
    next: Id, answered: seq<Id>, submitted: set<Id>, taken: set<Id>, cancelled: set<Id>,
    breaks: nat, waits: map<Id, Wait>)
  {
    /** What adns/check.c:62-69 and 108-158 ask of one query: it is on the queue that its state names,
        and on no other, unless it is being processed; it looks as that queue requires; parents and
        children point at each other; children are waiting to be answered and have no children
        themselves. A query that waits for TCP has at most `cap` retries. */
    ghost predicate Sound(x: Id, f: set<Id>, nservers: nat, cap: nat)
      requires x in q
    {
      var qu := q[x];
      && (x in udpw <==> x !in f && qu.state == ToSend)
      && (x in tcpw <==> x !in f && qu.state == TcpW)
      && (x in childw <==> x !in f && qu.state == ChildW)
      && (x in output <==> x !in f && qu.state == Done)
      && (x !in f ==> match qu.state
            case ToSend => qu.children == [] && 1 <= qu.retries <= UDPMAXRETRIES && qu.udpsent != {} && !qu.WantsTcp()
            case TcpW => qu.children == [] && qu.retries <= cap
            case ChildW => qu.children != []
            case Done => qu.children == [] && qu.parent == None)
      && qu.InTurn(nservers)
      && NoDup(qu.children) && (qu.flat ==> qu.children == [])
      && (forall c :: c in qu.children ==>
            c in q && q[c].parent == Some(x) && (c in f || q[c].state == ToSend || q[c].state == TcpW))
      && (qu.parent.Some? ==> qu.flat && (x in f || Linked(x)))
    }

    ghost predicate Linked(c: Id)
      requires c in q
    {
      q[c].parent.Some? ==> q[c].parent.value in q && c in q[q[c].parent.value].children
    }

    ghost predicate QueueInv(f: set<Id>, nservers: nat, cap: nat) {
      && NoDup(udpw) && NoDup(tcpw) && NoDup(childw) && NoDup(output)
      && (forall x :: x in udpw || x in tcpw || x in childw || x in output ==> x in q)
      && f <= q.Keys
      && (forall x {:trigger Sound(x, f, nservers, cap)} :: x in q ==> Sound(x, f, nservers, cap))
    }

    /** A top-level query that was submitted is alive, handed over or cancelled, and `answered` holds
        exactly those that reached the output queue. */
    ghost predicate Accounted(x: Id) {
      && (x in q || x in submitted ==> x < next)
      && (x in q && q[x].parent == None ==> x in submitted && (x in answered <==> q[x].state == Done))
      && (x in q && q[x].parent.Some? ==> x !in submitted)
      && (x in submitted ==> x in taken || x in cancelled || (x in q && q[x].parent == None))
      && (x in taken ==> x in submitted && x in answered && x !in q && x !in cancelled)
      && (x in cancelled ==> x in submitted && x !in q)
      && (x in answered ==> x in submitted)
    }

    ghost predicate HistoryInv() {
      NoDup(answered) && forall x {:trigger Accounted(x)} :: Accounted(x)
    }

    ghost predicate Inv(f: set<Id>, nservers: nat, cap: nat) {
      QueueInv(f, nservers, cap) && HistoryInv()
    }

    /** Off every queue, as `LIST_UNLINK` leaves it. */
    function Unlinked(x: Id): View {
      this.(udpw := Without(udpw, {x}), tcpw := Without(tcpw, {x}),
            childw := Without(childw, {x}), output := Without(output, {x}))
    }

    /** Off every queue and every list of children, and freed. */
    function Dropped(gone: set<Id>): View {
      this.(q := Forgetting(q, gone),
            udpw := Without(udpw, gone), tcpw := Without(tcpw, gone),
            childw := Without(childw, gone), output := Without(output, gone))
    }

    function ChildSet(x: Id): set<Id>
      requires x in q
    {
      set c | c in q[x].children
    }

    /** `adns_cancel`: the query and its children disappear, everybody else stays put. */
    function Cancelled(x: Id): View
      requires x in q
    {
      var v := Dropped({x} + ChildSet(x));
      if q[x].parent == None then v.(cancelled := cancelled + {x}) else v
    }

    /** A query on no queue joins the tail of the queue of those that wait for children. */
    function Waiting(x: Id): View
      requires x in q
    {
      this.(q := q[x := q[x].(state := ChildW)], childw := childw + [x])
    }

    /** The caller's new query, on no queue yet. */
    function Submitted(qu: Query): View {
      this.(q := q[next := qu], next := next + 1, submitted := submitted + {next})
    }

    /** A new child of `p`, asking about `host`, was sent over UDP to the first server. */
    function Spawned(p: Id, host: Question, now: int, nservers: nat): View
      requires p in q && nservers > 0
    {
      this.(q := q[p := q[p].(children := q[p].children + [next])][next := ChildQuery(p, host, now, nservers)],
            udpw := udpw + [next], next := next + 1)
    }

    function SpawnedAll(p: Id, hosts: seq<Question>, now: int, nservers: nat): (v: View)
      requires p in q && nservers > 0
      ensures p in v.q
      decreases |hosts|
    {
      if hosts == [] then this
      else SpawnedAll(p, hosts[..|hosts| - 1], now, nservers).Spawned(p, hosts[|hosts| - 1], now, nservers)
    }

    /** The caller has been handed the answer. */
    function Taken(x: Id): View {
      Dropped({x}).(taken := taken + {x})
    }

    /** A query on no queue was sent to the server whose turn it is, and waits for the answer. */
    function SentUdp(x: Id, now: int, nservers: nat): View
      requires x in q && nservers > 0
    {
      var qu := q[x];
      this.(q := q[x := qu.(timeout := now + UDPRETRY, udpsent := qu.udpsent + {qu.udpnext},
                            udpnext := (qu.udpnext + 1) % nservers, retries := qu.retries + 1)],
            udpw := udpw + [x])
    }

    /** A query on no queue waits for the TCP connection, with this many retries. */
    function QueuedTcp(x: Id, now: int, retries: nat): View
      requires x in q
    {
      this.(q := q[x := q[x].(state := TcpW, timeout := now + TCPWAIT, retries := retries)],
            tcpw := tcpw + [x], waits := waits[x := Wait(|tcpw|, breaks)])
    }

    /** A query on no queue joins the tail of the output queue. */
    function Finished(x: Id): View
      requires x in q
    {
      this.(q := q[x := q[x].(state := Done)], output := output + [x], answered := answered + [x])
    }

    /** `adns__query_done` for a query on no queue. Its children are cancelled. If it is a top-level
        query it is then on the output queue; if it is a child it is gone, and its parent waits on, at
        the tail of its queue, or is done as well if this was its last child. */
    function Completed(x: Id): View
      requires x in q
    {
      var v := Dropped(ChildSet(x));
      if x !in v.q then v
      else match q[x].parent
        case None => v.Finished(x)
        case Some(p) =>
          var w := v.Unlinked(p).Dropped({x});
          if p !in w.q then w
          else if w.q[p].children != [] then w.Waiting(p) else w.Finished(p)
    }
  }

  // ----- what is asked -----

  /** The same question is asked, under the same id, for the same parent, and over TCP if it was. */
  predicate AsksAlike(a: Query, b: Query) {
    b.dnsId == a.dnsId && b.question == a.question && b.usevc == a.usevc && b.flat == a.flat && b.parent == a.parent
  }

  /** Nobody is new, and nobody asks anything else. */
  ghost predicate SameAsks(v: View, w: View) {
    w.next == v.next && forall x :: x in w.q ==> x in v.q && AsksAlike(v.q[x], w.q[x])
  }

  lemma SameAsksTwice(u: View, v: View, w: View)
    requires SameAsks(u, v) && SameAsks(v, w)
    ensures SameAsks(u, w)
  {
  }

  lemma DroppedAsks(v: View, gone: set<Id>)
    ensures SameAsks(v, v.Dropped(gone))
  {
    hide Without;
  }

  lemma MovedAsks(v: View, x: Id)
    ensures v.Unlinked(x).q == v.q && SameAsks(v, v.Unlinked(x))
    ensures x in v.q ==> SameAsks(v, v.Finished(x)) && SameAsks(v, v.Waiting(x))
  {
    hide Without;
  }

  lemma CompletedAsks(v: View, x: Id)
    requires x in v.q
    ensures SameAsks(v, v.Completed(x)) && SameAsks(v, v.Unlinked(x).Completed(x))
  {
    hide SameAsks, View.Dropped, View.Unlinked, View.Finished, View.Waiting;
    MovedAsks(v, x);
    FinishingAsks(v, x);
    FinishingAsks(v.Unlinked(x), x);
    SameAsksTwice(v, v.Unlinked(x), v.Unlinked(x).Completed(x));
  }

  lemma FinishingAsks(v: View, x: Id)
    requires x in v.q
    ensures SameAsks(v, v.Completed(x))
  {
    hide SameAsks, View.Dropped, View.Unlinked, View.Finished, View.Waiting;
    var d := v.Dropped(v.ChildSet(x));
    DroppedAsks(v, v.ChildSet(x));
    if x in d.q {
      match v.q[x].parent
      case None =>
        MovedAsks(d, x);
        SameAsksTwice(v, d, d.Finished(x));
      case Some(p) =>
        var w := d.Unlinked(p).Dropped({x});
        MovedAsks(d, p);
        DroppedAsks(d.Unlinked(p), {x});
        SameAsksTwice(v, d, d.Unlinked(p));
        SameAsksTwice(v, d.Unlinked(p), w);
        if p in w.q {
          MovedAsks(w, p);
          SameAsksTwice(v, w, v.Completed(x));
        }
    }
  }

  lemma SentAsks(v: View, x: Id, now: int, nservers: nat)
    requires x in v.q && nservers > 0
    ensures SameAsks(v, v.SentUdp(x, now, nservers)) && SameAsks(v, v.QueuedTcp(x, now, 0))
  {
  }

  /** Whoever is new has a new identity, and of the others only `x` may ask anything else. */
  ghost predicate AsksGoOn(v: View, w: View, x: Id) {
    && w.next >= v.next
    && forall y :: y in w.q ==> if y in v.q then y == x || AsksAlike(v.q[y], w.q[y]) else y >= v.next
  }

  /** Whoever is new has a new identity, and whoever must use TCP still must. */
  ghost predicate StillAsks(v: View, w: View) {
    && w.next >= v.next
    && forall y :: y in w.q ==>
         if y in v.q then
           (v.q[y].usevc ==> w.q[y].usevc) && w.q[y].flat == v.q[y].flat && w.q[y].parent == v.q[y].parent
         else y >= v.next
  }

  lemma StillAsksAtFirst(v: View)
    ensures StillAsks(v, v)
  {
  }

  lemma StillAsksTwice(u: View, v: View, w: View)
    requires StillAsks(u, v) && StillAsks(v, w) && forall y :: y in u.q ==> y < u.next
    ensures StillAsks(u, w)
  {
  }

  lemma {:induction false} SpawnedAllAsks(v: View, p: Id, hosts: seq<Question>, now: int, nservers: nat)
    requires p in v.q && nservers > 0 && forall y :: y in v.q ==> y < v.next
    ensures var w := v.SpawnedAll(p, hosts, now, nservers);
            && AsksGoOn(v, w, p) && AsksAlike(v.q[p], w.q[p]) && forall y :: y in w.q ==> y < w.next
    decreases |hosts|
  {
    if hosts != [] {
      SpawnedAllAsks(v, p, hosts[..|hosts| - 1], now, nservers);
    }
  }

  function Numbers(from: nat, n: nat): (s: seq<nat>)
    ensures |s| == n && forall i :: 0 <= i < n ==> s[i] == from + i
  {
    seq(n, i => from + i)
  }

  /** One child for each host, in order, all of them sent over UDP. */
  lemma {:induction false} SpawnedInOrder(v: View, p: Id, hosts: seq<Question>, now: int, nservers: nat)
    requires p in v.q && nservers > 0 && forall y :: y in v.q ==> y < v.next
    ensures var w := v.SpawnedAll(p, hosts, now, nservers);
            && w.next == v.next + |hosts| && w.udpw == v.udpw + Numbers(v.next, |hosts|)
            && w.q[p].children == v.q[p].children + Numbers(v.next, |hosts|)
    decreases |hosts|
  {
    if hosts != [] {
      var n := |hosts| - 1;
      SpawnedInOrder(v, p, hosts[..n], now, nservers);
      SpawnedAllAsks(v, p, hosts[..n], now, nservers);
      assert Numbers(v.next, n + 1) == Numbers(v.next, n) + [v.next + n];
    }
  }

  /** It asks about the host for its parent, was sent once, to the first server, and waits two seconds. */
  ghost predicate AsksFor(w: View, c: Id, p: Id, host: Question, now: int, nservers: nat) {
    && c in w.q && nservers > 0
    && w.q[c] == Query(ToSend, Some(p), [], true, host.id, host.bytes, false, 1, 1 % nservers, {0}, now + 2_000_000)
  }

  lemma {:induction false} ChildrenAsk(v: View, p: Id, hosts: seq<Question>, now: int, nservers: nat)
    requires p in v.q && nservers > 0 && forall y :: y in v.q ==> y < v.next
    ensures var w := v.SpawnedAll(p, hosts, now, nservers);
            && (forall i :: 0 <= i < |hosts| ==> AsksFor(w, v.next + i, p, hosts[i], now, nservers))
    decreases |hosts|
  {
    if hosts != [] {
      var n := |hosts| - 1;
      var front := hosts[..n];
      ChildrenAsk(v, p, front, now, nservers);
      SpawnedInOrder(v, p, front, now, nservers);
      SpawnedAllAsks(v, p, front, now, nservers);
      var u := v.SpawnedAll(p, front, now, nservers);
      SpawnedOne(u, p, hosts[n], now, nservers);
      var w := u.Spawned(p, hosts[n], now, nservers);
      forall i | 0 <= i < n
        ensures AsksFor(w, v.next + i, p, hosts[i], now, nservers)
      {
        assert AsksFor(u, v.next + i, p, front[i], now, nservers);
        assert v.next + i in u.q && v.next + i != u.next && v.next + i != p;
      }
    }
  }

  lemma SpawnedOne(u: View, p: Id, host: Question, now: int, nservers: nat)
    requires p in u.q && nservers > 0 && p != u.next
    ensures AsksFor(u.Spawned(p, host, now, nservers), u.next, p, host, now, nservers)
    ensures forall y :: y in u.q && y != p && y != u.next ==> u.Spawned(p, host, now, nservers).q[y] == u.q[y]
  {
  }

  // ----- each move keeps the invariant -----

  lemma UnlinkedKeepsInv(v: View, x: Id, f: set<Id>, nservers: nat, cap: nat)
    requires v.Inv(f, nservers, cap) && x in v.q
    ensures v.Unlinked(x).Inv(f + {x}, nservers, cap)
  {
    hide Without;
    var w := v.Unlinked(x);
    forall y | y in w.q
      ensures w.Sound(y, f + {x}, nservers, cap)
    {
      UnlinkedKeepsSound(v, y, x, f, nservers, cap);
    }
    SameHistory(v, w);
  }

  lemma UnlinkedKeepsSound(v: View, y: Id, x: Id, f: set<Id>, nservers: nat, cap: nat)
    requires y in v.q && v.Sound(y, f, nservers, cap)
    ensures v.Unlinked(x).Sound(y, f + {x}, nservers, cap)
  {
    hide Without;
  }

  /** Moving queries around that are not done changes nothing about who was asked for and answered. */
  lemma SameHistory(v: View, w: View)
    requires v.HistoryInv()
    requires w.q.Keys <= v.q.Keys && forall y :: y in v.q && v.q[y].parent == None ==> y in w.q
    requires forall y :: y in w.q ==> w.q[y].parent == v.q[y].parent && (w.q[y].state == Done <==> v.q[y].state == Done)
    requires w.next == v.next && w.answered == v.answered && w.submitted == v.submitted
    requires w.taken == v.taken && w.cancelled == v.cancelled
    ensures w.HistoryInv()
  {
    forall y
      ensures w.Accounted(y)
    {
      assert v.Accounted(y);
    }
  }

  /** The dropped queries must take their children along, and their parents must be in the middle of
      being processed: a parent left on a queue could be left there without a child. */
  ghost predicate Droppable(v: View, gone: set<Id>, f: set<Id>) {
    && (forall x, c :: x in v.q && x in gone && c in v.q[x].children ==> c in gone)
    && (forall x :: x in v.q && x in gone && v.q[x].parent.Some? ==>
          v.q[x].parent.value in gone || v.q[x].parent.value in f)
  }

  lemma DroppedKeepsSound(v: View, y: Id, gone: set<Id>, f: set<Id>, nservers: nat, cap: nat)
    requires y in v.q && y !in gone && v.Sound(y, f, nservers, cap) && Droppable(v, gone, f)
    ensures v.Dropped(gone).Sound(y, f - gone, nservers, cap)
  {
    hide Without;
    var w := v.Dropped(gone);
    if v.q[y].children != [] {
      assert v.q[y].children[0] in v.q[y].children;
    }
  }

  lemma DroppedKeepsQueues(v: View, gone: set<Id>, f: set<Id>, nservers: nat, cap: nat)
    requires v.QueueInv(f, nservers, cap) && Droppable(v, gone, f)
    ensures v.Dropped(gone).QueueInv(f - gone, nservers, cap)
  {
    forall y | y in v.Dropped(gone).q
      ensures v.Dropped(gone).Sound(y, f - gone, nservers, cap)
    {
      DroppedKeepsSound(v, y, gone, f, nservers, cap);
    }
  }

  /** The children of a query have no children of their own, so dropping them drops nothing else. */
  lemma ChildrenAreDroppable(v: View, x: Id, f: set<Id>, nservers: nat, cap: nat)
    requires v.QueueInv(f, nservers, cap) && x in v.q
    ensures x !in v.ChildSet(x) && (v.q[x].flat ==> v.q[x].children == [])
    ensures forall c :: c in v.ChildSet(x) ==>
      c in v.q && v.q[c].parent == Some(x) && v.q[c].flat && v.q[c].children == []
    ensures Droppable(v, {x} + v.ChildSet(x), f) || (v.q[x].parent.Some? && v.q[x].parent.value !in f)
    ensures x in f ==> Droppable(v, v.ChildSet(x), f)
  {
    assert v.Sound(x, f, nservers, cap);
    forall c | c in v.ChildSet(x)
      ensures c in v.q && v.q[c].parent == Some(x) && v.q[c].flat && v.q[c].children == []
    {
      assert v.Sound(c, f, nservers, cap);
    }
  }

  lemma CancelledKeepsInv(v: View, x: Id, f: set<Id>, nservers: nat, cap: nat)
    requires v.Inv(f, nservers, cap) && x in v.q && x !in f
    requires v.q[x].parent.Some? ==> v.q[x].parent.value in f
    requires v.ChildSet(x) !! f
    ensures v.Cancelled(x).Inv(f, nservers, cap)
  {
    hide Without;
    ChildrenAreDroppable(v, x, f, nservers, cap);
    var gone := {x} + v.ChildSet(x);
    DroppedKeepsQueues(v, gone, f, nservers, cap);
    assert f - gone == f;
    var d := v.Dropped(gone);
    if v.q[x].parent == None {
      ExtraHistoryKeepsQueues(d, v.Cancelled(x), f, nservers, cap);
    }
    CancelledKeepsHistory(v, x);
  }

  /** The queue conditions do not look at what was answered or cancelled. */
  lemma ExtraHistoryKeepsQueues(v: View, w: View, f: set<Id>, nservers: nat, cap: nat)
    requires v.QueueInv(f, nservers, cap)
    requires w.q == v.q && w.udpw == v.udpw && w.tcpw == v.tcpw && w.childw == v.childw && w.output == v.output
    ensures w.QueueInv(f, nservers, cap)
  {
    forall y | y in w.q
      ensures w.Sound(y, f, nservers, cap)
    {
      assert v.Sound(y, f, nservers, cap);
    }
  }

  lemma CancelledKeepsHistory(v: View, x: Id)
    requires v.HistoryInv() && x in v.q
    requires forall c :: c in v.ChildSet(x) && c in v.q ==> v.q[c].parent == Some(x)
    ensures v.Cancelled(x).HistoryInv()
  {
    assert v.Accounted(x);
    forall y
      ensures v.Cancelled(x).Accounted(y)
    {
      assert v.Accounted(y);
    }
  }

  lemma WaitingKeepsInv(v: View, x: Id, f: set<Id>, nservers: nat, cap: nat)
    requires v.Inv(f + {x}, nservers, cap) && x in v.q && x !in f
    requires v.q[x].state != Done && v.q[x].children != []
    ensures v.Waiting(x).Inv(f, nservers, cap)
  {
    hide Without;
    var w := v.Waiting(x);
    assert v.Sound(x, f + {x}, nservers, cap);
    forall y | y in w.q
      ensures w.Sound(y, f, nservers, cap)
    {
      RequeuedKeepsSound(v, w, y, x, f, nservers, cap);
    }
    SameHistory(v, w);
  }

  /** Putting `x` on the queue its state names leaves every query as it must be. */
  lemma RequeuedKeepsSound(v: View, w: View, y: Id, x: Id, f: set<Id>, nservers: nat, cap: nat)
    requires x in v.q && y in v.q && x !in f && x in w.q && w.q == v.q[x := w.q[x]]
    requires v.Sound(y, f + {x}, nservers, cap) && v.Sound(x, f + {x}, nservers, cap)
    requires w.q[x].parent == v.q[x].parent && w.q[x].children == v.q[x].children && w.q[x].flat == v.q[x].flat
    requires w.q[x].state == ToSend || w.q[x].state == TcpW || v.q[x].parent == None
    requires v.Linked(x)
    requires w.udpw == v.udpw + (if w.q[x].state == ToSend then [x] else [])
    requires w.tcpw == v.tcpw + (if w.q[x].state == TcpW then [x] else [])
    requires w.childw == v.childw + (if w.q[x].state == ChildW then [x] else [])
    requires w.output == v.output + (if w.q[x].state == Done then [x] else [])
    requires w.q[x].InTurn(nservers)
    requires match w.q[x].state
      case ToSend =>
        w.q[x].children == [] && 1 <= w.q[x].retries <= UDPMAXRETRIES && w.q[x].udpsent != {} && !w.q[x].WantsTcp()
      case TcpW => w.q[x].children == [] && w.q[x].retries <= cap
      case ChildW => w.q[x].children != []
      case Done => w.q[x].children == [] && w.q[x].parent == None
    ensures w.Sound(y, f, nservers, cap)
  {
  }

  lemma FinishedKeepsInv(v: View, x: Id, f: set<Id>, nservers: nat, cap: nat)
    requires v.Inv(f + {x}, nservers, cap) && x in v.q && x !in f
    requires v.q[x].state != Done && v.q[x].children == [] && v.q[x].parent == None
    ensures v.Finished(x).Inv(f, nservers, cap)
  {
    hide Without;
    var w := v.Finished(x);
    assert v.Accounted(x);
    assert v.Sound(x, f + {x}, nservers, cap);
    forall y | y in w.q
      ensures w.Sound(y, f, nservers, cap)
    {
      RequeuedKeepsSound(v, w, y, x, f, nservers, cap);
    }
    forall y
      ensures w.Accounted(y)
    {
      assert v.Accounted(y);
    }
  }

  /** A query being finished, once its children are cancelled. */
  lemma ChildlessFirst(v: View, x: Id, nservers: nat, cap: nat)
    requires v.Inv({x}, nservers, cap) && x in v.q && v.q[x].state != Done && v.Linked(x)
    ensures x !in v.ChildSet(x)
    ensures var d := v.Dropped(v.ChildSet(x));
            && d.Inv({x}, nservers, cap) && x in d.q && d.q[x] == v.q[x].(children := []) && d.Linked(x)
            && d.ChildSet(x) == {} && d.Dropped({}) == d
  {
    hide Without, View.HistoryInv;
    ChildrenAreDroppable(v, x, {x}, nservers, cap);
    OneQueue(v, x, {x}, nservers, cap);
    var kids := v.ChildSet(x);
    var d := v.Dropped(kids);
    DroppedKeepsQueues(v, kids, {x}, nservers, cap);
    assert {x} - kids == {x};
    SameHistory(v, d);
    WithoutBounds(v.q[x].children, kids);
    DroppedNothing(d);
  }

  /** A child without children that is finished: its parent is taken off its queue and the child is
      freed; then the parent waits on or is finished. */
  lemma LastStepOfChild(v: View, x: Id, p: Id, nservers: nat, cap: nat)
    requires v.Inv({x}, nservers, cap) && x in v.q && v.q[x].state != Done && v.Linked(x)
    requires v.q[x].parent == Some(p) && v.q[x].children == []
    ensures var w := v.Unlinked(p).Dropped({x});
            && w.Inv({p}, nservers, cap) && p in w.q && w.q[p].parent == None && w.q[p].state == ChildW
            && (if w.q[p].children != [] then w.Waiting(p) else w.Finished(p)).Inv({}, nservers, cap)
  {
    hide Without;
    assert v.Sound(p, {x}, nservers, cap);
    assert v.Sound(x, {x}, nservers, cap);
    var u := v.Unlinked(p);
    UnlinkedKeepsInv(v, p, {x}, nservers, cap);
    assert Droppable(u, {x}, {x} + {p});
    DroppedKeepsQueues(u, {x}, {x} + {p}, nservers, cap);
    var w := u.Dropped({x});
    assert {x} + {p} - {x} == {} + {p} == {p};
    SameHistory(u, w);
    if w.q[p].children != [] {
      WaitingKeepsInv(w, p, {}, nservers, cap);
    } else {
      FinishedKeepsInv(w, p, {}, nservers, cap);
    }
  }

  /** Finishing a query keeps every condition: no parent stays on its queue without a live child to
      wait for, and the caller's query reaches the output queue once. The other clauses say what holds
      between the steps. */
  lemma CompletedInSteps(v: View, x: Id, nservers: nat, cap: nat)
    requires v.Inv({x}, nservers, cap) && x in v.q && v.q[x].state != Done && v.Linked(x)
    ensures x !in v.ChildSet(x) && v.Completed(x).Inv({}, nservers, cap)
    ensures var d := v.Dropped(v.ChildSet(x));
            && d.Inv({x}, nservers, cap) && x in d.q && d.q[x] == v.q[x].(children := []) && d.Linked(x)
            && d.ChildSet(x) == {} && d.Completed(x) == v.Completed(x)
            && match v.q[x].parent
               case None => true
               case Some(p) =>
                 var w := d.Unlinked(p).Dropped({x});
                 && p in w.q && w.q[p].parent == None && w.q[p].state == ChildW && w.Inv({p}, nservers, cap)
                 && (w.q[p].children == [] ==> w.Completed(p) == w.Finished(p))
  {
    hide Without, View.QueueInv, View.HistoryInv, View.Sound, Forgetting;
    ChildlessFirst(v, x, nservers, cap);
    var d := v.Dropped(v.ChildSet(x));
    match v.q[x].parent {
      case None =>
        assert {} + {x} == {x};
        FinishedKeepsInv(d, x, {}, nservers, cap);
      case Some(p) =>
        LastStepOfChild(d, x, p, nservers, cap);
        DroppedNothing(d.Unlinked(p).Dropped({x}));
    }
  }

  /** Dropping two sets one after the other is dropping both. */
  lemma DroppedTwice(v: View, a: set<Id>, b: set<Id>)
    ensures v.Dropped(a).Dropped(b) == v.Dropped(a + b)
  {
    hide Without;
    WithoutTwice(v.udpw, a, b);
    WithoutTwice(v.tcpw, a, b);
    WithoutTwice(v.childw, a, b);
    WithoutTwice(v.output, a, b);
    ForgettingTwice(v.q, a, b);
  }

  lemma DroppedNothing(v: View)
    ensures v.Dropped({}) == v
  {
    hide Without;
    WithoutBounds(v.udpw, {});
    WithoutBounds(v.tcpw, {});
    WithoutBounds(v.childw, {});
    WithoutBounds(v.output, {});
    forall x | x in v.q
      ensures Without(v.q[x].children, {}) == v.q[x].children
    {
      WithoutBounds(v.q[x].children, {});
    }
  }

  /** A child off its queue and off the list of its parent, which is being processed. */
  lemma DetachedKeepsInv(v: View, x: Id, p: Id, f: set<Id>, nservers: nat, cap: nat)
    requires v.Inv(f, nservers, cap) && x in v.q && x !in f && p in f && v.q[x].parent == Some(p)
    ensures p in v.q
    ensures var parent := v.q[p].(children := Without(v.q[p].children, {x}));
            v.Unlinked(x).(q := v.q[p := parent]).Inv(f + {x}, nservers, cap)
  {
    hide Without;
    assert v.Sound(x, f, nservers, cap);
    var w := v.Unlinked(x).(q := v.q[p := v.q[p].(children := Without(v.q[p].children, {x}))]);
    forall y | y in w.q
      ensures w.Sound(y, f + {x}, nservers, cap)
    {
      DetachedKeepsSound(v, w, y, x, p, f, nservers, cap);
    }
    SameHistory(v, w);
  }

  lemma DetachedKeepsSound(v: View, w: View, y: Id, x: Id, p: Id, f: set<Id>, nservers: nat, cap: nat)
    requires y in v.q && v.Sound(y, f, nservers, cap) && p in v.q && p in f
    requires w == v.Unlinked(x).(q := v.q[p := v.q[p].(children := Without(v.q[p].children, {x}))])
    ensures w.Sound(y, f + {x}, nservers, cap)
  {
    hide Without;
  }

  /** A query is on no queue but the one its state names. */
  lemma OneQueue(v: View, x: Id, f: set<Id>, nservers: nat, cap: nat)
    requires v.QueueInv(f, nservers, cap) && x in v.q
    ensures x in v.udpw <==> x !in f && v.q[x].state == ToSend
    ensures x in v.tcpw <==> x !in f && v.q[x].state == TcpW
    ensures x in v.childw <==> x !in f && v.q[x].state == ChildW
    ensures x in v.output <==> x !in f && v.q[x].state == Done
    ensures v.q[x].parent.Some? && (x !in f || v.Linked(x)) ==>
      v.q[x].parent.value in v.q && v.q[v.q[x].parent.value].parent == None && v.q[v.q[x].parent.value].children != []
      && (v.q[x].parent.value in f || v.q[x].parent.value in v.childw)
  {
    assert v.Sound(x, f, nservers, cap);
    if v.q[x].parent.Some? && (x !in f || v.Linked(x)) {
      assert v.Sound(v.q[x].parent.value, f, nservers, cap);
    }
  }

  lemma CancelledChild(v: View, c: Id, f: set<Id>, nservers: nat, cap: nat)
    requires v.QueueInv(f, nservers, cap) && c in v.q && v.q[c].parent.Some?
    ensures v.ChildSet(c) == {} && v.Cancelled(c) == v.Dropped({c})
  {
    assert v.Sound(c, f, nservers, cap);
    assert {c} + {} == {c};
  }

  lemma DroppedChildSet(v: View, x: Id, gone: set<Id>)
    requires x in v.q && x !in gone
    ensures x in v.Dropped(gone).q && v.Dropped(gone).q[x] == v.q[x].(children := Without(v.q[x].children, gone))
    ensures v.Dropped(gone).ChildSet(x) == v.ChildSet(x) - gone
  {
    hide Without;
  }

  /** A query's record once `x` left the list of its parent, if it has one. */
  function Disowned(q: map<Id, Query>, x: Id): map<Id, Query>
    requires x in q
  {
    match q[x].parent
    case None => q
    case Some(p) => if p in q then q[p := q[p].(children := Without(q[p].children, {x}))] else q
  }

  lemma DisownedForgets(v: View, x: Id, f: set<Id>, nservers: nat, cap: nat)
    requires v.QueueInv(f, nservers, cap) && x in v.q
    requires v.q[x].parent.Some? ==> v.q[x].parent.value in v.q && v.q[x].parent.value != x
    ensures x in Disowned(v.q, x)
    ensures Forgetting(v.q, {x}) == Disowned(v.q, x) - {x}
  {
    hide Without;
    forall y | y in v.q && v.q[x].parent != Some(y)
      ensures Without(v.q[y].children, {x}) == v.q[y].children
    {
      assert v.Sound(y, f, nservers, cap);
      WithoutBounds(v.q[y].children, {x});
    }
  }

  /** Unlinking, cancelling the children and freeing add up to `Cancelled`, and the invariant holds in
      between, with `x` as one more query on no queue. */
  lemma CancelInSteps(v: View, x: Id, f: set<Id>, nservers: nat, cap: nat)
    requires v.Inv(f, nservers, cap) && x in v.q && x !in f && v.ChildSet(x) !! f
    requires v.q[x].parent.Some? ==> v.q[x].parent.value in f
    ensures var u := v.Unlinked(x).(q := Disowned(v.q, x));
            && (v.q[x].parent.Some? ==> v.q[x].parent.value in v.q && v.q[x].parent.value != x)
            && u.Inv(f + {x}, nservers, cap) && x in u.q && u.q[x] == v.q[x] && u.ChildSet(x) == v.ChildSet(x)
            && x !in v.ChildSet(x)
            && x in u.Dropped(v.ChildSet(x)).q && u.Dropped(v.ChildSet(x)).q[x].parent == v.q[x].parent
            && u.Dropped(v.ChildSet(x)).(q := u.Dropped(v.ChildSet(x)).q - {x}) == v.Dropped({x} + v.ChildSet(x))
    ensures v.Cancelled(x).Inv(f, nservers, cap)
  {
    hide Without, View.QueueInv, View.HistoryInv, View.Sound;
    CancelledKeepsInv(v, x, f, nservers, cap);
    ChildrenAreDroppable(v, x, f, nservers, cap);
    OneQueue(v, x, f, nservers, cap);
    UnlinkedKeepsInv(v, x, f, nservers, cap);
    if v.q[x].parent.Some? {
      DetachedKeepsInv(v, x, v.q[x].parent.value, f, nservers, cap);
    }
    CancelledInSteps(v, x, f, nservers, cap);
  }

  lemma CancelledInSteps(v: View, x: Id, f: set<Id>, nservers: nat, cap: nat)
    requires v.QueueInv(f, nservers, cap) && x in v.q && x !in v.ChildSet(x)
    requires v.q[x].parent.Some? ==> v.q[x].parent.value in v.q && v.q[x].parent.value != x
    ensures var u := v.Unlinked(x).(q := Disowned(v.q, x)).Dropped(v.ChildSet(x));
            u.(q := u.q - {x}) == v.Dropped({x} + v.ChildSet(x))
  {
    hide Without, View.QueueInv, View.HistoryInv, View.Sound;
    DisownedForgets(v, x, f, nservers, cap);
    var kids := v.ChildSet(x);
    DroppedTwice(v, {x}, kids);
    ForgettingAndFreeing(Disowned(v.q, x), kids, x);
    hide Forgetting;
  }

  lemma ForgettingAndFreeing(q: map<Id, Query>, gone: set<Id>, x: Id)
    ensures Forgetting(q, gone) - {x} == Forgetting(q - {x}, gone)
  {
    hide Without;
    assert forall y :: y in Forgetting(q, gone) - {x} <==> y in Forgetting(q - {x}, gone);
  }

  // ----- new queries, new records, and answers handed over -----

  lemma SubmittedKeepsInv(v: View, qu: Query, nservers: nat, cap: nat)
    requires v.Inv({}, nservers, cap) && nservers > 0
    requires qu.parent == None && qu.children == [] && qu.state == ToSend
    requires qu.udpnext == 0 == qu.retries && qu.udpsent == {}
    ensures v.Submitted(qu).Inv({v.next}, nservers, cap) && v.Submitted(qu).Linked(v.next)
    ensures v.next !in v.q && v.next !in v.taken && v.next !in v.cancelled
  {
    var w := v.Submitted(qu);
    assert v.Accounted(v.next);
    forall y | y in w.q
      ensures w.Sound(y, {v.next}, nservers, cap)
    {
      if y != v.next {
        assert v.Sound(y, {}, nservers, cap);
      }
    }
    forall y
      ensures w.Accounted(y)
    {
      assert v.Accounted(y);
    }
  }

  lemma SpawnedKeepsInv(v: View, p: Id, host: Question, now: int, nservers: nat, cap: nat)
    requires v.Inv({p}, nservers, cap) && p in v.q && nservers > 0
    requires v.q[p].parent == None && !v.q[p].flat && |host.bytes| <= DNS_MAXUDP - DNS_HDRSIZE
    ensures v.Spawned(p, host, now, nservers).Inv({p}, nservers, cap)
    ensures v.next !in v.q && p < v.next
  {
    assert v.Accounted(v.next);
    assert v.Accounted(p);
    assert v.Sound(p, {p}, nservers, cap);
    var w := v.Spawned(p, host, now, nservers);
    forall y | y in w.q
      ensures w.Sound(y, {p}, nservers, cap)
    {
      SpawnedKeepsSound(v, y, p, host, now, nservers, cap);
    }
    forall y
      ensures w.Accounted(y)
    {
      assert v.Accounted(y);
    }
  }

  lemma SpawnedKeepsSound(v: View, y: Id, p: Id, host: Question, now: int, nservers: nat, cap: nat)
    requires p in v.q && nservers > 0 && v.next !in v.q && v.next !in v.udpw && v.next !in v.tcpw
    requires v.next !in v.childw && v.next !in v.output && v.q[p].parent == None && !v.q[p].flat
    requires |host.bytes| <= DNS_MAXUDP - DNS_HDRSIZE
    requires v.Sound(p, {p}, nservers, cap) && (y in v.q ==> v.Sound(y, {p}, nservers, cap))
    requires y !in v.q ==> y == v.next
    ensures v.Spawned(p, host, now, nservers).Sound(y, {p}, nservers, cap)
  {
    if y == p {
      assert v.next !in v.q[p].children;
    }
  }

  /** The record of a query on no queue may be rewritten, as long as its relatives stay. */
  lemma RewrittenKeepsInv(v: View, x: Id, qu: Query, nservers: nat, cap: nat)
    requires v.Inv({x}, nservers, cap) && x in v.q && v.q[x].state != Done && v.Linked(x)
    requires qu.parent == v.q[x].parent && qu.children == v.q[x].children && qu.flat == v.q[x].flat
    requires qu.udpnext == v.q[x].udpnext && qu.udpsent == v.q[x].udpsent && qu.state != Done
    requires qu.state == ToSend ==> qu.retries == 0
    ensures var w := v.(q := v.q[x := qu]);
            w.Inv({x}, nservers, cap) && w.Linked(x)
  {
    hide Without;
    var w := v.(q := v.q[x := qu]);
    forall y | y in w.q
      ensures w.Sound(y, {x}, nservers, cap)
    {
      assert v.Sound(y, {x}, nservers, cap);
    }
    SameHistory(v, w);
  }

  lemma TakenKeepsInv(v: View, x: Id, nservers: nat, cap: nat)
    requires v.Inv({}, nservers, cap) && x in v.output
    ensures x in v.q && v.q[x].state == Done && v.Taken(x).Inv({}, nservers, cap)
  {
    hide Without;
    OneQueue(v, x, {}, nservers, cap);
    assert v.Sound(x, {}, nservers, cap);
    assert Droppable(v, {x}, {});
    DroppedKeepsQueues(v, {x}, {}, nservers, cap);
    assert {} - {x} == {};
    ExtraHistoryKeepsQueues(v.Dropped({x}), v.Taken(x), {}, nservers, cap);
    forall y
      ensures v.Taken(x).Accounted(y)
    {
      assert v.Accounted(y);
      assert v.Accounted(x);
    }
  }

  /** A query that is not done waits for the network, or one of its children does. */
  lemma SomebodyWaits(v: View, x: Id, nservers: nat, cap: nat)
    requires v.Inv({}, nservers, cap) && x in v.q
    ensures v.q[x].state != Done ==> v.udpw != [] || v.tcpw != []
    ensures v.q[x].state == Done ==> x in v.output
  {
    assert v.Sound(x, {}, nservers, cap);
    if v.q[x].children != [] {
      var c := v.q[x].children[0];
      assert c in v.q[x].children;
      assert v.Sound(c, {}, nservers, cap);
    }
  }

  /** When nothing waits for the network and nothing is on the output queue, there is no query at all:
      whoever waits for children has a child that waits for the network. So every query the caller has
      submitted was cancelled or handed over, and whatever was handed over had been answered. */
  lemma NothingOutstanding(v: View, nservers: nat, cap: nat)
    requires v.Inv({}, nservers, cap) && v.output == [] && v.udpw == [] && v.tcpw == []
    ensures v.q == map[] && v.submitted == v.taken + v.cancelled && v.taken !! v.cancelled
    ensures forall x :: x in v.taken ==> x in v.answered
  {
    forall x
      ensures x !in v.q
    {
      if x in v.q {
        SomebodyWaits(v, x, nservers, cap);
      }
    }
    forall x
      ensures x in v.submitted <==> x in v.taken + v.cancelled
      ensures x in v.taken ==> x in v.answered && x !in v.cancelled
    {
      assert v.Accounted(x);
    }
  }

  /** The caller's query `x` has reached the output queue once, if it has at all, and it has exactly
      if it is there now or was handed over (or was cancelled afterwards). */
  lemma AnsweredOnce(v: View, x: Id, f: set<Id>, nservers: nat, cap: nat)
    requires v.Inv(f, nservers, cap) && x in v.submitted && x !in v.cancelled
    ensures multiset(v.answered)[x] <= 1
    ensures x in v.answered <==> x in v.taken || (x in v.q && v.q[x].state == Done)
    ensures x !in v.answered ==> x in v.q && v.q[x].parent == None
  {
    assert v.Accounted(x);
    CountOnce(v.answered, x);
  }

  /** The bounds on retries: 15 over UDP, and over TCP what the state of the connection allows. */
  lemma RetriesAreBounded(v: View, nservers: nat, cap: nat)
    requires v.Inv({}, nservers, cap)
    ensures forall x :: x in v.udpw ==> x in v.q && 1 <= v.q[x].retries <= UDPMAXRETRIES
    ensures forall x :: x in v.tcpw ==> x in v.q && v.q[x].retries <= cap
  {
    forall x | x in v.udpw || x in v.tcpw
      ensures x in v.q && if x in v.udpw then 1 <= v.q[x].retries <= UDPMAXRETRIES else v.q[x].retries <= cap
      ensures x in v.tcpw ==> v.q[x].retries <= cap
    {
      assert v.Sound(x, {}, nservers, cap);
    }
  }

  lemma NobodyIsLost(v: View, nservers: nat, cap: nat)
    requires v.Inv({}, nservers, cap)
    ensures NoDup(v.answered) && forall x :: x in v.submitted && x !in v.cancelled ==> x in v.taken || x in v.q
  {
    forall x | x in v.submitted && x !in v.cancelled
      ensures x in v.taken || x in v.q
    {
      assert v.Accounted(x);
    }
  }

  /** Children sent one after the other: all of them wait for UDP and point back. */
  lemma {:induction false} SpawnedAllKeepsInv(v: View, p: Id, hosts: seq<Question>, now: int, nservers: nat, cap: nat)
    requires v.Inv({p}, nservers, cap) && p in v.q && nservers > 0
    requires v.Linked(p) && v.q[p].children == [] && (hosts != [] ==> v.q[p].parent == None && !v.q[p].flat)
    requires forall i :: 0 <= i < |hosts| ==> |hosts[i].bytes| <= DNS_MAXUDP - DNS_HDRSIZE
    ensures var w := v.SpawnedAll(p, hosts, now, nservers);
            && w.Inv({p}, nservers, cap) && w.Linked(p)
            && w.q[p] == v.q[p].(children := w.q[p].children) && |w.q[p].children| == |hosts|
            && w.next == v.next + |hosts| && w.answered == v.answered && w.submitted == v.submitted
    decreases |hosts|
  {
    if hosts != [] {
      var front := hosts[..|hosts| - 1];
      SpawnedAllKeepsInv(v, p, front, now, nservers, cap);
      SpawnedKeepsInv(v.SpawnedAll(p, front, now, nservers), p, hosts[|hosts| - 1], now, nservers, cap);
    }
  }

  /** A reply belongs to a query if it has its id, repeats its question and, over UDP, comes from a
      server that was asked. */
  predicate Answers(qu: Query, tcp: bool, server: nat, reply: Question) {
    qu.dnsId == reply.id && qu.question <= reply.bytes && (tcp || server in qu.udpsent)
  }

  /** A query that was submitted and neither handed over nor cancelled is there. */
  lemma StillThere(v: View, x: Id, nservers: nat, cap: nat)
    requires v.Inv({}, nservers, cap) && x in v.submitted && x !in v.taken && x !in v.cancelled
    ensures x in v.q && v.q[x].parent == None && (v.q[x].state == Done <==> x in v.answered)
  {
    assert v.Accounted(x);
  }

  /** A query that is asked again, after truncation or at the name that an alias pointed to. */
  function Restarted(qu: Query, viaTcp: bool, cname: Option<Question>): Query {
    var anew := qu.(state := ToSend, retries := 0, usevc := qu.usevc || viaTcp);
    match cname
    case None => anew
    case Some(c) => anew.(dnsId := c.id, question := c.bytes)
  }

  lemma IdsAreBelowNext(v: View, x: Id)
    requires v.HistoryInv() && x in v.q
    ensures x < v.next
  {
    assert v.Accounted(x);
  }
}
