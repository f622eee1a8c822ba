/**
 The operations of the asynchronous resolver on its queues: cancelling, finishing, sending over UDP
 and TCP, the TCP connection, timeouts, replies, and handing answers over. What the network does
 (whether a send or a connection attempt works, what a reply holds) is any of the outcomes the
 system calls can report.
 */
module AdnsEngine {
  import opened Wrappers
  import opened Sequences
  import opened AdnsQueues
  import opened AdnsWaiting
  import opened AdnsPatience
  import TimeVal

  /** What a reply that belongs to a query leads to; `hosts` are the names whose addresses its records
      still need. */
  datatype Outcome =
    | Unusable                                            // an error code, or a bad message
    | Records(hosts: seq<Question>)                       // everything was found
    | BadRecords(hosts: seq<Question>)                    // a record after these was bad
    | Restart(viaTcp: bool, cname: Option<Question>, hosts: seq<Question>)  // truncated, or a referral after a CNAME

  /** What `connect` says. */
  datatype Attempt = AtOnce(wr: Option<nat>) | UnderWay | Refused

  /** What the system calls of one send say: whether a datagram is too long, what `writev` wrote, and what
      comes of the first attempt at connecting. */
  datatype Net = Net(tooLong: bool, wr: Option<nat>, connect: Attempt)

  datatype Checked = TryAgain | NothingLeft | Handed(x: Id)

  /** What the caller, the network and the clock may do. */
  datatype Event =
    | Asked(flat: bool, question: Question, usevc: bool, badName: bool, net: Net)
    | GivenUp(x: Id)
    | Replied(tcp: bool, server: nat, reply: Question, outcome: Outcome)
    | TimePassed(connect: Attempt)      // and what comes of the first attempt at connecting
    | ConnectionMade(wr: Option<nat>)   // and what the first `writev` wrote
    | ConnectionLost
    | Collected(wanted: Option<Id>)

  /** A connection is under way, or will be. */
  predicate WillConnect(t: TcpState, net: Net) {
    t == Connecting || (t == Disconnected && net.connect == UnderWay)
  }

  /** Nothing new is asked, and nobody replies. */
  predicate Quiet(event: Event) { !event.Asked? && !event.Replied? }

  /** Each time that passes is beyond the deadlines that the one before it may have set. */
  predicate LateEnough(events: seq<(Event, int)>, limit: int) {
    events == []
    || if events[0].0.TimePassed? then events[0].1 > limit && LateEnough(events[1..], events[0].1 + TCPWAIT)
       else LateEnough(events[1..], limit)
  }

  function Passings(events: seq<(Event, int)>): nat {
    if events == [] then 0 else (if events[0].0.TimePassed? then 1 else 0) + Passings(events[1..])
  }

  /** A reply that was cut short, and is to be asked for over TCP. */
  predicate Truncated(event: Event) {
    event.Replied? && event.outcome.Restart? && event.outcome.viaTcp && AllSmall(event.outcome.hosts)
  }

  predicate RepliedTo(qu: Query, event: Event) {
    event.Replied? && Answers(qu, event.tcp, event.server, event.reply)
  }

  ghost predicate NobodyAnswered(v: View, queue: seq<Id>, tcp: bool, server: nat, reply: Question) {
    forall y :: y in queue ==> y in v.q && !Answers(v.q[y], tcp, server, reply)
  }

  /** The reply belongs to `x`, and to nobody before it in the queue. */
  ghost predicate FirstAnswered(v: View, x: Id, tcp: bool, server: nat, reply: Question) {
    && x in v.q && Answers(v.q[x], tcp, server, reply)
    && exists i :: 0 <= i < |TimedQueue(v, tcp)| && TimedQueue(v, tcp)[i] == x
                   && NobodyAnswered(v, TimedQueue(v, tcp)[..i], tcp, server, reply)
  }

  lemma FirstIsOne(v: View, x: Id, y: Id, tcp: bool, server: nat, reply: Question)
    requires FirstAnswered(v, x, tcp, server, reply) && FirstAnswered(v, y, tcp, server, reply)
    ensures x == y
  {
    var s := TimedQueue(v, tcp);
    var i: nat :| i < |s| && s[i] == x && NobodyAnswered(v, s[..i], tcp, server, reply);
    var j: nat :| j < |s| && s[j] == y && NobodyAnswered(v, s[..j], tcp, server, reply);
    SomebodyAnswered(v, s, i, j, tcp, server, reply);
    SomebodyAnswered(v, s, j, i, tcp, server, reply);
  }

  lemma SomebodyAnswered(v: View, s: seq<Id>, i: nat, j: nat, tcp: bool, server: nat, reply: Question)
    requires i < |s| && j <= |s| && s[i] in v.q && Answers(v.q[s[i]], tcp, server, reply)
    ensures i < j ==> !NobodyAnswered(v, s[..j], tcp, server, reply)
  {
    if i < j {
      assert s[..j][i] == s[i];
    }
  }

  /** What a reply does to the queues, from the moment its query `x` was taken off its own. */
  ghost predicate ProcessedAs(u: View, w: View, x: Id, outcome: Outcome, now: int, nservers: nat) {
    && x in u.q && nservers > 0
    && match outcome
       case Unusable => w == u.Completed(x)
       case Records(hosts) =>
         if hosts == [] || u.q[x].flat then w == u.Completed(x)
         else w == u.SpawnedAll(x, hosts, now, nservers).Waiting(x)
       case BadRecords(hosts) =>
         w == u.SpawnedAll(x, Needed(u.q[x], hosts), now, nservers).Completed(x)
       case Restart(viaTcp, cname, hosts) =>
         AskedAgain(u.SpawnedAll(x, Needed(u.q[x], hosts), now, nservers), w, x, viaTcp, cname, now, nservers)
  }

  /** The children are cancelled, and the query is sent again. */
  ghost predicate AskedAgain(u: View, w: View, x: Id, viaTcp: bool, cname: Option<Question>, now: int, nservers: nat)
    requires x in u.q && nservers > 0
  {
    var r := u.Dropped(u.ChildSet(x));
    && x in r.q
    && var again := r.(q := r.q[x := Restarted(r.q[x], viaTcp, cname)]);
       ((!again.q[x].WantsTcp() && w == again.SentUdp(x, now, nservers)) || Aged(again.QueuedTcp(x, now, 0), w))
  }

  /** What is asked afterwards: only by `x` something else, and only after a restart. */
  lemma ProcessedAsks(u: View, w: View, x: Id, outcome: Outcome, now: int, nservers: nat)
    requires ProcessedAs(u, w, x, outcome, now, nservers) && forall y :: y in u.q ==> y < u.next
    ensures AsksGoOn(u, w, x)
    ensures x in w.q ==>
      && w.q[x].usevc == (u.q[x].usevc || (outcome.Restart? && outcome.viaTcp))
      && w.q[x].flat == u.q[x].flat && w.q[x].parent == u.q[x].parent
      && if outcome.Restart? && outcome.cname.Some?
         then w.q[x].dnsId == outcome.cname.value.id && w.q[x].question == outcome.cname.value.bytes
         else w.q[x].dnsId == u.q[x].dnsId && w.q[x].question == u.q[x].question
  {
    hide Without, View.Completed, View.Dropped, View.SpawnedAll, View.SentUdp, View.QueuedTcp, Aged;
    match outcome
    case Unusable =>
      CompletedAsks(u, x);
    case Records(hosts) =>
      CompletedAsks(u, x);
      SpawnedAllAsks(u, x, hosts, now, nservers);
      MovedAsks(u.SpawnedAll(x, hosts, now, nservers), x);
    case BadRecords(hosts) =>
      SpawnedAllAsks(u, x, Needed(u.q[x], hosts), now, nservers);
      CompletedAsks(u.SpawnedAll(x, Needed(u.q[x], hosts), now, nservers), x);
    case Restart(viaTcp, cname, hosts) =>
      SpawnedAllAsks(u, x, Needed(u.q[x], hosts), now, nservers);
      AskedAgainAsks(u.SpawnedAll(x, Needed(u.q[x], hosts), now, nservers), w, x, viaTcp, cname, now, nservers);
  }

  lemma AskedAgainAsks(u: View, w: View, x: Id, viaTcp: bool, cname: Option<Question>, now: int, nservers: nat)
    requires x in u.q && nservers > 0 && AskedAgain(u, w, x, viaTcp, cname, now, nservers)
    ensures w.next == u.next && forall y :: y in w.q ==> y in u.q && (y == x || AsksAlike(u.q[y], w.q[y]))
    ensures x in w.q ==>
      && w.q[x].usevc == (u.q[x].usevc || viaTcp) && w.q[x].flat == u.q[x].flat && w.q[x].parent == u.q[x].parent
      && match cname
         case None => w.q[x].dnsId == u.q[x].dnsId && w.q[x].question == u.q[x].question
         case Some(c) => w.q[x].dnsId == c.id && w.q[x].question == c.bytes
  {
    hide Without, View.Dropped, View.SentUdp, View.QueuedTcp, View.ChildSet;
    var r := u.Dropped(u.ChildSet(x));
    DroppedAsks(u, u.ChildSet(x));
    var again := r.(q := r.q[x := Restarted(r.q[x], viaTcp, cname)]);
    SentAsks(again, x, now, nservers);
    if Aged(again.QueuedTcp(x, now, 0), w) {
      SameAsksTwice(again, again.QueuedTcp(x, now, 0), w);
    }
  }

  lemma UnusableIsFailure(u: View, x: Id, now: int, nservers: nat)
    requires x in u.q && nservers > 0
    ensures ProcessedAs(u, u.Completed(x), x, Unusable, now, nservers)
  {
  }

  lemma BelowNext(v: View, f: set<Id>, n: nat, cap: nat)
    requires v.Inv(f, n, cap)
    ensures forall y :: y in v.q ==> y < v.next
  {
    forall y | y in v.q
      ensures y < v.next
    {
      IdsAreBelowNext(v, y);
    }
  }

  lemma UnlinkedAsks(v: View, w: View, x: Id)
    requires AsksGoOn(v.Unlinked(x), w, x)
    ensures AsksGoOn(v, w, x)
  {
    hide Without;
  }

  lemma SmallOverUdp(v: View, n: nat, cap: nat)
    requires v.Inv({}, n, cap)
    ensures forall x :: x in v.udpw ==> x in v.q && !v.q[x].usevc && DNS_HDRSIZE + |v.q[x].question| <= DNS_MAXUDP
  {
    forall x | x in v.udpw
      ensures x in v.q && !v.q[x].WantsTcp()
    {
      assert v.Sound(x, {}, n, cap);
    }
  }

  /** Whoever must use TCP does not wait for UDP. */
  /** A query that was sent over UDP as often as there are servers was sent to each of them. */
  lemma EverybodyInTurn(v: View, n: nat, cap: nat)
    requires v.Inv({}, n, cap)
    ensures forall x, k :: (x in v.udpw && x in v.q && 0 <= k < n && v.q[x].retries >= n) ==> k in v.q[x].udpsent
  {
    forall x, k | x in v.udpw && x in v.q && 0 <= k < n && v.q[x].retries >= n
      ensures k in v.q[x].udpsent
    {
      assert v.Sound(x, {}, n, cap);
    }
  }

  lemma NotOverUdp(v: View, x: Id, n: nat, cap: nat)
    requires v.Inv({}, n, cap)
    ensures x in v.udpw ==> x in v.q && !v.q[x].usevc
  {
    if x in v.udpw {
      assert v.Sound(x, {}, n, cap);
    }
  }

  lemma AgedTimeout(v: View, w: View, x: Id)
    requires Aged(v, w) && x in v.q
    ensures x in w.tcpw ==> x in w.q && w.q[x].timeout == v.q[x].timeout
  {
  }

  lemma NextServer(v: View, x: Id, n: nat, cap: nat)
    requires v.Inv({x}, n, cap) && x in v.q
    ensures v.q[x].udpnext < n && (v.q[x].udpnext + 1) % n == if v.q[x].udpnext + 1 == n then 0 else v.q[x].udpnext + 1
  {
    assert v.Sound(x, {x}, n, cap);
  }

  lemma QueuedAsks(v: View, x: Id, now: int, w: View)
    requires x in v.q && Aged(v.QueuedTcp(x, now, 0), w)
    ensures SameAsks(v, w) && w.submitted == v.submitted && w.taken == v.taken && w.cancelled == v.cancelled
    ensures v.answered <= w.answered
  {
    hide Without, Missing;
  }

  lemma SentOnce(v: View, w: View, x: Id, now: int, nservers: nat)
    requires x in v.q && v.q[x].retries == 0 && x !in v.udpw && nservers > 0
    requires w == v.SentUdp(x, now, nservers) || Aged(v.QueuedTcp(x, now, 0), w)
    ensures x in w.udpw ==> x in w.q && w.q[x].retries == 1
  {
    hide Without;
  }

  /** What is asked after an event: whoever must use TCP still must, whoever was not replied to asks the same,
      and whoever got a truncated reply does not wait for UDP. */
  ghost predicate AsksAfter(event: Event, v: View, w: View) {
    && StillAsks(v, w)
    && (forall y :: y in v.q && y in w.q && !RepliedTo(v.q[y], event) ==> AsksAlike(v.q[y], w.q[y]))
    && (Truncated(event) ==>
          forall x :: FirstAnswered(v, x, event.tcp, event.server, event.reply) ==>
            x !in w.udpw && (x in w.q ==> w.q[x].usevc))
  }

  lemma NearerAsks(event: Event, v: View, w: View, now: int)
    requires Nearer(v, w, now) && !Truncated(event)
    ensures AsksAfter(event, v, w)
  {
  }

  lemma SubmitAsks(event: Event, v: View, w: View)
    requires AsksGoOn(v, w, v.next) && v.next !in v.q && !event.Replied?
    ensures AsksAfter(event, v, w)
  {
  }

  lemma NobodyAsks(event: Event, v: View)
    requires event.Replied? && NobodyAnswered(v, TimedQueue(v, event.tcp), event.tcp, event.server, event.reply)
    ensures AsksAfter(event, v, v)
  {
  }

  lemma ReplyAsks(event: Event, v: View, w: View, x: Id)
    requires event.Replied? && FirstAnswered(v, x, event.tcp, event.server, event.reply) && AsksGoOn(v, w, x)
    requires Truncated(event) ==> x !in w.udpw
    requires x in w.q ==>
      && w.q[x].usevc == (v.q[x].usevc || (event.outcome.Restart? && event.outcome.viaTcp))
      && w.q[x].flat == v.q[x].flat && w.q[x].parent == v.q[x].parent
    ensures AsksAfter(event, v, w)
  {
    forall y | FirstAnswered(v, y, event.tcp, event.server, event.reply)
      ensures y == x
    {
      FirstIsOne(v, x, y, event.tcp, event.server, event.reply);
    }
  }

  lemma NewAsks(u: View, v: View, w: View, qu: Query)
    requires v == u.Submitted(qu) && SameAsks(v, w) && u.next !in u.q
    ensures AsksGoOn(u, w, u.next) && (u.next in w.q ==> AsksAlike(qu, w.q[u.next]))
  {
  }

  lemma NothingSpawned(v: View, x: Id, now: int, nservers: nat)
    requires x in v.q && nservers > 0
    ensures v.SpawnedAll(x, [], now, nservers) == v
  {
  }

  /** The questions fit a UDP datagram. */
  predicate AllSmall(hosts: seq<Question>) {
    forall i :: 0 <= i < |hosts| ==> |hosts[i].bytes| <= DNS_MAXUDP - DNS_HDRSIZE
  }

  /** A flat record type never asks for addresses. */
  function Needed(qu: Query, hosts: seq<Question>): seq<Question> {
    if qu.flat then [] else hosts
  }

  class Resolver {
    const nservers: nat
    /** The queries, their queues, and what became of them. */
    var s: View
    var tcpstate: TcpState
    var tcpserver: nat
    var tcpsocket: int
    var tcpsend: nat
    var tcprecv: nat
    var tcptimeout: int

    /** The retries a query waiting for TCP can have; one more once it was sent on this connection. */
    ghost function RetryCap(): nat
      reads this
    {
      if tcpstate == Disconnected || tcpstate == Connecting then nservers else nservers + 1
    }

    /** adns/check.c:71-106. */
    ghost predicate TcpInv()
      reads this
    {
      && 1 <= nservers <= MAXSERVERS
      && tcpserver < nservers
      && match tcpstate
         case Connecting => tcpsocket >= 0 && tcpsend == 0 && tcprecv == 0
         case Connected => tcpsocket >= 0
         case _ => tcpsocket == -1 && tcpsend == 0 && tcprecv == 0
    }

    ghost predicate Inv(f: set<Id>)
      reads this
    {
      TcpInv() && s.Inv(f, nservers, RetryCap())
    }

    /** Those that wait for TCP have not outlasted more broken connections than their places allow. */
    ghost predicate Counting()
      reads this
    {
      Patient(s, tcpstate == Connected, nservers)
    }

    constructor (servers: nat)
      requires 1 <= servers <= MAXSERVERS
      ensures Inv({}) && Counting() && nservers == servers && tcpstate == Disconnected
      ensures s == View(map[], [], [], [], [], 0, [], {}, {}, {}, 0, map[])
    {
      nservers := servers;
      s := View(map[], [], [], [], [], 0, [], {}, {}, {}, 0, map[]);
      tcpstate, tcpserver, tcpsocket, tcpsend, tcprecv, tcptimeout := Disconnected, 0, -1, 0, 0, 0;
    }

    // ----- cancelling -----

    /** `adns_cancel`. A child is only ever cancelled while its parent is being processed. */
    method Cancel(x: Id, ghost f: set<Id>)
      requires Inv(f) && x in s.q && x !in f && s.ChildSet(x) !! f
      requires s.q[x].parent.Some? ==> s.q[x].parent.value in f
      modifies this`s
      ensures Inv(f) && s == old(s).Cancelled(x)
      decreases if s.q[x].flat then 0 else 1, 1
    {
      ghost var v := s;
      hide Without, Forgetting, Disowned, View.Inv, View.QueueInv, View.HistoryInv, View.Sound;
      CancelInSteps(v, x, f, nservers, RetryCap());
      s := s.(q := Disowned(s.q, x));
      s := s.Unlinked(x);
      CancelChildren(x, f + {x});
      ghost var d := s.(q := s.q - {x});
      assert d == v.Dropped({x} + v.ChildSet(x));
      if s.q[x].parent == None {
        s := s.(cancelled := s.cancelled + {x});
      }
      s := s.(q := s.q - {x});
    }

    /** `cancel_children`, for a query that is being processed. */
    method CancelChildren(x: Id, ghost f: set<Id>)
      requires Inv(f) && x in s.q && x in f && s.ChildSet(x) !! f
      modifies this`s
      ensures Inv(f) && s == old(s).Dropped(old(s).ChildSet(x))
      decreases if s.q[x].flat then 0 else 1, 0
    {
      hide Without, View.QueueInv, View.HistoryInv, View.Sound, Forgetting;
      ghost var v := s;
      ghost var gone := {};
      DroppedNothing(v);
      ChildrenAreDroppable(v, x, f, nservers, RetryCap());
      while s.q[x].children != []
        invariant Inv(f) && x in s.q && gone <= v.ChildSet(x)
        invariant s == v.Dropped(gone)
        decreases |s.q[x].children|
      {
        var c := s.q[x].children[0];
        DroppedChildSet(v, x, gone);
        assert c in s.ChildSet(x);
        ChildrenAreDroppable(s, x, f, nservers, RetryCap());
        CancelledChild(s, c, f, nservers, RetryCap());
        WithoutShorter(s.q[x].children, c);
        DroppedChildSet(s, x, {c});
        Cancel(c, f);
        DroppedTwice(v, gone, {c});
        gone := gone + {c};
      }
      DroppedChildSet(v, x, gone);
      assert s.ChildSet(x) == {};
      assert gone == v.ChildSet(x);
    }

    // ----- completion -----

    /** `adns__query_done`, with the callback `icb_hostaddr` that a child was submitted with: the parent
        waits on, or is done too. (The child is freed before the callback here, and after it there; the
        callback only reads the child's answer.) */
    method QueryDone(x: Id)
      requires Inv({x}) && x in s.q && s.q[x].state != Done && s.Linked(x)
      modifies this`s
      ensures Inv({}) && s == old(s).Completed(x)
      decreases if s.q[x].parent.Some? then 1 else 0
    {
      hide Without, Forgetting, View.Inv, View.QueueInv, View.HistoryInv, View.Sound;
      ghost var v := s;
      CompletedInSteps(v, x, nservers, RetryCap());
      CancelChildren(x, {x});
      match s.q[x].parent {
        case None =>
          s := s.Finished(x);
        case Some(p) =>
          s := s.Unlinked(p).Dropped({x});
          if s.q[p].children != [] {
            s := s.Waiting(p);
          } else {
            QueryDone(p);
          }
      }
    }

    /** `adns__query_fail`: forget what was found so far, then finish with a status. */
    method QueryFail(x: Id)
      requires Inv({x}) && x in s.q && s.q[x].state != Done && s.Linked(x)
      modifies this`s
      ensures Inv({}) && s == old(s).Completed(x)
    {
      hide Without, Forgetting, View.Inv, View.QueueInv, View.HistoryInv, View.Sound;
      ghost var v := s;
      CompletedInSteps(v, x, nservers, RetryCap());
      CancelChildren(x, {x});
      QueryDone(x);
    }

    // ----- the TCP connection -----

    method TcpClose()
      modifies this`tcpsocket, this`tcprecv, this`tcpsend
      ensures tcpsocket == -1 && tcprecv == 0 && tcpsend == 0
    {
      tcpsocket, tcprecv, tcpsend := -1, 0, 0;
    }

    /** Counts as a retry for all the queries waiting for TCP. */
    method CountRetry()
      requires NoDup(s.tcpw) && forall x :: x in s.tcpw ==> x in s.q
      modifies this`s
      ensures s == old(s).(q := Bumped(old(s).q, old(s).tcpw))
    {
      ghost var v := s;
      assert Bumped(v.q, v.tcpw[..0]) == v.q;
      var i := 0;
      while i < |s.tcpw|
        invariant 0 <= i <= |v.tcpw|
        invariant s == v.(q := Bumped(v.q, v.tcpw[..i]))
      {
        var x := s.tcpw[i];
        BumpedNext(v.q, v.tcpw, i);
        s := s.(q := s.q[x := s.q[x].(retries := s.q[x].retries + 1)]);
        i := i + 1;
      }
      assert v.tcpw[..i] == v.tcpw;
    }

    /** `adns__tcp_broken`: a connection that never worked counts as a retry for everybody who waits for
        it. */
    method TcpBroken()
      requires Inv({}) && (tcpstate == Connecting || tcpstate == Connected)
      modifies this`s, this`tcpstate, this`tcpserver, this`tcpsocket, this`tcprecv, this`tcpsend
      ensures Inv({}) && tcpstate == Broken && tcpserver == (old(tcpserver) + 1) % nservers
      ensures s == old(s).(q := if old(tcpstate) == Connecting then Bumped(old(s).q, old(s).tcpw) else old(s).q,
                           breaks := old(s).breaks + 1)
      ensures old(Counting()) ==> Counting()
    {
      hide Without, View.QueueInv, View.HistoryInv, View.Sound, Patient;
      WaitingForTcp(s, {}, nservers, RetryCap());
      if Counting() {
        BrokenKeepsPatient(s, tcpstate == Connected, nservers);
      }
      if tcpstate == Connecting {
        RetriedAll(s, nservers, RetryCap());
        CountRetry();
      }
      SameQueues(s, s.(breaks := s.breaks + 1), {}, nservers, RetryCap() + (if tcpstate == Connecting then 1 else 0));
      s := s.(breaks := s.breaks + 1);
      TcpClose();
      tcpstate := Broken;
      tcpserver := (tcpserver + 1) % nservers;
    }

    /** `adns__querysend_tcp`, with room in the send buffer. `wr` is what `writev` wrote, if it is called;
        `None` is an error that breaks the connection. */
    method SendTcp(x: Id, wr: Option<nat>)
      requires Inv({}) && x in s.tcpw && x in s.q
      requires tcpstate == Connected ==> s.q[x].retries <= nservers
      modifies this`s, this`tcpstate, this`tcpserver, this`tcpsocket, this`tcprecv, this`tcpsend, this`tcptimeout
      ensures Inv({})
      ensures old(tcpstate) != Connected ==> unchanged(this)
      ensures old(tcpstate) == Connected ==>
        && s == old(s).(q := old(s).q[x := old(s).q[x].(retries := old(s).q[x].retries + 1)],
                        breaks := old(s).breaks + Bit(tcpstate == Broken))
        && tcptimeout == 0 && (if old(tcpsend) == 0 && wr == None then tcpstate == Broken else tcpstate == Connected)
      // What could not be written of the query and its length waits to be sent.
      ensures tcpstate == Connected == old(tcpstate) ==>
        var length := DNS_HDRSIZE + |s.q[x].question| + 2;
        tcpsend == if old(tcpsend) > 0 then old(tcpsend) + length
                   else if wr.value >= length then 0 else length - wr.value
    {
      hide Without, View.QueueInv, View.HistoryInv, View.Sound;
      if tcpstate != Connected {
        return;
      }
      RetriedOnce(s, x, nservers, RetryCap());
      s := s.(q := s.q[x := s.q[x].(retries := s.q[x].retries + 1)]);
      // Reset idle timeout.
      tcptimeout := 0;
      var length := s.q[x].Dglen() + 2;
      var written := 0;
      if tcpsend == 0 {
        if wr == None {
          TcpBroken();
          return;
        }
        written := if wr.value > length then length else wr.value;
      }
      tcpsend := tcpsend + length - written;
    }

    /** `tcp_connected`: everything that waits is sent, in order, until a send breaks the connection; `wr` is
        what the first `writev` wrote. A query behind the one whose send failed was not retried, although
        a connection was broken. */
    method TcpConnected(wr: Option<nat>) returns (ghost sent: nat)
      requires Inv({}) && Counting() && tcpstate == Connecting
      modifies this`s, this`tcpstate, this`tcpserver, this`tcpsocket, this`tcprecv, this`tcpsend, this`tcptimeout
      ensures Inv({}) && Counting() && sent <= |old(s).tcpw| && s == SentUpTo(old(s), sent, tcpstate == Broken)
      ensures (tcpstate == Connected && sent == |old(s).tcpw|) || (tcpstate == Broken && sent > 0)
      ensures wr == None && old(s).tcpw != [] ==> tcpstate == Broken && sent == 1
      ensures OnlyRetries(old(s), s)
      ensures old(s).tcpw != [] ==>
        var x := old(s).tcpw[0]; x in old(s).q && x in s.q && s.q[x].retries > old(s).q[x].retries
    {
      hide Without, View.QueueInv, View.HistoryInv, View.Sound, OnlyRetries, Patient, SentUpTo, Bumped;
      ghost var v := s;
      WaitingForTcp(v, {}, nservers, nservers);
      OtherCap(v, {}, nservers, nservers, nservers + 1);
      tcpstate := Connected;
      SentNobody(v);
      var i := 0;
      while i < |s.tcpw| && tcpstate == Connected
        invariant Inv({}) && (tcpstate == Connected || tcpstate == Broken)
        invariant 0 <= i <= |v.tcpw| && s == SentUpTo(v, i, tcpstate == Broken)
        invariant i == 0 ==> tcpstate == Connected && tcpsend == 0
        invariant i > 0 && wr == None ==> tcpstate == Broken && i == 1
        decreases |v.tcpw| - i
      {
        SentSome(v, i, false);
        OnlyRetriesKeeps(v, s);
        assert s.tcpw[i] in v.tcpw;
        SentOneMore(v, i, true);
        SentOneMore(v, i, false);
        var written := wr;
        if i > 0 {
          written := *;
        }
        SendTcp(s.tcpw[i], written);
        i := i + 1;
      }
      sent := i;
      SentSome(v, i, tcpstate == Broken);
      OnlyRetriesKeeps(v, s);
      if v.tcpw != [] {
        assert v.tcpw[0] in v.tcpw;
      }
      ConnectedKeepsPatient(v, i, tcpstate == Broken, nservers, nservers);
    }

    /** `tcp_broken_events`: the queries that every server was tried for are failed. */
    method TcpBrokenEvents()
      requires Inv({}) && Counting() && tcpstate == Broken
      modifies this`s, this`tcpstate
      ensures Inv({}) && Counting() && tcpstate == Disconnected && Aged(old(s), s) && s.breaks == old(s).breaks
      ensures s.tcpw == Without(old(s).tcpw, Exhausted(old(s), old(s).tcpw, nservers))
      ensures forall x :: x in s.tcpw ==> x in s.q && x in old(s).q && s.q[x] == old(s).q[x]
    {
      hide Without, View.QueueInv, View.HistoryInv, View.Sound, Aged, Purged, Patient;
      ghost var v := s;
      PurgeStarts(v, nservers, RetryCap());
      var i := 0;
      while i < |s.tcpw|
        invariant Inv({}) && Counting() && tcpstate == Broken && Purged(v, s, i, nservers) && i <= |s.tcpw|
        decreases |s.tcpw| - i
        modifies this`s
      {
        var x := s.tcpw[i];
        PurgeStep(v, s, i, nservers, nservers, RetryCap());
        if s.q[x].retries > nservers {
          UnlinkedKeepsPatient(s, x, false, nservers);
          CompletedKeepsPatient(s.Unlinked(x), x, false, nservers);
          s := s.Unlinked(x);
          QueryFail(x);
        } else {
          i := i + 1;
        }
      }
      PurgeEnds(v, s, nservers, nservers);
      tcpstate := Disconnected;
    }

    /** One attempt at connecting fails at once, and whoever has used up the servers is failed. */
    method ConnectFailed()
      requires Inv({}) && Counting() && tcpstate == Connecting
      modifies this`s, this`tcpstate, this`tcpserver, this`tcpsocket, this`tcprecv, this`tcpsend
      ensures Inv({}) && Counting() && tcpstate == Disconnected && Aged(old(s), s)
      ensures WellQueued(old(s)) && WellQueued(s)
      ensures Slack(s.q, s.tcpw, nservers) <= Slack(old(s).q, old(s).tcpw, nservers)
      ensures old(s).tcpw != [] ==> Slack(s.q, s.tcpw, nservers) < Slack(old(s).q, old(s).tcpw, nservers)
    {
      hide Without, View.QueueInv, View.HistoryInv, View.Sound, OnlyRetries, Aged, Slack, Patient;
      ghost var v := s;
      TcpBroken();
      ghost var u := s;
      BumpedCosts(v, u, nservers);
      TcpBrokenEvents();
      AgedSlack(u, s, nservers);
      AgedTwice(v, u, s);
      WaitingForTcp(s, {}, nservers, RetryCap());
    }

    /** `adns__tcp_tryconnect`, when sockets can be created. Each server is tried once at most; `first` is
        what comes of the first attempt. */
    method TryConnect(now: int, first: Attempt)
      requires Inv({}) && Counting()
      modifies this
      ensures Inv({}) && Counting() && Aged(old(s), s) && WellQueued(old(s)) && WellQueued(s)
      ensures old(tcpstate) != Disconnected ==> unchanged(this)
      ensures old(tcpstate) == Disconnected && tcpstate == Connecting ==> tcptimeout == now + TCPCONN
      ensures Slack(s.q, s.tcpw, nservers) <= Slack(old(s).q, old(s).tcpw, nservers)
      ensures old(tcpstate) == Disconnected && old(s).tcpw != [] ==>
        Slack(s.q, s.tcpw, nservers) < Slack(old(s).q, old(s).tcpw, nservers) || (tcpstate == Connecting && s == old(s))
      ensures old(tcpstate) == Disconnected && first == UnderWay ==> tcpstate == Connecting && s == old(s)
    {
      hide Without, View.QueueInv, View.HistoryInv, View.Sound, OnlyRetries, Aged, Slack, Patient;
      ghost var v := s;
      WaitingForTcp(v, {}, nservers, RetryCap());
      AgedNothing(v);
      var tries := 0;
      while tries < nservers && tcpstate == Disconnected
        invariant Inv({}) && Counting() && Aged(v, s) && WellQueued(s) && 0 <= tries <= nservers
        invariant first == UnderWay ==> tries == 0
        invariant tries == 0 ==> s == v && unchanged(this)
        invariant tries > 0 ==> tcpstate == Disconnected && old(tcpstate) == Disconnected
        invariant Slack(s.q, s.tcpw, nservers) <= Slack(v.q, v.tcpw, nservers)
        invariant tries > 0 && v.tcpw != [] ==> Slack(s.q, s.tcpw, nservers) < Slack(v.q, v.tcpw, nservers)
        decreases nservers - tries
      {
        ghost var u := s;
        var fd: int :| fd >= 0;
        tcpsocket := fd;
        tcpstate := Connecting;
        var attempt := first;
        if tries > 0 {
          attempt := *;
        }
        match attempt {
          case AtOnce(wr) =>
            ghost var _ := TcpConnected(wr);
            AfterConnected(u, s, nservers);
            AgedTwice(v, u, s);
            return;
          case UnderWay =>
            tcptimeout := now + TCPCONN;
            return;
          case Refused =>
            ConnectFailed();
            AgedTwice(v, u, s);
        }
        tries := tries + 1;
      }
    }

    // ----- sending -----

    /** `query_usetcp`. While a connection is under way, the query just waits. */
    method UseTcp(x: Id, now: int, net: Net)
      requires Inv({x}) && Counting() && x in s.q && s.Linked(x) && s.q[x].state != Done && s.q[x].children == []
      requires s.q[x].retries == 0
      modifies this
      ensures Inv({}) && Counting() && Aged(old(s).QueuedTcp(x, now, 0), s) && KeepsWaits(old(s), s, x)
      ensures x in s.tcpw ==> x in s.q && s.q[x].timeout == now + 30_000_000
      ensures WillConnect(old(tcpstate), net) ==> tcpstate == Connecting && s == old(s).QueuedTcp(x, now, 0)
    {
      hide Without, View.QueueInv, View.HistoryInv, View.Sound, OnlyRetries, Aged, Slack, Patient;
      ghost var before, made := s, tcpstate == Connected;
      QueuedTcpKeepsInv(s, x, now, 0, nservers, RetryCap());
      OneQueue(s, x, {x}, nservers, RetryCap());
      s := s.QueuedTcp(x, now, s.q[x].retries);
      ghost var v := s;
      AgedNothing(v);
      WaitingForTcp(v, {}, nservers, RetryCap());
      SendingOneAges(v, x, 0, nservers, RetryCap());
      SendingOneAges(v, x, 1, nservers, RetryCap());
      SendTcp(x, net.wr);
      ghost var u := s;
      JoinedKeepsPatient(before, u, x, now, made, tcpstate == Connected, nservers);
      TryConnect(now, net.connect);
      AgedTwice(v, u, s);
      AgedWaits(v, s);
      AgedTimeout(v, s, x);
    }

    /** EMSGSIZE: the query goes over TCP, with its retries given back. */
    method TooLong(x: Id, now: int, net: Net)
      requires Inv({x}) && Counting() && x in s.q && s.Linked(x) && s.q[x].state == ToSend && s.q[x].children == []
      modifies this
      ensures Inv({}) && Counting() && KeepsWaits(old(s), s, x) && SameAsks(old(s), s)
      ensures Aged(old(s).QueuedTcp(x, now, 0), s)
      ensures x in s.tcpw ==> x in s.q && s.q[x].timeout == now + 30_000_000
      ensures s.submitted == old(s).submitted && s.taken == old(s).taken && s.cancelled == old(s).cancelled
      ensures old(s).answered <= s.answered
    {
      hide Without, View.QueueInv, View.HistoryInv, View.Sound, OnlyRetries, Aged, Slack, Patient;
      OneQueue(s, x, {x}, nservers, RetryCap());
      ghost var v, qu := s, s.q[x].(retries := 0);
      RewrittenKeepsInv(v, x, qu, nservers, RetryCap());
      s := s.(q := s.q[x := s.q[x].(retries := 0)]);
      OneRewritten(v, x, qu, tcpstate == Connected, nservers);
      assert s.QueuedTcp(x, now, 0) == v.QueuedTcp(x, now, 0);
      UseTcp(x, now, net);
      QueuedAsks(v, x, now, s);
    }

    /** `adns__query_send`. The query is on no queue; it is on one afterwards, or was failed. */
    method QuerySend(x: Id, now: int, net: Net)
      requires Inv({x}) && Counting() && x in s.q && s.Linked(x) && s.q[x].state == ToSend && s.q[x].children == []
      requires s.q[x].WantsTcp() ==> s.q[x].retries == 0
      modifies this
      ensures Inv({}) && Counting() && KeepsWaits(old(s), s, x)
      // Over TCP if it must be or does not fit 512 bytes, and else 15 times over UDP.
      ensures (old(s).q[x].usevc || DNS_HDRSIZE + |old(s).q[x].question| > 512) ==> Aged(old(s).QueuedTcp(x, now, 0), s)
      ensures !old(s).q[x].usevc && DNS_HDRSIZE + |old(s).q[x].question| <= 512 ==>
        if old(s).q[x].retries >= 15 then s == old(s).Completed(x)
        else if net.tooLong then Aged(old(s).QueuedTcp(x, now, 0), s)
        else s == old(s).SentUdp(x, now, nservers)
      ensures x in s.tcpw ==> x in s.q && s.q[x].timeout == now + 30_000_000
      ensures old(s).q[x].WantsTcp() && WillConnect(old(tcpstate), net) ==>
        tcpstate == Connecting && s == old(s).QueuedTcp(x, now, 0)
      ensures SameAsks(old(s), s) && s.submitted == old(s).submitted && s.taken == old(s).taken
      ensures s.cancelled == old(s).cancelled && old(s).answered <= s.answered
    {
      hide Without, View.QueueInv, View.HistoryInv, View.Sound, OnlyRetries, Aged, Slack, Patient, SameAsks;
      OneQueue(s, x, {x}, nservers, RetryCap());
      FinishingMovesNobody(s, x, nservers, RetryCap());
      if s.q[x].WantsTcp() {
        UseTcp(x, now, net);
        QueuedAsks(old(s), x, now, s);
        return;
      }
      if s.q[x].retries >= UDPMAXRETRIES {
        CompletedAsks(s, x);
        CompletedKeepsPatient(s, x, tcpstate == Connected, nservers);
        QueryFail(x);
        return;
      }
      if net.tooLong {
        TooLong(x, now, net);
        return;
      }
      SendUdp(x, now);
    }

    method SendUdp(x: Id, now: int)
      requires Inv({x}) && Counting() && x in s.q && s.Linked(x) && s.q[x].state == ToSend && s.q[x].children == []
      requires !s.q[x].WantsTcp() && s.q[x].retries < UDPMAXRETRIES
      modifies this`s
      ensures Inv({}) && Counting() && s == old(s).SentUdp(x, now, nservers) && SameAsks(old(s), s)
      // It is sent to the server whose turn it is, and waits two seconds for its answer.
      ensures x in s.q && s.udpw == old(s).udpw + [x] && old(s).q[x].udpnext in s.q[x].udpsent
      ensures s.q[x].udpsent == old(s).q[x].udpsent + {old(s).q[x].udpnext}
      ensures s.q[x].udpnext == if old(s).q[x].udpnext + 1 == nservers then 0 else old(s).q[x].udpnext + 1
      ensures s.q[x].retries == old(s).q[x].retries + 1 && s.q[x].timeout == now + 2_000_000
    {
      hide Without, View.QueueInv, View.HistoryInv, View.Sound, Patient;
      OneQueue(s, x, {x}, nservers, RetryCap());
      SentAsks(s, x, now, nservers);
      NextServer(s, x, nservers, RetryCap());
      SentUdpKeepsInv(s, x, now, nservers, RetryCap());
      RewrittenKeepsPatient(s, s.SentUdp(x, now, nservers), tcpstate == Connected, nservers);
      s := s.SentUdp(x, now, nservers);
    }

    // ----- timeouts -----

    /** An expired query is sent again, if it waits for UDP, or failed. */
    method Overdue(x: Id, tcp: bool, now: int)
      requires Inv({}) && Counting() && x in TimedQueue(s, tcp) && x in s.q && now > s.q[x].timeout
      modifies this
      ensures Inv({}) && Counting() && Nearer(old(s), s, now) && Expired(s, tcp, now) == Expired(old(s), tcp, now) - {x}
      ensures tcp ==> Expired(s, false, now) == Expired(old(s), false, now)
      ensures if tcp then s == old(s).Unlinked(x).Completed(x) else TriedAgain(old(s), s, x, now, nservers)
      ensures KeepsTrying(old(s), s, now) && (tcp ==> InTime(old(s), s, now))
    {
      hide Without, View.QueueInv, View.HistoryInv, View.Sound, Aged, Slack, View.Completed, View.SentUdp,
           View.QueuedTcp, Patient, Nearer, KeepsTrying, InTime;
      ghost var v := s;
      ghost var cap := RetryCap();
      FailedAlone(v, x, nservers, cap);
      WaitingForTcp(v, {}, nservers, cap);
      UnlinkedKeepsPatient(v, x, tcpstate == Connected, nservers);
      s := s.Unlinked(x);
      if s.q[x].state != ToSend {
        CompletedKeepsPatient(s, x, tcpstate == Connected, nservers);
        FailedIsNearer(v, x, now, nservers, cap);
        FailedKeepsTrying(v, x, now, nservers, cap);
        QueryFail(x);
        assert Expired(s, tcp, now) == Expired(v, tcp, now) - {x};
        WithoutBounds(v.udpw, {x});
      } else {
        FailedIsNearer(v, x, now, nservers, cap);
        ghost var u := s;
        var net: Net := *;
        QuerySend(x, now, net);
        if v.q[x].retries < UDPMAXRETRIES {
          SentIsNearer(v, s, u, x, now, nservers, cap);
        }
        ExpiredShrinks(v, s, x, now, nservers, cap);
        OverdueKeepsTrying(v, s, x, now, nservers, cap);
      }
    }

    /** `timeouts_queue`. With `act`, every expired query is sent again or failed and the queue is looked
        at from its head again; without, only the time until the first of them expires is worked out. */
    method TimeoutsQueue(tcp: bool, act: bool, wait: Option<int>, now: int) returns (w: Option<int>)
      requires Inv({}) && Counting() && (wait.Some? ==> wait.value >= 0)
      modifies this
      ensures Inv({}) && Counting() && Nearer(old(s), s, now)
      ensures !act ==> unchanged(this) && IsEarliest(w, wait, DueTimes(s, tcp, |TimedQueue(s, tcp)|, now))
      ensures w.Some? ==> w.value >= 0
      ensures act ==> Expired(s, tcp, now) == {}
      ensures Expired(old(s), tcp, now) == {} ==> unchanged(this)
      ensures act && tcp ==> Expired(s, false, now) == Expired(old(s), false, now)
      // Nobody is failed who is not overdue, or was not sent 15 times.
      ensures KeepsTrying(old(s), s, now) && (tcp ==> InTime(old(s), s, now))
    {
      hide Without, View.QueueInv, View.HistoryInv, View.Sound, Aged, Slack, Scanned, IsEarliest, DueTimes, Patient,
           Nearer, KeepsTrying, TriedAgain;
      w := wait;
      var i := 0;
      WaitingForTcp(s, {}, nservers, RetryCap());
      NothingNearer(s, now);
      NothingTried(s, now);
      ScanStarts(s, tcp, now, wait);
      while i < |TimedQueue(s, tcp)|
        invariant Inv({}) && Counting() && Nearer(old(s), s, now) && 0 <= i <= |TimedQueue(s, tcp)|
        invariant KeepsTrying(old(s), s, now) && (tcp ==> InTime(old(s), s, now))
        invariant !act || Expired(old(s), tcp, now) == {} ==> unchanged(this)
        invariant Scanned(s, tcp, i, now, w, wait) && (w.Some? ==> w.value >= 0)
        invariant tcp ==> Expired(s, false, now) == Expired(old(s), false, now)
        decreases Expired(s, tcp, now), |TimedQueue(s, tcp)| - i
      {
        WaitingForTcp(s, {}, nservers, RetryCap());
        var x := TimedQueue(s, tcp)[i];
        if now <= s.q[x].timeout {
          ScanStep(s, tcp, i, now, w, wait);
          w := TimeVal.Sooner(w, TimeVal.Left(s.q[x].timeout, now));
          i := i + 1;
        } else {
          if !act {
            ScanStops(s, tcp, x, now, wait);
            w := Some(0);
            return;
          }
          assert x in Expired(s, tcp, now);
          ghost var u := s;
          Overdue(x, tcp, now);
          NearerTwice(old(s), u, s, now);
          KeepsTryingTwice(old(s), u, s, now);
          w, i := wait, 0;
          ScanStarts(s, tcp, now, wait);
        }
      }
      ScanEnds(s, tcp, i, now, w, wait);
    }

    /** When the TCP connection next needs attention. */
    ghost function TcpDue(now: int): Option<int>
      reads this
    {
      match tcpstate
      case Broken => Some(0)
      case Disconnected => if s.tcpw == [] then None else Some(0)
      case Connecting => Some(TimeVal.Left(tcptimeout, now))
      case Connected =>
        if s.tcpw != [] then None else Some(if tcptimeout == 0 then TCPIDLE else TimeVal.Left(tcptimeout, now))
    }

    /** One round of `tcp_events` that acts without a connection: a broken one is cleaned up, and a new one
        is tried for whoever waits. */
    method Reconnect(now: int, attempt: Attempt) returns (idle: bool)
      requires Inv({}) && Counting() && (tcpstate == Broken || tcpstate == Disconnected)
      modifies this
      ensures Inv({}) && Counting() && Aged(old(s), s) && WellQueued(old(s)) && WellQueued(s)
      ensures idle ==> s.tcpw == [] && tcpstate == Disconnected
      ensures !idle ==>
        && old(s).tcpw != []
        && (Slack(s.q, s.tcpw, nservers) < Slack(old(s).q, old(s).tcpw, nservers)
            || (Slack(s.q, s.tcpw, nservers) <= Slack(old(s).q, old(s).tcpw, nservers) && tcpstate == Connecting))
      ensures attempt == UnderWay && old(tcpstate) == Broken ==>
        CleanedUp(old(s), s, nservers) && (!idle ==> s.tcpw != [] && tcpstate == Connecting && now <= tcptimeout)
    {
      hide Without, View.QueueInv, View.HistoryInv, View.Sound, Aged, Slack, IsEarliest, Patient, CleanedUp;
      ghost var v := s;
      AgedNothing(v);
      WaitingForTcp(v, {}, nservers, RetryCap());
      if tcpstate == Broken {
        TcpBrokenEvents();
        CleanedUpNow(v, s, nservers);
        AgedSlack(v, s, nservers);
        AgedExpired(v, s, now);
      }
      ghost var u := s;
      WaitingForTcp(u, {}, nservers, RetryCap());
      if s.tcpw == [] {
        return true;
      }
      TryConnect(now, attempt);
      AgedTwice(v, u, s);
      idle := false;
    }

    /** `tcp_events`. With `act`, a broken connection is cleaned up and a new one is made for whoever
        waits, server by server, until one stands or is under way or nobody waits any more; the loop
        ends because every round uses up retries. Without, it only says when to come back. */
    method TcpEvents(act: bool, wait: Option<int>, now: int, connect: Attempt) returns (w: Option<int>)
      requires Inv({}) && Counting() && (wait.Some? ==> wait.value >= 0)
      modifies this
      ensures Inv({}) && Counting() && Aged(old(s), s) && WellQueued(old(s))
      ensures !act ==> s == old(s) && tcpstate == old(tcpstate)
      ensures !act ==> IsEarliest(w, wait, TimesOf(old(TcpDue(now))))
      ensures act && s.tcpw != [] ==> tcpstate == Connecting || tcpstate == Connected
      ensures act && old(tcpstate) == Broken && connect == UnderWay ==>
        CleanedUp(old(s), s, nservers) && tcpstate == if s.tcpw == [] then Disconnected else Connecting
    {
      hide Without, View.QueueInv, View.HistoryInv, View.Sound, Aged, Slack, IsEarliest, Patient, CleanedUp;
      ghost var v := s;
      ghost var straight := act && tcpstate == Broken && connect == UnderWay;
      var first := true;
      AgedNothing(v);
      WaitingForTcp(v, {}, nservers, RetryCap());
      w := wait;
      if TcpDue(now).Some? {
        SoonerIsEarliest(wait, TcpDue(now).value);
      } else {
        SoonerIsEarliest(wait, 0);
      }
      while true
        invariant Inv({}) && Counting() && Aged(v, s) && WellQueued(v) && WellQueued(s) && w == wait
        invariant !act ==> unchanged(this)
        invariant straight && first ==> s == v && tcpstate == Broken
        invariant straight && !first ==>
          CleanedUp(v, s, nservers) && s.tcpw != [] && tcpstate == Connecting && now <= tcptimeout
        decreases Slack(s.q, s.tcpw, nservers), Rank(s.tcpw == [], tcpstate)
      {
        ghost var u := s;
        if tcpstate == Broken || tcpstate == Disconnected {
          if !act {
            if tcpstate == Broken || s.tcpw != [] {
              w := TimeVal.Sooner(w, 0);
            }
            return;
          }
          var attempt := connect;
          if !first {
            attempt := *;
          }
          var idle := Reconnect(now, attempt);
          AgedTwice(v, u, s);
          if idle {
            return;
          }
          first := false;
        } else {
          if tcpstate == Connected {
            if s.tcpw != [] {
              return;
            }
            if tcptimeout == 0 {
              tcptimeout := now + TCPIDLE;
            }
          }
          if !act || now <= tcptimeout {
            w := TimeVal.Sooner(w, TimeVal.Left(tcptimeout, now));
            return;
          }
          if tcpstate == Connected {
            // idle timeout
            TcpClose();
            tcpstate := Disconnected;
            NotWaiting(s, true, nservers);
            OtherCap(s, {}, nservers, nservers + 1, nservers);
            return;
          }
          // failed to connect
          TcpBroken();
          BumpedCosts(u, s, nservers);
          AgedTwice(v, u, s);
        }
      }
    }

    /** `adns__timeouts`. Without `act` the result is exactly the earliest of the caller's own deadline and
        everything that is due; with `act` nothing that waits is overdue afterwards. */
    method Timeouts(act: bool, wait: Option<int>, now: int, connect: Attempt) returns (w: Option<int>)
      requires Inv({}) && Counting() && (wait.Some? ==> wait.value >= 0)
      modifies this
      ensures Inv({}) && Counting() && Nearer(old(s), s, now)
      ensures act ==> Expired(s, false, now) == {} && Expired(s, true, now) == {}
      ensures KeepsTrying(old(s), s, now)
      ensures act && s.tcpw != [] ==> tcpstate == Connecting || tcpstate == Connected
      ensures !act ==> s == old(s) && tcpstate == old(tcpstate)
      ensures !act ==> IsEarliest(w, wait,
        DueTimes(s, false, |s.udpw|, now) + DueTimes(s, true, |s.tcpw|, now)
        + TimesOf(old(TcpDue(now))))
      ensures act && old(tcpstate) == Broken && connect == UnderWay && NothingDue(old(s), now) ==>
        CleanedUp(old(s), s, nservers) && tcpstate == if s.tcpw == [] then Disconnected else Connecting
    {
      hide Without, View.QueueInv, View.HistoryInv, View.Sound, Aged, Slack, IsEarliest, DueTimes, Patient, Nearer,
           CleanedUp, KeepsTrying, InTime;
      var w1 := TimeoutsQueue(false, act, wait, now);
      ghost var u := s;
      var w2 := TimeoutsQueue(true, act, w1, now);
      ghost var v := s;
      ghost var cap := RetryCap();
      NearerTwice(old(s), u, v, now);
      KeepsTryingTwice(old(s), u, v, now);
      ghost var due := TcpDue(now);
      w := TcpEvents(act, w2, now, connect);
      AgedExpired(v, s, now);
      AgedIsNearer(v, s, nservers, cap, now);
      NearerTwice(old(s), v, s, now);
      AgedKeepsTrying(v, s, now);
      KeepsTryingTwice(old(s), v, s, now);
      if !act {
        var a, b := DueTimes(s, false, |s.udpw|, now), DueTimes(s, true, |s.tcpw|, now);
        EarliestOfBoth(w1, w2, wait, a, b);
        EarliestOfBoth(w2, w, wait, a + b, TimesOf(due));
      }
    }

    // ----- new queries -----

    /** `adns_submit`. A bad name is answered at once. */
    method Submit(flat: bool, question: Question, usevc: bool, badName: bool, now: int, net: Net) returns (x: Id)
      requires Inv({}) && Counting()
      modifies this
      ensures Inv({}) && Counting() && KeepsWaits(old(s), s, x) && x == old(s).next
      ensures s.submitted == old(s).submitted + {x} && x in s.q
      ensures badName ==> s == old(s).Submitted(NewQuery(None, flat, question, usevc)).Completed(x)
      ensures old(s).answered <= s.answered && s.taken == old(s).taken && s.cancelled == old(s).cancelled
      ensures AsksGoOn(old(s), s, x) && s.q[x].parent == None
      ensures s.q[x].dnsId == question.id && s.q[x].question == question.bytes && s.q[x].usevc == usevc
      ensures usevc && !badName && WillConnect(old(tcpstate), net) ==>
        tcpstate == Connecting && s == old(s).Submitted(NewQuery(None, flat, question, usevc)).QueuedTcp(x, now, 0)
    {
      hide Without, View.QueueInv, View.HistoryInv, View.Sound, Slack, Forgetting, Patient, SameAsks;
      x := s.next;
      var qu := NewQuery(None, flat, question, usevc);
      SubmittedKeepsInv(s, qu, nservers, RetryCap());
      RewrittenKeepsPatient(s, s.Submitted(qu), tcpstate == Connected, nservers);
      s := s.Submitted(qu);
      FinishingMovesNobody(s, x, nservers, RetryCap());
      ghost var v := s;
      CompletedAsks(s, x);
      hide AsksGoOn, Aged, View.QueuedTcp, View.SentUdp, View.Completed;
      if badName {
        CompletedKeepsPatient(s, x, tcpstate == Connected, nservers);
        QueryFail(x);
      } else {
        QuerySend(x, now, net);
      }
      StillThere(s, x, nservers, RetryCap());
      NewAsks(old(s), v, s, qu);
    }

    /** The queries for the addresses that `pap_hostaddr` did not find in the reply. They are small, so
        the first send is over UDP. */
    method SpawnChildren(p: Id, hosts: seq<Question>, now: int)
      requires Inv({p}) && p in s.q && s.Linked(p) && s.q[p].children == []
      requires hosts != [] ==> s.q[p].parent == None && !s.q[p].flat
      requires forall i :: 0 <= i < |hosts| ==> |hosts[i].bytes| <= DNS_MAXUDP - DNS_HDRSIZE
      modifies this`s
      ensures Inv({p}) && s == old(s).SpawnedAll(p, hosts, now, nservers)
      // One child for each host, in order, that was sent to the first server and waits two seconds.
      ensures p in s.q && s.q[p].children == Numbers(old(s).next, |hosts|)
      ensures forall i :: 0 <= i < |hosts| ==> AsksFor(s, old(s).next + i, p, hosts[i], now, nservers)
    {
      hide View.Inv, View.Spawned, AsksFor;
      BelowNext(s, {p}, nservers, RetryCap());
      ChildrenAsk(s, p, hosts, now, nservers);
      SpawnedInOrder(s, p, hosts, now, nservers);
      assert [] + Numbers(s.next, |hosts|) == Numbers(s.next, |hosts|);
      ghost var v := s;
      SpawnedAllKeepsInv(v, p, hosts, now, nservers, RetryCap());
      var i := 0;
      while i < |hosts|
        invariant 0 <= i <= |hosts|
        invariant s == v.SpawnedAll(p, hosts[..i], now, nservers)
      {
        assert hosts[..i + 1][..i] == hosts[..i];
        s := s.Spawned(p, hosts[i], now, nservers);
        i := i + 1;
      }
      assert hosts[..i] == hosts;
    }

    // ----- replies -----

    /** The first query on the queue that the reply belongs to. */
    method FindAnswered(tcp: bool, server: nat, reply: Question) returns (found: Option<Id>)
      requires Inv({})
      ensures match found
        case None => NobodyAnswered(s, TimedQueue(s, tcp), tcp, server, reply)
        case Some(x) => FirstAnswered(s, x, tcp, server, reply)
      // It has the id of the reply, which repeats its question, and it was sent to the server.
      ensures forall y ::
        (y in (if tcp then s.tcpw else s.udpw) && y in s.q && s.q[y].dnsId == reply.id
         && |s.q[y].question| <= |reply.bytes| && s.q[y].question == reply.bytes[..|s.q[y].question|]
         && (tcp || server in s.q[y].udpsent)) ==> found != None
      ensures found.Some? ==>
        var x := found.value;
        && x in (if tcp then s.tcpw else s.udpw) && x in s.q && s.q[x].dnsId == reply.id
        && |s.q[x].question| <= |reply.bytes| && s.q[x].question == reply.bytes[..|s.q[x].question|]
        && (tcp || server in s.q[x].udpsent)
    {
      hide Without, View.QueueInv, View.HistoryInv, View.Sound;
      WaitingForTcp(s, {}, nservers, RetryCap());
      var queue := if tcp then s.tcpw else s.udpw;
      var i := 0;
      while i < |queue|
        invariant 0 <= i <= |queue|
        invariant NobodyAnswered(s, queue[..i], tcp, server, reply)
      {
        assert queue[i] in queue && queue[i] in s.q;
        if Answers(s.q[queue[i]], tcp, server, reply) {
          assert TimedQueue(s, tcp)[i] == queue[i];
          return Some(queue[i]);
        }
        assert forall y :: y in queue[..i + 1] ==> y in queue[..i] || y == queue[i];
        i := i + 1;
      }
      assert queue[..i] == queue;
      return None;
    }

    /** The records of a reply were all good: finished, unless some hosts must be asked about first. */
    method GotRecords(x: Id, hosts: seq<Question>, now: int)
      requires Processing(x) && AllSmall(hosts)
      modifies this
      ensures Inv({}) && Counting() && KeepsWaits(old(s), s, x)
      ensures ProcessedAs(old(s), s, x, Records(hosts), now, nservers)
    {
      hide Without, View.QueueInv, View.HistoryInv, View.Sound, Aged, Forgetting, View.SpawnedAll, Patient;
      var needed := Needed(s.q[x], hosts);
      SpawnedAllKeepsInv(s, x, needed, now, nservers, RetryCap());
      SpawnedAllKeepsPatient(s, x, needed, now, nservers, tcpstate == Connected, nservers);
      NothingSpawned(s, x, now, nservers);
      SpawnChildren(x, needed, now);
      if s.q[x].children != [] {
        assert {} + {x} == {x};
        WaitingKeepsInv(s, x, {}, nservers, RetryCap());
        RewrittenKeepsPatient(s, s.Waiting(x), tcpstate == Connected, nservers);
        s := s.Waiting(x);
      } else {
        CompletedKeepsPatient(s, x, tcpstate == Connected, nservers);
        QueryDone(x);
      }
    }

    /** A bad record: the children that were asked for on the way are cancelled. */
    method GotBadRecords(x: Id, hosts: seq<Question>, now: int)
      requires Processing(x) && AllSmall(hosts)
      modifies this
      ensures Inv({}) && Counting() && KeepsWaits(old(s), s, x)
      ensures ProcessedAs(old(s), s, x, BadRecords(hosts), now, nservers)
    {
      hide Without, View.QueueInv, View.HistoryInv, View.Sound, Aged, Forgetting, View.SpawnedAll, Patient;
      SpawnedAllKeepsInv(s, x, Needed(s.q[x], hosts), now, nservers, RetryCap());
      SpawnedAllKeepsPatient(s, x, Needed(s.q[x], hosts), now, nservers, tcpstate == Connected, nservers);
      SpawnChildren(x, Needed(s.q[x], hosts), now);
      CompletedKeepsPatient(s, x, tcpstate == Connected, nservers);
      QueryFail(x);
    }

    /** The query is asked again, over TCP if the reply was cut short, with its retries given back. */
    method AskAgain(x: Id, viaTcp: bool, cname: Option<Question>, hosts: seq<Question>, now: int)
      requires Processing(x) && AllSmall(hosts)
      modifies this
      ensures Inv({}) && Counting() && KeepsWaits(old(s), s, x)
      ensures ProcessedAs(old(s), s, x, Restart(viaTcp, cname, hosts), now, nservers)
      ensures viaTcp && old(tcpstate) == Connecting ==> x in s.tcpw
      ensures x in s.udpw ==> x in s.q && s.q[x].retries == 1
    {
      hide Without, View.QueueInv, View.HistoryInv, View.Sound, Aged, Forgetting, View.SpawnedAll, Patient, AskedAgain;
      SpawnedAllKeepsInv(s, x, Needed(s.q[x], hosts), now, nservers, RetryCap());
      SpawnedAllKeepsPatient(s, x, Needed(s.q[x], hosts), now, nservers, tcpstate == Connected, nservers);
      SpawnChildren(x, Needed(s.q[x], hosts), now);
      Resend(x, viaTcp, cname, now);
    }

    method Resend(x: Id, viaTcp: bool, cname: Option<Question>, now: int)
      requires Inv({x}) && Counting() && x in s.q && s.Linked(x) && s.q[x].state != Done
      modifies this
      ensures Inv({}) && Counting() && KeepsWaits(old(s), s, x)
      ensures AskedAgain(old(s), s, x, viaTcp, cname, now, nservers)
      ensures viaTcp && old(tcpstate) == Connecting ==> x in s.tcpw
      ensures x in s.udpw ==> x in s.q && s.q[x].retries == 1
    {
      hide Without, View.QueueInv, View.HistoryInv, View.Sound, Aged, Forgetting, Patient, SameAsks;
      ChildlessFirst(s, x, nservers, RetryCap());
      DroppedKeepsPatient(s, s.ChildSet(x), tcpstate == Connected, nservers);
      CancelChildren(x, {x});
      OneQueue(s, x, {x}, nservers, RetryCap());
      var again := Restarted(s.q[x], viaTcp, cname);
      RewrittenKeepsInv(s, x, again, nservers, RetryCap());
      OneRewritten(s, x, again, tcpstate == Connected, nservers);
      s := s.(q := s.q[x := again]);
      ghost var u := s;
      var net: Net := *;
      QuerySend(x, now, net);
      SentOnce(u, s, x, now, nservers);
    }

    /** A query that is being processed and is otherwise in order. */
    ghost predicate Processing(x: Id)
      reads this
    {
      && Inv({x}) && Counting() && x in s.q && s.Linked(x) && s.q[x].state != Done && s.q[x].children == []
      && (!s.q[x].flat ==> s.q[x].parent == None)
    }

    /** `adns__procdgram` for a reply with a usable header. A reply that belongs to nobody changes
        nothing; otherwise the first query it belongs to leaves its queue and is failed, finished, made
        to wait for its children, or asked again. */
    method ProcDgram(tcp: bool, server: nat, reply: Question, outcome: Outcome, now: int) returns (found: Option<Id>)
      requires Inv({}) && Counting() && (!outcome.Unusable? ==> AllSmall(outcome.hosts))
      modifies this
      ensures Inv({}) && Counting()
      ensures match found
        case None => unchanged(this) && NobodyAnswered(s, TimedQueue(s, tcp), tcp, server, reply)
        case Some(x) =>
          && FirstAnswered(old(s), x, tcp, server, reply)
          && ProcessedAs(old(s).Unlinked(x), s, x, outcome, now, nservers) && KeepsWaits(old(s), s, x)
          && AsksGoOn(old(s), s, x)
      ensures found.Some? ==>
        var qu := old(s).q[found.value];
        && qu.dnsId == reply.id && |qu.question| <= |reply.bytes| && qu.question == reply.bytes[..|qu.question|]
        && (tcp || server in qu.udpsent)
      // What the query asks afterwards, if it is still there: a truncated reply is never asked for over UDP.
      ensures found.Some? && found.value in s.q ==>
        var before, after := old(s).q[found.value], s.q[found.value];
        && after.usevc == (before.usevc || (outcome.Restart? && outcome.viaTcp))
        && after.flat == before.flat && after.parent == before.parent
        && if outcome.Restart? && outcome.cname.Some?
           then after.dnsId == outcome.cname.value.id && after.question == outcome.cname.value.bytes
           else after.dnsId == before.dnsId && after.question == before.question
      ensures found.Some? && outcome.Restart? ==>
        var x := found.value;
        && (outcome.viaTcp ==> x !in s.udpw)
        && (outcome.viaTcp && old(tcpstate) == Connecting ==> x in s.tcpw)
        && (x in s.udpw ==> x in s.q && s.q[x].retries == 1)
    {
      hide Without, View.QueueInv, View.HistoryInv, View.Sound, ProcessedAs, NobodyAnswered, View.Completed, Patient,
           AsksGoOn, AsksAlike;
      BelowNext(s, {}, nservers, RetryCap());
      found := FindAnswered(tcp, server, reply);
      if found == None {
        return;
      }
      var x := found.value;
      MovedAsks(s, x);
      ghost var v := s;
      TakenUp(s, x, nservers, RetryCap());
      UnlinkedKeepsPatient(s, x, tcpstate == Connected, nservers);
      s := s.Unlinked(x);
      match outcome {
        case Unusable =>
          UnusableIsFailure(s, x, now, nservers);
          CompletedKeepsPatient(s, x, tcpstate == Connected, nservers);
          QueryFail(x);
        case Records(hosts) =>
          GotRecords(x, hosts, now);
        case BadRecords(hosts) =>
          GotBadRecords(x, hosts, now);
        case Restart(viaTcp, cname, hosts) =>
          AskAgain(x, viaTcp, cname, hosts, now);
      }
      ProcessedAsks(v.Unlinked(x), s, x, outcome, now, nservers);
      UnlinkedAsks(v, s, x);
      NotOverUdp(s, x, nservers, RetryCap());
    }

    // ----- handing answers over -----

    /** `adns__internal_check`. Asked about any query, it hands over the first that is done; the answer
        that nothing is left means that no query of any kind remains. */
    method Check(wanted: Option<Id>) returns (r: Checked)
      requires Inv({}) && (wanted.Some? ==> wanted.value in s.q && s.q[wanted.value].parent == None)
      modifies this`s
      ensures Inv({})
      ensures r.Handed? <==> if wanted == None then old(s).output != [] else old(s).q[wanted.value].state == Done
      ensures r.Handed? ==> r.x in old(s).output && s == old(s).Taken(r.x)
      ensures r.Handed? ==> r.x == (if wanted == None then old(s).output[0] else wanted.value)
      ensures !r.Handed? ==> s == old(s)
      ensures r == NothingLeft <==> wanted == None && old(s).q == map[]
      ensures r == NothingLeft ==>
        s.submitted == s.taken + s.cancelled && (forall x :: x in s.taken ==> x in s.answered)
    {
      hide Without, View.QueueInv, View.HistoryInv, View.Sound, Forgetting;
      var x;
      if wanted == None {
        if s.output != [] {
          x := s.output[0];
        } else if s.udpw != [] || s.tcpw != [] {
          WaitingForTcp(s, {}, nservers, RetryCap());
          assert s.udpw != [] ==> s.udpw[0] in s.udpw;
          assert s.tcpw != [] ==> s.tcpw[0] in s.tcpw;
          return TryAgain;
        } else {
          NothingOutstanding(s, nservers, RetryCap());
          return NothingLeft;
        }
      } else {
        x := wanted.value;
        OneQueue(s, x, {}, nservers, RetryCap());
        if s.q[x].state != Done {
          return TryAgain;
        }
      }
      TakenKeepsInv(s, x, nservers, RetryCap());
      s := s.Taken(x);
      return Handed(x);
    }

    // ----- whole runs -----

    /** One event, at time `now`; the caller only speaks about queries of its own. */
    method React(event: Event, now: int)
      requires Inv({}) && Counting()
      modifies this
      ensures Inv({}) && Counting() && (Quiet(event) ==> Nearer(old(s), s, now))
      ensures Quiet(event) && !event.TimePassed? ==> SameDeadlines(old(s), s)
      ensures event.TimePassed? ==> NothingDue(s, now) && KeepsTrying(old(s), s, now)
      // What the caller asks for is done.
      ensures event.Asked? ==> s.submitted == old(s).submitted + {old(s).next} && old(s).next in s.q
      ensures event.GivenUp? ==>
        if event.x in old(s).q && old(s).q[event.x].parent == None then s == old(s).Cancelled(event.x) else s == old(s)
      ensures event == Collected(None) && old(s).output != [] ==> s == old(s).Taken(old(s).output[0])
      ensures event.ConnectionLost? && (old(tcpstate) == Connecting || old(tcpstate) == Connected) ==>
        tcpstate == Broken && s.breaks == old(s).breaks + 1
      // The count of whoever waits for TCP goes on, unless a reply belongs to this query.
      ensures forall x :: x in old(s).tcpw && x in s.tcpw && x in old(s).q && !RepliedTo(old(s).q[x], event) ==>
        x in old(s).waits && x in s.waits && s.waits[x] == old(s).waits[x]
      // Whoever must use TCP still must, and nobody asks anything else without having been replied to.
      // After a truncated reply, nothing is asked over UDP.
      ensures AsksAfter(event, old(s), s)
      // What becomes of a connection that is under way.
      ensures event.Asked? && event.usevc && !event.badName && WillConnect(old(tcpstate), event.net) ==>
        && tcpstate == Connecting
        && s == old(s).Submitted(NewQuery(None, event.flat, event.question, true)).QueuedTcp(old(s).next, now, 0)
      ensures event == ConnectionMade(None) && old(tcpstate) == Connecting && old(s).tcpw != [] ==>
        tcpstate == Broken && s == SentUpTo(old(s), 1, true)
      ensures event == TimePassed(UnderWay) && old(tcpstate) == Broken && NothingDue(old(s), now) ==>
        CleanedUp(old(s), s, nservers) && tcpstate == if s.tcpw == [] then Disconnected else Connecting
    {
      hide View.QueueInv, View.HistoryInv, View.Sound, Slack;
      WaitingForTcp(s, {}, nservers, RetryCap());
      OutlastsFew(s, tcpstate == Connected, nservers);
      NewIsNobody(s, nservers, RetryCap());
      BelowNext(s, {}, nservers, RetryCap());
      hide Inv, ProcessedAs, NobodyAnswered, View.Completed, Patient, Nearer, SameDeadlines, View.Dropped, Without,
           CleanedUp, SentUpTo, View.Submitted, View.QueuedTcp, AsksAfter, AsksAlike, AsksGoOn, FirstAnswered,
           View.Cancelled, View.Taken, KeepsTrying;
      ghost var v, cap := s, RetryCap();
      NothingNearer(v, now);
      match event
      case Asked(flat, question, usevc, badName, net) =>
        var _ := Submit(flat, question, usevc, badName, now, net);
        SubmitAsks(event, v, s);
      case GivenUp(x) =>
        if x in s.q && s.q[x].parent == None {
          GiveUp(x, now);
        }
        NearerAsks(event, v, s, now);
      case Replied(tcp, server, reply, outcome) =>
        if outcome.Unusable? || AllSmall(outcome.hosts) {
          var found := ProcDgram(tcp, server, reply, outcome, now);
          if found == None {
            NobodyAsks(event, v);
          } else {
            ReplyAsks(event, v, s, found.value);
          }
        } else {
          NearerAsks(event, v, s, now);
        }
      case TimePassed(connect) =>
        var _ := Timeouts(true, None, now, connect);
        NearerHistory(v, s, now);
        NearerAsks(event, v, s, now);
      case ConnectionMade(wr) =>
        if tcpstate == Connecting {
          ghost var _ := TcpConnected(wr);
          RetriesAreNearer(v, s, nservers, cap, now);
        }
        NearerAsks(event, v, s, now);
      case ConnectionLost =>
        if tcpstate == Connecting || tcpstate == Connected {
          Lost(now);
        }
        NearerAsks(event, v, s, now);
      case Collected(wanted) =>
        if wanted == None || (wanted.value in s.q && s.q[wanted.value].parent == None) {
          HandOver(wanted, now);
        }
        NearerAsks(event, v, s, now);
    }

    method GiveUp(x: Id, ghost now: int)
      requires Inv({}) && Counting() && x in s.q && s.q[x].parent == None
      modifies this`s
      ensures Inv({}) && Counting() && Nearer(old(s), s, now) && SameDeadlines(old(s), s) && s.waits == old(s).waits
      ensures s == old(s).Cancelled(x)
    {
      hide View.QueueInv, View.HistoryInv, View.Sound, Patient, Nearer, SameDeadlines, Without;
      WaitingForTcp(s, {}, nservers, RetryCap());
      DroppedKeepsPatient(s, {x} + s.ChildSet(x), tcpstate == Connected, nservers);
      RewrittenKeepsPatient(s.Dropped({x} + s.ChildSet(x)), s.Cancelled(x), tcpstate == Connected, nservers);
      DroppedIsNearer(s, s.Cancelled(x), {x} + s.ChildSet(x), now);
      Cancel(x, {});
    }

    method Lost(ghost now: int)
      requires Inv({}) && Counting() && (tcpstate == Connecting || tcpstate == Connected)
      modifies this`s, this`tcpstate, this`tcpserver, this`tcpsocket, this`tcprecv, this`tcpsend
      ensures Inv({}) && Counting() && Nearer(old(s), s, now) && SameDeadlines(old(s), s) && s.waits == old(s).waits
      ensures tcpstate == Broken && s.breaks == old(s).breaks + 1
    {
      hide View.QueueInv, View.HistoryInv, View.Sound, Patient, Nearer, SameDeadlines, Without;
      ghost var v, cap := s, RetryCap();
      WaitingForTcp(v, {}, nservers, cap);
      TcpBroken();
      assert OnlyRetries(v, s);
      RetriesAreNearer(v, s, nservers, cap, now);
    }

    method HandOver(wanted: Option<Id>, ghost now: int)
      requires Inv({}) && Counting() && (wanted.Some? ==> wanted.value in s.q && s.q[wanted.value].parent == None)
      modifies this`s
      ensures Inv({}) && Counting() && Nearer(old(s), s, now) && SameDeadlines(old(s), s) && s.waits == old(s).waits
      ensures match wanted
              case None => if old(s).output != [] then s == old(s).Taken(old(s).output[0]) else s == old(s)
              case Some(x) => if old(s).q[x].state == Done then s == old(s).Taken(x) else s == old(s)
    {
      hide View.QueueInv, View.HistoryInv, View.Sound, Patient, Nearer, SameDeadlines, Without;
      ghost var v := s;
      WaitingForTcp(v, {}, nservers, RetryCap());
      NothingNearer(v, now);
      var r := Check(wanted);
      if r.Handed? {
        DroppedKeepsPatient(v, {r.x}, tcpstate == Connected, nservers);
        RewrittenKeepsPatient(v.Dropped({r.x}), s, tcpstate == Connected, nservers);
        DroppedIsNearer(v, s, {r.x}, now);
      }
    }

    /** Any run of the resolver: every condition of adns/check.c holds after every event; no query is
        answered twice, and one that was submitted and not given up is there until it is handed over. A
        query that waits for TCP has outlasted, since it joined, no more broken connections than servers
        and one for itself and for each query that it found before it. */
    method Run(events: seq<(Event, int)>)
      requires Inv({}) && Counting()
      modifies this
      ensures Inv({}) && Counting() && NoDup(s.answered)
      ensures forall x :: x in s.submitted && x !in s.cancelled ==> x in s.taken || x in s.q
      ensures forall x :: x in s.udpw ==> x in s.q && 1 <= s.q[x].retries <= UDPMAXRETRIES
      ensures forall x :: x in s.tcpw ==> x in s.q && s.q[x].retries <= nservers + 1
      ensures forall x :: x in s.udpw ==> x in s.q && !s.q[x].usevc && DNS_HDRSIZE + |s.q[x].question| <= DNS_MAXUDP
      // Nobody is asked over UDP for the second time before everybody was asked once.
      ensures forall x, n ::
        (x in s.udpw && x in s.q && 0 <= n < nservers && s.q[x].retries >= nservers) ==> n in s.q[x].udpsent
      ensures StillAsks(old(s), s)
      ensures forall x :: x in s.tcpw ==>
        && x in s.waits && s.waits[x].since <= s.breaks
        && s.breaks - s.waits[x].since <= (s.waits[x].place + 1) * (nservers + 1)
        && (tcpstate != Broken ==> s.breaks - s.waits[x].since < (s.waits[x].place + 1) * (nservers + 1))
    {
      hide View.QueueInv, View.HistoryInv, View.Sound, Patient, StillAsks;
      ghost var v := s;
      BelowNext(v, {}, nservers, RetryCap());
      StillAsksAtFirst(v);
      for i := 0 to |events|
        invariant Inv({}) && Counting() && StillAsks(v, s)
      {
        ghost var u := s;
        React(events[i].0, events[i].1);
        StillAsksTwice(v, u, s);
      }
      SmallOverUdp(s, nservers, RetryCap());
      EverybodyInTurn(s, nservers, RetryCap());
      RetriesAreBounded(s, nservers, RetryCap());
      NobodyIsLost(s, nservers, RetryCap());
      OutlastsFew(s, tcpstate == Connected, nservers);
    }

    /** The counting may start at any moment, with the places that the queries have then. */
    method CountAnew()
      requires Inv({}) && Counting()
      modifies this`s
      ensures Inv({}) && Counting() && s == CountedAnew(old(s))
      ensures forall i :: 0 <= i < |s.tcpw| ==> s.tcpw[i] in s.waits && s.waits[s.tcpw[i]] == Wait(i, s.breaks)
    {
      hide View.QueueInv, View.HistoryInv, View.Sound, Slack;
      WaitingForTcp(s, {}, nservers, RetryCap());
      PatientAnew(s, tcpstate == Connected, nservers);
      SameQueues(s, CountedAnew(s), {}, nservers, RetryCap());
      assert forall i :: 0 <= i < |s.tcpw| ==> s.tcpw[i] in s.tcpw;
      s := CountedAnew(s);
    }

    /** From any moment on: the query at place `i` outlasts fewer than `i + 1` times as many broken
        connections as there are servers and one; so the first is gone after one more than the servers.
        (A query that was asked again since then counts from when it joined the queue anew.) */
    method Outlast(events: seq<(Event, int)>)
      requires Inv({}) && Counting()
      modifies this
      ensures Inv({}) && Counting()
      ensures forall i :: 0 <= i < |old(s).tcpw| ==>
        var x := old(s).tcpw[i];
        x in s.tcpw && x in s.waits && s.waits[x] == Wait(i, old(s).breaks) && tcpstate != Broken ==>
          s.breaks - old(s).breaks < (i + 1) * (nservers + 1)
    {
      hide Inv, Patient;
      CountAnew();
      Run(events);
    }

    // ----- how many broken connections are outlasted, at most -----

    /** One connection whose first `writev` fails, and what the next passing of time makes of it. */
    method BrokenAtFirst(now: int)
      requires Inv({}) && Counting() && tcpstate == Connecting && s.tcpw != [] && NothingDue(s, now)
      modifies this
      ensures Inv({}) && Counting() && NothingDue(s, now)
      ensures CleanedUp(SentUpTo(old(s), 1, true), s, nservers)
      ensures tcpstate == if s.tcpw == [] then Disconnected else Connecting
    {
      hide View.QueueInv, View.HistoryInv, View.Sound;
      SentNotDue(s, now, nservers, RetryCap());
      hide Inv, Patient, CleanedUp, Nearer;
      React(ConnectionMade(None), now);
      React(TimePassed(UnderWay), now);
    }

    /** While the first write on each connection fails, the first in the queue takes all the retries. */
    method FirstTakesAll(k: nat, now: int)
      requires Inv({}) && Counting() && tcpstate == Connecting && NothingDue(s, now)
      requires k <= nservers && Fresh(s, 0) && s.tcpw != []
      modifies this
      ensures Inv({}) && Counting() && tcpstate == Connecting && NothingDue(s, now)
      ensures s.tcpw == old(s).tcpw && Fresh(s, 1) && s.tcpw[0] in s.q && s.q[s.tcpw[0]].retries == k
      ensures s.breaks == old(s).breaks + k && s.waits == old(s).waits
    {
      hide Inv, Patient, CleanedUp;
      var i := 0;
      while i < k
        invariant 0 <= i <= k && Inv({}) && Counting() && tcpstate == Connecting && NothingDue(s, now)
        invariant s.tcpw == old(s).tcpw && Fresh(s, 1) && s.tcpw[0] in s.q && s.q[s.tcpw[0]].retries == i
        invariant s.breaks == old(s).breaks + i && s.waits == old(s).waits
      {
        ghost var v := s;
        NoDupWaiting();
        BrokenAtFirst(now);
        FirstRetried(v, s, nservers);
        i := i + 1;
      }
    }

    /** After as many broken connections as there are servers and one more, the first is gone, and nobody
        behind it has had a retry; and so on. */
    method Starve(k: nat, now: int)
      requires Inv({}) && Counting() && tcpstate == Connecting && NothingDue(s, now) && k < |s.tcpw| && Fresh(s, 0)
      modifies this
      ensures Inv({}) && Counting() && tcpstate == Connecting && NothingDue(s, now)
      ensures s.tcpw == old(s).tcpw[k..] && Fresh(s, 0)
      ensures s.breaks == old(s).breaks + k * (nservers + 1) && s.waits == old(s).waits
    {
      hide Inv, Patient, CleanedUp;
      var i := 0;
      while i < k
        invariant 0 <= i <= k && Inv({}) && Counting() && tcpstate == Connecting && NothingDue(s, now)
        invariant s.tcpw == old(s).tcpw[i..] && Fresh(s, 0)
        invariant s.breaks == old(s).breaks + i * (nservers + 1) && s.waits == old(s).waits
      {
        FirstTakesAll(nservers, now);
        ghost var v := s;
        NoDupWaiting();
        BrokenAtFirst(now);
        FirstRetried(v, s, nservers);
        assert old(s).tcpw[i..][1..] == old(s).tcpw[i + 1..];
        assert (i + 1) * (nservers + 1) == i * (nservers + 1) + nservers + 1;
        i := i + 1;
      }
    }

    lemma NoDupWaiting()
      requires Inv({})
      ensures NoDup(s.tcpw) && s.next !in s.q && forall x :: x in s.tcpw ==> x in s.q
    {
      hide View.QueueInv, View.HistoryInv, View.Sound;
      NewIsNobody(s, nservers, RetryCap());
      WaitingForTcp(s, {}, nservers, RetryCap());
    }

    /** With no replies, 15 passings of time beyond all deadlines finish every query, whatever becomes of
        connections and whatever is given up or collected meanwhile. */
    method Silence(events: seq<(Event, int)>, limit: int)
      requires Inv({}) && Counting() && Passings(events) >= UDPMAXRETRIES && LateEnough(events, limit)
      requires forall i :: 0 <= i < |events| ==> Quiet(events[i].0)
      requires forall x :: Waits(s, x) && x in s.q ==> s.q[x].timeout <= limit
      modifies this
      ensures Inv({}) && s.udpw == [] && s.tcpw == [] && s.submitted == old(s).submitted
      ensures forall x :: x in s.q ==> s.q[x].state == Done && x in s.output
      ensures forall x :: x in s.submitted && x !in s.taken && x !in s.cancelled ==> x in s.output && x in s.answered
    {
      hide View.QueueInv, View.HistoryInv, View.Sound, Patient, Nearer, SameDeadlines, Slack, NothingDue;
      RestIsBounded(s, nservers, RetryCap());
      ghost var late := limit;
      assert events[0..] == events;
      for i := 0 to |events|
        invariant Inv({}) && Counting() && s.submitted == old(s).submitted
        invariant LateEnough(events[i..], late)
        invariant forall x :: Waits(s, x) ==>
          x in s.q && s.q[x].timeout <= late && Rest(s, x) <= UDPMAXRETRIES - (Passings(events) - Passings(events[i..]))
      {
        ghost var v := s;
        assert events[i..][0] == events[i] && events[i..][1..] == events[i + 1..];
        React(events[i].0, events[i].1);
        NearerHistory(v, s, events[i].1);
        if events[i].0.TimePassed? {
          OverdueLessOften(v, s, events[i].1);
          late := events[i].1 + TCPWAIT;
        } else {
          NoLaterThanBefore(v, s, events[i].1, late);
        }
      }
      RestIsBounded(s, nservers, RetryCap());
      QueuesWait(s);
      NobodyWaits(s, nservers, RetryCap());
    }
  }

  /** A new resolver that is asked `n` questions over TCP while its first connection is under way. */
  method AskedOverTcp(servers: nat, n: nat) returns (r: Resolver)
    requires 1 <= servers <= MAXSERVERS && n > 0
    ensures fresh(r) && r.nservers == servers && r.Inv({}) && r.Counting()
    ensures r.tcpstate == Connecting && NothingDue(r.s, 0) && |r.s.tcpw| == n && r.s.breaks == 0 && Fresh(r.s, 0)
    ensures forall i :: 0 <= i < n ==> r.s.tcpw[i] == i && i in r.s.waits && r.s.waits[i] == Wait(i, 0)
  {
    hide Resolver.Inv, Patient, CleanedUp;
    r := new Resolver(servers);
    var j := 0;
    while j < n
      invariant 0 <= j <= n && fresh(r) && r.nservers == servers && r.Inv({}) && r.Counting()
      invariant r.tcpstate == (if j == 0 then Disconnected else Connecting) && NothingDue(r.s, 0)
      invariant r.s.next == j == |r.s.tcpw| && r.s.breaks == 0 && r.s.udpw == [] && Fresh(r.s, 0)
      invariant forall i :: 0 <= i < j ==> r.s.tcpw[i] == i && i in r.s.waits && r.s.waits[i] == Wait(i, 0)
    {
      ghost var v := r.s;
      r.NoDupWaiting();
      r.React(Asked(true, Question(j, []), true, false, Net(false, None, UnderWay)), 0);
      JoinedFresh(v, r.s, j);
      j := j + 1;
    }
  }

  /** The bound is attained, for every place and any number of servers: `place + 1` queries over TCP are
      asked of a new resolver while its first connection is under way, and the first write on every
      connection fails. The last of them outlasts all but one of the connections that its place allows;
      so at any place but the first more than there are servers. */
  method BoundIsAttained(servers: nat, place: nat) returns (r: Resolver)
    requires 1 <= servers <= MAXSERVERS
    ensures fresh(r) && r.nservers == servers && r.Inv({}) && r.Counting() && r.tcpstate == Connecting
    ensures r.s.tcpw == [place] && place in r.s.waits && r.s.waits[place] == Wait(place, 0)
    ensures r.s.breaks == (place + 1) * (servers + 1) - 1
    ensures r.s.breaks > servers <==> place > 0
  {
    hide Resolver.Inv, Patient, CleanedUp;
    r := AskedOverTcp(servers, place + 1);
    r.Starve(place, 0);
    assert r.s.tcpw == [place];
    r.FirstTakesAll(servers, 0);
    assert (place + 1) * (servers + 1) == place * (servers + 1) + servers + 1;
  }
}
