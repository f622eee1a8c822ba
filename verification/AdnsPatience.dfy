/**
 How many broken connections a query that waits for TCP outlasts. A connection that breaks before it is made
 is a retry for everybody who waits (adns/event.c:61-65). One that breaks while the waiting queries are sent
 over it, one after the other (adns/event.c:72-82), is a retry only for those that were sent: for the first
 in the queue, but perhaps for nobody else. So the bound depends on the place in the queue.
 */
module AdnsPatience {
  import opened Wrappers
  import opened Sequences
  import opened AdnsQueues
  import opened AdnsWaiting

  function Bit(b: bool): nat { if b then 1 else 0 }

  /** What the query at place `i` and those before it have left: every broken connection costs one, in
      advance if the connection stands (`made`). */
  ghost predicate PaidAt(v: View, i: nat, made: bool, n: nat)
    requires i < |v.tcpw| && forall x :: x in v.tcpw ==> x in v.q
  {
    var x := v.tcpw[i];
    && x in v.waits && v.waits[x].since <= v.breaks
    && v.breaks - v.waits[x].since + Slack(v.q, v.tcpw[..i + 1], n) + Bit(made) <= (v.waits[x].place + 1) * (n + 1)
  }

  ghost predicate Paid(v: View, made: bool, n: nat) {
    && (forall x :: x in v.tcpw ==> x in v.q)
    && forall i {:trigger PaidAt(v, i, made, n)} :: 0 <= i < |v.tcpw| ==> PaidAt(v, i, made, n)
  }

  /** Everybody who waits was sent over the connection that stands. */
  ghost predicate SentAll(v: View) {
    forall x :: x in v.tcpw && x in v.q ==> v.q[x].retries >= 1
  }

  ghost predicate Patient(v: View, made: bool, n: nat) {
    Paid(v, made, n) && (made ==> SentAll(v))
  }

  /** A prefix of what is left of a list is what is left of a prefix. */
  lemma {:induction false} WithoutPrefix<T(!new)>(s: seq<T>, d: set<T>, j: nat) returns (i: nat)
    requires j < |Without(s, d)|
    ensures i < |s| && s[i] == Without(s, d)[j] && Without(s[..i + 1], d) == Without(s, d)[..j + 1]
  {
    hide Without;
    if s == [] {
      WithoutBounds(s, d);
    }
    var front, last := s[..|s| - 1], s[|s| - 1];
    assert s == front + [last];
    WithoutLast(front, last, d);
    var r := Without(front, d);
    if j == |r| {
      i := |s| - 1;
      assert s[..i + 1] == s;
    } else {
      i := WithoutPrefix(front, d, j);
      assert front[..i + 1] == s[..i + 1] && (r + if last in d then [] else [last])[..j + 1] == r[..j + 1];
    }
  }

  /** Retries never give slack back. */
  lemma SlackFalls(q: map<Id, Query>, q': map<Id, Query>, s: seq<Id>, n: nat)
    requires forall x :: x in s ==> x in q && x in q' && q'[x].retries >= q[x].retries
    ensures Slack(q', s, n) <= Slack(q, s, n)
  {
    hide Without, Slack;
    SlackDrops(q, q', s, {}, n);
    WithoutBounds(s, {});
  }

  /** Queries that leave take nothing from those that stay. */
  lemma PaidWithout(v: View, w: View, d: set<Id>, made: bool, made': bool, n: nat)
    requires Paid(v, made, n) && w.tcpw == Without(v.tcpw, d) && w.waits == v.waits && (made' ==> made)
    requires forall x :: x in v.tcpw && x !in d ==> x in w.q && w.q[x].retries >= v.q[x].retries
    requires w.breaks == v.breaks
    ensures Paid(w, made', n)
  {
    hide Without, Slack;
    forall j | 0 <= j < |w.tcpw|
      ensures PaidAt(w, j, made', n)
    {
      var i := WithoutPrefix(v.tcpw, d, j);
      assert PaidAt(v, i, made, n);
      SlackDrops(v.q, w.q, v.tcpw[..i + 1], d, n);
    }
  }

  /** The first in the queue was retried. */
  ghost predicate HeadRetried(v: View, w: View, n: nat) {
    v.tcpw != [] ==>
      var x := v.tcpw[0];
      x in v.q && x in w.q && v.q[x].retries <= n && w.q[x].retries > v.q[x].retries
  }

  lemma HeadCosts(v: View, w: View, i: nat, n: nat)
    requires i < |v.tcpw| && HeadRetried(v, w, n)
    requires forall x :: x in v.tcpw ==> x in v.q && x in w.q && w.q[x].retries >= v.q[x].retries
    ensures Slack(w.q, v.tcpw[..i + 1], n) < Slack(v.q, v.tcpw[..i + 1], n)
  {
    hide Without, Slack;
    var x, p := v.tcpw[0], v.tcpw[..i + 1];
    assert x == p[0];
    var u := v.q[x := v.q[x].(retries := v.q[x].retries + 1)];
    SlackOfOne(v.q, p, x, n);
    SlackDrops(u, w.q, p, {}, n);
    WithoutBounds(p, {});
  }

  /** Retries in place: a broken connection, or one that is made, is paid for by the first in the queue, or
      was paid for when it was made. */
  lemma PaidRetried(v: View, w: View, made: bool, made': bool, n: nat)
    requires Paid(v, made, n) && OnlyRetries(v, w)
    requires w.breaks + Bit(made') <= v.breaks + Bit(made) + Bit(HeadRetried(v, w, n))
    ensures Paid(w, made', n)
  {
    hide Without, Slack, HeadRetried;
    assert w.tcpw == v.tcpw && w.waits == v.waits;
    forall i | 0 <= i < |w.tcpw|
      ensures PaidAt(w, i, made', n)
    {
      assert PaidAt(v, i, made, n);
      SlackFalls(v.q, w.q, v.tcpw[..i + 1], n);
      if HeadRetried(v, w, n) {
        HeadCosts(v, w, i, n);
      }
    }
  }

  lemma {:induction false} SlackIsBounded(q: map<Id, Query>, s: seq<Id>, n: nat, k: nat)
    requires k <= 1 && forall x :: x in s ==> x in q && q[x].retries >= k
    ensures Slack(q, s, n) <= |s| * (n + 1 - k)
  {
    if s != [] {
      SlackIsBounded(q, s[..|s| - 1], n, k);
      assert |s| * (n + 1 - k) == (|s| - 1) * (n + 1 - k) + (n + 1 - k);
    }
  }

  /** A query joins those that wait, and was sent at once if the connection stands. */
  lemma PaidJoined(v: View, w: View, x: Id, made: bool, made': bool, n: nat)
    requires Paid(v, made, n) && x !in v.tcpw && x in w.q && w.tcpw == v.tcpw + [x]
    requires forall y :: y in v.tcpw ==> y in w.q && w.q[y].retries >= v.q[y].retries
    requires w.waits == v.waits[x := Wait(|v.tcpw|, v.breaks)] && w.breaks >= v.breaks
    requires w.breaks + Bit(made') <= v.breaks + Bit(made) && (made ==> w.q[x].retries >= 1)
    ensures Paid(w, made', n)
  {
    hide Without, Slack;
    SlackOfLast(w.q, v.tcpw, x, n);
    SlackIsBounded(w.q, v.tcpw, n, 0);
    forall i | 0 <= i < |w.tcpw|
      ensures PaidAt(w, i, made', n)
    {
      if i < |v.tcpw| {
        assert PaidAt(v, i, made, n);
        assert w.tcpw[..i + 1] == v.tcpw[..i + 1];
        SlackFalls(v.q, w.q, v.tcpw[..i + 1], n);
      } else {
        assert w.tcpw[..i + 1] == v.tcpw + [x];
        assert (|v.tcpw| + 1) * (n + 1) == |v.tcpw| * (n + 1) + n + 1;
      }
    }
  }

  /** The counting starts anew for everybody who waits. */
  function CountedAnew(v: View): View {
    v.(waits := map x | x in v.tcpw :: Wait(PlaceOf(v.tcpw, x), v.breaks))
  }

  function PlaceOf(s: seq<Id>, x: Id): (i: nat)
    requires x in s
    ensures i < |s| && s[i] == x
  {
    if s[0] == x then 0 else 1 + PlaceOf(s[1..], x)
  }

  lemma PatientAnew(v: View, made: bool, n: nat)
    requires NoDup(v.tcpw) && (forall x :: x in v.tcpw ==> x in v.q) && (made ==> SentAll(v))
    ensures Patient(CountedAnew(v), made, n)
    ensures forall i :: 0 <= i < |v.tcpw| ==> CountedAnew(v).waits[v.tcpw[i]] == Wait(i, v.breaks)
  {
    hide Slack;
    var w := CountedAnew(v);
    forall i | 0 <= i < |v.tcpw|
      ensures PaidAt(w, i, made, n) && w.waits[v.tcpw[i]] == Wait(i, v.breaks)
    {
      var p := v.tcpw[..i + 1];
      assert v.tcpw[i] in w.waits;
      if made {
        SlackIsBounded(v.q, p, n, 1);
        assert (i + 1) * (n + 1) == (i + 1) * n + (i + 1);
      } else {
        SlackIsBounded(v.q, p, n, 0);
      }
    }
  }

  /** Who waits has outlasted no more broken connections than its place allows; one fewer, if it is not
      about to be failed. The first in the queue outlasts as many as there are servers. */
  lemma OutlastsFew(v: View, made: bool, n: nat)
    requires Patient(v, made, n)
    ensures forall x :: x in v.tcpw ==>
      && x in v.waits && v.waits[x].since <= v.breaks
      && v.breaks - v.waits[x].since + Bit(v.q[x].retries <= n) + Bit(made) <= (v.waits[x].place + 1) * (n + 1)
  {
    hide Slack;
    forall x | x in v.tcpw
      ensures x in v.waits && v.waits[x].since <= v.breaks
      ensures v.breaks - v.waits[x].since + Bit(v.q[x].retries <= n) + Bit(made) <= (v.waits[x].place + 1) * (n + 1)
    {
      var i :| 0 <= i < |v.tcpw| && v.tcpw[i] == x;
      assert PaidAt(v, i, made, n);
      assert v.tcpw[..i + 1] == v.tcpw[..i] + [x];
      SlackOfLast(v.q, v.tcpw[..i], x, n);
    }
  }

  // ----- what the queue operations do to those that wait -----

  /** Those that wait for TCP in `w` did in `v`, in the same order and with as many retries at least. */
  ghost predicate Eased(v: View, w: View, d: set<Id>) {
    && w.tcpw == Without(v.tcpw, d) && w.waits == v.waits && w.breaks == v.breaks
    && (forall x :: x in v.tcpw && x !in d ==> x in v.q && x in w.q && w.q[x].retries >= v.q[x].retries)
  }

  lemma EasedTwice(u: View, v: View, w: View, a: set<Id>, b: set<Id>)
    requires Eased(u, v, a) && Eased(v, w, b)
    ensures Eased(u, w, a + b)
  {
    hide Without;
    WithoutTwice(u.tcpw, a, b);
  }

  lemma PatientEased(v: View, w: View, d: set<Id>, made: bool, n: nat)
    requires Patient(v, made, n) && Eased(v, w, d)
    ensures Patient(w, made, n) && Patient(w, false, n)
  {
    hide Without;
    PaidWithout(v, w, d, made, made, n);
    PaidWithout(v, w, d, made, false, n);
  }

  lemma DroppedEases(v: View, gone: set<Id>)
    requires forall x :: x in v.tcpw ==> x in v.q
    ensures Eased(v, v.Dropped(gone), gone)
  {
    hide Without;
  }

  lemma UnlinkedEases(v: View, x: Id)
    requires forall x :: x in v.tcpw ==> x in v.q
    ensures Eased(v, v.Unlinked(x), {x})
  {
    hide Without;
  }

  lemma RewrittenEases(v: View, w: View)
    requires forall x :: x in v.tcpw ==> x in v.q && x in w.q && w.q[x].retries == v.q[x].retries
    requires w.tcpw == v.tcpw && w.waits == v.waits && w.breaks == v.breaks
    ensures Eased(v, w, {})
  {
    hide Without;
    WithoutBounds(v.tcpw, {});
  }

  lemma CompletedEases(v: View, x: Id) returns (d: set<Id>)
    requires x in v.q && forall y :: y in v.tcpw ==> y in v.q
    ensures Eased(v, v.Completed(x), d)
  {
    hide Without, Forgetting, Eased;
    var kids := v.ChildSet(x);
    var w := v.Dropped(kids);
    DroppedEases(v, kids);
    d := kids;
    EasedKeeps(v, w, d);
    if x in w.q {
      match v.q[x].parent {
        case None =>
          RewrittenEases(w, w.Finished(x));
          EasedTwice(v, w, w.Finished(x), d, {});
          d := d + {};
        case Some(p) =>
          d := LastStepEases(v, w, x, p, d);
      }
    }
  }

  lemma EasedKeeps(v: View, w: View, d: set<Id>)
    requires Eased(v, w, d)
    ensures w.waits == v.waits && forall y :: y in w.tcpw ==> y in w.q
  {
    hide Without;
  }

  lemma LastStepEases(v: View, w: View, x: Id, p: Id, d0: set<Id>) returns (d: set<Id>)
    requires Eased(v, w, d0)
    ensures var u := w.Unlinked(p).Dropped({x});
            Eased(v, if p !in u.q then u else if u.q[p].children != [] then u.Waiting(p) else u.Finished(p), d)
  {
    hide Without, Forgetting, Eased;
    EasedKeeps(v, w, d0);
    UnlinkedEases(w, p);
    EasedTwice(v, w, w.Unlinked(p), d0, {p});
    EasedKeeps(v, w.Unlinked(p), d0 + {p});
    DroppedEases(w.Unlinked(p), {x});
    var u := w.Unlinked(p).Dropped({x});
    d := d0 + {p} + {x};
    EasedTwice(v, w.Unlinked(p), u, d0 + {p}, {x});
    EasedKeeps(v, u, d);
    if p in u.q {
      var z := if u.q[p].children != [] then u.Waiting(p) else u.Finished(p);
      RewrittenEases(u, z);
      EasedTwice(v, u, z, d, {});
      d := d + {};
    }
  }

  lemma {:induction false} SpawnedAllEases(v: View, p: Id, hosts: seq<Question>, now: int, nservers: nat)
    requires p in v.q && nservers > 0 && (forall y :: y in v.tcpw ==> y in v.q) && forall y :: y in v.q ==> y < v.next
    ensures Eased(v, v.SpawnedAll(p, hosts, now, nservers), {})
    ensures forall y :: y in v.SpawnedAll(p, hosts, now, nservers).q ==> y < v.SpawnedAll(p, hosts, now, nservers).next
    decreases |hosts|
  {
    hide Without;
    WithoutBounds(v.tcpw, {});
    if hosts != [] {
      SpawnedAllEases(v, p, hosts[..|hosts| - 1], now, nservers);
      var w := v.SpawnedAll(p, hosts[..|hosts| - 1], now, nservers);
      RewrittenEases(w, w.Spawned(p, hosts[|hosts| - 1], now, nservers));
    }
  }

  /** Finishing a query keeps the bound for those that still wait. */
  lemma CompletedKeepsPatient(v: View, x: Id, made: bool, n: nat)
    requires Patient(v, made, n) && x in v.q
    ensures Patient(v.Completed(x), made, n) && v.Completed(x).waits == v.waits
  {
    hide Patient, Eased, View.Completed;
    PatientTcpw(v, made, n);
    var d := CompletedEases(v, x);
    EasedKeeps(v, v.Completed(x), d);
    PatientEased(v, v.Completed(x), d, made, n);
  }

  lemma PatientTcpw(v: View, made: bool, n: nat)
    requires Patient(v, made, n)
    ensures forall y :: y in v.tcpw ==> y in v.q
  {
  }

  lemma UnlinkedKeepsPatient(v: View, x: Id, made: bool, n: nat)
    requires Patient(v, made, n)
    ensures Patient(v.Unlinked(x), made, n)
  {
    hide Patient, Eased, View.Unlinked;
    PatientTcpw(v, made, n);
    UnlinkedEases(v, x);
    PatientEased(v, v.Unlinked(x), {x}, made, n);
  }

  lemma DroppedKeepsPatient(v: View, gone: set<Id>, made: bool, n: nat)
    requires Patient(v, made, n)
    ensures Patient(v.Dropped(gone), made, n)
  {
    hide Patient, Eased, View.Dropped;
    PatientTcpw(v, made, n);
    DroppedEases(v, gone);
    PatientEased(v, v.Dropped(gone), gone, made, n);
  }

  /** Nothing changes for those that wait for TCP. */
  lemma RewrittenKeepsPatient(v: View, w: View, made: bool, n: nat)
    requires Patient(v, made, n)
    requires forall x :: x in v.tcpw && x in v.q ==> x in w.q && w.q[x].retries == v.q[x].retries
    requires w.tcpw == v.tcpw && w.waits == v.waits && w.breaks == v.breaks
    ensures Patient(w, made, n)
  {
    hide Patient, Eased;
    PatientTcpw(v, made, n);
    RewrittenEases(v, w);
    PatientEased(v, w, {}, made, n);
  }

  /** A query that waits for nothing is rewritten. */
  lemma OneRewritten(v: View, x: Id, qu: Query, made: bool, n: nat)
    requires Patient(v, made, n) && x in v.q && x !in v.tcpw
    ensures Patient(v.(q := v.q[x := qu]), made, n)
  {
    hide Patient;
    RewrittenKeepsPatient(v, v.(q := v.q[x := qu]), made, n);
  }

  lemma SpawnedAllKeepsPatient(v: View, p: Id, hosts: seq<Question>, now: int, nservers: nat, made: bool, n: nat)
    requires p in v.q && nservers > 0 && v.HistoryInv() && Patient(v, made, n)
    ensures Patient(v.SpawnedAll(p, hosts, now, nservers), made, n)
    ensures v.SpawnedAll(p, hosts, now, nservers).waits == v.waits
  {
    hide Patient, Eased, View.SpawnedAll, View.HistoryInv;
    PatientTcpw(v, made, n);
    forall y | y in v.q
      ensures y < v.next
    {
      IdsAreBelowNext(v, y);
    }
    SpawnedAllEases(v, p, hosts, now, nservers);
    EasedKeeps(v, v.SpawnedAll(p, hosts, now, nservers), {});
    PatientEased(v, v.SpawnedAll(p, hosts, now, nservers), {}, made, n);
  }

  /** The first `i` of the queue were sent over a connection that was just made, and perhaps it broke. */
  function SentUpTo(v: View, i: nat, broken: bool): View
    requires i <= |v.tcpw|
  {
    v.(q := Bumped(v.q, v.tcpw[..i]), breaks := v.breaks + Bit(broken))
  }

  /** Exactly the queries that were sent have one more retry. */
  lemma SentSome(v: View, i: nat, broken: bool)
    requires i <= |v.tcpw| && NoDup(v.tcpw) && forall x :: x in v.tcpw ==> x in v.q
    ensures var w := SentUpTo(v, i, broken);
            && OnlyRetries(v, w) && (i == |v.tcpw| ==> SentAll(w))
            && (forall j :: 0 <= j < i ==> w.q[v.tcpw[j]].retries == v.q[v.tcpw[j]].retries + 1)
            && (forall j :: i <= j < |v.tcpw| ==> w.q[v.tcpw[j]] == v.q[v.tcpw[j]])
  {
    var w := SentUpTo(v, i, broken);
    assert v.tcpw[..|v.tcpw|] == v.tcpw;
    forall j | 0 <= j < i
      ensures w.q[v.tcpw[j]].retries == v.q[v.tcpw[j]].retries + 1
    {
      assert v.tcpw[j] == v.tcpw[..i][j];
    }
  }

  lemma SentOneMore(v: View, i: nat, broken: bool)
    requires i < |v.tcpw| && NoDup(v.tcpw) && forall x :: x in v.tcpw ==> x in v.q
    ensures var w, x := SentUpTo(v, i, false), v.tcpw[i];
            && x in w.q
            && SentUpTo(v, i + 1, broken) ==
               w.(q := w.q[x := w.q[x].(retries := w.q[x].retries + 1)], breaks := w.breaks + Bit(broken))
  {
    BumpedNext(v.q, v.tcpw, i);
  }

  lemma SentNobody(v: View)
    ensures SentUpTo(v, 0, false) == v
  {
    assert Bumped(v.q, v.tcpw[..0]) == v.q;
  }

  lemma OnlyRetriesKeeps(v: View, w: View)
    requires OnlyRetries(v, w)
    ensures w.tcpw == v.tcpw && w.q.Keys == v.q.Keys
  {
  }

  /** A connection that broke before it was made uses up slack, if anybody waits. */
  lemma BumpedCosts(v: View, w: View, n: nat)
    requires v.Inv({}, n, n) && w == v.(q := Bumped(v.q, v.tcpw), breaks := v.breaks + 1)
    ensures Aged(v, w) && WellQueued(v) && WellQueued(w) && w.tcpw == v.tcpw
    ensures Slack(w.q, w.tcpw, n) <= Slack(v.q, v.tcpw, n)
    ensures v.tcpw != [] ==> Slack(w.q, w.tcpw, n) < Slack(v.q, v.tcpw, n)
  {
    hide Without, View.QueueInv, View.HistoryInv, View.Sound, Slack, Aged;
    WaitingForTcp(v, {}, n, n);
    RetriesAge(v, w);
    SlackFalls(v.q, w.q, v.tcpw, n);
    if v.tcpw != [] {
      assert v.tcpw[0] in v.tcpw;
      RetriesCostSlack(v, w, n, n);
    }
  }

  /** The conditions do not look at the counts of connections. */
  lemma SameQueues(v: View, w: View, f: set<Id>, nservers: nat, cap: nat)
    requires v.Inv(f, nservers, cap) && w == v.(breaks := w.breaks, waits := w.waits)
    ensures w.Inv(f, nservers, cap)
  {
    forall y | y in w.q
      ensures w.Sound(y, f, nservers, cap)
    {
      assert v.Sound(y, f, nservers, cap);
    }
    SameHistory(v, w);
  }

  /** A connection was made and stands, with everybody sent, or broke behind the first at least. */
  lemma ConnectedKeepsPatient(v: View, i: nat, broken: bool, n: nat, cap: nat)
    requires v.Inv({}, n, n) && Patient(v, false, n) && i <= |v.tcpw|
    requires if broken then i > 0 else i == |v.tcpw|
    ensures Patient(SentUpTo(v, i, broken), !broken, n)
  {
    hide Without, View.QueueInv, View.HistoryInv, View.Sound, Slack, Paid;
    WaitingForTcp(v, {}, n, n);
    SentSome(v, i, broken);
    if v.tcpw != [] {
      assert v.tcpw[0] in v.tcpw;
    }
    PaidRetried(v, SentUpTo(v, i, broken), false, !broken, n);
  }

  /** Everybody who waits is retried when a connection breaks before it is made; nobody, if it breaks while
      it stands, since everybody was sent over it. */
  lemma BrokenKeepsPatient(v: View, made: bool, n: nat)
    requires v.Inv({}, n, if made then n + 1 else n) && Patient(v, made, n)
    ensures Patient(v.(q := if made then v.q else Bumped(v.q, v.tcpw), breaks := v.breaks + 1), false, n)
  {
    hide Without, View.QueueInv, View.HistoryInv, View.Sound, Slack, Paid;
    WaitingForTcp(v, {}, n, if made then n + 1 else n);
    var w := v.(q := if made then v.q else Bumped(v.q, v.tcpw), breaks := v.breaks + 1);
    if !made && v.tcpw != [] {
      assert v.tcpw[0] in v.tcpw;
    }
    PaidRetried(v, w, made, false, n);
  }

  /** A query that joins those that wait is counted from now on; over a standing connection it is sent at
      once, which may break it. */
  lemma JoinedKeepsPatient(v: View, w: View, x: Id, now: int, made: bool, made': bool, n: nat)
    requires Patient(v, made, n) && x in v.q && x !in v.tcpw && (made' ==> made)
    requires var u := v.QueuedTcp(x, now, 0);
      w == if made then u.(q := u.q[x := u.q[x].(retries := 1)], breaks := u.breaks + Bit(!made')) else u
    ensures Patient(w, made', n)
  {
    hide Slack;
    PaidJoined(v, w, x, made, made', n);
  }

  lemma NotWaiting(v: View, made: bool, n: nat)
    requires Patient(v, made, n)
    ensures Patient(v, false, n)
  {
    assert forall i :: 0 <= i < |v.tcpw| && PaidAt(v, i, made, n) ==> PaidAt(v, i, false, n);
  }

  /** The queries that used up the servers are gone, and nobody else who waits was touched. */
  ghost predicate CleanedUp(v: View, w: View, n: nat) {
    && w.tcpw == Without(v.tcpw, Exhausted(v, v.tcpw, n))
    && (forall x :: x in w.tcpw ==> x in w.q && x in v.q && w.q[x] == v.q[x])
    && w.udpw == v.udpw && (forall x :: x in w.udpw && x in v.q ==> x in w.q && w.q[x] == v.q[x])
    && w.breaks == v.breaks && w.waits == v.waits
  }

  lemma CleanedUpNow(v: View, w: View, n: nat)
    requires Aged(v, w) && w.breaks == v.breaks && w.tcpw == Without(v.tcpw, Exhausted(v, v.tcpw, n))
    requires forall x :: x in w.tcpw ==> x in w.q && x in v.q && w.q[x] == v.q[x]
    ensures CleanedUp(v, w, n)
  {
    hide Without;
  }

  /** Nobody who waits is overdue. */
  ghost predicate NothingDue(v: View, now: int) {
    Expired(v, false, now) == {} && Expired(v, true, now) == {}
  }

  /** From place `k` on, nobody who waits for TCP has been retried. */
  ghost predicate Fresh(v: View, k: nat) {
    forall j :: k <= j < |v.tcpw| ==> v.tcpw[j] in v.q && v.q[v.tcpw[j]].retries == 0
  }

  /** What a connection whose first write fails leaves: the first in the queue has one retry more, and
      leaves if it has as many as there are servers already; nobody else changes. */
  lemma FirstRetried(v: View, w: View, n: nat)
    requires v.tcpw != [] && NoDup(v.tcpw) && (forall x :: x in v.tcpw ==> x in v.q)
    requires CleanedUp(SentUpTo(v, 1, true), w, n) && Fresh(v, 1) && v.q[v.tcpw[0]].retries <= n
    ensures w.breaks == v.breaks + 1 && w.waits == v.waits
    ensures if v.q[v.tcpw[0]].retries < n
            then w.tcpw == v.tcpw && Fresh(w, 1) && v.tcpw[0] in w.q
                 && w.q[v.tcpw[0]].retries == v.q[v.tcpw[0]].retries + 1
            else w.tcpw == v.tcpw[1..] && Fresh(w, 0)
  {
    hide Without, SentUpTo, Exhausted;
    var u := SentUpTo(v, 1, true);
    FirstExhausted(v, n);
    if v.q[v.tcpw[0]].retries < n {
      WithoutBounds(v.tcpw, {});
      FreshToo(u, w, 1, v.tcpw);
    } else {
      WithoutIndex(v.tcpw, 0);
      assert v.tcpw[..0] + v.tcpw[1..] == v.tcpw[1..];
      FreshToo(u, w, 0, v.tcpw[1..]);
    }
  }

  /** Those that are left and were not retried still are not. */
  lemma FreshToo(u: View, w: View, k: nat, left: seq<Id>)
    requires k <= 1 && Fresh(u, 1) && u.tcpw != [] && w.tcpw == left == u.tcpw[1 - k..]
    requires forall x :: x in w.tcpw ==> x in w.q && x in u.q && w.q[x] == u.q[x]
    ensures Fresh(w, k)
  {
    forall j | k <= j < |w.tcpw|
      ensures w.tcpw[j] in w.q && w.q[w.tcpw[j]].retries == 0
    {
      assert w.tcpw[j] in w.tcpw && w.tcpw[j] == u.tcpw[j + 1 - k];
    }
  }

  lemma FirstExhausted(v: View, n: nat)
    requires v.tcpw != [] && NoDup(v.tcpw) && (forall x :: x in v.tcpw ==> x in v.q)
    requires Fresh(v, 1) && v.q[v.tcpw[0]].retries <= n
    ensures var u := SentUpTo(v, 1, true);
            && u.tcpw == v.tcpw && u.breaks == v.breaks + 1 && u.waits == v.waits
            && Exhausted(u, u.tcpw, n) == (if v.q[v.tcpw[0]].retries < n then {} else {v.tcpw[0]})
            && Fresh(u, 1) && v.tcpw[0] in u.q && u.q[v.tcpw[0]].retries == v.q[v.tcpw[0]].retries + 1
  {
    SentSome(v, 1, true);
  }

  /** Sending postpones nothing. */
  lemma SentNotDue(v: View, now: int, n: nat, cap: nat)
    requires v.Inv({}, n, cap) && v.tcpw != [] && NothingDue(v, now)
    ensures NothingDue(SentUpTo(v, 1, true), now)
  {
    hide Without, View.QueueInv, View.HistoryInv, View.Sound;
    WaitingForTcp(v, {}, n, cap);
    var w := SentUpTo(v, 1, true);
    SentSome(v, 1, true);
    assert Expired(w, false, now) == Expired(v, false, now) && Expired(w, true, now) == Expired(v, true, now);
  }

  /** One more query over TCP, asked at time 0 while a connection is under way. */
  lemma JoinedFresh(v: View, w: View, j: nat)
    requires w == v.Submitted(NewQuery(None, true, Question(j, []), true)).QueuedTcp(v.next, 0, 0)
    requires v.next == j && v.next !in v.q && (forall x :: x in v.tcpw ==> x in v.q)
    requires v.udpw == [] && Fresh(v, 0) && NothingDue(v, 0)
    ensures w.tcpw == v.tcpw + [j] && w.next == j + 1 && w.breaks == v.breaks && w.udpw == []
    ensures w.waits == v.waits[j := Wait(|v.tcpw|, v.breaks)] && Fresh(w, 0) && NothingDue(w, 0)
  {
    forall x | x in w.tcpw
      ensures x in w.q && w.q[x].timeout >= 0
    {
      if x in v.tcpw {
        assert x !in Expired(v, true, 0);
      }
    }
  }

  /** The counts of everybody but `x` go on. */
  ghost predicate KeepsWaits(v: View, w: View, x: Id) {
    forall y :: y in v.waits && y != x ==> y in w.waits && w.waits[y] == v.waits[y]
  }

  lemma AgedWaits(v: View, w: View)
    requires Aged(v, w)
    ensures w.waits == v.waits
  {
  }

  /** Nobody has the next identity yet. */
  lemma NewIsNobody(v: View, n: nat, cap: nat)
    requires v.Inv({}, n, cap)
    ensures v.next !in v.tcpw && v.next !in v.q
  {
    assert v.Accounted(v.next);
  }

  // ----- when nobody replies -----

  ghost predicate Waits(v: View, x: Id) { x in v.udpw || x in v.tcpw }

  /** How often the query can be overdue. */
  function Rest(v: View, x: Id): int
    requires x in v.q
  {
    if x in v.tcpw then 1 else UDPMAXRETRIES + 1 - v.q[x].retries
  }

  /** Time passed: nobody came to wait, and whoever has a new deadline can be overdue less often. */
  ghost predicate Nearer(v: View, w: View, now: int) {
    && (forall x {:trigger Waits(w, x)} :: Waits(w, x) ==>
          && Waits(v, x) && x in v.q && x in w.q && Rest(w, x) <= Rest(v, x)
          && (w.q[x].timeout == v.q[x].timeout || (Rest(w, x) < Rest(v, x) && w.q[x].timeout <= now + TCPWAIT)))
    && (forall x {:trigger Waits(w, x)} :: Waits(w, x) && x in v.tcpw ==>
          x in w.tcpw && (x in v.waits ==> x in w.waits && w.waits[x] == v.waits[x]))
    && w.submitted == v.submitted && SameAsks(v, w)
  }

  /** The deadlines of those that still wait are as they were. */
  ghost predicate SameDeadlines(v: View, w: View) {
    forall x {:trigger Waits(w, x)} :: Waits(w, x) ==> x in v.q && x in w.q && w.q[x].timeout == v.q[x].timeout
  }

  lemma NearerTwice(u: View, v: View, w: View, now: int)
    requires Nearer(u, v, now) && Nearer(v, w, now)
    ensures Nearer(u, w, now)
  {
    forall x | Waits(w, x)
      ensures Waits(u, x) && x in u.q && x in w.q && Rest(w, x) <= Rest(u, x)
      ensures w.q[x].timeout == u.q[x].timeout || (Rest(w, x) < Rest(u, x) && w.q[x].timeout <= now + TCPWAIT)
      ensures x in u.tcpw ==> x in w.tcpw && (x in u.waits ==> x in w.waits && w.waits[x] == u.waits[x])
    {
      assert Waits(v, x);
    }
  }

  lemma NothingNearer(v: View, now: int)
    requires WellQueued(v)
    ensures Nearer(v, v, now) && SameDeadlines(v, v)
  {
  }

  lemma NearerHistory(v: View, w: View, now: int)
    requires Nearer(v, w, now)
    ensures w.submitted == v.submitted
    ensures forall x :: x in v.tcpw && x in w.tcpw && x in v.waits ==> x in w.waits && w.waits[x] == v.waits[x]
  {
    assert forall x :: x in w.tcpw ==> Waits(w, x);
  }

  lemma AgedUnlinked(v: View, w: View, now: int)
    requires Aged(v, w) && WellQueued(v) && forall y :: y in v.udpw ==> y !in v.tcpw
    ensures Nearer(v, w, now) && SameDeadlines(v, w)
  {
    hide Without;
  }

  /** Queries that disappear postpone nobody. */
  lemma DroppedIsNearer(v: View, w: View, gone: set<Id>, now: int)
    requires WellQueued(v) && w.q == Forgetting(v.q, gone) && w.submitted == v.submitted && w.waits == v.waits
    requires w.next == v.next
    requires w.udpw == Without(v.udpw, gone) && w.tcpw == Without(v.tcpw, gone)
    ensures Nearer(v, w, now) && SameDeadlines(v, w)
  {
    hide Without;
  }

  lemma RetriesAreNearer(v: View, w: View, n: nat, cap: nat, now: int)
    requires OnlyRetries(v, w) && v.Inv({}, n, cap)
    ensures Nearer(v, w, now) && SameDeadlines(v, w)
  {
    hide Without, View.QueueInv, View.HistoryInv, View.Sound, Aged, Nearer;
    WaitingForTcp(v, {}, n, cap);
    RetriesAge(v, w);
    AgedUnlinked(v, w, now);
  }

  /** Whoever still waits has the deadline that it had. */
  lemma NoLaterThanBefore(v: View, w: View, now: int, late: int)
    requires Nearer(v, w, now) && SameDeadlines(v, w)
    requires forall x :: Waits(v, x) && x in v.q ==> v.q[x].timeout <= late
    ensures forall x :: Waits(w, x) ==>
      Waits(v, x) && x in v.q && x in w.q && w.q[x].timeout <= late && Rest(w, x) <= Rest(v, x)
  {
  }

  lemma AgedIsNearer(v: View, w: View, n: nat, cap: nat, now: int)
    requires Aged(v, w) && v.Inv({}, n, cap)
    ensures Nearer(v, w, now)
  {
    hide Without, View.QueueInv, View.HistoryInv, View.Sound, Aged, Nearer;
    WaitingForTcp(v, {}, n, cap);
    AgedUnlinked(v, w, now);
  }

  /** An overdue query that is failed. */
  lemma FailedIsNearer(v: View, x: Id, now: int, n: nat, cap: nat)
    requires v.Inv({}, n, cap) && Waits(v, x)
    ensures x in v.q && Nearer(v, v.Unlinked(x).Completed(x), now)
  {
    hide Without, View.QueueInv, View.HistoryInv, View.Sound, View.Completed;
    FailedAlone(v, x, n, cap);
    WaitingForTcp(v, {}, n, cap);
  }

  /** An overdue query that is sent again, over UDP or TCP. */
  lemma SentIsNearer(v: View, w: View, u: View, x: Id, now: int, n: nat, cap: nat)
    requires v.Inv({}, n, cap) && x in v.udpw && x in v.q && n > 0 && v.q[x].retries < UDPMAXRETRIES
    requires u == v.Unlinked(x) && (w == u.SentUdp(x, now, n) || Aged(u.QueuedTcp(x, now, 0), w))
    ensures Nearer(v, w, now)
  {
    hide Without, View.QueueInv, View.HistoryInv, View.Sound, Aged, Nearer;
    ResentIsNearer(v, u.SentUdp(x, now, n), x, now, n, cap);
    ResentIsNearer(v, u.QueuedTcp(x, now, 0), x, now, n, cap);
    if w != u.SentUdp(x, now, n) {
      WaitingForTcp(v, {}, n, cap);
      AgedUnlinked(u.QueuedTcp(x, now, 0), w, now);
      NearerTwice(v, u.QueuedTcp(x, now, 0), w, now);
    }
  }

  lemma ResentIsNearer(v: View, w: View, x: Id, now: int, n: nat, cap: nat)
    requires v.Inv({}, n, cap) && x in v.udpw && x in v.q && n > 0 && v.q[x].retries < UDPMAXRETRIES
    requires w == v.Unlinked(x).SentUdp(x, now, n) || w == v.Unlinked(x).QueuedTcp(x, now, 0)
    ensures Nearer(v, w, now) && WellQueued(w) && forall y :: y in w.udpw ==> y !in w.tcpw
  {
    hide Without, View.QueueInv, View.HistoryInv, View.Sound;
    assert SameAsks(v, w);
    hide SameAsks;
    WaitingForTcp(v, {}, n, cap);
    assert x !in v.tcpw;
    WithoutBounds(v.tcpw, {x});
  }

  /** Whoever was overdue and still waits can be overdue less often. */
  lemma OverdueLessOften(v: View, w: View, now: int)
    requires Nearer(v, w, now) && NothingDue(w, now)
    requires forall x :: Waits(v, x) && x in v.q ==> v.q[x].timeout < now
    ensures forall x :: Waits(w, x) ==>
      Waits(v, x) && x in v.q && x in w.q && Rest(w, x) < Rest(v, x) && w.q[x].timeout <= now + TCPWAIT
  {
    forall x | Waits(w, x)
      ensures Waits(v, x) && x in v.q && x in w.q && Rest(w, x) < Rest(v, x) && w.q[x].timeout <= now + TCPWAIT
    {
      assert x !in Expired(w, false, now) && x !in Expired(w, true, now);
    }
  }

  lemma RestIsBounded(v: View, n: nat, cap: nat)
    requires v.Inv({}, n, cap)
    ensures forall x :: Waits(v, x) ==> x in v.q && 1 <= Rest(v, x) <= UDPMAXRETRIES
  {
    forall x | Waits(v, x)
      ensures x in v.q && 1 <= Rest(v, x) <= UDPMAXRETRIES
    {
      assert v.Sound(x, {}, n, cap);
    }
  }

  /** Nobody waits for the network: every query that was submitted has its answer, unless it was given up. */
  lemma QueuesWait(v: View)
    ensures v.udpw != [] || v.tcpw != [] ==> exists x :: Waits(v, x)
  {
    if v.udpw != [] {
      assert Waits(v, v.udpw[0]);
    } else if v.tcpw != [] {
      assert Waits(v, v.tcpw[0]);
    }
  }

  lemma NobodyWaits(v: View, n: nat, cap: nat)
    requires v.Inv({}, n, cap) && v.udpw == [] && v.tcpw == []
    ensures forall x :: x in v.q ==> v.q[x].state == Done && x in v.output
    ensures forall x :: x in v.submitted && x !in v.taken && x !in v.cancelled ==> x in v.output && x in v.answered
  {
    hide Without;
    forall x | x in v.q
      ensures v.q[x].state == Done && x in v.output
    {
      SomebodyWaits(v, x, n, cap);
    }
    forall x | x in v.submitted && x !in v.taken && x !in v.cancelled
      ensures x in v.output && x in v.answered
    {
      StillThere(v, x, n, cap);
    }
  }
}
