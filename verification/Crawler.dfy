/**
 The operations of the crawler's scheduler (src/fetch/site.cxx, src/fetch/sequencer.cxx,
 src/fetch/fetch_open.cxx, src/fetch/fetch_pipe.cxx). They call each other while sites are in the
 middle of being processed: putting a url into an IP site may open a connection, which changes the
 count of another named site. Each contract says what is on its way (`hand`, `Aside`) meanwhile.
 Whether a connection can be opened, what a DNS answer says and when time passes is any outcome the
 system calls can report.
 */
module Crawler {
  import opened Wrappers
  import opened Sequences
  import opened Scheduler
  import RobotsPattern

  /** What a DNS answer says: `cname` is the case of a CNAME that points to another, which is asked again. */
  datatype DnsAnswer = Found(addr: Text) | NotFound | Cname

  /** What happens before a round of the main loop. */
  datatype Turn = Turn(now: int, found: seq<Url>, urgent: seq<Url>, ready: nat)

  /** The time when round `k` begins. */
  function Clock(start: int, rounds: seq<Turn>, k: nat): int
    requires k <= |rounds|
  {
    if k == 0 then start else rounds[k - 1].now
  }

  /** A url taken from an input queue, the state `after` that, and the limit that holds for it. */
  datatype Arrival = Arrival(url: Url, after: World, limit: nat, prio: bool)

  const MAX_PER_CALL := 100

  /** Already enough urls in memory for this site. */
  predicate Full(x: NamedSite, limit: nat) { x.nburls > MAX_URLS_BY_SITE - limit }

  /** The DNS is not done, or was done for another site. */
  predicate MustWait(x: NamedSite, u: Url, now: int) {
    x.dnsState == WaitDns || x.name != u.name || x.port != u.port || now > x.dnsTimeout
  }

  /** The input queues, the clock and the budget are the same. */
  ghost predicate SameInput(v: World, w: World) {
    && w.disk == v.disk && w.priority == v.priority && w.diskWait == v.diskWait && w.priorityWait == v.priorityWait
    && w.now == v.now && w.space == v.space && w.waitDuration == v.waitDuration && w.proxy == v.proxy
    && w.intake == v.intake
    && |w.sites| == |v.sites| && |w.ips| == |v.ips| && |w.conns| == |v.conns| && NoMore(v, w)
  }

  /** The time and what was configured. */
  predicate SameClock(v: World, w: World) {
    w.now == v.now && w.waitDuration == v.waitDuration && w.proxy == v.proxy
  }

  predicate SameBeside(v: World, w: World) {
    SameClock(v, w) && w.pending == v.pending
  }

  /** No url with priority waits. */
  predicate NoPriority(w: World) { w.priority == [] && w.priorityWait == [] }

  class Larbin {
    const ignoreRobots: bool
    const dnsConn: nat
    var w: World
    var nextCall: int
    var readWait: nat
    var readPriorityWait: nat

    // ----- IP sites -----

    /** `IPSite::fetch`. Fetches the first page of the queue, giving up urls for which no connection can
        be opened; the site ends up in `okSites` exactly if it has urls left. Putting it back in front
        happens only when it was just taken from there (`justTaken`). */
    method Fetch(i: nat, ghost justTaken: bool, ghost hand: seq<Url>, ghost a: Aside) returns (next: int)
      requires Sane(w, hand, a.(fi := a.fi + {i})) && i !in a.fi && i < |w.ips| && w.freeConns != []
      requires !justTaken ==> w.ips[i].lastAccess + w.waitDuration <= w.now
      modifies this`w
      ensures Sane(w, hand, a) && Elsewhere(old(w), w) && |w.ips| == |old(w).ips|
      ensures next != 0 ==> justTaken && w == old(w).OkRePut(i) && next == w.ips[i].lastAccess + w.waitDuration > w.now
      ensures next != 0 ==> w.okSites == [i] + old(w).okSites && w.ips == old(w).ips
      ensures next == 0 ==> exists n :: FetchedUpTo(old(w), w, i, n)
      ensures next == 0 ==> |w.freeConns| + |w.okSites| <= |old(w).freeConns| + |old(w).okSites|
      decreases |w.ips[i].tab|
    {
      hide Inv, Elsewhere, FetchedUpTo;
      StepsElsewhere(w, i);
      if w.ips[i].tab == [] {
        IPRestsStaysSane(w, i, hand, a);
        AddressesMatch(w, i, hand, a.(fi := a.fi + {i}));
        w := w.IPRests(i);
        NothingToFetch(old(w), i);
        return 0;
      }
      next := w.ips[i].lastAccess + w.waitDuration;
      if next > w.now {
        OkPutStaysSane(w, i, hand, a);
        NowIsPositive(w, hand, a.(fi := a.fi + {i}));
        w := w.OkRePut(i);
        return;
      }
      ghost var v := w;
      HeadIsKnown(w, i, hand, a.(fi := a.fi + {i}));
      OpeningElsewhere(w, i);
      var connected: bool := *;
      if connected {
        PageOpenedStaysSane(w, i, hand, a.(fi := a.fi + {i}));
        w := w.PageOpened(i);
        PageWasOpened(v, i);
        if w.ips[i].tab == [] {
          IPRestsStaysSane(w, i, hand, a);
          w := w.IPRests(i);
        } else {
          OkPutStaysSane(w, i, hand, a);
          w := w.OkPut(i);
        }
        return 0;
      } else {
        OpenFailedStaysSane(w, i, hand, a.(fi := a.fi + {i}));
        w := w.OpenFailed(i);
        ghost var u := w;
        next := Fetch(i, false, hand, a);
        ElsewhereTwice(v, u, w);
        ghost var n :| FetchedUpTo(u, w, i, n);
        FailedFirst(v, u, w, i, n);
      }
    }

    /** `IPSite::putUrl`. */
    method PutUrl(i: nat, u: Url, addr: Text, ghost a: Aside)
      requires Sane(w, [u], a) && i < |w.ips| && i !in a.fi && IPHash(u.Hash(), addr, w.proxy) == i
      modifies this`w
      ensures Sane(w, [], a) && Elsewhere(old(w), w) && PutInto(old(w), w, i, u, addr)
    {
      hide Inv, Elsewhere, FetchedUpTo;
      ghost var v := w;
      var nowhere := !w.ips[i].isInFifo;
      TabPutStaysSane(w, i, u, addr, a);
      StepsElsewhere(w, i);
      w := w.TabPut(i, u, addr);
      if nowhere {
        ghost var t := w;
        StepsElsewhere(w, i);
        if w.ips[i].lastAccess + w.waitDuration <= w.now && w.freeConns != [] {
          var _ := Fetch(i, false, [], a);
        } else {
          OkPutStaysSane(w, i, [], a);
          w := w.OkPut(i);
        }
        ElsewhereTwice(v, t, w);
      }
    }

    // ----- named sites -----

    /** `NamedSite::testRobots`. */
    predicate Allowed(x: NamedSite, file: Text) {
      ignoreRobots || forall p :: p in x.forbidden ==> !RobotsPattern.Matched(p, file)
    }

    method TestRobots(x: NamedSite, file: Text) returns (allowed: bool)
      ensures allowed == Allowed(x, file)
    {
      if ignoreRobots {
        return true;
      }
      for i := 0 to |x.forbidden|
        invariant forall k :: 0 <= k < i ==> !RobotsPattern.Matched(x.forbidden[k], file)
      {
        var matched := RobotsPattern.RobotsMatch(x.forbidden[i], file);
        if matched {
          return false;
        }
      }
      return true;
    }

    /** What `transfer` does: the url goes to the IP site of its site, or robots.txt forbids it. */
    ghost predicate Transferred(v: World, w: World, s: nat, u: Url) {
      && s < |v.sites| && v.sites[s].ipHash < |v.ips|
      && if Allowed(v.sites[s], u.file) then PutInto(v, w, v.sites[s].ipHash, u, v.sites[s].addr)
         else w == v.Forgotten(s, u)
    }

    method ForgetUrl(s: nat, u: Url, ghost a: Aside)
      requires Sane(w, [u], a) && s == u.Hash()
      modifies this`w
      ensures s < |w.sites| == |old(w).sites| && w == old(w).Forgotten(s, u) && Sane(w, [], a) && Elsewhere(old(w), w)
    {
      hide Inv, Elsewhere;
      ForgottenStaysSane(w, u, a);
      ForgettingElsewhere(w, s, u);
      w := w.Forgotten(s, u);
    }

    method Transfer(s: nat, u: Url, ghost a: Aside)
      requires Sane(w, [u], a) && s == u.Hash() && s < |w.sites| && a.fi == {} && w.sites[s].dnsState == DoneDns
      modifies this`w
      ensures Sane(w, [], a) && Elsewhere(old(w), w) && Transferred(old(w), w, s, u)
    {
      hide Inv, Elsewhere, PutInto, IPHash;
      AddressIsKnown(w, s, [u], a);
      var allowed := TestRobots(w.sites[s], u.file);
      if allowed {
        PutUrl(w.sites[s].ipHash, u, w.sites[s].addr, a);
      } else {
        ForgetUrl(s, u, a);
      }
    }

    /** What becomes of the first url of a ring: it goes behind the others, or leaves, to be transferred or
        forgotten. */
    ghost predicate FirstScanned(v: World, w: World, s: nat, transferring: bool) {
      && s < |v.sites| && v.sites[s].ring != []
      && var here, u, t := v.sites[s], v.sites[s].ring[0], v.RingTaken(s);
         if u.name != here.name || (transferring && u.port != here.port) then w == t.RingBack(s, u)
         else if transferring then Transferred(t, w, s, u)
         else w == t.Forgotten(s, u)
    }

    /** One after the other, for `n` urls. */
    ghost predicate ScannedInSteps(steps: seq<World>, v: World, w: World, s: nat, n: nat, transferring: bool) {
      && |steps| == n + 1 && steps[0] == v && steps[n] == w
      && forall j :: 0 <= j < n ==> FirstScanned(steps[j], steps[j + 1], s, transferring)
    }

    lemma OneStepMore(steps: seq<World>, v: World, u: World, w: World, s: nat, n: nat, transferring: bool)
      requires ScannedInSteps(steps, v, u, s, n, transferring) && FirstScanned(u, w, s, transferring)
      ensures ScannedInSteps(steps + [w], v, w, s, n + 1, transferring)
    {
      hide FirstScanned;
    }

    /** One url of the scan below: the first of the ring leaves it, or goes behind the others. */
    method ScanFirst(s: nat, transferring: bool, ghost a: Aside)
      requires Sane(w, [], a) && s < |w.sites| && s in a.fs && a.fi == {} && w.sites[s].ring != []
      requires transferring ==> w.sites[s].dnsState == DoneDns
      modifies this`w
      ensures Sane(w, [], a) && OnlySite(old(w), w, s) && SameLabels(old(w), w, s)
      ensures var here, u := old(w).sites[s], old(w).sites[s].ring[0];
              var stays := u.name != here.name || (transferring && u.port != here.port);
              && w.sites[s].ring == here.ring[1..] + (if stays then [u] else [])
              && (!transferring ==> w.retired == old(w).retired + if stays then multiset{} else multiset{u})
      ensures !transferring ==> w == old(w).(sites := w.sites, pos := w.pos, retired := w.retired)
      ensures FirstScanned(old(w), w, s, transferring)
    {
      hide Inv, Elsewhere, OnlySite, Transferred;
      var u := w.sites[s].ring[0];
      RingTakenStaysSane(w, s, a);
      RingStepsOnlySite(w, s, u);
      w := w.RingTaken(s);
      ghost var taken := w;
      if w.sites[s].name == u.name && (!transferring || w.sites[s].port == u.port) {
        if transferring {
          Transfer(s, u, a);
        } else {
          ForgetUrl(s, u, a);
        }
      } else {
        RingBackStaysSane(w, u, a);
        RingStepsOnlySite(w, s, u);
        w := w.RingBack(s, u);
      }
      OnlySiteThenElsewhere(old(w), taken, w, s);
      LabelsStay(old(w), w, s);
    }

    /** The scan of the ring in `dnsErr` and `robotsResult`: every url with the site's name leaves it (for
        its port only, if `transferring`), to be transferred or forgotten; the others keep their order.
        `steps` are the worlds between the urls. */
    method ScanRing(s: nat, transferring: bool, ghost a: Aside) returns (ghost steps: seq<World>)
      requires Sane(w, [], a) && s < |w.sites| && s in a.fs && a.fi == {}
      requires transferring ==> w.sites[s].dnsState == DoneDns
      modifies this`w
      ensures Sane(w, [], a) && OnlySite(old(w), w, s) && SameLabels(old(w), w, s)
      ensures w.sites[s].ring == Staying(old(w).sites[s].ring, old(w).sites[s].name, old(w).sites[s].port, transferring)
      ensures !transferring ==> (w.retired == old(w).retired
          + multiset(Leaving(old(w).sites[s].ring, old(w).sites[s].name, old(w).sites[s].port, false)))
      ensures !transferring ==> w == old(w).(sites := w.sites, pos := w.pos, retired := w.retired)
      ensures ScannedInSteps(steps, old(w), w, s, |old(w).sites[s].ring|, transferring)
    {
      hide Sane, Elsewhere, OnlySite, Scanned, Staying, Leaving, FirstScanned, World.WithSite;
      assert ScannedInSteps([w], w, w, s, 0, transferring);
      hide ScannedInSteps;
      ghost var v := w;
      ghost var q, name, port := w.sites[s].ring, w.sites[s].name, w.sites[s].port;
      var ss := |w.sites[s].ring|;
      ScanEnds(q, name, port, transferring);
      RingStepsOnlySite(w, s, Url([], [], 0, []));
      var i := 0;
      steps := [w];
      while i < ss
        invariant ScannedInSteps(steps, v, w, s, i, transferring)
        invariant 0 <= i <= ss == |q| && Sane(w, [], a) && OnlySite(v, w, s) && SameLabels(v, w, s)
        invariant w.sites[s].ring == Scanned(q, i, name, port, transferring)
        invariant !transferring ==> w.retired == v.retired + multiset(Leaving(q[..i], name, port, false))
        invariant !transferring ==> w == v.(sites := w.sites, pos := w.pos, retired := w.retired)
      {
        ScanStep(q, i, name, port, transferring);
        LeavingStep(q, i, name, port, false);
        ghost var before := w;
        ScanFirst(s, transferring, a);
        OnlySiteThenElsewhere(v, before, w, s);
        OneStepMore(steps, v, before, w, s, i, transferring);
        steps := steps + [w];
        i := i + 1;
      }
      ScanEnds(q, name, port, transferring);
      assert q[..i] == q;
    }

    method DnsErr(s: nat, ghost a: Aside)
      requires Sane(w, [], a.(fs := a.fs + {s})) && s !in a.fs && s < |w.sites| && a.fi == {}
      modifies this`w
      ensures Sane(w, [], a) && GaveUp(old(w), w, s) && |w.freeConns| == |old(w).freeConns|
      ensures old(w).sites[s].ring != [] && old(w).sites[s].ring[0].name == old(w).sites[s].name ==>
        RingTotal(w) < RingTotal(old(w))
    {
      hide Inv, Elsewhere, RingUrls, Staying, Leaving;
      ghost var v := w;
      ghost var steps := ScanRing(s, false, a.(fs := a.fs + {s}));
      ghost var u := w;
      SettledStaysSane(w, s, [], a);
      w := w.Settled(s);
      if v.sites[s].ring != [] && v.sites[s].ring[0].name == v.sites[s].name {
        FirstLeaves(v.sites[s].ring, v.sites[s].name, v.sites[s].port);
        RingTotalDrops(v, u, s);
        LabelsKeepRingTotal(u, s, w.sites[s]);
        assert w.sites == u.sites[s := w.sites[s]];
      }
    }

    /** `NamedSite::dnsOK`: asks for robots.txt, on the first free connection. */
    method DnsOK(s: nat, ghost a: Aside) returns (connected: bool)
      requires Sane(w, [], a.(fs := a.fs + {s})) && s !in a.fs && s < |w.sites| && a.fi == {}
      requires s !in w.pending
      requires w.sites[s].ring != [] && w.freeConns != []
      modifies this`w
      ensures Sane(w, [], a) && AskedRobots(old(w), w, s)
      ensures if connected then w == old(w).RobotsOpened(s)
              else GaveUp(old(w).RobotsFailed().InState(s, NoConnDns), w, s)
      ensures (w.sites == old(w).sites && w.dnsSites == old(w).dnsSites)
        || (old(w).sites[s].ring[0].name == old(w).sites[s].name ==> RingTotal(w) < RingTotal(old(w)))
    {
      hide Inv, RingTotal, Staying, Leaving, SameElsewhere;
      ghost var v := w;
      AddressIsKnown(w, s, [], a.(fs := a.fs + {s}));
      RobotsOpenedStaysSane(w, s, a);
      connected := *;
      if connected {
        w := w.RobotsOpened(s);
      } else {
        w := w.RobotsFailed();
        RelabelledStaysSane(w, s, w.sites[s].(dnsState := NoConnDns), [], a.(fs := a.fs + {s}));
        LabelsKeepRingTotal(w, s, w.sites[s].(dnsState := NoConnDns));
        RingTotalOfSites(v, w);
        w := w.InState(s, NoConnDns);
        DnsErr(s, a);
      }
    }

    /** `NamedSite::newId`: the site takes the name and the port of its first url, for 48 hours. */
    method NewId(s: nat, ghost a: Aside)
      requires Sane(w, [], a.(fs := a.fs + {s})) && s < |w.sites| && w.sites[s].ring != []
      modifies this`w
      ensures Sane(w, [], a.(fs := a.fs + {s})) && w == old(w).Renamed(s) && s !in w.pending
      ensures w.sites[s].ipHash < |w.ips| == IP_SITES && RingTotal(w) == RingTotal(old(w))
      ensures var x := old(w).sites[s];
              w.sites[s] == x.(name := x.ring[0].name, port := x.ring[0].port, dnsState := WaitDns,
                               dnsTimeout := w.now + 172_800)
    {
      hide Inv, RingTotal;
      AddressIsKnown(w, s, [], a.(fs := a.fs + {s}));
      ProcessedIsNotPending(w, s, [], a.(fs := a.fs + {s}));
      ghost var x := w.Renamed(s).sites[s];
      RelabelledStaysSane(w, s, x, [], a.(fs := a.fs + {s}));
      LabelsKeepRingTotal(w, s, x);
      w := w.Renamed(s);
    }

    /** `NamedSite::newQuery`, for a site that just left the queue for the DNS. `dotted` is what `inet_aton` makes
        of its name. */
    method NewQuery(s: nat, dotted: Option<Text>, ghost a: Aside)
      requires Sane(w, [], a.(fs := a.fs + {s})) && s !in a.fs && s < |w.sites| && a.fi == {}
      requires w.sites[s].ring != [] && w.freeConns != []
      modifies this`w
      ensures Sane(w, [], a) && Queried(old(w), w, s, dotted) && SameInput(old(w), w)
      ensures w.pending == old(w).pending || w.pending == old(w).pending + [s]
      ensures RingTotal(w) < RingTotal(old(w)) || (RingTotal(w) == RingTotal(old(w)) && w.dnsSites == old(w).dnsSites)
    {
      hide Inv, RingTotal, Staying, Leaving;
      NewId(s, a);
      ghost var r := w;
      var x := w.sites[s];
      if w.proxy {
        var _ := DnsOK(s, a);
        RingTotalOfSites(r, w.(sites := r.sites));
      } else if x.name != [] && '0' as int <= x.name[0] <= '9' as int {
        match dotted
        case Some(addr) =>
          RelabelledStaysSane(w, s, x.(addr := addr), [], a.(fs := a.fs + {s}));
          LabelsKeepRingTotal(w, s, x.(addr := addr));
          w := w.Addressed(s, addr);
          ghost var t := w;
          var _ := DnsOK(s, a);
          RingTotalOfSites(t, w.(sites := t.sites));
        case None =>
          RelabelledStaysSane(w, s, x.(dnsState := ErrorDns), [], a.(fs := a.fs + {s}));
          LabelsKeepRingTotal(w, s, x.(dnsState := ErrorDns));
          w := w.InState(s, ErrorDns);
          DnsErr(s, a);
      } else {
        QuerySentStaysSane(w, s, a);
        w := w.QuerySent(s);
        RingTotalOfSites(r, w);
      }
    }

    /** `NamedSite::dnsAns`, for a site whose query just left the resolver. */
    method DnsAns(s: nat, answer: DnsAnswer, ghost a: Aside)
      requires Sane(w, [], a.(fs := a.fs + {s})) && s !in a.fs && s < |w.sites| && a.fi == {}
      requires w.sites[s].ring != [] && w.freeConns != [] && w.sites[s].dnsState == WaitDns && s !in w.pending
      modifies this`w
      ensures Sane(w, [], a) && SameInput(old(w), w)
      ensures match answer
              case Cname => w == old(w).QuerySent(s)
              case NotFound => GaveUp(old(w).InState(s, ErrorDns), w, s)
              case Found(addr) => AskedRobots(old(w).Addressed(s, addr), w, s)
      ensures w.pending == old(w).pending || w.pending == old(w).pending + [s]
    {
      hide Inv, RingTotal, Staying, Leaving;
      AddressIsKnown(w, s, [], a.(fs := a.fs + {s}));
      match answer
      case Cname =>
        QuerySentStaysSane(w, s, a);
        w := w.QuerySent(s);
      case NotFound =>
        RelabelledStaysSane(w, s, w.sites[s].(dnsState := ErrorDns), [], a.(fs := a.fs + {s}));
        w := w.InState(s, ErrorDns);
        DnsErr(s, a);
      case Found(addr) =>
        RelabelledStaysSane(w, s, w.sites[s].(addr := addr), [], a.(fs := a.fs + {s}));
        w := w.Addressed(s, addr);
        var _ := DnsOK(s, a);
    }

    /** The IP site of a named site: a hash of its address, or with a proxy its own number. */
    method ComputeIPHash(s: nat, addr: Text) returns (h: nat)
      ensures h == IPHash(s, addr, w.proxy)
    {
      if w.proxy {
        h := s;
      } else {
        h := 0;
        for i := 0 to |addr|
          invariant h == RollingHash(addr[..i], 31)
        {
          assert addr[..i + 1][..i] == addr[..i];
          h := (h * 31 + addr[i]) % 0x1_0000_0000;
        }
        assert addr[..|addr|] == addr;
      }
      h := h % IP_SITES;
    }

    /** `NamedSite::robotsResult`: the urls of the site whose robots.txt was read go on to its IP site; if
        it could not be reached, they are given up. */
    method RobotsResult(s: nat, ok: bool, ghost a: Aside) returns (ghost steps: seq<World>)
      requires Sane(w, [], a.(fs := a.fs + {s})) && s !in a.fs && s < |w.sites| && a.fi == {}
      requires s !in w.pending
      modifies this`w
      ensures Sane(w, [], a) && SameInput(old(w), w)
      ensures var x, y := old(w).sites[s], w.sites[s];
              && y.dnsState == (if ok then DoneDns else NoConnDns) && y.name == x.name && y.port == x.port
              && y.addr == x.addr && y.forbidden == x.forbidden && (ok ==> y.ipHash == IPHash(s, x.addr, w.proxy))
              && y.ring == Staying(x.ring, x.name, x.port, ok)
              && w.dnsSites == old(w).dnsSites + (if y.ring == [] then [] else [s])
              && (!ok ==> w.retired == old(w).retired + multiset(Leaving(x.ring, x.name, x.port, false)))
      ensures w.pending == old(w).pending
      ensures forall c :: 0 <= c < |w.conns| && old(w).conns[c] != Idle ==> w.conns[c] == old(w).conns[c]
      // The urls of the site go to its IP site or are forgotten, one after the other.
      ensures var x := old(w).sites[s];
              var y := if ok then x.(dnsState := DoneDns, ipHash := IPHash(s, x.addr, w.proxy))
                       else x.(dnsState := NoConnDns);
              && steps != [] && s < |steps[|steps| - 1].sites| && w == steps[|steps| - 1].Settled(s)
              && ScannedInSteps(steps, old(w).WithSite(s, y), steps[|steps| - 1], s, |x.ring|, ok)
    {
      hide Sane, RingTotal, Staying, Leaving, SiteHash, IPHash, FirstScanned;
      AddressIsKnown(w, s, [], a.(fs := a.fs + {s}));
      var x := w.sites[s];
      if ok {
        var h := ComputeIPHash(s, x.addr);
        x := x.(dnsState := DoneDns, ipHash := h);
      } else {
        x := x.(dnsState := NoConnDns);
      }
      RelabelledStaysSane(w, s, x, [], a.(fs := a.fs + {s}));
      w := w.WithSite(s, x);
      steps := ScanRing(s, ok, a.(fs := a.fs + {s}));
      SettledStaysSane(w, s, [], a);
      w := w.Settled(s);
    }

    /** `endOfFile`: the parser of connection `c` is done, its connection becomes free. When it was for
        robots.txt, `forbidden` is what the parser found there. */
    method EndOfFile(c: nat, ok: bool, forbidden: seq<Text>)
      requires Sane(w, [], NOTHING_ASIDE) && c < |w.conns| && w.conns[c] != Idle
      modifies this`w
      ensures Sane(w, [], NOTHING_ASIDE) && SameInput(old(w), w) && w.pending == old(w).pending
      ensures c in w.freeConns && w.conns[c] == Idle
      ensures old(w).conns[c].Page? ==> w == old(w).Ended(c).ConnBack(c) && w.freeConns == old(w).freeConns + [c]
      ensures old(w).conns[c].Robots? ==>
        (var s := old(w).conns[c].site;
         && s < |w.sites| && w.sites[s].dnsState == (if ok then DoneDns else NoConnDns)
         && w.sites[s].forbidden == forbidden)
    {
      hide Inv, RingTotal, Staying, Leaving;
      var job := w.conns[c];
      EndedStaysSane(w, c);
      w := w.Ended(c);
      if job.Robots? {
        var s := job.site;
        AddressIsKnown(w, s, [], Aside(0, {s}, {}, {c}));
        ProcessedIsNotPending(w, s, [], Aside(0, {s}, {}, {c}));
        RelabelledStaysSane(w, s, w.sites[s].(forbidden := forbidden), [], Aside(0, {s}, {}, {c}));
        w := w.WithSite(s, w.sites[s].(forbidden := forbidden));
        assert {} + {s} == {s};
        ghost var steps := RobotsResult(s, ok, Aside(0, {}, {}, {c}));
      }
      HeldIsIdle(w, c);
      ConnBackStaysSane(w, c);
      w := w.ConnBack(c);
    }

    /** `checkTimeout` and the loop of `checkAll`: any connections may be done. */
    method CheckConnections()
      requires Sane(w, [], NOTHING_ASIDE)
      modifies this`w
      ensures Sane(w, [], NOTHING_ASIDE) && SameInput(old(w), w) && w.pending == old(w).pending
    {
      hide Inv;
      ghost var v := w;
      for i := 0 to |w.conns|
        invariant Sane(w, [], NOTHING_ASIDE) && SameInput(v, w) && w.pending == v.pending
      {
        var over: bool := *;
        if over && w.conns[i] != Idle {
          var ok: bool, forbidden: seq<Text> := *, *;
          EndOfFile(i, ok, forbidden);
        }
      }
    }

    /** `fetchOpen`: opens pages of the sites of `okSites`, until the first that must wait. */
    method FetchOpen()
      requires Sane(w, [], NOTHING_ASIDE)
      modifies this`w, this`nextCall
      ensures Sane(w, [], NOTHING_ASIDE) && SameInput(old(w), w) && w.pending == old(w).pending
      ensures old(w).now < old(nextCall) ==> w == old(w) && nextCall == old(nextCall)
      ensures old(w).now >= old(nextCall) ==> w.freeConns == [] || w.okSites == [] || w.now < nextCall
    {
      hide Inv, Elsewhere;
      if w.now < nextCall {
        return;
      }
      ghost var v := w;
      var cont := true;
      while cont && w.freeConns != []
        invariant Sane(w, [], NOTHING_ASIDE) && SameInput(v, w) && w.pending == v.pending
        invariant !cont ==> w.okSites == [] || w.now < nextCall
        decreases cont, |w.freeConns| + |w.okSites|
      {
        if w.okSites == [] {
          cont := false;
        } else {
          OkTakenStaysSane(w, NOTHING_ASIDE);
          var i := w.okSites[0];
          w := w.OkTaken();
          ghost var u := w;
          nextCall := Fetch(i, true, [], NOTHING_ASIDE);
          ElsewhereKeepsInput(u, w);
          cont := nextCall == 0;
        }
      }
    }

    /** `fetchDns`: sends queries while there are few enough of them, then reads at most `ready` answers.
        The number of pending queries is `nbDnsCalls`. */
    method FetchDns(ready: nat)
      requires Sane(w, [], NOTHING_ASIDE)
      modifies this`w
      ensures Sane(w, [], NOTHING_ASIDE) && SameInput(old(w), w)
      ensures |w.pending| <= |old(w).pending| || |w.pending| <= dnsConn
    {
      hide Inv, RingTotal, AskedRobots, Queried, Without;
      ghost var v := w;
      while |w.pending| < dnsConn && w.freeConns != [] && w.dnsSites != []
        invariant Sane(w, [], NOTHING_ASIDE) && SameInput(v, w)
        invariant |w.pending| <= |v.pending| || |w.pending| <= dnsConn
        decreases RingTotal(w), |w.dnsSites|
      {
        var fewInMemory: bool := *;
        if !fewInMemory {
          break;
        }
        DnsTakenStaysSane(w, NOTHING_ASIDE);
        var s := w.dnsSites[0];
        RingTotalOfSites(w, w.DnsTaken());
        w := w.DnsTaken();
        var dotted: Option<Text> := *;
        NewQuery(s, dotted, NOTHING_ASIDE);
      }
      var i := 0;
      while i < ready && w.pending != [] && w.freeConns != []
        invariant Sane(w, [], NOTHING_ASIDE) && SameInput(v, w)
        invariant |w.pending| <= |v.pending| || |w.pending| <= dnsConn
      {
        assert w.pending[0] in w.pending;
        var s: nat :| s in w.pending;
        var answer: DnsAnswer := *;
        AnswerTakenStaysSane(w, s, NOTHING_ASIDE);
        PendingWaits(w, s);
        FewerPending(w, s);
        w := w.AnswerTaken(s);
        DnsAns(s, answer, NOTHING_ASIDE);
        i := i + 1;
      }
    }

    // ----- the sequencer -----

    /** A url that would be put back can be forgotten at once. */
    predicate Hopeless(x: NamedSite, u: Url) {
      && x.name == u.name
      && (x.dnsState == ErrorDns || x.dnsState == NoConnDns
          || (u.port == x.port && x.dnsState == DoneDns && !Allowed(x, u.file)))
    }

    /** The assertion of `putInFifo` fails: the url would fill the array of the ring. */
    predicate Overflows(x: NamedSite, u: Url, limit: nat, now: int) {
      !Full(x, limit) && MustWait(x, u, now) && |x.ring| == MAX_URLS_BY_SITE - 1
    }

    /** Where a url goes that was just taken from an input queue: back to disk if its site has too many,
        unless it can be forgotten; to the ring if the DNS is not done; or on to the IP site. */
    ghost predicate Received(v: World, w: World, u: Url, limit: nat, prio: bool) {
      var s := u.Hash();
      && s < |v.sites|
      && var x, t := v.sites[s], v.Admitted(s);
         if Full(x, limit) then w == if Hopeless(x, u) then t.Forgotten(s, u) else v.Deferred(u, prio)
         else if MustWait(x, u, v.now) then w == t.Ringed(s, u)
         else if x.dnsState == DoneDns then Transferred(t, w, s, u)
         else w == t.Forgotten(s, u)
    }

    /** There are too many urls of the site: the url is put back on disk, or forgotten at once. */
    method PutBack(s: nat, u: Url, prio: bool)
      requires SaneArriving(w, u) && s == u.Hash() < |w.sites|
      modifies this`w
      ensures Sane(w, [], Aside(1, {}, {}, {}))
      ensures w == if Hopeless(old(w).sites[s], u) then old(w).Admitted(s).Forgotten(s, u) else old(w).Deferred(u, prio)
    {
      hide Inv, Sane, SaneArriving, Elsewhere, Url.Hash;
      var x := w.sites[s];
      AdmittedStaysSane(w, u);
      if x.name == u.name && (x.dnsState == ErrorDns || x.dnsState == NoConnDns
                              || (u.port == x.port && x.dnsState == DoneDns && !Allowed(x, u.file))) {
        w := w.Admitted(s);
        ForgetUrl(s, u, Aside(1, {}, {}, {}));
      } else {
        DeferredStaysSane(w, u, prio);
        w := w.Deferred(u, prio);
      }
    }

    /** `NamedSite::putGenericUrl`, for a url that was just taken from an input queue. */
    method PutGeneric(u: Url, limit: nat, prio: bool) returns (aborted: bool)
      requires SaneArriving(w, u) && u.Hash() < |w.sites|
      modifies this`w
      ensures aborted <==> Overflows(old(w).sites[u.Hash()], u, limit, old(w).now)
      ensures aborted ==> limit <= 1 && old(w).sites[u.Hash()].nburls >= MAX_URLS_BY_SITE - 1
      ensures !aborted ==> Sane(w, [], Aside(1, {}, {}, {}))
      ensures !aborted ==> |w.diskWait| >= |old(w).diskWait| && |w.priorityWait| >= |old(w).priorityWait|
      ensures !aborted ==> w.space == old(w).space && SameBeside(old(w), w)
      ensures !aborted ==> w.priority == old(w).priority && (!prio ==> w.priorityWait == old(w).priorityWait)
      ensures !aborted ==> Received(old(w), w, u, limit, prio)
      ensures !aborted && prio ==> w.diskWait == old(w).diskWait
      ensures !aborted ==> w.dnsSites == old(w).dnsSites || w.dnsSites == old(w).dnsSites + [u.Hash()]
      // Only an answer of the DNS for the same name and port, not too old, leads to an IP site.
      ensures !aborted && w.ips != old(w).ips ==>
        var x := old(w).sites[u.Hash()];
        && x.dnsState == DoneDns && x.name == u.name && x.port == u.port && old(w).now <= x.dnsTimeout
        && x.nburls + limit <= 64
      ensures !aborted && limit >= 1 && CountersFit(old(w)) ==> CountersFit(w)
    {
      hide Inv, Sane, SaneArriving, Elsewhere, Url.Hash, Transferred;
      var s := u.Hash();
      var x := w.sites[s];
      AdmittedBound(w, u);
      AdmittedStaysSane(w, u);
      aborted := false;
      if x.nburls > MAX_URLS_BY_SITE - limit {
        PutBack(s, u, prio);
      } else {
        w := w.Admitted(s);
        ghost var v := w;
        if x.dnsState == WaitDns || x.name != u.name || x.port != u.port || w.now > x.dnsTimeout {
          if |x.ring| == MAX_URLS_BY_SITE - 1 {
            return true;
          }
          RingedStaysSane(w, u, Aside(1, {}, {}, {}));
          w := w.Ringed(s, u);
        } else if x.dnsState == DoneDns {
          Transfer(s, u, Aside(1, {}, {}, {}));
          ElsewhereKeepsInput(v, w);
        } else {
          ForgetUrl(s, u, Aside(1, {}, {}, {}));
        }
      }
    }

    /** What is read again from disk is no more than what was put back there. */
    ghost predicate WaitsBounded()
      reads this
    {
      readWait <= |w.diskWait| && readPriorityWait <= |w.priorityWait|
    }

    /** The url that is next: those with priority first, and those that were put back before new ones. */
    ghost function NextUrl(v: World, priorityWaits: nat, priority: bool, waits: nat): (r: Option<Arrival>)
    {
      if priorityWaits > 0 && v.priorityWait != [] then
        Some(Arrival(v.priorityWait[0], FromPriorityWait(v), 1, true))
      else if priority && v.priority != [] then Some(Arrival(v.priority[0], FromPriority(v), 5, true))
      else if waits > 0 && v.diskWait != [] then Some(Arrival(v.diskWait[0], FromDiskWait(v), 10, false))
      else if v.disk != [] then Some(Arrival(v.disk[0], FromDisk(v), 15, false))
      else None
    }

    ghost predicate TooMany(next: Option<Arrival>, now: int) {
      next.Some? && next.value.url.Hash() < |next.value.after.sites|
      && Overflows(next.value.after.sites[next.value.url.Hash()], next.value.url, next.value.limit, now)
    }

    /** `canGetUrl`: takes one url from the input, priorities first. */
    method CanGetUrl(priority: bool) returns (got: bool, testPriority: bool, aborted: bool)
      requires Sane(w, [], NOTHING_ASIDE) && w.space >= 1 && WaitsBounded()
      modifies this`w, this`readWait, this`readPriorityWait
      ensures !aborted && got ==> Sane(w, [], Aside(1, {}, {}, {})) && w.space == old(w).space && SameBeside(old(w), w)
      ensures !aborted && CountersFit(old(w)) ==> CountersFit(w)
      ensures !got ==> !aborted && w == old(w) && w.disk == []
      ensures var next := NextUrl(old(w), old(readPriorityWait), priority, old(readWait));
              && got == next.Some?
              && (got && !aborted ==> Received(next.value.after, w, next.value.url, next.value.limit, next.value.prio))
      ensures testPriority == (priority && (old(readPriorityWait) > 0 || old(w).priority != []))
      ensures !aborted ==> WaitsBounded() && readPriorityWait <= old(readPriorityWait)
      ensures aborted ==> old(readPriorityWait) > 0
      // The assertion fails exactly if the next url overflows the ring of its site.
      ensures aborted == TooMany(NextUrl(old(w), old(readPriorityWait), priority, old(readWait)), old(w).now)
      ensures readWait <= old(readWait) && (old(readPriorityWait) > 0 ==> readPriorityWait == old(readPriorityWait) - 1)
      ensures NoPriority(old(w)) ==> !aborted && NoPriority(w)
    {
      hide Sane, Elsewhere, Url.Hash, SaneArriving, Hopeless, Received;
      TakingIsSane(w);
      TakingAgainIsSane(w);
      testPriority := priority;
      if readPriorityWait > 0 {
        readPriorityWait := readPriorityWait - 1;
        var u := w.priorityWait[0];
        w := FromPriorityWait(w);
        ArrivalIsKnown(w, u);
        aborted := PutGeneric(u, 1, true);
        got := true;
      } else if priority && w.priority != [] {
        var u := w.priority[0];
        w := FromPriority(w);
        ArrivalIsKnown(w, u);
        aborted := PutGeneric(u, 5, true);
        got := true;
      } else {
        testPriority := false;
        if readWait > 0 {
          readWait := readWait - 1;
          var u := w.diskWait[0];
          w := FromDiskWait(w);
          ArrivalIsKnown(w, u);
          aborted := PutGeneric(u, 10, false);
          got := true;
        } else if w.disk != [] {
          var u := w.disk[0];
          w := FromDisk(w);
          ArrivalIsKnown(w, u);
          aborted := PutGeneric(u, 15, false);
          got := true;
        } else {
          got, aborted := false, false;
        }
      }
    }

    /** `sequencer`: at most `MAX_PER_CALL` urls, and no more than there is room for in memory. */
    method Sequencer() returns (aborted: bool)
      requires Sane(w, [], NOTHING_ASIDE) && WaitsBounded()
      modifies this`w, this`readWait, this`readPriorityWait
      ensures !aborted ==> Sane(w, [], NOTHING_ASIDE) && WaitsBounded() && SameBeside(old(w), w)
      ensures !aborted && CountersFit(old(w)) ==> CountersFit(w)
      ensures !aborted ==>
        w.space >= (if old(w).space == 0 then RAM_URLS - old(w).pos else old(w).space) - MAX_PER_CALL
      ensures !aborted ==> readPriorityWait <= old(readPriorityWait)
      ensures aborted ==> old(readPriorityWait) > 0
      ensures NoPriority(old(w)) ==> !aborted && NoPriority(w)
    {
      hide Inv, Received, TooMany, NextUrl, Overflows;
      var testPriority := true;
      aborted := false;
      if w.space == 0 {
        BudgetStaysSane(w);
        w := w.(space := RAM_URLS - w.pos, pos := RAM_URLS);
      }
      BudgetIsNatural(w);
      ghost var budget := w.space;
      var still := if w.space > MAX_PER_CALL then MAX_PER_CALL else w.space;
      while still > 0
        invariant w.space - still >= budget - MAX_PER_CALL
        invariant 0 <= still <= w.space && Sane(w, [], NOTHING_ASIDE) && WaitsBounded()
        invariant readPriorityWait <= old(readPriorityWait) && SameBeside(old(w), w)
        invariant CountersFit(old(w)) ==> CountersFit(w)
        invariant NoPriority(old(w)) ==> NoPriority(w)
      {
        var got;
        got, testPriority, aborted := CanGetUrl(testPriority);
        if aborted {
          return;
        }
        if got {
          SpentStaysSane(w);
          w := w.(space := w.space - 1);
          still := still - 1;
        } else {
          still := 0;
        }
      }
    }

    // ----- the main loop -----

    /** Before the first url. */
    constructor (now: int, waitDuration: int, nbConn: nat, dnsConn: nat, ignoreRobots: bool, proxy: bool)
      requires now >= 0
      ensures w == Start(now, waitDuration, nbConn, proxy) && Sane(w, [], NOTHING_ASIDE) && WaitsBounded()
      ensures readWait == 0 == readPriorityWait == nextCall && CountersFit(w) && w.pending == []
      ensures this.ignoreRobots == ignoreRobots && this.dnsConn == dnsConn
    {
      hide Inv, Start;
      this.ignoreRobots, this.dnsConn := ignoreRobots, dnsConn;
      w, nextCall, readWait, readPriorityWait := Start(now, waitDuration, nbConn, proxy), 0, 0, 0;
      StartIsSane(now, waitDuration, nbConn, proxy);
      StartIsEmpty(now, waitDuration, nbConn, proxy);
    }

    /** `cron`, when a second is over: connections time out, and every five minutes what was put back is read
        again, for half of that time. */
    method EverySecond(now: int)
      requires Sane(w, [], NOTHING_ASIDE) && WaitsBounded() && now >= w.now
      modifies this`w, this`readWait, this`readPriorityWait
      ensures Sane(w, [], NOTHING_ASIDE) && WaitsBounded() && SameInput(old(w).(now := now), w)
      ensures w.pending == old(w).pending && (now == old(w).now ==> w == old(w))
      ensures readPriorityWait == if now == old(w).now then old(readPriorityWait)
                                  else if now % 300 == 0 then |w.priorityWait|
                                  else if now % 300 == 150 then 0 else old(readPriorityWait)
      ensures readWait == if now == old(w).now then old(readWait)
                          else if now % 300 == 0 then |w.diskWait|
                          else if now % 300 == 150 then 0 else old(readWait)
    {
      hide Inv;
      var second := now != w.now;
      ClockStaysSane(w, now, NOTHING_ASIDE);
      w := w.(now := now);
      if second {
        CheckConnections();
        if now % 300 == 0 {
          readPriorityWait, readWait := |w.priorityWait|, |w.diskWait|;
        }
        if now % 300 == 150 {
          readPriorityWait, readWait := 0, 0;
        }
      }
    }

    /** One round of the main loop. `now` is the new time; `found` and `urgent` are the urls that were
        added to the input; `ready` DNS answers have come. In `fetched`, before connections end, nothing more
        could be fetched. */
    method Round(now: int, found: seq<Url>, urgent: seq<Url>, ready: nat) returns (aborted: bool, ghost fetched: World)
      requires Sane(w, [], NOTHING_ASIDE) && WaitsBounded() && now >= w.now
      modifies this
      ensures !aborted ==> Sane(w, [], NOTHING_ASIDE) && WaitsBounded() && SameClock(old(w).(now := now), w)
      ensures !aborted && CountersFit(old(w)) ==> CountersFit(w)
      ensures !aborted && readPriorityWait > 0 ==> (now != old(w).now && now % 300 == 0) || old(readPriorityWait) > 0
      ensures aborted ==> (now != old(w).now && now % 300 == 0) || old(readPriorityWait) > 0
      ensures NoPriority(old(w)) && urgent == [] ==> !aborted && NoPriority(w)
      ensures !aborted && |old(w).pending| <= dnsConn ==> |w.pending| <= dnsConn
      ensures !aborted ==>
        SameInput(fetched, w) && (now < nextCall || fetched.freeConns == [] || fetched.okSites == [])
    {
      hide Inv;
      EverySecond(now);
      InputStaysSane(w, w.disk + found, w.priority + urgent);
      w := w.(disk := w.disk + found, priority := w.priority + urgent);
      aborted := Sequencer();
      fetched := w;
      if !aborted {
        FetchDns(ready);
        FetchOpen();
        fetched := w;
        CheckConnections();
      }
    }

    /** Whole runs. Only a url that is read again from the queue of priorities that were put back can end
        one; without urls with priority, none ends. */
    method Run(rounds: seq<Turn>) returns (aborted: bool)
      requires Sane(w, [], NOTHING_ASIDE) && WaitsBounded() && readPriorityWait == 0 && CountersFit(w)
      requires |w.pending| <= dnsConn
      requires forall k {:trigger Clock(w.now, rounds, k)} :: 0 <= k < |rounds| ==>
        rounds[k].now >= Clock(w.now, rounds, k)
      modifies this
      ensures !aborted ==> Sane(w, [], NOTHING_ASIDE) && WaitsBounded() && CountersFit(w) && |w.pending| <= dnsConn
      ensures !aborted ==> w.intake == Everywhere(w, []) && w.pos - w.space == CountSum(w.sites) && w.pos <= RAM_URLS
      // Names with one address share an IP site; with a proxy the IP site is that of the name's own site.
      ensures !aborted ==> w.proxy == old(w).proxy && w.waitDuration == old(w).waitDuration
      ensures !aborted && !w.proxy ==> forall s, t ::
        (0 <= s < t < |w.sites| && w.sites[s].dnsState == w.sites[t].dnsState == DoneDns
         && w.sites[s].addr == w.sites[t].addr) ==> w.sites[s].ipHash == w.sites[t].ipHash
      ensures !aborted && w.proxy ==> forall s :: 0 <= s < |w.sites| && w.sites[s].dnsState == DoneDns ==>
        w.sites[s].ipHash == s % IP_SITES
      // Whatever two pages were opened of one server, they were opened the delay apart.
      ensures !aborted && w.waitDuration >= 0 ==>
        forall i, j, k, l ::
          && 0 <= i < |w.ips| && 0 <= j < |w.ips| && 0 <= k < |w.ips[i].visits| && 0 <= l < |w.ips[j].visits|
          && (i != j || k != l) && OneServer(w.ips[i].visits[k], w.ips[j].visits[l], w.proxy) ==>
            var t, u := w.ips[i].visits[k].time, w.ips[j].visits[l].time;
            t >= u + w.waitDuration || u >= t + w.waitDuration
      ensures aborted ==> exists k :: 0 <= k < |rounds| && rounds[k].now % 300 == 0
      ensures NoPriority(old(w)) && (forall k :: 0 <= k < |rounds| ==> rounds[k].urgent == []) ==>
        !aborted && NoPriority(w)
    {
      hide Inv;
      aborted := false;
      for k := 0 to |rounds|
        invariant Sane(w, [], NOTHING_ASIDE) && WaitsBounded() && CountersFit(w) && |w.pending| <= dnsConn
        invariant SameClock(old(w).(now := Clock(old(w).now, rounds, k)), w)
        invariant readPriorityWait > 0 ==> exists j :: 0 <= j < k && rounds[j].now % 300 == 0
        invariant NoPriority(old(w)) && (forall j :: 0 <= j < k ==> rounds[j].urgent == []) ==> NoPriority(w)
      {
        ghost var fetched;
        aborted, fetched := Round(rounds[k].now, rounds[k].found, rounds[k].urgent, rounds[k].ready);
        if aborted {
          return;
        }
      }
      BudgetIsCounted(w);
      NothingIsLost(w);
      if w.waitDuration >= 0 {
        ServersAreSpared(w);
      }
      AddressesShare(w);
    }
  }

  /** Two pages of one server: of one address, or with a proxy, where the address is not known, of one named
      site. */
  predicate OneServer(a: Visit, b: Visit, proxy: bool) {
    if proxy then a.url.Hash() == b.url.Hash() else a.addr == b.addr
  }

  lemma ServersAreSpared(w: World)
    requires Polite(w) && Housed(w) && w.waitDuration >= 0
    ensures forall i, j, k, l ::
      && 0 <= i < |w.ips| && 0 <= j < |w.ips| && 0 <= k < |w.ips[i].visits| && 0 <= l < |w.ips[j].visits|
      && (i != j || k != l) && OneServer(w.ips[i].visits[k], w.ips[j].visits[l], w.proxy) ==>
        var t, u := w.ips[i].visits[k].time, w.ips[j].visits[l].time;
        t >= u + w.waitDuration || u >= t + w.waitDuration
  {
    hide Polite, Housed, Url.Hash;
    forall i, j, k, l |
      && 0 <= i < |w.ips| && 0 <= j < |w.ips| && 0 <= k < |w.ips[i].visits| && 0 <= l < |w.ips[j].visits|
      && (i != j || k != l) && OneServer(w.ips[i].visits[k], w.ips[j].visits[l], w.proxy)
      ensures var t, u := w.ips[i].visits[k].time, w.ips[j].visits[l].time;
              t >= u + w.waitDuration || u >= t + w.waitDuration
    {
      OneServerOneSite(w, i, j, k, l);
      if k < l {
        OpensApart(w, i, k, l);
      } else {
        OpensApart(w, i, l, k);
      }
    }
  }

  lemma OneServerOneSite(w: World, i: nat, j: nat, k: nat, l: nat)
    requires Housed(w) && i < |w.ips| && j < |w.ips| && k < |w.ips[i].visits| && l < |w.ips[j].visits|
    requires OneServer(w.ips[i].visits[k], w.ips[j].visits[l], w.proxy)
    ensures i == j
  {
    hide Url.Hash;
    assert AllAtHome(w.ips[i], i, w.proxy) && AllAtHome(w.ips[j], j, w.proxy);
  }

  lemma AddressesShare(w: World)
    requires Housed(w) && |w.sites| == NAMED_SITES
    ensures !w.proxy ==> forall s, t ::
      (0 <= s < t < |w.sites| && w.sites[s].dnsState == w.sites[t].dnsState == DoneDns
       && w.sites[s].addr == w.sites[t].addr) ==> w.sites[s].ipHash == w.sites[t].ipHash
    ensures w.proxy ==> forall s :: 0 <= s < |w.sites| && w.sites[s].dnsState == DoneDns ==>
      w.sites[s].ipHash == s % IP_SITES
  {
    forall s | 0 <= s < |w.sites|
      ensures KnowsHome(w.sites[s], s, w.proxy)
    {
    }
  }

  /** With which limits the array of a ring can overflow: with 1 only, of those that are used, and then
      exactly for a site with 63 urls, all of them in the ring. */
  lemma OverflowsExactly(larbin: Larbin, x: NamedSite, u: Url, limit: nat, now: int)
    requires x.nburls >= |x.ring|
    ensures limit >= 2 ==> !larbin.Overflows(x, u, limit, now)
    ensures larbin.Overflows(x, u, 1, now) <==>
      MustWait(x, u, now) && x.nburls == |x.ring| == MAX_URLS_BY_SITE - 1
  {
  }

  /** It does happen: 64 urls with priority come for one site whose DNS does not answer. The limit 5 lets 60
      of them into the ring and puts the others back on disk; when these are read again, with the limit 1,
      three more fit, and with the next one the assertion fails. */
  method LimitOneOverflows(urls: seq<Url>, s: nat) returns (larbin: Larbin, aborted: bool)
    requires |urls| == MAX_URLS_BY_SITE && forall j :: 0 <= j < |urls| ==> urls[j].Hash() == s
    ensures aborted
  {
    hide Inv, Url.Hash, Start, Larbin.Received;
    larbin := new Larbin(0, 60, 1, 0, false, false);
    StartIsEmpty(0, 60, 1, false);
    InputStaysSane(larbin.w, larbin.w.disk, urls);
    larbin.w := larbin.w.(priority := urls);
    BudgetStaysSane(larbin.w);
    larbin.w := larbin.w.(space := RAM_URLS - larbin.w.pos, pos := RAM_URLS);
    assert s < NAMED_SITES by { assert urls[0].Hash() == s; }
    PriorityFills(larbin, urls, s);
    // After a while, as many are read again as were put back.
    larbin.readPriorityWait := |larbin.w.priorityWait|;
    var i := 60;
    while i < MAX_URLS_BY_SITE - 1
      invariant 60 <= i <= MAX_URLS_BY_SITE - 1 && Sane(larbin.w, [], NOTHING_ASIDE) && larbin.WaitsBounded()
      invariant larbin.readPriorityWait == MAX_URLS_BY_SITE - i && larbin.w.now == 0
      invariant larbin.w.priorityWait == urls[i..] && larbin.w.space > MAX_URLS_BY_SITE - i
      invariant Crowd(larbin.w, s, i)
    {
      ghost var v := larbin.w;
      assert v.priorityWait[0] == urls[i];
      var _, _, _ := larbin.CanGetUrl(true);
      CrowdGrows(larbin, FromPriorityWait(v), larbin.w, urls[i], 1, i);
      assert urls[i..][1..] == urls[i + 1..];
      SpentStaysSane(larbin.w);
      larbin.w := larbin.w.(space := larbin.w.space - 1);
      i := i + 1;
    }
    assert larbin.w.priorityWait[0] == urls[i];
    var _, _, full := larbin.CanGetUrl(true);
    aborted := full;
  }

  /** The first 60 urls fill the ring of their site, and the others are put back. */
  method PriorityFills(larbin: Larbin, urls: seq<Url>, s: nat)
    requires |urls| == MAX_URLS_BY_SITE && forall j :: 0 <= j < |urls| ==> urls[j].Hash() == s
    requires Sane(larbin.w, [], NOTHING_ASIDE) && larbin.WaitsBounded() && larbin.readPriorityWait == 0
    requires larbin.w.now == 0
    requires larbin.w.priority == urls && larbin.w.priorityWait == [] && larbin.w.space == RAM_URLS
    requires Crowd(larbin.w, s, 0)
    modifies larbin`w, larbin`readWait, larbin`readPriorityWait
    ensures Sane(larbin.w, [], NOTHING_ASIDE) && larbin.WaitsBounded() && larbin.readPriorityWait == 0
    ensures larbin.w.now == 0
    ensures larbin.w.priorityWait == urls[60..] && larbin.w.space == RAM_URLS - MAX_URLS_BY_SITE
    ensures Crowd(larbin.w, s, 60)
  {
    hide Inv, Url.Hash, Larbin.Received, Larbin.Overflows;
    var i := 0;
    while i < MAX_URLS_BY_SITE
      invariant 0 <= i <= MAX_URLS_BY_SITE && Sane(larbin.w, [], NOTHING_ASIDE) && larbin.WaitsBounded()
      invariant larbin.readPriorityWait == 0 && larbin.w.now == 0
      invariant larbin.w.priority == urls[i..] && larbin.w.space == RAM_URLS - i
      invariant Crowd(larbin.w, s, if i <= 60 then i else 60)
      invariant larbin.w.priorityWait == if i <= 60 then [] else urls[60..i]
    {
      ghost var v := larbin.w;
      assert v.priority[0] == urls[i];
      var _, _, _ := larbin.CanGetUrl(true);
      CrowdGrows(larbin, FromPriority(v), larbin.w, urls[i], 5, if i <= 60 then i else 60);
      assert urls[i..][1..] == urls[i + 1..];
      assert i == 60 ==> [] + [urls[i]] == urls[60..i + 1];
      assert i > 60 ==> urls[60..i] + [urls[i]] == urls[60..i + 1];
      SpentStaysSane(larbin.w);
      larbin.w := larbin.w.(space := larbin.w.space - 1);
      i := i + 1;
    }
  }

  /** One more joins the crowd, or is put back if there are too many. */
  lemma CrowdGrows(larbin: Larbin, v: World, w: World, u: Url, limit: nat, n: nat)
    requires larbin.Received(v, w, u, limit, true) && Crowd(v, u.Hash(), n) && limit <= MAX_URLS_BY_SITE
    ensures Crowd(w, u.Hash(), if n <= MAX_URLS_BY_SITE - limit then n + 1 else n)
    ensures w.priority == v.priority && w.now == v.now && w.space == v.space
    ensures w.priorityWait == if n <= MAX_URLS_BY_SITE - limit then v.priorityWait else v.priorityWait + [u]
  {
    hide Url.Hash;
  }

  /** `n` urls of the site `s` wait for the DNS, all in its ring. */
  predicate Crowd(w: World, s: nat, n: nat) {
    && s < |w.sites| && w.sites[s].nburls == n == |w.sites[s].ring| && w.sites[s].dnsState == WaitDns
  }

  /** Every url that was ever taken from the input is in exactly one place. */
  lemma NothingIsLost(w: World)
    requires Sane(w, [], NOTHING_ASIDE)
    ensures w.intake == Everywhere(w, []) && Polite(w) && Housed(w) && |w.sites| == NAMED_SITES && |w.ips| == IP_SITES
  {
  }

  lemma ArrivalIsKnown(w: World, u: Url)
    requires SaneArriving(w, u)
    ensures u.Hash() < |w.sites|
  {
  }

  lemma BudgetIsNatural(w: World)
    requires Sane(w, [], NOTHING_ASIDE)
    ensures w.space >= 0
  {
  }

  lemma HeldIsIdle(w: World, c: nat)
    requires Sane(w, [], Aside(0, {}, {}, {c}))
    ensures c < |w.conns| && w.conns[c] == Idle
  {
  }

  lemma ElsewhereKeepsInput(v: World, w: World)
    requires Elsewhere(v, w)
    ensures SameInput(v, w) && w.pending == v.pending && w.dnsSites == v.dnsSites
  {
  }

  lemma NowIsPositive(w: World, hand: seq<Url>, a: Aside)
    requires Sane(w, hand, a)
    ensures w.now >= 0
  {
  }

  lemma HeadIsKnown(w: World, i: nat, hand: seq<Url>, a: Aside)
    requires Sane(w, hand, a) && i < |w.ips| && w.ips[i].tab != [] && w.freeConns != []
    ensures w.ips[i].tab[0].Hash() < |w.sites| && w.freeConns[0] < |w.conns| && w.conns[w.freeConns[0]] == Idle
    ensures |w.ips[i].addrs| == |w.ips[i].tab|
  {
    assert w.freeConns[0] in w.freeConns;
  }

  lemma AddressesMatch(w: World, i: nat, hand: seq<Url>, a: Aside)
    requires Sane(w, hand, a) && i < |w.ips|
    ensures |w.ips[i].addrs| == |w.ips[i].tab|
  {
  }

  lemma NothingToFetch(w: World, i: nat)
    requires i < |w.ips| && w.ips[i].tab == [] && w.ips[i].addrs == []
    ensures FetchedUpTo(w, w.IPRests(i), i, 0)
  {
  }

  lemma PageWasOpened(v: World, i: nat)
    requires i < |v.ips| && v.ips[i].tab != [] && v.ips[i].tab[0].Hash() < |v.sites|
    requires |v.ips[i].addrs| == |v.ips[i].tab|
    requires v.freeConns != [] && v.freeConns[0] < |v.conns| && v.conns[v.freeConns[0]] == Idle
    ensures var w := v.PageOpened(i);
            && Elsewhere(v, w.IPRests(i)) && Elsewhere(v, w.OkPut(i))
            && (if w.ips[i].tab == [] then FetchedUpTo(v, w.IPRests(i), i, 1) else FetchedUpTo(v, w.OkPut(i), i, 1))
  {
    var w, c := v.PageOpened(i), v.freeConns[0];
    assert v.ips[i].tab[..0] == [];
    assert c in v.freeConns && w.conns == v.conns[c := Page(v.ips[i].tab[0])];
    assert w.OkPut(i).conns == w.conns == w.IPRests(i).conns;
  }

  lemma FailedFirst(v: World, u: World, w: World, i: nat, n: nat)
    requires i < |v.ips| && v.ips[i].tab != [] && v.ips[i].tab[0].Hash() < |v.sites| && v.freeConns != []
    requires |v.ips[i].addrs| == |v.ips[i].tab|
    requires u == v.OpenFailed(i) && i < |w.ips| && FetchedUpTo(u, w, i, n)
    ensures FetchedUpTo(v, w, i, n + 1)
  {
    var tab := v.ips[i].tab;
    assert tab[n + 1..] == tab[1..][n..];
    assert forall c :: c in u.freeConns ==> c in v.freeConns;
    assert tab == [tab[0]] + tab[1..];
    if n > 0 {
      assert tab[..n] == [tab[0]] + tab[1..][..n - 1];
    }
  }

  lemma AddressIsKnown(w: World, s: nat, hand: seq<Url>, a: Aside)
    requires Sane(w, hand, a) && s < |w.sites|
    ensures w.sites[s].ipHash < |w.ips| == IP_SITES && KnowsHome(w.sites[s], s, w.proxy)
  {
  }

  /** A site whose query is pending waits for it, and once the answer was taken no other is. */
  lemma PendingWaits(w: World, s: nat)
    requires Sane(w, [], NOTHING_ASIDE) && s in w.pending
    ensures s < |w.sites| && w.sites[s].dnsState == WaitDns && s !in w.AnswerTaken(s).pending
  {
  }

  lemma FewerPending(w: World, s: nat)
    requires s in w.pending
    ensures |w.AnswerTaken(s).pending| < |w.pending|
  {
    WithoutShorter(w.pending, s);
  }

  /** A site that is being processed has no query pending. */
  lemma ProcessedIsNotPending(w: World, s: nat, hand: seq<Url>, a: Aside)
    requires Sane(w, hand, a) && s in a.fs && s < |w.sites|
    ensures s !in w.pending
  {
    assert SitePlaced(w, s, a.fs);
  }

  ghost predicate SameLabels(v: World, w: World, s: nat) {
    && s < |v.sites| == |w.sites|
    && w.sites[s].name == v.sites[s].name && w.sites[s].port == v.sites[s].port
    && w.sites[s].dnsState == v.sites[s].dnsState && w.sites[s].addr == v.sites[s].addr
    && w.sites[s].ipHash == v.sites[s].ipHash && w.sites[s].forbidden == v.sites[s].forbidden
  }

  lemma LabelsStay(v: World, w: World, s: nat)
    requires OnlySite(v, w, s) && s < |v.sites|
    ensures SameLabels(v, w, s)
  {
  }
}
