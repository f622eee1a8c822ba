/**
 The crawler's scheduler as a value: named sites with their rings of waiting urls, IP sites with
 their queues, the global queues, the connections and the budget of urls in memory
 (src/fetch/site.h, src/fetch/site.cxx). Each step of the scheduler is a function on a `World`,
 with lemmas that it keeps the accounts, the placement of sites, the connections and the delay
 between two accesses to one server. Module `Crawler` has the operations made of these steps.
 */
module Scheduler {
  import opened Wrappers
  import opened Sequences

  const NAMED_SITES := 20_000
  const IP_SITES := 10_000
  const RAM_URLS := 100_000
  const MAX_URLS_BY_SITE := 64
  const DNS_VALID_TIME := 172_800

  type Text = seq<int>

  /** `siteHashCode`: unsigned arithmetic of 32 bits, over characters that may be negative. */
  function SiteHash(host: Text): nat {
    RollingHash(host, 37) % NAMED_SITES
  }

  function RollingHash(s: Text, factor: nat): (h: nat)
    ensures h < 0x1_0000_0000
  {
    if s == [] then 0
    else (factor * RollingHash(s[..|s| - 1], factor) + s[|s| - 1]) % 0x1_0000_0000
  }

  function Power(b: int, n: nat): int {
    if n == 0 then 1 else b * Power(b, n - 1)
  }

  /** The text as the coefficients of a polynomial, the first for the highest power. */
  function Polynomial(s: Text, x: int): int {
    if s == [] then 0 else s[0] * Power(x, |s| - 1) + Polynomial(s[1..], x)
  }

  lemma {:induction false} PolynomialEnd(s: Text, x: int)
    requires s != []
    ensures Polynomial(s, x) == x * Polynomial(s[..|s| - 1], x) + s[|s| - 1]
  {
    if |s| > 1 {
      var n, r := |s| - 1, s[1..];
      assert r[..|r| - 1] == s[..n][1..];
      PolynomialEnd(r, x);
      var p, q := Power(x, n - 1), Polynomial(r[..|r| - 1], x);
      assert s[0] * (x * p) + (x * q + s[n]) == x * (s[0] * p + q) + s[n];
    }
  }

  /** What the loop of a hash computes, whatever the factor: the value of the polynomial, in 32 bits. */
  lemma {:induction false} HashIsPolynomial(s: Text, factor: nat)
    ensures RollingHash(s, factor) == Polynomial(s, factor) % 0x1_0000_0000
  {
    if s != [] {
      var front, last := s[..|s| - 1], s[|s| - 1];
      HashIsPolynomial(front, factor);
      PolynomialEnd(s, factor);
      ReducedBefore(Polynomial(front, factor), factor, last);
    }
  }

  lemma ReducedBefore(p: int, f: nat, c: int)
    ensures (f * (p % 0x1_0000_0000) + c) % 0x1_0000_0000 == (f * p + c) % 0x1_0000_0000
  {
    var m, r := p / 0x1_0000_0000, p % 0x1_0000_0000;
    assert f * p + c == f * r + c + 0x1_0000_0000 * (f * m) by {
      assert p == 0x1_0000_0000 * m + r;
      assert f * (0x1_0000_0000 * m + r) == 0x1_0000_0000 * (f * m) + f * r;
    }
  }

  /** `siteHashCode` */
  method HostHashCode(host: Text) returns (h: nat)
    ensures h == SiteHash(host) == Polynomial(host, 37) % 0x1_0000_0000 % NAMED_SITES
  {
    h := 0;
    for i := 0 to |host|
      invariant h == RollingHash(host[..i], 37)
    {
      assert host[..i + 1][..i] == host[..i];
      h := (37 * h + host[i]) % 0x1_0000_0000;
    }
    assert host[..|host|] == host;
    h := h % NAMED_SITES;
    HashIsPolynomial(host, 37);
  }

  /** `host` is what the site is looked up by, `name` what it is called in the DNS. */
  datatype Url = Url(host: Text, name: Text, port: nat, file: Text)
  {
    function Hash(): (h: nat)
      ensures h < NAMED_SITES
    {
      SiteHash(host)
    }
  }

  datatype DnsState = WaitDns | DoneDns | ErrorDns | NoConnDns

  /** `ring` is the content of the circular array `fifo` (see `Rings.FixedRing`). */
  datatype NamedSite = NamedSite(
    name: Text, port: nat, nburls: int, ring: seq<Url>, isInFifo: bool,
    dnsState: DnsState, addr: Text, ipHash: nat, dnsTimeout: int, forbidden: seq<Text>)

  /** A page that was opened: when, at which address, and for which url. */
  datatype Visit = Visit(time: int, addr: Text, url: Url)

  /** `addrs` are the addresses that the urls of `tab` were given when they came, and `visits` all pages that
      were ever opened from here. */
  datatype IPSite = IPSite(tab: seq<Url>, addrs: seq<Text>, isInFifo: bool, lastAccess: int, visits: seq<Visit>)

  datatype Conn = Idle | Robots(site: nat) | Page(url: Url)

  /** `intake` and `retired` are the urls that were ever taken from the input queues and that were ever
      finished with. */
  datatype World = World(
    now: int, waitDuration: int, proxy: bool, sites: seq<NamedSite>, ips: seq<IPSite>,
    dnsSites: seq<nat>, pending: seq<nat>, okSites: seq<nat>,
    freeConns: seq<nat>, conns: seq<Conn>,
    pos: int, space: int,
    disk: seq<Url>, priority: seq<Url>, diskWait: seq<Url>, priorityWait: seq<Url>,
    intake: multiset<Url>, retired: multiset<Url>)
  {
    function WithSite(s: nat, x: NamedSite): World
      requires s < |sites|
    {
      this.(sites := sites[s := x])
    }

    function WithIP(i: nat, x: IPSite): World
      requires i < |ips|
    {
      this.(ips := ips[i := x])
    }

    // --- the life of a url ---

    /** A url that was just taken from an input queue counts for its site. */
    function Admitted(s: nat): World
      requires s < |sites|
    {
      WithSite(s, sites[s].(nburls := sites[s].nburls + 1))
    }

    /** `NamedSite::forgetUrl`. */
    function Forgotten(s: nat, u: Url): World
      requires s < |sites|
    {
      WithSite(s, sites[s].(nburls := sites[s].nburls - 1)).(pos := pos - 1, retired := retired + multiset{u})
    }

    /** Put back on disk, because its site has too many. */
    function Deferred(u: Url, prio: bool): World {
      if prio then this.(pos := pos - 1, priorityWait := priorityWait + [u])
      else this.(pos := pos - 1, diskWait := diskWait + [u])
    }

    /** Put in the ring of its site, which joins the queue for the DNS if it is nowhere. */
    function Ringed(s: nat, u: Url): World
      requires s < |sites|
    {
      var here := sites[s];
      var w := WithSite(s, here.(ring := here.ring + [u], isInFifo := true));
      if here.isInFifo then w else w.(dnsSites := dnsSites + [s])
    }

    /** Taken from the ring of a site that is being processed. */
    function RingTaken(s: nat): World
      requires s < |sites| && sites[s].ring != []
    {
      WithSite(s, sites[s].(ring := sites[s].ring[1..]))
    }

    function RingBack(s: nat, u: Url): World
      requires s < |sites|
    {
      WithSite(s, sites[s].(ring := sites[s].ring + [u]))
    }

    /** `NamedSite::newId`: the site takes the name of the first url that waits in its ring. */
    function Renamed(s: nat): World
      requires s < |sites| && sites[s].ring != []
    {
      var u := sites[s].ring[0];
      WithSite(s, sites[s].(name := u.name, port := u.port, dnsTimeout := now + DNS_VALID_TIME, dnsState := WaitDns))
    }

    function Addressed(s: nat, addr: Text): World
      requires s < |sites|
    {
      WithSite(s, sites[s].(addr := addr))
    }

    function InState(s: nat, d: DnsState): World
      requires s < |sites|
    {
      WithSite(s, sites[s].(dnsState := d))
    }

    /** Where should now lie this site. */
    function Settled(s: nat): World
      requires s < |sites|
    {
      if sites[s].ring == [] then WithSite(s, sites[s].(isInFifo := false)) else this.(dnsSites := dnsSites + [s])
    }

    /** Put at the end of the queue of an IP site, with its address. */
    function TabPut(i: nat, u: Url, addr: Text): World
      requires i < |ips|
    {
      WithIP(i, ips[i].(tab := ips[i].tab + [u], addrs := ips[i].addrs + [addr], isInFifo := true))
    }

    /** `IPSite::getUrl`: the first url leaves the queue and no longer counts. */
    function TabTaken(i: nat): World
      requires i < |ips| && ips[i].tab != [] && ips[i].addrs != [] && ips[i].tab[0].Hash() < |sites|
    {
      var s := ips[i].tab[0].Hash();
      WithIP(i, ips[i].(tab := ips[i].tab[1..], addrs := ips[i].addrs[1..]))
        .(sites := sites[s := sites[s].(nburls := sites[s].nburls - 1)], pos := pos - 1)
    }

    /** The page at the head of the queue is opened on the first free connection. */
    function PageOpened(i: nat): World
      requires i < |ips| && ips[i].tab != [] && ips[i].addrs != [] && ips[i].tab[0].Hash() < |sites|
      requires freeConns != [] && freeConns[0] < |conns|
    {
      var w, visit := TabTaken(i), Visit(now, ips[i].addrs[0], ips[i].tab[0]);
      w.(ips := w.ips[i := w.ips[i].(lastAccess := now, visits := ips[i].visits + [visit])],
         freeConns := freeConns[1..], conns := conns[freeConns[0] := Page(ips[i].tab[0])])
    }

    /** No connection could be opened: the url is given up and the connection is free again. */
    function OpenFailed(i: nat): World
      requires i < |ips| && ips[i].tab != [] && ips[i].addrs != [] && ips[i].tab[0].Hash() < |sites|
      requires freeConns != []
    {
      TabTaken(i).(freeConns := freeConns[1..] + [freeConns[0]], retired := retired + multiset{ips[i].tab[0]})
    }

    // --- sites that are being processed ---

    function OkPut(i: nat): World {
      this.(okSites := okSites + [i])
    }

    function OkRePut(i: nat): World {
      this.(okSites := [i] + okSites)
    }

    /** An IP site without urls. */
    function IPRests(i: nat): World
      requires i < |ips|
    {
      WithIP(i, ips[i].(isInFifo := false))
    }

    /** The first site of the queue for the DNS leaves it to be processed. */
    function DnsTaken(): World
      requires dnsSites != []
    {
      this.(dnsSites := dnsSites[1..])
    }

    function QuerySent(s: nat): World {
      this.(pending := pending + [s])
    }

    function AnswerTaken(s: nat): World {
      this.(pending := Without(pending, {s}))
    }

    /** The first IP site of `okSites` leaves it to be processed. */
    function OkTaken(): World
      requires okSites != []
    {
      this.(okSites := okSites[1..])
    }

    function RobotsOpened(s: nat): World
      requires freeConns != [] && freeConns[0] < |conns|
    {
      this.(freeConns := freeConns[1..], conns := conns[freeConns[0] := Robots(s)])
    }

    function RobotsFailed(): World
      requires freeConns != []
    {
      this.(freeConns := freeConns[1..] + [freeConns[0]])
    }

    /** The parser of a connection is done. */
    function Ended(c: nat): World
      requires c < |conns|
    {
      this.(conns := conns[c := Idle], retired := retired + UrlOf(conns[c]))
    }

    function ConnBack(c: nat): World {
      this.(freeConns := freeConns + [c])
    }
  }

  function UrlOf(c: Conn): multiset<Url> {
    match c
    case Page(u) => multiset{u}
    case _ => multiset{}
  }

  // ----- sums over sites and connections -----

  /** How many urls of a queue belong to the named site `s`. */
  ghost function HashCount(q: seq<Url>, s: nat): nat {
    if q == [] then 0 else HashCount(q[..|q| - 1], s) + if q[|q| - 1].Hash() == s then 1 else 0
  }

  lemma {:induction false} HashCountConcat(a: seq<Url>, b: seq<Url>, s: nat)
    ensures HashCount(a + b, s) == HashCount(a, s) + HashCount(b, s)
  {
    if b == [] {
      assert a + b == a;
    } else {
      assert (a + b)[..|a + b| - 1] == a + b[..|b| - 1];
      HashCountConcat(a, b[..|b| - 1], s);
    }
  }

  lemma HashCountOne(u: Url, s: nat)
    ensures HashCount([u], s) == if u.Hash() == s then 1 else 0
  {
    assert [u][..0] == [];
  }

  ghost function TabCount(ips: seq<IPSite>, s: nat): nat {
    if ips == [] then 0 else TabCount(ips[..|ips| - 1], s) + HashCount(ips[|ips| - 1].tab, s)
  }

  lemma {:induction false} TabCountUpdate(ips: seq<IPSite>, i: nat, x: IPSite, s: nat)
    requires i < |ips|
    ensures TabCount(ips[i := x], s) + HashCount(ips[i].tab, s) == TabCount(ips, s) + HashCount(x.tab, s)
  {
    var last := |ips| - 1;
    if i < last {
      assert ips[i := x][..last] == ips[..last][i := x];
      TabCountUpdate(ips[..last], i, x, s);
    } else {
      assert ips[i := x][..last] == ips[..last];
    }
  }

  lemma Rearranged(a: multiset<Url>, b: multiset<Url>, x: multiset<Url>, y: multiset<Url>, rest: multiset<Url>)
    requires a + x == b + y
    ensures a + rest + x == b + rest + y
  {
    assert a + rest + x == (a + x) + rest;
    assert b + rest + y == (b + y) + rest;
  }

  lemma Swapped(a: multiset<Url>, x: multiset<Url>, y: multiset<Url>)
    ensures a + x + y == a + y + x
  {
  }

  ghost function TabUrls(ips: seq<IPSite>): multiset<Url> {
    if ips == [] then multiset{} else TabUrls(ips[..|ips| - 1]) + multiset(ips[|ips| - 1].tab)
  }

  lemma {:induction false} TabUrlsUpdate(ips: seq<IPSite>, i: nat, x: IPSite)
    requires i < |ips|
    ensures TabUrls(ips[i := x]) + multiset(ips[i].tab) == TabUrls(ips) + multiset(x.tab)
  {
    var last := |ips| - 1;
    var front, end := TabUrls(ips[..last]), multiset(ips[last].tab);
    if i < last {
      assert ips[i := x][..last] == ips[..last][i := x];
      TabUrlsUpdate(ips[..last], i, x);
      Rearranged(TabUrls(ips[..last][i := x]), front, multiset(ips[i].tab), multiset(x.tab), end);
    } else {
      assert ips[i := x][..last] == ips[..last];
      Swapped(front, multiset(x.tab), end);
    }
  }

  ghost function RingUrls(sites: seq<NamedSite>): multiset<Url> {
    if sites == [] then multiset{} else RingUrls(sites[..|sites| - 1]) + multiset(sites[|sites| - 1].ring)
  }

  lemma {:induction false} RingUrlsUpdate(sites: seq<NamedSite>, i: nat, x: NamedSite)
    requires i < |sites|
    ensures RingUrls(sites[i := x]) + multiset(sites[i].ring) == RingUrls(sites) + multiset(x.ring)
  {
    var last := |sites| - 1;
    var front, end := RingUrls(sites[..last]), multiset(sites[last].ring);
    if i < last {
      assert sites[i := x][..last] == sites[..last][i := x];
      RingUrlsUpdate(sites[..last], i, x);
      Rearranged(RingUrls(sites[..last][i := x]), front, multiset(sites[i].ring), multiset(x.ring), end);
    } else {
      assert sites[i := x][..last] == sites[..last];
      Swapped(front, multiset(x.ring), end);
    }
  }

  ghost function PageUrls(conns: seq<Conn>): multiset<Url> {
    if conns == [] then multiset{} else PageUrls(conns[..|conns| - 1]) + UrlOf(conns[|conns| - 1])
  }

  lemma {:induction false} PageUrlsUpdate(conns: seq<Conn>, i: nat, x: Conn)
    requires i < |conns|
    ensures PageUrls(conns[i := x]) + UrlOf(conns[i]) == PageUrls(conns) + UrlOf(x)
  {
    hide UrlOf;
    var last := |conns| - 1;
    var front, end := PageUrls(conns[..last]), UrlOf(conns[last]);
    if i < last {
      assert conns[i := x][..last] == conns[..last][i := x];
      PageUrlsUpdate(conns[..last], i, x);
      Rearranged(PageUrls(conns[..last][i := x]), front, UrlOf(conns[i]), UrlOf(x), end);
    } else {
      assert conns[i := x][..last] == conns[..last];
      Swapped(front, UrlOf(x), end);
    }
  }

  // ----- the invariant -----

  ghost predicate Shape(w: World) {
    && |w.sites| == NAMED_SITES && |w.ips| == IP_SITES && w.now >= 0
    && (forall s :: 0 <= s < |w.sites| ==>
          && w.sites[s].ipHash < IP_SITES && |w.sites[s].ring| < MAX_URLS_BY_SITE
          && (forall u :: u in w.sites[s].ring ==> u.Hash() == s))
    && (forall i :: 0 <= i < |w.ips| ==> |w.ips[i].addrs| == |w.ips[i].tab|)
  }

  /** The accounts. `hand` holds the urls that are on their way from one queue to another, `owed` is 1
      between the admission of a url and the moment the sequencer takes it off its budget. */
  ghost predicate Counted(w: World, hand: seq<Url>, owed: nat) {
    && (forall s :: 0 <= s < |w.sites| ==>
          w.sites[s].nburls == |w.sites[s].ring| + TabCount(w.ips, s) + HashCount(hand, s))
    && w.pos - w.space + owed == |RingUrls(w.sites)| + |TabUrls(w.ips)| + |hand|
    && owed <= w.space && w.pos <= RAM_URLS
    && w.intake == Everywhere(w, hand)
  }

  /** All urls that were taken from the input queues, wherever they are now. */
  ghost function Everywhere(w: World, hand: seq<Url>): multiset<Url> {
    Sum(RingUrls(w.sites), TabUrls(w.ips), multiset(hand), PageUrls(w.conns), w.retired,
        multiset(w.diskWait), multiset(w.priorityWait))
  }

  type Urls = multiset<Url>

  ghost function Sum(a: Urls, b: Urls, c: Urls, d: Urls, e: Urls, f: Urls, g: Urls): Urls {
    a + b + c + d + e + f + g
  }

  /** One url more in any place is one url more everywhere. */
  lemma OneMore(a: Urls, b: Urls, c: Urls, d: Urls, e: Urls, f: Urls, g: Urls, u: Url)
    ensures var s, m := Sum(a, b, c, d, e, f, g), multiset{u};
            && Sum(a + m, b, c, d, e, f, g) == s + m && Sum(a, b + m, c, d, e, f, g) == s + m
            && Sum(a, b, c + m, d, e, f, g) == s + m && Sum(a, b, c, d + m, e, f, g) == s + m
            && Sum(a, b, c, d, e + m, f, g) == s + m && Sum(a, b, c, d, e, f + m, g) == s + m
            && Sum(a, b, c, d, e, f, g + m) == s + m
  {
  }

  ghost predicate AsksRobots(w: World, s: nat) {
    exists c :: 0 <= c < |w.conns| && w.conns[c] == Robots(s)
  }

  /** Where a named site is. `fs` holds the sites that are being processed and are nowhere. */
  ghost predicate SitePlaced(w: World, s: nat, fs: set<nat>)
    requires s < |w.sites|
  {
    var here := w.sites[s];
    && (s in fs ==> here.isInFifo)
    && (s !in fs ==> (here.ring != [] <==> here.isInFifo))
    && (here.isInFifo && s !in fs <==> s in w.dnsSites || s in w.pending || AsksRobots(w, s))
    && !(s in w.dnsSites && s in w.pending) && !(s in w.dnsSites && AsksRobots(w, s))
    && !(s in w.pending && AsksRobots(w, s))
  }

  ghost predicate IPPlaced(w: World, i: nat, fi: set<nat>)
    requires i < |w.ips|
  {
    var here := w.ips[i];
    && (i in fi ==> here.isInFifo)
    && (i !in fi ==> (here.tab != [] <==> here.isInFifo))
    && (here.isInFifo && i !in fi <==> i in w.okSites)
  }

  /** A named site with urls is in exactly one of: the queue for the DNS (once), the pending DNS queries
      (once), the connections for robots.txt (once). An IP site with urls is in `okSites`, once. */
  ghost predicate Placed(w: World, fs: set<nat>, fi: set<nat>) {
    && NoDup(w.dnsSites) && NoDup(w.pending) && NoDup(w.okSites)
    && (forall s :: s in w.dnsSites || s in w.pending ==> s < |w.sites|)
    && (forall i :: i in w.okSites ==> i < |w.ips|)
    && (forall c, d :: 0 <= c < d < |w.conns| && w.conns[c].Robots? ==> w.conns[c] != w.conns[d])
    && (forall c :: 0 <= c < |w.conns| && w.conns[c].Robots? ==> w.conns[c].site < |w.sites|)
    && (forall s {:trigger SitePlaced(w, s, fs)} :: 0 <= s < |w.sites| ==> SitePlaced(w, s, fs))
    && (forall i {:trigger IPPlaced(w, i, fi)} :: 0 <= i < |w.ips| ==> IPPlaced(w, i, fi))
  }

  /** A connection is free, in the hands of an operation (`held`), or busy with one parser. */
  ghost predicate Connected(w: World, held: set<nat>) {
    && NoDup(w.freeConns)
    && (forall c :: c in w.freeConns || c in held ==> c < |w.conns|)
    && (forall c :: 0 <= c < |w.conns| ==> (w.conns[c] == Idle <==> c in w.freeConns || c in held))
    && (forall c :: c in held ==> c !in w.freeConns)
  }

  /** Two pages are never opened from the same IP site within `waitDuration`. */
  ghost predicate Spaced(visits: seq<Visit>, wait: int) {
    forall j :: 0 <= j < |visits| - 1 ==> visits[j + 1].time >= visits[j].time + wait
  }

  ghost predicate Polite(w: World) {
    forall i :: 0 <= i < |w.ips| ==>
      && Spaced(w.ips[i].visits, w.waitDuration)
      && (w.ips[i].visits != [] ==> w.ips[i].visits[|w.ips[i].visits| - 1].time == w.ips[i].lastAccess)
      && w.ips[i].lastAccess <= w.now
  }

  /** So any two of them are at least that far apart. */
  lemma {:induction false} OpensApart(w: World, i: nat, j: nat, k: nat)
    requires Polite(w) && i < |w.ips| && j < k < |w.ips[i].visits| && w.waitDuration >= 0
    ensures w.ips[i].visits[k].time >= w.ips[i].visits[j].time + w.waitDuration
    decreases k - j
  {
    var visits := w.ips[i].visits;
    assert Spaced(visits, w.waitDuration);
    assert visits[k - 1 + 1].time >= visits[k - 1].time + w.waitDuration;
    if j < k - 1 {
      OpensApart(w, i, j, k - 1);
    }
  }

  // ----- who shares an IP site -----

  /** The IP site for an address; with a proxy, for the named site. */
  function IPHash(s: nat, addr: Text, proxy: bool): (i: nat)
    ensures i < IP_SITES
  {
    (if proxy then s else RollingHash(addr, 31)) % IP_SITES
  }

  /** For the four bytes of an address, as they are when characters have a sign. */
  lemma AddressHash(s: nat, a: int, b: int, c: int, d: int)
    ensures IPHash(s, [a, b, c, d], false) == (29791 * a + 961 * b + 31 * c + d) % 0x1_0000_0000 % IP_SITES
    ensures IPHash(s, [a, b, c, d], true) == s % IP_SITES
  {
    var v := [a, b, c, d];
    HashIsPolynomial(v, 31);
    assert v[1..] == [b, c, d] && v[1..][1..] == [c, d] && v[1..][1..][1..] == [d];
    assert Power(31, 1) == 31 * Power(31, 0) == 31;
    assert Power(31, 2) == 31 * Power(31, 1) == 961;
    assert Power(31, 3) == 31 * Power(31, 2) == 29791;
    assert Polynomial([d], 31) == d * Power(31, 0) + Polynomial([], 31) == d;
    assert Polynomial([c, d], 31) == c * Power(31, 1) + Polynomial([d], 31);
    assert Polynomial([b, c, d], 31) == b * Power(31, 2) + Polynomial([c, d], 31);
    assert Polynomial(v, 31) == a * Power(31, 3) + Polynomial([b, c, d], 31);
  }

  ghost predicate AllAtHome(x: IPSite, i: nat, proxy: bool) {
    && (forall k :: 0 <= k < |x.tab| && k < |x.addrs| ==> IPHash(x.tab[k].Hash(), x.addrs[k], proxy) == i)
    && (forall k :: 0 <= k < |x.visits| ==> IPHash(x.visits[k].url.Hash(), x.visits[k].addr, proxy) == i)
  }

  ghost predicate KnowsHome(x: NamedSite, s: nat, proxy: bool) {
    x.dnsState == DoneDns ==> x.ipHash == IPHash(s, x.addr, proxy)
  }

  /** Urls wait, and pages were opened, at the IP site of their address; and the named sites whose DNS is done
      know it. A site whose query is pending is not done. */
  ghost predicate Housed(w: World) {
    && (forall i {:trigger AllAtHome(w.ips[i], i, w.proxy)} :: 0 <= i < |w.ips| ==> AllAtHome(w.ips[i], i, w.proxy))
    && (forall s {:trigger KnowsHome(w.sites[s], s, w.proxy)} :: 0 <= s < |w.sites| ==>
          KnowsHome(w.sites[s], s, w.proxy))
    && (forall s :: s in w.pending && s < |w.sites| ==> w.sites[s].dnsState == WaitDns)
  }

  ghost predicate Inv(w: World, hand: seq<Url>, owed: nat, fs: set<nat>, fi: set<nat>, held: set<nat>) {
    Shape(w) && Counted(w, hand, owed) && Placed(w, fs, fi) && Connected(w, held) && Polite(w) && Housed(w)
  }

  // ----- each step keeps the accounts -----

  lemma Cancels(a: multiset<Url>, b: multiset<Url>, m: multiset<Url>, n: multiset<Url>, u: Url)
    requires a + m == b + n
    ensures m == n ==> a == b
    ensures n == m + multiset{u} ==> a == b + multiset{u}
    ensures m == n + multiset{u} ==> b == a + multiset{u}
  {
    forall e
      ensures a[e] + m[e] == b[e] + n[e]
      ensures n == m + multiset{u} ==> n[e] == m[e] + multiset{u}[e] && a[e] == (b + multiset{u})[e]
      ensures m == n + multiset{u} ==> m[e] == n[e] + multiset{u}[e] && b[e] == (a + multiset{u})[e]
    {
      assert (a + m)[e] == (b + n)[e];
    }
  }

  lemma QueueContents(q: seq<Url>, u: Url)
    ensures multiset(q + [u]) == multiset(q) + multiset{u}
    ensures q != [] ==> multiset(q) == multiset(q[1..]) + multiset{q[0]}
  {
    if q != [] {
      assert q == [q[0]] + q[1..];
    }
  }

  /** A site changes its ring: what the sum over all sites becomes. */
  lemma RingSums(sites: seq<NamedSite>, s: nat, x: NamedSite, u: Url)
    requires s < |sites|
    ensures x.ring == sites[s].ring ==> RingUrls(sites[s := x]) == RingUrls(sites)
    ensures x.ring == sites[s].ring + [u] ==> RingUrls(sites[s := x]) == RingUrls(sites) + multiset{u}
    ensures sites[s].ring != [] && u == sites[s].ring[0] && x.ring == sites[s].ring[1..] ==>
      RingUrls(sites) == RingUrls(sites[s := x]) + multiset{u}
  {
    hide RingUrls;
    RingUrlsUpdate(sites, s, x);
    QueueContents(sites[s].ring, u);
    Cancels(RingUrls(sites[s := x]), RingUrls(sites), multiset(sites[s].ring), multiset(x.ring), u);
  }

  /** An IP site changes its queue: what the sums become. */
  lemma TabSums(ips: seq<IPSite>, i: nat, x: IPSite, u: Url)
    requires i < |ips|
    ensures x.tab == ips[i].tab ==> TabUrls(ips[i := x]) == TabUrls(ips)
    ensures x.tab == ips[i].tab + [u] ==> TabUrls(ips[i := x]) == TabUrls(ips) + multiset{u}
    ensures ips[i].tab != [] && u == ips[i].tab[0] && x.tab == ips[i].tab[1..] ==>
      TabUrls(ips) == TabUrls(ips[i := x]) + multiset{u}
  {
    hide TabUrls;
    TabUrlsUpdate(ips, i, x);
    QueueContents(ips[i].tab, u);
    Cancels(TabUrls(ips[i := x]), TabUrls(ips), multiset(ips[i].tab), multiset(x.tab), u);
  }

  lemma TabCounts(ips: seq<IPSite>, i: nat, x: IPSite, u: Url, s: nat)
    requires i < |ips|
    ensures x.tab == ips[i].tab ==> TabCount(ips[i := x], s) == TabCount(ips, s)
    ensures x.tab == ips[i].tab + [u] ==> TabCount(ips[i := x], s) == TabCount(ips, s) + if u.Hash() == s then 1 else 0
    ensures ips[i].tab != [] && u == ips[i].tab[0] && x.tab == ips[i].tab[1..] ==>
      TabCount(ips, s) == TabCount(ips[i := x], s) + if u.Hash() == s then 1 else 0
  {
    hide TabCount, HashCount;
    TabCountUpdate(ips, i, x, s);
    HashCountOne(u, s);
    HashCountConcat(ips[i].tab, [u], s);
    if ips[i].tab != [] {
      HashCountConcat([ips[i].tab[0]], ips[i].tab[1..], s);
      assert [ips[i].tab[0]] + ips[i].tab[1..] == ips[i].tab;
    }
  }

  /** A url has just been taken from an input queue and counts nowhere yet. */
  ghost predicate Arriving(w: World, u: Url) {
    u in w.intake && Counted(w.(intake := w.intake - multiset{u}), [], 0)
  }

  lemma HandCounts(u: Url)
    ensures forall k: nat :: HashCount([u], k) == if u.Hash() == k then 1 else 0
    ensures forall k: nat :: HashCount([], k) == 0
    ensures multiset([u]) == multiset{u}
  {
    forall k: nat
      ensures HashCount([u], k) == if u.Hash() == k then 1 else 0
    {
      HashCountOne(u, k);
    }
  }

  lemma AdmittedCounts(w: World, u: Url)
    requires Shape(w) && Arriving(w, u) && w.space >= 1
    ensures Counted(w.Admitted(u.Hash()), [u], 1)
  {
    hide RingUrls, TabUrls, TabCount, PageUrls, HashCount, Sum;
    var s := u.Hash();
    RingSums(w.sites, s, w.sites[s].(nburls := w.sites[s].nburls + 1), u);
    HandCounts(u);
    assert multiset{} + multiset{u} == multiset{u};
    OneMore(RingUrls(w.sites), TabUrls(w.ips), multiset{}, PageUrls(w.conns), w.retired, multiset(w.diskWait),
            multiset(w.priorityWait), u);
  }

  lemma ForgottenCounts(w: World, u: Url, owed: nat)
    requires Shape(w) && Counted(w, [u], owed)
    ensures Counted(w.Forgotten(u.Hash(), u), [], owed)
  {
    hide RingUrls, TabUrls, TabCount, PageUrls, HashCount, Sum;
    var s := u.Hash();
    RingSums(w.sites, s, w.sites[s].(nburls := w.sites[s].nburls - 1), u);
    HandCounts(u);
    assert multiset{} + multiset{u} == multiset{u};
    OneMore(RingUrls(w.sites), TabUrls(w.ips), multiset{}, PageUrls(w.conns), w.retired, multiset(w.diskWait),
            multiset(w.priorityWait), u);
  }

  lemma DeferredCounts(w: World, u: Url, prio: bool)
    requires Shape(w) && Arriving(w, u) && w.space >= 1
    ensures Counted(w.Deferred(u, prio), [], 1)
  {
    hide RingUrls, TabUrls, TabCount, PageUrls, HashCount, Sum;
    QueueContents(w.priorityWait, u);
    QueueContents(w.diskWait, u);
    OneMore(RingUrls(w.sites), TabUrls(w.ips), multiset{}, PageUrls(w.conns), w.retired, multiset(w.diskWait),
            multiset(w.priorityWait), u);
  }

  lemma RingPutCounts(w: World, s: nat, x: NamedSite, u: Url, owed: nat)
    requires Shape(w) && Counted(w, [u], owed) && s == u.Hash()
    requires x.ring == w.sites[s].ring + [u] && x.nburls == w.sites[s].nburls
    ensures Counted(w.WithSite(s, x), [], owed)
  {
    hide RingUrls, TabUrls, TabCount, PageUrls, HashCount, Sum;
    RingSums(w.sites, s, x, u);
    HandCounts(u);
    assert multiset{} + multiset{u} == multiset{u};
    OneMore(RingUrls(w.sites), TabUrls(w.ips), multiset{}, PageUrls(w.conns), w.retired, multiset(w.diskWait),
            multiset(w.priorityWait), u);
  }

  lemma RingedCounts(w: World, u: Url, owed: nat)
    requires Shape(w) && Counted(w, [u], owed)
    ensures Counted(w.Ringed(u.Hash(), u), [], owed)
    ensures Counted(w.RingBack(u.Hash(), u), [], owed)
  {
    hide RingUrls, TabUrls, TabCount, PageUrls, HashCount, Sum;
    var s := u.Hash();
    var here := w.sites[s];
    RingPutCounts(w, s, here.(ring := here.ring + [u], isInFifo := true), u, owed);
    RingPutCounts(w, s, here.(ring := here.ring + [u]), u, owed);
  }

  lemma RingTakenCounts(w: World, s: nat, owed: nat)
    requires Shape(w) && Counted(w, [], owed) && s < |w.sites| && w.sites[s].ring != []
    ensures Counted(w.RingTaken(s), [w.sites[s].ring[0]], owed)
  {
    hide RingUrls, TabUrls, TabCount, PageUrls, HashCount, Sum;
    var u := w.sites[s].ring[0];
    assert u in w.sites[s].ring && u.Hash() == s;
    RingSums(w.sites, s, w.sites[s].(ring := w.sites[s].ring[1..]), u);
    HandCounts(u);
    assert multiset{} + multiset{u} == multiset{u};
    var v := w.RingTaken(s);
    OneMore(RingUrls(v.sites), TabUrls(v.ips), multiset{}, PageUrls(v.conns), v.retired, multiset(v.diskWait),
            multiset(v.priorityWait), u);
  }

  lemma TabPutCounts(w: World, i: nat, u: Url, addr: Text, owed: nat)
    requires Shape(w) && Counted(w, [u], owed) && i < |w.ips|
    ensures Counted(w.TabPut(i, u, addr), [], owed)
  {
    hide RingUrls, TabUrls, TabCount, PageUrls, HashCount, Sum;
    var x := w.ips[i].(tab := w.ips[i].tab + [u], addrs := w.ips[i].addrs + [addr], isInFifo := true);
    TabSums(w.ips, i, x, u);
    HandCounts(u);
    forall k: nat
      ensures TabCount(w.ips[i := x], k) == TabCount(w.ips, k) + if u.Hash() == k then 1 else 0
    {
      TabCounts(w.ips, i, x, u, k);
    }
    assert multiset{} + multiset{u} == multiset{u};
    OneMore(RingUrls(w.sites), TabUrls(w.ips), multiset{}, PageUrls(w.conns), w.retired, multiset(w.diskWait),
            multiset(w.priorityWait), u);
  }

  /** A url that leaves an IP site, for the hand `hand` that holds others: it is accounted for by
      `retired` or by the connection that opens it. */
  lemma TabTakenCounts(w: World, i: nat, hand: seq<Url>, owed: nat)
    requires Shape(w) && Counted(w, hand, owed) && i < |w.ips| && w.ips[i].tab != []
    ensures var u := w.ips[i].tab[0];
            Counted(w.TabTaken(i).(retired := w.retired + multiset{u}), hand, owed)
  {
    hide RingUrls, TabUrls, TabCount, PageUrls, HashCount, Sum;
    var u := w.ips[i].tab[0];
    var s := u.Hash();
    var x := w.ips[i].(tab := w.ips[i].tab[1..], addrs := w.ips[i].addrs[1..]);
    TabSums(w.ips, i, x, u);
    RingSums(w.sites, s, w.sites[s].(nburls := w.sites[s].nburls - 1), u);
    forall k: nat
      ensures TabCount(w.ips, k) == TabCount(w.ips[i := x], k) + if u.Hash() == k then 1 else 0
    {
      TabCounts(w.ips, i, x, u, k);
    }
    var v := w.TabTaken(i);
    OneMore(RingUrls(v.sites), TabUrls(v.ips), multiset(hand), PageUrls(v.conns), v.retired, multiset(v.diskWait),
            multiset(v.priorityWait), u);
  }

  lemma PageOpenedCounts(w: World, i: nat, hand: seq<Url>, owed: nat)
    requires Shape(w) && Counted(w, hand, owed) && i < |w.ips| && w.ips[i].tab != []
    requires w.freeConns != [] && w.freeConns[0] < |w.conns| && w.conns[w.freeConns[0]] == Idle
    ensures Counted(w.PageOpened(i), hand, owed)
  {
    hide RingUrls, TabUrls, TabCount, PageUrls, HashCount, Sum;
    var u, c := w.ips[i].tab[0], w.freeConns[0];
    TabTakenCounts(w, i, hand, owed);
    var t := w.TabTaken(i);
    var v := w.PageOpened(i);
    TabSums(t.ips, i, v.ips[i], u);
    forall k: nat
      ensures TabCount(v.ips, k) == TabCount(t.ips, k)
    {
      TabCounts(t.ips, i, v.ips[i], u, k);
    }
    PageUrlsUpdate(w.conns, c, Page(u));
    assert PageUrls(v.conns) == PageUrls(w.conns) + multiset{u};
    OneMore(RingUrls(t.sites), TabUrls(t.ips), multiset(hand), PageUrls(t.conns), t.retired, multiset(t.diskWait),
            multiset(t.priorityWait), u);
  }

  /** A site or an IP site that keeps its urls keeps the accounts. */
  lemma SiteKeepsCounts(w: World, s: nat, x: NamedSite, hand: seq<Url>, owed: nat)
    requires Counted(w, hand, owed) && s < |w.sites| && x.ring == w.sites[s].ring && x.nburls == w.sites[s].nburls
    ensures Counted(w.WithSite(s, x), hand, owed)
  {
    hide RingUrls, TabUrls, TabCount, PageUrls, HashCount, Sum;
    RingSums(w.sites, s, x, Url([], [], 0, []));
  }

  lemma IPKeepsCounts(w: World, i: nat, x: IPSite, hand: seq<Url>, owed: nat)
    requires Counted(w, hand, owed) && i < |w.ips| && x.tab == w.ips[i].tab
    ensures Counted(w.WithIP(i, x), hand, owed)
  {
    hide RingUrls, TabUrls, TabCount, PageUrls, HashCount, Sum;
    var u := Url([], [], 0, []);
    TabSums(w.ips, i, x, u);
    forall k: nat
      ensures TabCount(w.ips[i := x], k) == TabCount(w.ips, k)
    {
      TabCounts(w.ips, i, x, u, k);
    }
  }

  lemma ConnKeepsCounts(w: World, c: nat, x: Conn, hand: seq<Url>, owed: nat)
    requires Counted(w, hand, owed) && c < |w.conns| && !w.conns[c].Page? && !x.Page?
    ensures Counted(w.(conns := w.conns[c := x]), hand, owed)
  {
    hide RingUrls, TabUrls, TabCount, PageUrls, HashCount, Sum;
    PageUrlsUpdate(w.conns, c, x);
    assert PageUrls(w.conns[c := x]) + multiset{} == PageUrls(w.conns[c := x]);
    assert PageUrls(w.conns) + multiset{} == PageUrls(w.conns);
  }

  lemma EndedCounts(w: World, c: nat, hand: seq<Url>, owed: nat)
    requires Counted(w, hand, owed) && c < |w.conns|
    ensures Counted(w.Ended(c), hand, owed)
  {
    hide RingUrls, TabUrls, TabCount, PageUrls, HashCount, Sum;
    if w.conns[c].Page? {
      var u, v := w.conns[c].url, w.Ended(c);
      PageUrlsUpdate(w.conns, c, Idle);
      assert PageUrls(w.conns) == PageUrls(v.conns) + multiset{u};
      OneMore(RingUrls(w.sites), TabUrls(w.ips), multiset(hand), PageUrls(v.conns), w.retired, multiset(w.diskWait),
              multiset(w.priorityWait), u);
    } else {
      ConnKeepsCounts(w, c, Idle, hand, owed);
      assert w.retired + multiset{} == w.retired;
    }
  }

  // ----- each step keeps everybody in place -----

  lemma RobotsElsewhere(w: World, c: nat, x: Conn, s: nat)
    requires c < |w.conns|
    ensures AsksRobots(w.(conns := w.conns[c := x]), s) <==>
      x == Robots(s) || exists d :: 0 <= d < |w.conns| && d != c && w.conns[d] == Robots(s)
  {
    var v := w.(conns := w.conns[c := x]);
    if x == Robots(s) {
      assert v.conns[c] == Robots(s);
    }
    forall d | 0 <= d < |w.conns| && d != c
      ensures v.conns[d] == w.conns[d]
    {
    }
  }

  /** `w` and `v` have everybody in the same places; sites outside `fs` keep whether they have urls. */
  ghost predicate SamePlaces(w: World, v: World, fs: set<nat>, fi: set<nat>) {
    && |v.sites| == |w.sites| && |v.ips| == |w.ips|
    && v.dnsSites == w.dnsSites && v.pending == w.pending && v.okSites == w.okSites
    && |v.conns| == |w.conns|
    && (forall c :: 0 <= c < |w.conns| ==> v.conns[c] == w.conns[c] || (!v.conns[c].Robots? && !w.conns[c].Robots?))
    && (forall s :: 0 <= s < |w.sites| ==>
          v.sites[s].isInFifo == w.sites[s].isInFifo && (s in fs || (v.sites[s].ring == [] <==> w.sites[s].ring == [])))
    && (forall i :: 0 <= i < |w.ips| ==>
          v.ips[i].isInFifo == w.ips[i].isInFifo && (i in fi || (v.ips[i].tab == [] <==> w.ips[i].tab == [])))
  }

  lemma SamePlacesPlaced(w: World, v: World, fs: set<nat>, fi: set<nat>)
    requires Placed(w, fs, fi) && SamePlaces(w, v, fs, fi)
    ensures Placed(v, fs, fi)
  {
    forall s | 0 <= s < |v.sites|
      ensures SitePlaced(v, s, fs)
    {
      assert SitePlaced(w, s, fs);
      SameRobots(w, v, s);
    }
    forall i | 0 <= i < |v.ips|
      ensures IPPlaced(v, i, fi)
    {
      assert IPPlaced(w, i, fi);
    }
  }

  lemma SameRobots(w: World, v: World, s: nat)
    requires |v.conns| == |w.conns|
    requires forall c :: 0 <= c < |w.conns| ==> v.conns[c] == w.conns[c] || (!v.conns[c].Robots? && !w.conns[c].Robots?)
    ensures AsksRobots(v, s) <==> AsksRobots(w, s)
  {
    if AsksRobots(w, s) {
      var c :| 0 <= c < |w.conns| && w.conns[c] == Robots(s);
      assert v.conns[c] == Robots(s);
    }
    if AsksRobots(v, s) {
      var c :| 0 <= c < |v.conns| && v.conns[c] == Robots(s);
      assert w.conns[c] == Robots(s);
    }
  }

  lemma RingedPlaced(w: World, s: nat, u: Url, fs: set<nat>, fi: set<nat>)
    requires Placed(w, fs, fi) && s < |w.sites| && s !in fs
    ensures Placed(w.Ringed(s, u), fs, fi)
  {
    var v := w.Ringed(s, u);
    forall k | 0 <= k < |v.sites|
      ensures SitePlaced(v, k, fs)
    {
      assert SitePlaced(w, k, fs);
      SameRobots(w, v, k);
    }
    forall i | 0 <= i < |v.ips|
      ensures IPPlaced(v, i, fi)
    {
      assert IPPlaced(w, i, fi);
    }
    assert SitePlaced(w, s, fs);
  }

  lemma SettledPlaced(w: World, s: nat, fs: set<nat>, fi: set<nat>)
    requires Placed(w, fs + {s}, fi) && s < |w.sites| && s !in fs
    ensures Placed(w.Settled(s), fs, fi)
  {
    var v := w.Settled(s);
    assert SitePlaced(w, s, fs + {s});
    forall k | 0 <= k < |v.sites|
      ensures SitePlaced(v, k, fs)
    {
      assert SitePlaced(w, k, fs + {s});
      SameRobots(w, v, k);
    }
    forall i | 0 <= i < |v.ips|
      ensures IPPlaced(v, i, fi)
    {
      assert IPPlaced(w, i, fi);
    }
  }

  lemma TabPutPlaced(w: World, i: nat, u: Url, addr: Text, fs: set<nat>, fi: set<nat>)
    requires Placed(w, fs, fi) && i < |w.ips| && i !in fi
    ensures Placed(w.TabPut(i, u, addr), fs, if w.ips[i].isInFifo then fi else fi + {i})
  {
    var v := w.TabPut(i, u, addr);
    var fi' := if w.ips[i].isInFifo then fi else fi + {i};
    forall k | 0 <= k < |v.sites|
      ensures SitePlaced(v, k, fs)
    {
      assert SitePlaced(w, k, fs);
      SameRobots(w, v, k);
    }
    forall j | 0 <= j < |v.ips|
      ensures IPPlaced(v, j, fi')
    {
      assert IPPlaced(w, j, fi);
    }
  }

  lemma OkPutPlaced(w: World, i: nat, fs: set<nat>, fi: set<nat>)
    requires Placed(w, fs, fi + {i}) && i < |w.ips| && i !in fi && w.ips[i].tab != []
    ensures Placed(w.OkPut(i), fs, fi) && Placed(w.OkRePut(i), fs, fi)
  {
    assert IPPlaced(w, i, fi + {i});
    InFrontNoDup(w.okSites, i);
    var v, v' := w.OkPut(i), w.OkRePut(i);
    forall k | 0 <= k < |v.sites|
      ensures SitePlaced(v, k, fs) && SitePlaced(v', k, fs)
    {
      assert SitePlaced(w, k, fs);
      SameRobots(w, v, k);
      SameRobots(w, v', k);
    }
    forall j | 0 <= j < |v.ips|
      ensures IPPlaced(v, j, fi) && IPPlaced(v', j, fi)
    {
      assert IPPlaced(w, j, fi + {i});
    }
  }

  lemma InFrontNoDup(q: seq<nat>, i: nat)
    requires NoDup(q) && i !in q
    ensures NoDup(q + [i]) && NoDup([i] + q)
  {
  }

  lemma IPRestsPlaced(w: World, i: nat, fs: set<nat>, fi: set<nat>)
    requires Placed(w, fs, fi + {i}) && i < |w.ips| && i !in fi && w.ips[i].tab == []
    ensures Placed(w.IPRests(i), fs, fi)
  {
    var v := w.IPRests(i);
    forall k | 0 <= k < |v.sites|
      ensures SitePlaced(v, k, fs)
    {
      assert SitePlaced(w, k, fs);
      SameRobots(w, v, k);
    }
    forall j | 0 <= j < |v.ips|
      ensures IPPlaced(v, j, fi)
    {
      assert IPPlaced(w, j, fi + {i});
    }
  }

  lemma DnsTakenPlaced(w: World, fs: set<nat>, fi: set<nat>)
    requires Placed(w, fs, fi) && w.dnsSites != []
    ensures w.dnsSites[0] < |w.sites| && w.dnsSites[0] !in fs && w.sites[w.dnsSites[0]].ring != []
    ensures Placed(w.DnsTaken(), fs + {w.dnsSites[0]}, fi)
  {
    var s, v := w.dnsSites[0], w.DnsTaken();
    assert s in w.dnsSites;
    assert SitePlaced(w, s, fs);
    assert forall k :: k in w.dnsSites <==> k == s || k in v.dnsSites;
    forall k | 0 <= k < |v.sites|
      ensures SitePlaced(v, k, fs + {s})
    {
      assert SitePlaced(w, k, fs);
      SameRobots(w, v, k);
    }
    forall i | 0 <= i < |v.ips|
      ensures IPPlaced(v, i, fi)
    {
      assert IPPlaced(w, i, fi);
    }
  }

  lemma OkTakenPlaced(w: World, fs: set<nat>, fi: set<nat>)
    requires Placed(w, fs, fi) && w.okSites != []
    ensures w.okSites[0] < |w.ips| && w.okSites[0] !in fi && w.ips[w.okSites[0]].tab != []
    ensures Placed(w.OkTaken(), fs, fi + {w.okSites[0]})
  {
    var i, v := w.okSites[0], w.OkTaken();
    assert i in w.okSites;
    assert IPPlaced(w, i, fi);
    assert forall k :: k in w.okSites <==> k == i || k in v.okSites;
    forall k | 0 <= k < |v.sites|
      ensures SitePlaced(v, k, fs)
    {
      assert SitePlaced(w, k, fs);
      SameRobots(w, v, k);
    }
    forall j | 0 <= j < |v.ips|
      ensures IPPlaced(v, j, fi + {i})
    {
      assert IPPlaced(w, j, fi);
    }
  }

  lemma QuerySentPlaced(w: World, s: nat, fs: set<nat>, fi: set<nat>)
    requires Placed(w, fs + {s}, fi) && s < |w.sites| && s !in fs && w.sites[s].ring != []
    ensures Placed(w.QuerySent(s), fs, fi)
  {
    var v := w.QuerySent(s);
    assert SitePlaced(w, s, fs + {s});
    forall k | 0 <= k < |v.sites|
      ensures SitePlaced(v, k, fs)
    {
      assert SitePlaced(w, k, fs + {s});
      SameRobots(w, v, k);
    }
    forall i | 0 <= i < |v.ips|
      ensures IPPlaced(v, i, fi)
    {
      assert IPPlaced(w, i, fi);
    }
  }

  lemma AnswerTakenPlaced(w: World, s: nat, fs: set<nat>, fi: set<nat>)
    requires Placed(w, fs, fi) && s in w.pending
    ensures s < |w.sites| && s !in fs && w.sites[s].ring != [] && Placed(w.AnswerTaken(s), fs + {s}, fi)
  {
    hide Without;
    var v := w.AnswerTaken(s);
    assert SitePlaced(w, s, fs);
    forall k | 0 <= k < |v.sites|
      ensures SitePlaced(v, k, fs + {s})
    {
      assert SitePlaced(w, k, fs);
      SameRobots(w, v, k);
    }
    forall i | 0 <= i < |v.ips|
      ensures IPPlaced(v, i, fi)
    {
      assert IPPlaced(w, i, fi);
    }
  }

  lemma RobotsOpenedPlaced(w: World, s: nat, fs: set<nat>, fi: set<nat>)
    requires Placed(w, fs + {s}, fi) && s < |w.sites| && s !in fs && w.sites[s].ring != []
    requires w.freeConns != [] && w.freeConns[0] < |w.conns| && w.conns[w.freeConns[0]] == Idle
    ensures Placed(w.RobotsOpened(s), fs, fi)
  {
    var v, c := w.RobotsOpened(s), w.freeConns[0];
    assert SitePlaced(w, s, fs + {s});
    forall k | 0 <= k < |v.sites|
      ensures SitePlaced(v, k, fs)
    {
      assert SitePlaced(w, k, fs + {s});
      RobotsElsewhere(w, c, Robots(s), k);
      assert AsksRobots(w.(conns := w.conns[c := Robots(s)]), k) <==> AsksRobots(v, k);
    }
    forall i | 0 <= i < |v.ips|
      ensures IPPlaced(v, i, fi)
    {
      assert IPPlaced(w, i, fi);
    }
    forall c1, c2 | 0 <= c1 < c2 < |v.conns| && v.conns[c1].Robots?
      ensures v.conns[c1] != v.conns[c2]
    {
      assert !AsksRobots(w, s);
    }
  }

  /** The site whose robots.txt a connection was for, if it was for one. */
  function Asking(c: Conn): set<nat> {
    match c
    case Robots(s) => {s}
    case _ => {}
  }

  lemma EndedPlaced(w: World, c: nat, fi: set<nat>)
    requires Placed(w, {}, fi) && c < |w.conns|
    ensures Placed(w.Ended(c), Asking(w.conns[c]), fi)
  {
    var v, fs := w.Ended(c), Asking(w.conns[c]);
    forall k | 0 <= k < |v.sites|
      ensures SitePlaced(v, k, fs)
    {
      assert SitePlaced(w, k, {});
      RobotsElsewhere(w, c, Idle, k);
      assert AsksRobots(w.(conns := w.conns[c := Idle]), k) <==> AsksRobots(v, k);
      if w.conns[c] == Robots(k) {
        assert AsksRobots(w, k);
      }
    }
    forall i | 0 <= i < |v.ips|
      ensures IPPlaced(v, i, fi)
    {
      assert IPPlaced(w, i, fi);
    }
  }

  // ----- connections -----

  /** The first free connection: it is idle, and busy with something else it is no longer free. */
  lemma FirstFree(w: World, held: set<nat>, x: Conn)
    requires Connected(w, held) && w.freeConns != [] && x != Idle
    ensures w.freeConns[0] < |w.conns| && w.freeConns[0] !in held && w.conns[w.freeConns[0]] == Idle
    ensures Connected(w.(freeConns := w.freeConns[1..], conns := w.conns[w.freeConns[0] := x]), held)
    ensures Connected(w.(freeConns := w.freeConns[1..] + [w.freeConns[0]]), held)
  {
    var c, q := w.freeConns[0], w.freeConns[1..];
    assert c in w.freeConns;
    assert forall d :: d in w.freeConns <==> d == c || d in q;
    assert c !in q;
    InFrontNoDup(q, c);
  }

  lemma EndedConnected(w: World, c: nat)
    requires Connected(w, {}) && c < |w.conns| && w.conns[c] != Idle
    ensures Connected(w.Ended(c), {c})
  {
  }

  lemma ConnBackConnected(w: World, c: nat)
    requires Connected(w, {c})
    ensures Connected(w.ConnBack(c), {})
  {
    InFrontNoDup(w.freeConns, c);
  }

  /** The free connections fit the array of `freeConns`, which has room for all there are. */
  lemma FreeConnsFit(w: World, held: set<nat>)
    requires Connected(w, held)
    ensures |w.freeConns| <= |w.conns|
  {
    DistinctBelow(w.freeConns, |w.conns|);
  }

  lemma {:induction false} DistinctBelow(q: seq<nat>, n: nat)
    requires NoDup(q) && forall c :: c in q ==> c < n
    ensures |q| <= n
    decreases n
  {
    if q != [] {
      assert q[0] in q;
      var last: nat := n - 1;
      var r := Without<nat>(q, {last});
      DistinctBelow(r, last);
      WithoutAtMostOne<nat>(q, last);
    }
  }

  // ----- each step keeps who shares an IP site -----

  /** Sites keep their state, address and IP site, and no other query is pending. */
  ghost predicate SameHomes(w: World, v: World) {
    && |v.sites| == |w.sites| && |v.ips| == |w.ips| && v.proxy == w.proxy
    && (forall s :: 0 <= s < |w.sites| ==>
          && v.sites[s].dnsState == w.sites[s].dnsState && v.sites[s].addr == w.sites[s].addr
          && v.sites[s].ipHash == w.sites[s].ipHash)
    && (forall s :: s in v.pending ==> s in w.pending)
  }

  lemma SitesStayHoused(w: World, v: World)
    requires Housed(w) && SameHomes(w, v) && v.ips == w.ips
    ensures Housed(v)
  {
    hide AllAtHome, IPHash;
    forall s | 0 <= s < |v.sites|
      ensures KnowsHome(v.sites[s], s, v.proxy)
    {
      assert KnowsHome(w.sites[s], s, w.proxy);
    }
    forall i | 0 <= i < |v.ips|
      ensures AllAtHome(v.ips[i], i, v.proxy)
    {
      assert AllAtHome(w.ips[i], i, w.proxy);
    }
  }

  /** One IP site changes: what waits there and what was opened is still at home. */
  lemma IPStaysHoused(w: World, v: World, i: nat)
    requires Housed(w) && SameHomes(w, v) && i < |w.ips| && v.ips == w.ips[i := v.ips[i]]
    requires AllAtHome(w.ips[i], i, w.proxy) ==> AllAtHome(v.ips[i], i, w.proxy)
    ensures Housed(v)
  {
    hide AllAtHome;
    SitesStayHoused(w, v.(ips := w.ips));
    forall j | 0 <= j < |v.ips|
      ensures AllAtHome(v.ips[j], j, v.proxy)
    {
      assert AllAtHome(w.ips[j], j, w.proxy);
    }
    forall s | 0 <= s < |v.sites|
      ensures KnowsHome(v.sites[s], s, v.proxy)
    {
      assert KnowsHome(v.(ips := w.ips).sites[s], s, w.proxy);
    }
  }

  /** One site changes, and knows its IP site if its DNS is done. */
  lemma SiteStaysHoused(w: World, s: nat, x: NamedSite)
    requires Housed(w) && s < |w.sites| && KnowsHome(x, s, w.proxy) && (s in w.pending ==> x.dnsState == WaitDns)
    ensures Housed(w.WithSite(s, x))
  {
    hide AllAtHome, KnowsHome;
    var v := w.WithSite(s, x);
    forall k | 0 <= k < |v.sites|
      ensures KnowsHome(v.sites[k], k, v.proxy)
    {
      assert KnowsHome(w.sites[k], k, w.proxy);
    }
    forall i | 0 <= i < |v.ips|
      ensures AllAtHome(v.ips[i], i, v.proxy)
    {
      assert AllAtHome(w.ips[i], i, w.proxy);
    }
  }

  lemma QueryStaysHoused(w: World, s: nat)
    requires Housed(w) && s < |w.sites| && w.sites[s].dnsState == WaitDns
    ensures Housed(w.QuerySent(s))
  {
    hide AllAtHome, KnowsHome;
    var v := w.QuerySent(s);
    forall k | 0 <= k < |v.sites|
      ensures KnowsHome(v.sites[k], k, v.proxy)
    {
      assert KnowsHome(w.sites[k], k, w.proxy);
    }
    forall i | 0 <= i < |v.ips|
      ensures AllAtHome(v.ips[i], i, v.proxy)
    {
      assert AllAtHome(w.ips[i], i, w.proxy);
    }
  }

  // ----- all of it together -----

  /** Names of the parameters that stay the same in most steps. */
  datatype Aside = Aside(owed: nat, fs: set<nat>, fi: set<nat>, held: set<nat>)

  ghost predicate Sane(w: World, hand: seq<Url>, a: Aside) {
    Inv(w, hand, a.owed, a.fs, a.fi, a.held)
  }

  /** A url has just been taken from an input queue. */
  ghost predicate SaneArriving(w: World, u: Url) {
    && u in w.intake && w.space >= 1
    && Sane(w.(intake := w.intake - multiset{u}), [], Aside(0, {}, {}, {}))
  }

  lemma AdmittedStaysSane(w: World, u: Url)
    requires SaneArriving(w, u)
    ensures u.Hash() < |w.sites| && Sane(w.Admitted(u.Hash()), [u], Aside(1, {}, {}, {}))
  {
    hide Counted, Housed;
    var v := w.(intake := w.intake - multiset{u});
    assert Shape(v);
    assert Arriving(w, u);
    AdmittedCounts(w, u);
    SamePlacesPlaced(v, w.Admitted(u.Hash()), {}, {});
    SitesStayHoused(v, w.Admitted(u.Hash()));
  }

  lemma DeferredStaysSane(w: World, u: Url, prio: bool)
    requires SaneArriving(w, u)
    ensures Sane(w.Deferred(u, prio), [], Aside(1, {}, {}, {}))
  {
    hide Counted, Housed;
    var v := w.(intake := w.intake - multiset{u});
    assert Shape(v);
    assert Arriving(w, u);
    DeferredCounts(w, u, prio);
    SamePlacesPlaced(v, w.Deferred(u, prio), {}, {});
    SitesStayHoused(v, w.Deferred(u, prio));
  }

  lemma ForgottenStaysSane(w: World, u: Url, a: Aside)
    requires Sane(w, [u], a)
    ensures u.Hash() < |w.sites| && Sane(w.Forgotten(u.Hash(), u), [], a)
  {
    hide Counted, Housed;
    ForgottenCounts(w, u, a.owed);
    SamePlacesPlaced(w, w.Forgotten(u.Hash(), u), a.fs, a.fi);
    SitesStayHoused(w, w.Forgotten(u.Hash(), u));
  }

  lemma RingedStaysSane(w: World, u: Url, a: Aside)
    requires Sane(w, [u], a) && u.Hash() !in a.fs
    requires u.Hash() < |w.sites| && |w.sites[u.Hash()].ring| < MAX_URLS_BY_SITE - 1
    ensures u.Hash() < |w.sites| && Sane(w.Ringed(u.Hash(), u), [], a)
  {
    hide Counted, Housed;
    RingedCounts(w, u, a.owed);
    RingedPlaced(w, u.Hash(), u, a.fs, a.fi);
    SitesStayHoused(w, w.Ringed(u.Hash(), u));
  }

  lemma RingTakenStaysSane(w: World, s: nat, a: Aside)
    requires Sane(w, [], a) && s in a.fs && s < |w.sites| && w.sites[s].ring != []
    ensures w.sites[s].ring[0].Hash() == s && Sane(w.RingTaken(s), [w.sites[s].ring[0]], a)
    ensures |w.sites[s].ring| < MAX_URLS_BY_SITE
  {
    hide Counted, Housed;
    assert w.sites[s].ring[0] in w.sites[s].ring;
    RingTakenCounts(w, s, a.owed);
    SamePlacesPlaced(w, w.RingTaken(s), a.fs, a.fi);
    SitesStayHoused(w, w.RingTaken(s));
  }

  lemma RingBackStaysSane(w: World, u: Url, a: Aside)
    requires Sane(w, [u], a) && u.Hash() in a.fs
    requires u.Hash() < |w.sites| && |w.sites[u.Hash()].ring| < MAX_URLS_BY_SITE - 1
    ensures u.Hash() < |w.sites| && Sane(w.RingBack(u.Hash(), u), [], a)
  {
    hide Counted, Housed;
    RingedCounts(w, u, a.owed);
    SamePlacesPlaced(w, w.RingBack(u.Hash(), u), a.fs, a.fi);
    SitesStayHoused(w, w.RingBack(u.Hash(), u));
  }

  lemma SettledStaysSane(w: World, s: nat, hand: seq<Url>, a: Aside)
    requires Sane(w, hand, a.(fs := a.fs + {s})) && s !in a.fs && s < |w.sites|
    ensures Sane(w.Settled(s), hand, a)
  {
    hide Counted, Housed;
    CountedIgnoresPlaces(w, w.(dnsSites := w.dnsSites + [s]), hand, a.owed);
    SiteKeepsCounts(w, s, w.sites[s].(isInFifo := false), hand, a.owed);
    SettledPlaced(w, s, a.fs, a.fi);
    SitesStayHoused(w, w.Settled(s));
  }

  lemma CountedIgnoresPlaces(w: World, v: World, hand: seq<Url>, owed: nat)
    requires Counted(w, hand, owed)
    requires v == w.(dnsSites := v.dnsSites, pending := v.pending, okSites := v.okSites, freeConns := v.freeConns,
                     now := v.now)
    ensures Counted(v, hand, owed)
  {
    hide RingUrls, TabUrls, TabCount, PageUrls, HashCount, Sum;
  }

  /** A site is renamed, or learns about its address, its state or what it forbids. */
  lemma RelabelledStaysSane(w: World, s: nat, x: NamedSite, hand: seq<Url>, a: Aside)
    requires Sane(w, hand, a) && s < |w.sites| && x.ipHash < IP_SITES
    requires x.ring == w.sites[s].ring && x.nburls == w.sites[s].nburls && x.isInFifo == w.sites[s].isInFifo
    requires KnowsHome(x, s, w.proxy) && (s in w.pending ==> x.dnsState == WaitDns)
    ensures Sane(w.WithSite(s, x), hand, a)
  {
    hide Counted, Housed;
    SiteKeepsCounts(w, s, x, hand, a.owed);
    SamePlacesPlaced(w, w.WithSite(s, x), a.fs, a.fi);
    SiteStaysHoused(w, s, x);
  }

  lemma TabPutStaysSane(w: World, i: nat, u: Url, addr: Text, a: Aside)
    requires Sane(w, [u], a) && i < |w.ips| && i !in a.fi && IPHash(u.Hash(), addr, w.proxy) == i
    ensures Sane(w.TabPut(i, u, addr), [], if w.ips[i].isInFifo then a else a.(fi := a.fi + {i}))
  {
    hide Counted, Housed;
    TabPutCounts(w, i, u, addr, a.owed);
    TabPutPlaced(w, i, u, addr, a.fs, a.fi);
    IPStaysHoused(w, w.TabPut(i, u, addr), i);
  }

  lemma OkPutStaysSane(w: World, i: nat, hand: seq<Url>, a: Aside)
    requires Sane(w, hand, a.(fi := a.fi + {i})) && i !in a.fi && i < |w.ips| && w.ips[i].tab != []
    ensures Sane(w.OkPut(i), hand, a) && Sane(w.OkRePut(i), hand, a)
  {
    hide Counted, Housed;
    CountedIgnoresPlaces(w, w.OkPut(i), hand, a.owed);
    CountedIgnoresPlaces(w, w.OkRePut(i), hand, a.owed);
    OkPutPlaced(w, i, a.fs, a.fi);
    SitesStayHoused(w, w.OkPut(i));
    SitesStayHoused(w, w.OkRePut(i));
  }

  lemma IPRestsStaysSane(w: World, i: nat, hand: seq<Url>, a: Aside)
    requires Sane(w, hand, a.(fi := a.fi + {i})) && i !in a.fi && i < |w.ips| && w.ips[i].tab == []
    ensures Sane(w.IPRests(i), hand, a)
  {
    hide Counted, Housed;
    IPKeepsCounts(w, i, w.ips[i].(isInFifo := false), hand, a.owed);
    IPRestsPlaced(w, i, a.fs, a.fi);
    IPStaysHoused(w, w.IPRests(i), i);
  }

  lemma OpeningStaysHoused(w: World, i: nat)
    requires Housed(w) && i < |w.ips| && w.ips[i].tab != [] && |w.ips[i].addrs| == |w.ips[i].tab|
    requires w.ips[i].tab[0].Hash() < |w.sites| && w.freeConns != [] && w.freeConns[0] < |w.conns|
    ensures Housed(w.PageOpened(i)) && Housed(w.OpenFailed(i))
  {
    hide Housed, IPHash, Url.Hash;
    IPStaysHoused(w, w.PageOpened(i), i);
    IPStaysHoused(w, w.OpenFailed(i), i);
  }

  lemma PageOpenedStaysSane(w: World, i: nat, hand: seq<Url>, a: Aside)
    requires Sane(w, hand, a) && i in a.fi && i < |w.ips| && w.ips[i].tab != [] && w.freeConns != []
    requires w.ips[i].lastAccess + w.waitDuration <= w.now
    ensures w.freeConns[0] < |w.conns| && Sane(w.PageOpened(i), hand, a)
  {
    hide Counted, Housed;
    var u := w.ips[i].tab[0];
    FirstFree(w, a.held, Page(u));
    PageOpenedCounts(w, i, hand, a.owed);
    SamePlacesPlaced(w, w.PageOpened(i), a.fs, a.fi);
    OpeningStaysHoused(w, i);
  }

  lemma OpenFailedStaysSane(w: World, i: nat, hand: seq<Url>, a: Aside)
    requires Sane(w, hand, a) && i in a.fi && i < |w.ips| && w.ips[i].tab != [] && w.freeConns != []
    ensures Sane(w.OpenFailed(i), hand, a)
  {
    hide Counted, Housed;
    var u := w.ips[i].tab[0];
    FirstFree(w, a.held, Page(u));
    TabTakenCounts(w, i, hand, a.owed);
    CountedIgnoresPlaces(w.TabTaken(i).(retired := w.retired + multiset{u}), w.OpenFailed(i), hand, a.owed);
    SamePlacesPlaced(w, w.OpenFailed(i), a.fs, a.fi);
    OpeningStaysHoused(w, i);
  }

  lemma DnsTakenStaysSane(w: World, a: Aside)
    requires Sane(w, [], a) && w.dnsSites != []
    ensures var s := w.dnsSites[0];
            s < |w.sites| && s !in a.fs && w.sites[s].ring != [] && Sane(w.DnsTaken(), [], a.(fs := a.fs + {s}))
  {
    hide Counted, Housed;
    CountedIgnoresPlaces(w, w.DnsTaken(), [], a.owed);
    DnsTakenPlaced(w, a.fs, a.fi);
    SitesStayHoused(w, w.DnsTaken());
  }

  lemma OkTakenStaysSane(w: World, a: Aside)
    requires Sane(w, [], a) && w.okSites != []
    ensures var i := w.okSites[0];
            i < |w.ips| && i !in a.fi && w.ips[i].tab != [] && Sane(w.OkTaken(), [], a.(fi := a.fi + {i}))
  {
    hide Counted, Housed;
    CountedIgnoresPlaces(w, w.OkTaken(), [], a.owed);
    OkTakenPlaced(w, a.fs, a.fi);
    SitesStayHoused(w, w.OkTaken());
  }

  lemma QuerySentStaysSane(w: World, s: nat, a: Aside)
    requires Sane(w, [], a.(fs := a.fs + {s})) && s !in a.fs && s < |w.sites| && w.sites[s].ring != []
    requires w.sites[s].dnsState == WaitDns
    ensures Sane(w.QuerySent(s), [], a)
  {
    hide Counted, Housed;
    CountedIgnoresPlaces(w, w.QuerySent(s), [], a.owed);
    QuerySentPlaced(w, s, a.fs, a.fi);
    QueryStaysHoused(w, s);
  }

  lemma AnswerTakenStaysSane(w: World, s: nat, a: Aside)
    requires Sane(w, [], a) && s in w.pending
    ensures s < |w.sites| && s !in a.fs && w.sites[s].ring != [] && Sane(w.AnswerTaken(s), [], a.(fs := a.fs + {s}))
  {
    hide Counted, Housed;
    CountedIgnoresPlaces(w, w.AnswerTaken(s), [], a.owed);
    AnswerTakenPlaced(w, s, a.fs, a.fi);
    SitesStayHoused(w, w.AnswerTaken(s));
  }

  lemma RobotsOpenedStaysSane(w: World, s: nat, a: Aside)
    requires Sane(w, [], a.(fs := a.fs + {s})) && s !in a.fs && s < |w.sites| && w.sites[s].ring != []
    requires w.freeConns != []
    ensures w.freeConns[0] < |w.conns| && Sane(w.RobotsOpened(s), [], a)
    ensures Sane(w.RobotsFailed(), [], a.(fs := a.fs + {s}))
  {
    hide Counted, Housed;
    FirstFree(w, a.held, Robots(s));
    var c := w.freeConns[0];
    ConnKeepsCounts(w, c, Robots(s), [], a.owed);
    CountedIgnoresPlaces(w.(conns := w.conns[c := Robots(s)]), w.RobotsOpened(s), [], a.owed);
    CountedIgnoresPlaces(w, w.RobotsFailed(), [], a.owed);
    RobotsOpenedPlaced(w, s, a.fs, a.fi);
    SamePlacesPlaced(w, w.RobotsFailed(), a.fs + {s}, a.fi);
    SitesStayHoused(w, w.RobotsOpened(s));
    SitesStayHoused(w, w.RobotsFailed());
  }

  lemma EndedStaysSane(w: World, c: nat)
    requires Sane(w, [], Aside(0, {}, {}, {})) && c < |w.conns| && w.conns[c] != Idle
    ensures Sane(w.Ended(c), [], Aside(0, Asking(w.conns[c]), {}, {c}))
    ensures w.conns[c].Robots? ==> w.conns[c].site < |w.sites| && w.sites[w.conns[c].site].ring != []
  {
    hide Counted, Housed;
    EndedCounts(w, c, [], 0);
    EndedPlaced(w, c, {});
    EndedConnected(w, c);
    if w.conns[c].Robots? {
      assert SitePlaced(w, w.conns[c].site, {});
      assert AsksRobots(w, w.conns[c].site);
    }
    SitesStayHoused(w, w.Ended(c));
  }

  lemma ConnBackStaysSane(w: World, c: nat)
    requires Sane(w, [], Aside(0, {}, {}, {c}))
    ensures Sane(w.ConnBack(c), [], Aside(0, {}, {}, {}))
  {
    hide Counted, Housed;
    CountedIgnoresPlaces(w, w.ConnBack(c), [], 0);
    ConnBackConnected(w, c);
    SamePlacesPlaced(w, w.ConnBack(c), {}, {});
    SitesStayHoused(w, w.ConnBack(c));
  }

  lemma ClockStaysSane(w: World, now: int, a: Aside)
    requires Sane(w, [], a) && now >= w.now
    ensures Sane(w.(now := now), [], a)
  {
    hide Counted, Housed;
    CountedIgnoresPlaces(w, w.(now := now), [], a.owed);
    SamePlacesPlaced(w, w.(now := now), a.fs, a.fi);
    SitesStayHoused(w, w.(now := now));
  }

  // ----- what the operations on IP sites leave alone -----

  /** Sites change their counts at most, connections become busy at most. */
  ghost predicate Elsewhere(w: World, v: World) {
    && |v.sites| == |w.sites| && |v.ips| == |w.ips| && |v.conns| == |w.conns|
    && (forall s :: 0 <= s < |w.sites| ==>
          v.sites[s] == w.sites[s].(nburls := v.sites[s].nburls) && v.sites[s].nburls <= w.sites[s].nburls)
    && (forall c :: 0 <= c < |w.conns| && w.conns[c] != Idle ==> v.conns[c] == w.conns[c])
    && v.now == w.now && v.waitDuration == w.waitDuration && v.proxy == w.proxy && v.space == w.space
    && v.dnsSites == w.dnsSites && v.pending == w.pending
    && v.disk == w.disk && v.priority == w.priority && v.diskWait == w.diskWait && v.priorityWait == w.priorityWait
    && v.intake == w.intake
    && w.retired <= v.retired
  }

  lemma ElsewhereTwice(u: World, v: World, w: World)
    requires Elsewhere(u, v) && Elsewhere(v, w)
    ensures Elsewhere(u, w)
  {
  }

  lemma StepsElsewhere(w: World, i: nat)
    requires i < |w.ips|
    ensures Elsewhere(w, w) && Elsewhere(w, w.OkPut(i)) && Elsewhere(w, w.OkRePut(i)) && Elsewhere(w, w.IPRests(i))
    ensures forall u, addr :: Elsewhere(w, w.TabPut(i, u, addr))
  {
  }

  lemma OpeningElsewhere(w: World, i: nat)
    requires i < |w.ips| && w.ips[i].tab != [] && w.ips[i].addrs != [] && w.ips[i].tab[0].Hash() < |w.sites|
    requires w.freeConns != [] && w.freeConns[0] < |w.conns| && w.conns[w.freeConns[0]] == Idle
    ensures Elsewhere(w, w.PageOpened(i)) && Elsewhere(w, w.OpenFailed(i))
  {
  }

  /** How a round of fetching ends: the queue lost its first `n` urls; the last of them was opened, now, on
      a connection that was free, and those before it were given up; or none could be opened and the queue
      is empty. The site waits again, behind the others, exactly if it has urls left. */
  ghost predicate FetchedUpTo(w: World, v: World, i: nat, n: nat)
    requires i < |w.ips| && i < |v.ips|
  {
    var tab := w.ips[i].tab;
    && n <= |tab| && v.ips[i].tab == tab[n..]
    && v.okSites == w.okSites + (if tab[n..] == [] then [] else [i])
    && |w.ips[i].addrs| == |tab| && v.ips[i].addrs == w.ips[i].addrs[n..]
    && ((n > 0 && v.ips[i].visits == w.ips[i].visits + [Visit(w.now, w.ips[i].addrs[n - 1], tab[n - 1])]
         && v.ips[i].lastAccess == w.now
         && v.retired == w.retired + multiset(tab[..n - 1])
         && exists c :: c in w.freeConns && c < |w.conns| && v.conns == w.conns[c := Page(tab[n - 1])])
        || (n == |tab| && v.ips[i].visits == w.ips[i].visits && v.ips[i].lastAccess == w.ips[i].lastAccess
            && v.retired == w.retired + multiset(tab) && v.conns == w.conns))
  }

  /** `IPSite::putUrl`: the url is at the end of the queue; a site that was idle is fetched from at once if
      it may be and a connection is free, and otherwise waits. */
  ghost predicate PutInto(v: World, w: World, i: nat, u: Url, addr: Text)
    requires i < |v.ips|
  {
    var x := v.ips[i];
    var t := v.(ips := v.ips[i := x.(tab := x.tab + [u], addrs := x.addrs + [addr], isInFifo := true)]);
    if v.ips[i].isInFifo then w == t
    else if v.ips[i].lastAccess + v.waitDuration <= v.now && v.freeConns != [] then
      |w.ips| == |v.ips| && exists n :: FetchedUpTo(t, w, i, n)
    else w == t.OkPut(i)
  }

  lemma ForgettingElsewhere(w: World, s: nat, u: Url)
    requires s < |w.sites|
    ensures Elsewhere(w, w.Forgotten(s, u))
  {
  }

  /** No site counts more urls than before. */
  ghost predicate NoMore(w: World, v: World) {
    |v.sites| == |w.sites| && forall k :: 0 <= k < |w.sites| ==> v.sites[k].nburls <= w.sites[k].nburls
  }

  /** The counters of all sites fit: 64 urls each, at most. */
  ghost predicate CountersFit(w: World) {
    forall k :: 0 <= k < |w.sites| ==> w.sites[k].nburls <= MAX_URLS_BY_SITE
  }

  /** Sites other than `s` change their counts at most. */
  ghost predicate OnlySite(w: World, v: World, s: nat) {
    && |v.sites| == |w.sites| && |v.ips| == |w.ips| && |v.conns| == |w.conns|
    && (forall k :: 0 <= k < |w.sites| && k != s ==> v.sites[k] == w.sites[k].(nburls := v.sites[k].nburls))
    && (s < |w.sites| ==> v.sites[s] == w.sites[s].(nburls := v.sites[s].nburls, ring := v.sites[s].ring))
    && NoMore(w, v)
    && (forall c :: 0 <= c < |w.conns| && w.conns[c] != Idle ==> v.conns[c] == w.conns[c])
    && v.now == w.now && v.waitDuration == w.waitDuration && v.proxy == w.proxy && v.space == w.space
    && v.dnsSites == w.dnsSites && v.pending == w.pending
    && v.disk == w.disk && v.priority == w.priority && v.diskWait == w.diskWait && v.priorityWait == w.priorityWait
    && v.intake == w.intake && w.retired <= v.retired
  }

  lemma RingStepsOnlySite(w: World, s: nat, u: Url)
    requires s < |w.sites|
    ensures OnlySite(w, w, s) && OnlySite(w, w.RingBack(s, u), s)
    ensures w.sites[s].ring != [] ==> OnlySite(w, w.RingTaken(s), s)
  {
  }

  lemma OnlySiteThenElsewhere(u: World, v: World, w: World, s: nat)
    requires OnlySite(u, v, s) && (Elsewhere(v, w) || OnlySite(v, w, s)) && s < |u.sites|
    ensures OnlySite(u, w, s)
    ensures Elsewhere(v, w) ==> w.sites[s].ring == v.sites[s].ring
  {
  }

  /** The scan of a ring after `i` of its `|q|` urls: the rest, then those among the first that were put
      back, which are those with another name and those `kept` besides. */
  function Scanned(q: seq<Url>, i: nat, name: Text, port: nat, samePort: bool): seq<Url>
    requires i <= |q|
  {
    q[i..] + Staying(q[..i], name, port, samePort)
  }

  /** The urls that stay in the ring: those with another name and, when only `port` is served, those for
      another port. */
  function Staying(q: seq<Url>, name: Text, port: nat, onlyPort: bool): seq<Url> {
    if q == [] then []
    else
      var u := q[|q| - 1];
      Staying(q[..|q| - 1], name, port, onlyPort) + if u.name != name || (onlyPort && u.port != port) then [u] else []
  }

  /** One url of the scan: it is the head of the ring, and behind it the rest. */
  lemma ScanStep(q: seq<Url>, i: nat, name: Text, port: nat, onlyPort: bool)
    requires i < |q|
    ensures var r := Scanned(q, i, name, port, onlyPort);
            && r != [] && r[0] == q[i]
            && Scanned(q, i + 1, name, port, onlyPort) ==
               r[1..] + if q[i].name != name || (onlyPort && q[i].port != port) then [q[i]] else []
  {
    assert q[..i + 1][..i] == q[..i];
    assert q[i..] == [q[i]] + q[i + 1..];
  }

  lemma ScanEnds(q: seq<Url>, name: Text, port: nat, onlyPort: bool)
    ensures Scanned(q, |q|, name, port, onlyPort) == Staying(q, name, port, onlyPort)
    ensures Scanned(q, 0, name, port, onlyPort) == q && Leaving(q[..0], name, port, onlyPort) == []
  {
    assert q[..|q|] == q;
  }

  /** The urls that leave are exactly the others; nobody changes order. */
  lemma {:induction false} StayingIsFilter(q: seq<Url>, name: Text, port: nat, onlyPort: bool)
    ensures forall u :: u in Staying(q, name, port, onlyPort) <==>
      u in q && (u.name != name || (onlyPort && u.port != port))
    ensures multiset(Staying(q, name, port, onlyPort)) + multiset(Leaving(q, name, port, onlyPort)) == multiset(q)
    ensures |Staying(q, name, port, onlyPort)| <= |q|
  {
    if q != [] {
      var front, u := q[..|q| - 1], q[|q| - 1];
      StayingIsFilter(front, name, port, onlyPort);
      assert q == front + [u];
    }
  }

  function Leaving(q: seq<Url>, name: Text, port: nat, onlyPort: bool): seq<Url> {
    if q == [] then []
    else
      var u := q[|q| - 1];
      Leaving(q[..|q| - 1], name, port, onlyPort) + if u.name != name || (onlyPort && u.port != port) then [] else [u]
  }

  lemma LeavingStep(q: seq<Url>, i: nat, name: Text, port: nat, onlyPort: bool)
    requires i < |q|
    ensures multiset(Leaving(q[..i + 1], name, port, onlyPort)) == multiset(Leaving(q[..i], name, port, onlyPort))
      + if q[i].name != name || (onlyPort && q[i].port != port) then multiset{} else multiset{q[i]}
  {
    assert q[..i + 1][..i] == q[..i];
  }

  /** `dnsErr` is over: every url with the site's name was given up, the others keep their order and the
      site waits again for the DNS if there are any. */
  ghost predicate GaveUp(v: World, w: World, s: nat) {
    && s < |v.sites| == |w.sites| && |v.ips| == |w.ips| && |v.conns| == |w.conns|
    && w.sites[s] == v.sites[s].(nburls := w.sites[s].nburls, isInFifo := w.sites[s].isInFifo,
                                 ring := Staying(v.sites[s].ring, v.sites[s].name, v.sites[s].port, false))
    && w.retired == v.retired + multiset(Leaving(v.sites[s].ring, v.sites[s].name, v.sites[s].port, false))
    && w.dnsSites == v.dnsSites + (if w.sites[s].ring == [] then [] else [s]) && w.pending == v.pending
    && SameElsewhere(v, w)
  }

  /** What no operation on the DNS side of a site changes. */
  ghost predicate SameElsewhere(v: World, w: World) {
    && w.now == v.now && w.waitDuration == v.waitDuration && w.proxy == v.proxy && w.space == v.space
    && w.ips == v.ips && w.okSites == v.okSites && w.intake == v.intake
    && w.disk == v.disk && w.priority == v.priority && w.diskWait == v.diskWait && w.priorityWait == v.priorityWait
    && |w.sites| == |v.sites| && |w.conns| == |v.conns| && NoMore(v, w)
  }

  ghost function RingTotal(w: World): nat {
    |RingUrls(w.sites)|
  }

  lemma RingTotalOfSites(v: World, w: World)
    requires v.sites == w.sites
    ensures RingTotal(v) == RingTotal(w)
  {
  }

  lemma LabelsKeepRingTotal(w: World, s: nat, x: NamedSite)
    requires s < |w.sites| && x.ring == w.sites[s].ring
    ensures RingTotal(w.WithSite(s, x)) == RingTotal(w)
  {
    hide RingUrls;
    RingUrlsUpdate(w.sites, s, x);
    Cancels(RingUrls(w.sites[s := x]), RingUrls(w.sites), multiset(w.sites[s].ring), multiset(x.ring),
            Url([], [], 0, []));
  }

  /** The scan removes at least the url that gave the site its name. */
  lemma {:induction false} FirstLeaves(q: seq<Url>, name: Text, port: nat)
    requires q != [] && q[0].name == name
    ensures |Staying(q, name, port, false)| < |q|
  {
    var front := q[..|q| - 1];
    if |q| > 1 {
      FirstLeaves(front, name, port);
    } else {
      assert front == [];
    }
  }

  /** What can become of a site whose address is known: it asks for robots.txt, or is given up. */
  ghost predicate AskedRobots(v: World, w: World, s: nat) {
    && s < |v.sites| && v.freeConns != [] && v.freeConns[0] < |v.conns|
    && (w == v.RobotsOpened(s) || GaveUp(v.RobotsFailed().InState(s, NoConnDns), w, s))
  }

  /** What can become of a site at the head of the queue for the DNS: it takes the name of its first url, and then
      its address is known, or it has none, or a query is sent. */
  ghost predicate Queried(v: World, w: World, s: nat, dotted: Option<Text>) {
    && s < |v.sites| == |w.sites| && v.sites[s].ring != []
    && var r, name := v.Renamed(s), v.sites[s].ring[0].name;
       if v.proxy then AskedRobots(r, w, s)
       else if name == [] || !('0' as int <= name[0] <= '9' as int) then w == r.QuerySent(s)
       else
         match dotted
         case Some(addr) => AskedRobots(r.Addressed(s, addr), w, s)
         case None => GaveUp(r.InState(s, ErrorDns), w, s)
  }

  // ----- what the accounts say about the sum of all counts -----

  /** The urls in memory, as the sites count them. */
  ghost function CountSum(sites: seq<NamedSite>): int {
    if sites == [] then 0 else CountSum(sites[..|sites| - 1]) + sites[|sites| - 1].nburls
  }

  /** The urls of a queue that belong to sites below `n`. */
  ghost function HashSum(q: seq<Url>, n: nat): nat {
    if n == 0 then 0 else HashSum(q, n - 1) + HashCount(q, n - 1)
  }

  ghost function TabSum(ips: seq<IPSite>, n: nat): nat {
    if n == 0 then 0 else TabSum(ips, n - 1) + TabCount(ips, n - 1)
  }

  lemma {:induction false} HashSumFront(q: seq<Url>, n: nat)
    requires q != []
    ensures HashSum(q, n) == HashSum(q[..|q| - 1], n) + if q[|q| - 1].Hash() < n then 1 else 0
    decreases n
  {
    hide Url.Hash;
    if n > 0 {
      HashSumFront(q, n - 1);
    }
  }

  /** Every url belongs to one site. */
  lemma {:induction false} HashSumAll(q: seq<Url>)
    ensures HashSum(q, NAMED_SITES) == |q|
  {
    if q != [] {
      HashSumFront(q, NAMED_SITES);
      HashSumAll(q[..|q| - 1]);
    } else {
      HashSumNone(NAMED_SITES);
    }
  }

  lemma {:induction false} HashSumNone(n: nat)
    ensures HashSum([], n) == 0
  {
    if n > 0 {
      HashSumNone(n - 1);
    }
  }

  lemma {:induction false} TabSumFront(ips: seq<IPSite>, n: nat)
    requires ips != []
    ensures TabSum(ips, n) == TabSum(ips[..|ips| - 1], n) + HashSum(ips[|ips| - 1].tab, n)
    decreases n
  {
    if n > 0 {
      TabSumFront(ips, n - 1);
    }
  }

  lemma {:induction false} TabSumNone(n: nat)
    ensures TabSum([], n) == 0
  {
    if n > 0 {
      TabSumNone(n - 1);
    }
  }

  lemma {:induction false} TabSumAll(ips: seq<IPSite>)
    ensures TabSum(ips, NAMED_SITES) == |TabUrls(ips)|
  {
    if ips != [] {
      TabSumFront(ips, NAMED_SITES);
      HashSumAll(ips[|ips| - 1].tab);
      TabSumAll(ips[..|ips| - 1]);
    } else {
      TabSumNone(NAMED_SITES);
    }
  }

  lemma {:induction false} CountSumParts(sites: seq<NamedSite>, ips: seq<IPSite>)
    requires forall s :: 0 <= s < |sites| ==> sites[s].nburls == |sites[s].ring| + TabCount(ips, s)
    ensures CountSum(sites) == |RingUrls(sites)| + TabSum(ips, |sites|)
  {
    hide TabCount;
    if sites != [] {
      CountSumParts(sites[..|sites| - 1], ips);
    }
  }

  /** The budget: what the interval has given out, less what the sequencer still has of it, is what the
      sites count together. */
  lemma BudgetIsCounted(w: World)
    requires Sane(w, [], NOTHING_ASIDE)
    ensures w.pos - w.space == CountSum(w.sites) && 0 <= w.space && 0 <= w.pos <= RAM_URLS
  {
    hide TabCount, RingUrls, TabUrls, Sum, PageUrls, Placed, Connected, Polite;
    CountSumParts(w.sites, w.ips);
    TabSumAll(w.ips);
  }

  // ----- the budget, the input and the start -----

  /** A site never counts fewer urls than its ring holds, and the budget is never overdrawn. */
  lemma CountsBound(w: World, hand: seq<Url>, a: Aside, s: nat)
    requires Sane(w, hand, a) && s < |w.sites|
    ensures |w.sites[s].ring| <= w.sites[s].nburls && 0 <= w.pos <= RAM_URLS
  {
  }

  lemma AdmittedBound(w: World, u: Url)
    requires SaneArriving(w, u)
    ensures u.Hash() < |w.sites| && |w.sites[u.Hash()].ring| <= w.sites[u.Hash()].nburls
    ensures |w.sites[u.Hash()].ring| < MAX_URLS_BY_SITE
  {
    CountsBound(w.(intake := w.intake - multiset{u}), [], Aside(0, {}, {}, {}), u.Hash());
  }

  const NOTHING_ASIDE := Aside(0, {}, {}, {})

  /** `Interval::putAll`: an empty budget takes all the room there is. */
  lemma BudgetStaysSane(w: World)
    requires Sane(w, [], NOTHING_ASIDE) && w.space == 0
    ensures Sane(w.(space := RAM_URLS - w.pos, pos := RAM_URLS), [], NOTHING_ASIDE)
  {
    hide RingUrls, TabUrls, TabCount, PageUrls, HashCount, Sum, Placed;
    SamePlacesPlaced(w, w.(space := RAM_URLS - w.pos, pos := RAM_URLS), {}, {});
  }

  /** The sequencer takes the url it admitted off its budget. */
  lemma SpentStaysSane(w: World)
    requires Sane(w, [], Aside(1, {}, {}, {}))
    ensures Sane(w.(space := w.space - 1), [], NOTHING_ASIDE)
  {
    hide RingUrls, TabUrls, TabCount, PageUrls, HashCount, Sum, Placed;
    SamePlacesPlaced(w, w.(space := w.space - 1), {}, {});
  }

  lemma InputStaysSane(w: World, disk: seq<Url>, priority: seq<Url>)
    requires Sane(w, [], NOTHING_ASIDE)
    ensures Sane(w.(disk := disk, priority := priority), [], NOTHING_ASIDE)
  {
    hide RingUrls, TabUrls, TabCount, PageUrls, HashCount, Sum, Placed;
    SamePlacesPlaced(w, w.(disk := disk, priority := priority), {}, {});
  }

  /** A url is taken from an input queue, or again from a queue of those that were put back. */
  function FromDisk(w: World): World
    requires w.disk != []
  {
    w.(disk := w.disk[1..], intake := w.intake + multiset{w.disk[0]})
  }

  function FromPriority(w: World): World
    requires w.priority != []
  {
    w.(priority := w.priority[1..], intake := w.intake + multiset{w.priority[0]})
  }

  function FromDiskWait(w: World): World
    requires w.diskWait != []
  {
    w.(diskWait := w.diskWait[1..])
  }

  function FromPriorityWait(w: World): World
    requires w.priorityWait != []
  {
    w.(priorityWait := w.priorityWait[1..])
  }

  lemma TakingIsSane(w: World)
    requires Sane(w, [], NOTHING_ASIDE) && w.space >= 1
    ensures w.disk != [] ==> SaneArriving(FromDisk(w), w.disk[0])
    ensures w.priority != [] ==> SaneArriving(FromPriority(w), w.priority[0])
  {
    hide Sane;
    if w.disk != [] {
      NewIsSane(w, w.disk[1..], w.priority, w.disk[0]);
    }
    if w.priority != [] {
      NewIsSane(w, w.disk, w.priority[1..], w.priority[0]);
    }
  }

  lemma NewIsSane(w: World, disk: seq<Url>, priority: seq<Url>, u: Url)
    requires Sane(w, [], NOTHING_ASIDE) && w.space >= 1
    ensures SaneArriving(w.(disk := disk, priority := priority, intake := w.intake + multiset{u}), u)
  {
    hide Sane;
    var v := w.(disk := disk, priority := priority, intake := w.intake + multiset{u});
    InputStaysSane(w, disk, priority);
    assert v.intake - multiset{u} == w.intake;
    assert v.(intake := w.intake) == w.(disk := disk, priority := priority);
  }


  lemma TakingAgainIsSane(w: World)
    requires Sane(w, [], NOTHING_ASIDE) && w.space >= 1
    ensures w.diskWait != [] ==> SaneArriving(FromDiskWait(w), w.diskWait[0])
    ensures w.priorityWait != [] ==> SaneArriving(FromPriorityWait(w), w.priorityWait[0])
  {
    hide Counted;
    if w.diskWait != [] {
      WaitingAgain(w, FromDiskWait(w), w.diskWait[0]);
      TakenStaysSane(w, FromDiskWait(w), w.diskWait[0]);
    }
    if w.priorityWait != [] {
      WaitingAgain(w, FromPriorityWait(w), w.priorityWait[0]);
      TakenStaysSane(w, FromPriorityWait(w), w.priorityWait[0]);
    }
  }

  lemma TakenStaysSane(w: World, v: World, u: Url)
    requires Sane(w, [], NOTHING_ASIDE) && w.space >= 1
    requires v == w.(diskWait := v.diskWait, priorityWait := v.priorityWait)
    requires u in v.intake && Counted(v.(intake := v.intake - multiset{u}), [], 0)
    ensures SaneArriving(v, u)
  {
    hide Counted;
    SamePlacesPlaced(w, v.(intake := v.intake - multiset{u}), {}, {});
  }

  lemma WaitingAgain(w: World, v: World, u: Url)
    requires Counted(w, [], 0)
    requires (w.diskWait != [] && u == w.diskWait[0] && v == FromDiskWait(w))
          || (w.priorityWait != [] && u == w.priorityWait[0] && v == FromPriorityWait(w))
    ensures u in v.intake && Counted(v.(intake := v.intake - multiset{u}), [], 0)
  {
    hide RingUrls, TabUrls, TabCount, PageUrls, HashCount, Sum;
    QueueContents(w.diskWait, u);
    QueueContents(w.priorityWait, u);
    OneMore(RingUrls(v.sites), TabUrls(v.ips), multiset{}, PageUrls(v.conns), v.retired, multiset(v.diskWait),
            multiset(v.priorityWait), u);
    var rest := Everywhere(v, []);
    assert v.intake == rest + multiset{u};
    assert rest + multiset{u} - multiset{u} == rest;
  }

  lemma {:induction false} EmptySums(sites: seq<NamedSite>, ips: seq<IPSite>, conns: seq<Conn>, s: nat)
    requires forall k :: 0 <= k < |sites| ==> sites[k].ring == []
    requires forall i :: 0 <= i < |ips| ==> ips[i].tab == []
    requires forall c :: 0 <= c < |conns| ==> conns[c] == Idle
    ensures RingUrls(sites) == multiset{} && TabUrls(ips) == multiset{} && PageUrls(conns) == multiset{}
    ensures TabCount(ips, s) == 0
    decreases |sites| + |ips| + |conns|
  {
    if sites != [] {
      EmptySums(sites[..|sites| - 1], ips, conns, s);
    } else if ips != [] {
      EmptySums(sites, ips[..|ips| - 1], conns, s);
    } else if conns != [] {
      EmptySums(sites, ips, conns[..|conns| - 1], s);
    }
  }

  /** Before the first url: everything is empty and all connections are free. */
  function Start(now: int, waitDuration: int, nbConn: nat, proxy: bool): World {
    World(now, waitDuration, proxy,
          seq(NAMED_SITES, _ => NamedSite([], 0, 0, [], false, WaitDns, [], 0, 0, [])),
          seq(IP_SITES, _ => IPSite([], [], false, 0, [])),
          [], [], [], seq(nbConn, c => c), seq(nbConn, _ => Idle),
          0, 0, [], [], [], [], multiset{}, multiset{})
  }

  lemma StartIsSane(now: int, waitDuration: int, nbConn: nat, proxy: bool)
    requires now >= 0
    ensures Sane(Start(now, waitDuration, nbConn, proxy), [], NOTHING_ASIDE)
  {
    hide Counted, Placed;
    StartCounts(now, waitDuration, nbConn, proxy);
    StartPlaced(now, waitDuration, nbConn, proxy);
    var w := Start(now, waitDuration, nbConn, proxy);
    assert Shape(w);
    forall c: nat | c < nbConn
      ensures c in w.freeConns
    {
      assert w.freeConns[c] == c;
    }
    assert Connected(w, {});
    assert Polite(w);
  }

  lemma StartCounts(now: int, waitDuration: int, nbConn: nat, proxy: bool)
    ensures Counted(Start(now, waitDuration, nbConn, proxy), [], 0)
  {
    hide RingUrls, TabUrls, TabCount, PageUrls;
    var w := Start(now, waitDuration, nbConn, proxy);
    forall s: nat
      ensures TabCount(w.ips, s) == 0
    {
      EmptySums(w.sites, w.ips, w.conns, s);
    }
    EmptySums(w.sites, w.ips, w.conns, 0);
  }

  lemma StartPlaced(now: int, waitDuration: int, nbConn: nat, proxy: bool)
    ensures Placed(Start(now, waitDuration, nbConn, proxy), {}, {})
  {
    var w := Start(now, waitDuration, nbConn, proxy);
    forall s | 0 <= s < |w.sites|
      ensures SitePlaced(w, s, {})
    {
      assert w.sites[s] == NamedSite([], 0, 0, [], false, WaitDns, [], 0, 0, []);
    }
    forall i | 0 <= i < |w.ips|
      ensures IPPlaced(w, i, {})
    {
      assert w.ips[i] == IPSite([], [], false, 0, []);
    }
  }

  lemma StartIsEmpty(now: int, waitDuration: int, nbConn: nat, proxy: bool)
    ensures var w := Start(now, waitDuration, nbConn, proxy);
            && w.space == 0 == w.pos && w.priority == [] == w.priorityWait && |w.sites| == NAMED_SITES
            && w.now == now && w.pending == []
            && forall s :: 0 <= s < NAMED_SITES ==>
                 w.sites[s].nburls == 0 && w.sites[s].ring == [] && w.sites[s].dnsState == WaitDns
    ensures CountersFit(Start(now, waitDuration, nbConn, proxy))
  {
  }

  /** Fewer urls in one ring, the same in the others. */
  lemma RingTotalDrops(v: World, w: World, s: nat)
    requires OnlySite(v, w, s) && s < |v.sites| && |w.sites[s].ring| < |v.sites[s].ring|
    ensures |RingUrls(w.sites)| < |RingUrls(v.sites)|
  {
    var mid := v.sites[s := w.sites[s]];
    RingUrlsUpdate(v.sites, s, w.sites[s]);
    assert |RingUrls(mid) + multiset(v.sites[s].ring)| == |RingUrls(v.sites) + multiset(w.sites[s].ring)|;
    SameRings(mid, w.sites);
  }

  lemma {:induction false} SameRings(a: seq<NamedSite>, b: seq<NamedSite>)
    requires |a| == |b| && forall k :: 0 <= k < |a| ==> a[k].ring == b[k].ring
    ensures RingUrls(a) == RingUrls(b)
  {
    if a != [] {
      SameRings(a[..|a| - 1], b[..|b| - 1]);
    }
  }
}
