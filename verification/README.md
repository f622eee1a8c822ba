# Larbin: a model of the crawler and its resolver, with proofs

Larbin is a web crawler that brings its own asynchronous DNS resolver (adns). This project models the
parts of both whose correctness is decided by code rather than by the outside world, and proves what they
promise. Everything is in Dafny; `dafny verify dfyconfig.toml` checks it all.

What the code changes in place is a field of a class here (or an array), and the loops are loops. Where the
state is large, it is kept in one field that holds a record (`View`, `World`); the moves of the state are
functions on that record, the lemmas are about these functions, and each method says which of them it is.

**The resolver's queues** (`AdnsQueues`, `AdnsWaiting`, `AdnsPatience`, `AdnsEngine`). A query is on the queue that its state names:
waiting for UDP, waiting for TCP, waiting for child queries, or done. `View.Inv` holds the conditions that
adns/check.c asserts at run time, and in addition the history: what was submitted, answered, handed over and
cancelled. Every operation of `Resolver` keeps it: submitting, sending, replies, time-outs, the TCP
connection with all its failures, children that finish, cancelling, and handing answers over. `Run` is any
sequence of these. The loops over the TCP events and over the queue that restarts at its head end, because
retries are used up. `AdnsPatience` counts the broken connections that a waiting query outlasts, and shows
that queries are finished when nobody replies. `TimeVal` has the times of two fields, `LinkedQueue` the
linked lists.

**The crawler's scheduler** (`Scheduler`, `Crawler`). Urls go from queues on disk to the ring of their named
site, wait there for the DNS and robots.txt, go on to the queue of their IP site, and then to a connection.
`Scheduler.Sane` says that the accounts are right (each site counts exactly its own urls, the budget is what
the sites count, and every url ever taken is in exactly one place), that every site with urls is in exactly
one place where it will be processed, that every connection is free once or busy with one parser, that names
with one address share an IP site, and that no two pages were opened through one IP site within the delay. Operations call each other while sites are
in the middle of being processed; `hand` and `Aside` say what is on its way then. `Larbin.Run` is the main
loop over any number of rounds. `RobotsPattern` has the patterns of robots.txt, and `Rings` the circular arrays
behind the queues.

**Punycode** (`Punycode`, `PunycodeDecoder`). The encoder, against the decoder of section 6.2 of RFC 3492 as its
specification. The decoder has parameters, digits and a bias of its own; the bias is given by bounds that only one
number meets, and two known names show that the decoder reads them as it should.

**Names** (`DomainText`, `NamePointers`, `DnsName`). Names as text, with quoting, and names in datagrams, with
compression pointers (sections 3.1, 4.1.4 and 5.1 of RFC 1035). A `Layout` is one way to write a name in a
datagram; `Turned` is one turn of the loops that read it, which may have no end.

**The queue on disk** (`PersistentFifo`, `UrlText`). Two buffers, two positions in numbered files and the
change of files every 100000 lines act as one queue of urls.

**Paths** (`PathSegments`, `PathText`, `PathNormalizer`). The array-shifting loop of `fileNormalize`, against a stack of
segments that are decoded as they are pushed.

**The memory of an answer** (`Answers`, `AnswerBlocks`, `Arena`). What the parsers of records allocate and count
while a query is under way, and what the functions for the types of records take when the answer is made one
block. `Sound` says that nothing is taken twice or without having been counted; every operation keeps it.

**TCP streams** (`TcpStream`) and **SRV records** (`SrvOrder`).

## Main results

* Any run of the resolver keeps the conditions of adns/check.c, answers nobody twice and loses nobody, with
  bounded retries and a bound on the broken connections that anybody outlasts (`Resolver.Run`, `Outlast`);
  with no replies everybody is finished (`Silence`); the loops end (`TcpEvents`, `TimeoutsQueue`), and the
  time until the next event is exact (`Timeouts`).
* Any run of the crawler keeps the accounts, the places of sites and the connections, and opens any two pages of
  one address at least the delay apart (`Larbin.Run`), with queues that are circular arrays (`Rings`).
* What the punycode encoder writes decodes to its input (`Punycode.Encode`).
* A name is read from a datagram exactly as it is laid out (`ParseDomain`), reading ends exactly under the
  condition given (`FinishesExactly`), and quoted text is read back exactly if its bytes are faithful
  (`QuotingRoundTrip`).
* Any answer can be made final: its copies fit, and it says the same (`Arena.Life`, `MakeFinal`).
* The segmented queue on disk is one queue of urls (`PersistentFifo.Queue`), which are read as they were
  written exactly if they are well formed (`SerializedRoundTrip`).
* The path normaliser does in place what a stack of segments does (`FileNormalize`), the TCP stream gives
  exactly its frames (`ProcessReadable`), and SRV records are drawn by weight within each priority
  (`SortRecords`, `PostSort`).

## Where the code differs from its promises

Some promises do not hold of the code as it is. In each case the model keeps the code's behaviour, and the
exact condition is proved:

* The printer of domain names writes bytes as octal numbers and the parser reads them as decimal ones
  (`QuotingRoundTrip`, `OctalIsReadAsDecimal`). RFC 1035 says decimal.
* A compression pointer that leads to itself is followed for ever, also in a reply that is accepted
  (`SelfPointerNeverFinishes`, `AcceptedButEndless`). Reading a name ends if and only if no endless chain is
  followed within the length of a name (`FinishesExactly`), and so whenever the pointers that are followed go
  backward (`BackwardFinishes`).
* The buffer for a query that copies a name from a datagram is large enough if and only if the name without
  its pointers is no longer than that datagram (`ReservedSuffices`, `ReservedFallsShort`).
* A query that waits for TCP need not be failed after as many broken connections as there are servers and one
  more: that holds in every run for the first in the queue (`Outlast`) and for no other place. If the first write
  on each connection fails, those behind the first get no retry (`Starve`); for the query at place i the bound
  is i + 1 times as large, and it is attained for every i (`BoundIsAttained`).
* A url with priority that is read again from disk comes with the limit 1, which lets a 64th url into the
  ring of 64 and makes the assertion there fail (`OverflowsExactly`, `LimitOneOverflows`); the other limits
  never do.
* A url is not read from disk as it was written if its host has a colon, its file starts with a digit, or,
  with cookies, its file has a blank (`SerializedRoundTrip`). What is read for the cookie then may not fit its
  buffer (`CookieFitsExactly`, `CookieOverruns`).
* A normalised path need not be left as it is when it is normalised again, as that of a base url is: it is if and
  only if nothing is left to be done at any character (`FixedPoint`, `EscapedDotsTwice`), and so whenever no escape
  stood for a character with a meaning of its own (`CleanTwice`). A path that ends in a `%` can make the normaliser
  look behind its array (`PercentAtTheEnd`), under the condition that `FileNormalize` gives.
* A star in a pattern of robots.txt ends at the first occurrence of the character behind it, and a second star is
  looked for as if it were any character. So what a pattern stands for may not be found (`FirstOnly`); it always is
  if and only if behind each star there is at most one character before the next star or the end
  (`MatchesExactly`).
* RFC 2782 wants SRV records without weight to have a small chance of coming first; they are never chosen
  unless they are in front already (`WeightlessPick`).
* A TXT string with a NUL inside loses what is behind it when the answer is made final (`StringSizes`).

## Model

| member | source | states |
|---|---|---|
| `AdnsEngine.Resolver.Run` | adns/internal.h:253-304 | After any sequence of events (submissions, replies, time-outs, TCP connections made and lost, cancellations, answers collected) all of the conditions of check.c hold, nobody was answered twice, no query that was not given up is lost, and retries are at most 15 over UDP and one more than the servers over TCP. A query that waits for TCP has outlasted, since it joined the queue at place i, fewer than (i + 1) * (servers + 1) broken connections. Whoever waits for UDP need not use TCP and fits 512 bytes, and was sent to every server before to any for the second time; what must use TCP does so as long as it lives, and nobody but a restarted query asks for anything else |
| `AdnsEngine.Resolver.React` | adns/internal.h:253-304 | Each single event keeps all of these conditions; the count of whoever waits for TCP goes on unless a reply belongs to that query; a truncated reply is never asked for over UDP again. A query that is given up is cancelled, the first answer is the one that is collected, and a lost connection is broken |
| `AdnsEngine.Resolver.Outlast` | adns/event.c:53-97 | From any moment on, the query at place i outlasts fewer than (i + 1) * (servers + 1) broken connections; the first one no more than there are servers |
| `AdnsEngine.Resolver.Starve` | adns/event.c:53-97 | If the first write on every connection fails, one broken connection more than there are servers finishes the first query, and those behind it have had no retry then: of any queue of queries without retries, k * (servers + 1) broken connections leave exactly what is behind the first k |
| `AdnsEngine.BoundIsAttained` | adns/event.c:53-97 | The bound is attained for every place and number of servers: queries asked over TCP of a new resolver while its first connection is under way, the last of which still waits after (place + 1) * (servers + 1) - 1 broken connections; that is more than there are servers exactly if it is not the first |
| `AdnsEngine.AskedOverTcp` | adns/query.c:210-263 | Any number of queries over TCP can be asked before the first connection is made; they wait in order, without retries |
| `AdnsEngine.Resolver.Silence` | adns/event.c:213-233 | With no replies, 15 passings of time, each beyond all deadlines, finish every query, whatever connections are made and lost between them and whatever is collected or given up: each that was not given up is on the output queue |
| `AdnsEngine.Resolver.Timeouts` | adns/event.c:281-287 | Without acting: exactly the minimum of the caller's limit, of max(0, time-out - now) over both queues, and of a running TCP timer. Acting: nothing on either queue is overdue, and whoever still waits with a new deadline can be overdue less often; nobody is failed over UDP who is not overdue or was not sent 15 times |
| `AdnsEngine.Resolver.TcpBroken` | adns/event.c:53-70 | The next server has its turn, and everybody who waits for TCP has one more retry exactly if the connection had not been made yet; the buffers are empty |
| `AdnsEngine.Resolver.SendTcp` | adns/transmit.c:189-241 | Sending over an open connection counts one retry for this query alone and resets the idle time; the connection breaks exactly if `writev` is called and fails; without a connection nothing happens; what could not be written of it waits to be sent |
| `AdnsEngine.Resolver.TcpConnected` | adns/event.c:72-82 | Exactly the queries that were sent before a send broke the connection have one more retry, in the order of the queue; all of them if none did, and the first in any case |
| `AdnsPatience.PaidRetried` | adns/event.c:53-82 | A broken connection is paid for by a retry of the first in the queue, or was when it was made |
| `AdnsPatience.OutlastsFew` | adns/event.c:84-97 | Who waits has outlasted no more broken connections than its place allows, one fewer if it will not be failed next |
| `AdnsPatience.OverdueLessOften` | adns/event.c:222-231 | Whoever was overdue and still waits has fewer retries left, or waits for TCP now |
| `AdnsEngine.Resolver.Cancel` | adns/query.c:439-465 | The query and its children disappear from every queue and from the parent's children; everybody else stays in place; the conditions hold, also while the parent is being processed |
| `AdnsEngine.Resolver.CancelChildren` | adns/query.c:410-417 | All children of the query disappear, nobody else |
| `AdnsEngine.Resolver.QueryDone` | adns/query.c:514-559 | A top-level query is on the output queue, once; a child is gone and its parent waits on at the tail of its queue if it has other children, and is done itself if not |
| `AdnsEngine.Resolver.QueryFail` | adns/query.c:561-565 | A failed query ends like one that is done, and its children are cancelled first |
| `AdnsEngine.Resolver.TcpBrokenEvents` | adns/event.c:84-97 | Exactly the queries with more retries than servers leave the queue and are failed, the others stay in order; the loop over the changing list ends |
| `AdnsEngine.Resolver.ConnectFailed` | adns/event.c:99-153 | A connection that fails at once uses up slack: the sum of retries left goes down if anybody waits |
| `AdnsEngine.Resolver.TryConnect` | adns/event.c:99-153 | Each server is tried once at most; if somebody waits, slack is used up or the connection is under way |
| `AdnsEngine.Resolver.UseTcp` | adns/transmit.c:243-250 | The query joins those that wait for TCP without retries; what happens on the connection then only ages the queues |
| `AdnsEngine.Resolver.QuerySend` | adns/transmit.c:252-292 | Over TCP if it must be or is longer than 512 bytes; otherwise failed exactly after 15 retries, sent to the server whose turn it is, or over TCP if the network finds it too long; over TCP it waits 30 seconds |
| `AdnsEngine.Resolver.SendUdp` | adns/transmit.c:268-292 | It is sent to the server whose turn it is, the turn goes on to the next one around, and it waits two seconds |
| `AdnsEngine.Resolver.Overdue` | adns/event.c:222-231 | An entry that timed out leaves its queue; it is failed if it waited for TCP or was sent 15 times, and otherwise sent again, over UDP or over TCP |
| `AdnsEngine.Resolver.TimeoutsQueue` | adns/event.c:213-233 | The loop that restarts at the head ends, with nothing expired left; without acting it gives the time until the first entry is due; nobody else is failed, and over TCP nobody else is touched |
| `AdnsEngine.Resolver.TcpEvents` | adns/event.c:235-279 | The loop ends because every round uses up slack or comes closer to a standing connection; without acting it changes nothing and gives the earliest of the caller's limit and the connection's own time |
| `AdnsEngine.Resolver.Submit` | adns/query.c:210-263 | The new query is there under a new identity; a bad name is answered at once; what was answered before stays |
| `AdnsEngine.Resolver.SpawnChildren` | adns/types.c:503-522 | One child for each host, in order, that asks for it, points back to its parent, was sent to the first server and waits two seconds |
| `AdnsEngine.Resolver.FindAnswered` | adns/reply.c:86-108 | A reply belongs to the first query in the queue with its id, whose question begins the reply and that was sent to that server, and to none only if there is none |
| `AdnsEngine.Resolver.GotRecords` | adns/reply.c:316-372 | With all records good the query is done, unless addresses must be asked for first: then it waits for exactly these children |
| `AdnsEngine.Resolver.GotBadRecords` | adns/reply.c:336-352 | A bad record fails the query, and the children that were already asked for are cancelled |
| `AdnsEngine.Resolver.AskAgain` | adns/reply.c:363-391 | A truncated answer is asked for again over TCP and never over UDP, an alias that leads away at its new name, with no retries and no children |
| `AdnsEngine.Resolver.ProcDgram` | adns/reply.c:31-391 | A reply that belongs to nobody changes nothing; otherwise the first query that has its id, whose question it repeats and that was sent to the server leaves its queue and goes on as its outcome says. What the query asks afterwards is spelled out: a truncated reply sets that it must use TCP, and only then; an alias sets id and question; nothing else changes them |
| `AdnsEngine.ProcessedAsks` | adns/reply.c:31-391 | What a reply does to who asks what: nobody but its query asks for anything else |
| `AdnsEngine.Resolver.Check` | adns/event.c:666-690 | ESRCH means that no query of any kind is outstanding and everything submitted was handed over or cancelled; what is handed over was done, and leaves the output queue |
| `AdnsEngine.Resolver.constructor` | adns/check.c:77-106 | A resolver without queries is in order |
| `AdnsQueues.CompletedInSteps` | adns/query.c:514-559 | Finishing a query keeps every condition of check.c: no parent stays on its queue without a live child, and no child is left without its parent |
| `AdnsQueues.CancelInSteps` | adns/query.c:439-465 | The conditions hold at each step of cancelling |
| `AdnsQueues.OneQueue` | adns/check.c:108-158 | A query is on no queue but the one that its state names |
| `AdnsQueues.SomebodyWaits` | adns/check.c:133-146 | A query that is not done waits for the network, or one of its children does |
| `AdnsQueues.NothingOutstanding` | adns/event.c:673-681 | If nothing waits for the network and no answer is there, there is no query at all |
| `AdnsQueues.AnsweredOnce` | adns/query.c:554-558 | A query of the caller's that was not given up reaches the output queue at most once, and exactly if it is there or was handed over |
| `AdnsQueues.RetriesAreBounded` | adns/check.c:113-127 | At most 15 retries over UDP, and at most the cap over TCP |
| `AdnsQueues.NobodyIsLost` | adns/query.c:514-559 | A query that was submitted and not cancelled is there or was handed over |
| `AdnsWaiting.SlackDrops` | adns/event.c:84-97 | Queries that leave and retries that are added never give slack back; if everybody leaves or is retried, one unit each is used up |
| `AdnsWaiting.RetriesCostSlack` | adns/event.c:61-65 | A retry of the first in the queue costs slack |
| `TimeVal.Clock.Add` | adns/tvarith.h:30-38 | Adds milliseconds, and the result is normalised |
| `TimeVal.Caller.NoLaterThan` | adns/event.c:196-211 | The caller's limit becomes the least of itself and max(0, maxtime - now), as a normalised time; a caller that asks nothing is told nothing |
| `TimeVal.Caller.AtMost` | adns/event.c:181-194 | The limit becomes the lesser of the two, or the given one if there was none |
| `TimeVal.DetourIsNeeded` | adns/event.c:204-208 | Without the two more seconds, C's division would leave negative microseconds exactly if those of the time are fewer than those of now |
| `LinkedQueue.Queue.LinkTail` | adns/dlist.h:41-48 | The node is the last of the sequence, and all links agree |
| `LinkedQueue.Queue.Unlink` | adns/dlist.h:33-39 | The sequence without the node; its own links stay as they were |
| `LinkedQueue.Queue.Visit` | adns/check.c:108-158 | Following the links meets each node once, in order, with links back that agree |
| `LinkedQueue.MoveToTail` | adns/types.c:467-468 | A node that is unlinked and linked again is the last one |
| `Crawler.Larbin.Run` | src/main.cxx:144-172 | Over any number of rounds with a clock that does not go back, the accounts, the places and the connections are right: every url ever taken from the input is in exactly one place, the budget is what the sites count, and no site counts more than 64. Without a proxy, sites with one address have one IP site; with a proxy it is that of the site's own number. Any two pages that were opened at one address (with a proxy: of one named site), through whatever IP sites, are the delay apart. A run can end with a failed assertion only after a second at which the put-back urls with priority are read again, and never if no url has priority. There are never more DNS queries pending than allowed |
| `Crawler.Larbin.Transfer` | src/fetch/site.cxx:482-496 | What a pattern of robots.txt matches is given up, everything else goes to the IP site with the address of its site |
| `Crawler.Larbin.PutGeneric` | src/fetch/site.cxx:136-207 | Where a url goes: forgotten, back on disk, into the ring, or on; the counter of a site never exceeds 64. The assertion of the ring fails exactly if 63 urls of the site wait and one more is let in, and then the limit is at most 1. Only an answer of the DNS for the same name and port that is not too old leads to an IP site |
| `Crawler.Larbin.CanGetUrl` | src/fetch/sequencer.cxx:59-98 | The order of the input queues and the limit for each; what was put back is never read from an empty queue; an assertion fails exactly if the next url overflows its ring |
| `Crawler.Larbin.Round` | src/main.cxx:144-200 | One round of the main loop; when pages were fetched, no connection was free, no site waited, or the first of them must wait |
| `Crawler.Larbin.EverySecond` | src/main.cxx:182-199 | Every five minutes all that was put back is to be read again, and half of that later nothing; within a second, nothing happens |
| `Crawler.Larbin.Fetch` | src/fetch/site.cxx:572-644 | The first url that a connection can be opened for is opened, now, and the ones before it are given up; or it is too early and the site is in front of `okSites` again; the site waits, behind the others, exactly if urls are left |
| `Crawler.Larbin.PutUrl` | src/fetch/site.cxx:528-549 | The url is at the end of the queue; a site that was idle is fetched from at once if the delay is over and a connection is free, and otherwise waits; everything stays in order through the nested call |
| `Crawler.Larbin.ScanRing` | src/fetch/site.cxx:442-470 | The rotating scan leaves exactly the urls with another name (or, after a good robots.txt, another port), in their order, and the ring never overflows, though other sites change meanwhile; the others go to the IP site or are given up, one by one in the order of the ring |
| `Crawler.Larbin.DnsErr` | src/fetch/site.cxx:345-380 | Exactly the urls with the site's name are given up; the site waits for the DNS again if any are left |
| `Crawler.Larbin.DnsOK` | src/fetch/site.cxx:303-339 | The site asks for robots.txt on a free connection if one could be opened, and otherwise is given up and the connection is free again |
| `Crawler.Larbin.NewQuery` | src/fetch/site.cxx:212-253 | With a proxy, or if the name is an address, the site asks for robots.txt; a name that starts with a digit and is no address gives it up; any other is asked for in the DNS. Either the number of waiting urls goes down or the queue for the DNS stays shorter |
| `Crawler.Larbin.NewId` | src/fetch/site.cxx:396-410 | The site has the name and the port of its first url, for 48 hours, and waits for the DNS |
| `Crawler.Larbin.DnsAns` | src/fetch/site.cxx:259-296 | An alias is asked again, a good answer leads to robots.txt, anything else gives the site up |
| `Crawler.Larbin.RobotsResult` | src/fetch/site.cxx:415-480 | The site gets the IP site of its address, or with a proxy that of its own number; its urls go on to it or are given up, one by one in the order of the ring, and the site rests or waits again |
| `Scheduler.AddressHash` | src/fetch/site.cxx:421-436 | The IP site of an address is a polynomial of its four bytes in 32 bits; with a proxy the address does not matter |
| `Scheduler.HashIsPolynomial` | src/utils/url.cxx:40-46 | What the loop of a hash computes is the value of a polynomial in 32 bits |
| `Scheduler.HostHashCode` | src/utils/url.cxx:40-46 | The named site of a host is that of its polynomial in 37 |
| `Crawler.ServersAreSpared` | src/fetch/site.cxx:583-598 | Any two pages of one server are the delay apart |
| `RobotsPattern.RobotsMatch` | src/utils/text.cxx:52-73 | The loop finds whether a file begins as the pattern says when each star ends at the first occurrence of what is behind it |
| `RobotsPattern.MatchesExactly` | src/utils/text.cxx:52-73 | It finds every file that a pattern stands for, if and only if behind each star of the pattern there is nothing, or one character with a star or nothing behind it |
| `RobotsPattern.MatchedIsMeant` | src/utils/text.cxx:52-73 | Whatever it finds, the pattern stands for |
| `RobotsPattern.PlainPrefix` | src/utils/text.cxx:52-73 | A pattern without stars matches exactly what begins with it |
| `RobotsPattern.FirstOnly` | src/utils/text.cxx:58-64 | *ab stands for xaxab and is not found there; ** is not found in x |
| `Crawler.Larbin.EndOfFile` | src/fetch/fetch_pipe.cxx:244-262 | The connection is idle and free again, once, though it was in no queue while the site was processed; a site whose robots.txt was read forbids what was found there |
| `Crawler.Larbin.CheckConnections` | src/fetch/fetch_pipe.cxx:50-95 | Any connections may end |
| `Crawler.Larbin.FetchOpen` | src/fetch/fetch_open.cxx:18-35 | Sites are fetched from until no connection is free, no site waits, or the first must wait; the loop ends |
| `Crawler.Larbin.FetchDns` | src/fetch/fetch_open.cxx:40-65 | The loop over the queue for the DNS ends although sites may join it again, because they lose urls then; never are more queries pending than allowed |
| `Crawler.Larbin.Sequencer` | src/fetch/sequencer.cxx:36-54 | At most 100 urls and never more than there is room for in memory |
| `Crawler.Larbin.constructor` | src/fetch/site.cxx:96-105 | Everything is in order in the beginning |
| `Crawler.OverflowsExactly` | src/fetch/site.h:107-114 | With limits from 2 on the ring never overflows; with the limit 1 exactly for a site with 63 urls that are all in its ring |
| `Crawler.LimitOneOverflows` | src/fetch/site.cxx:115-120 | It is reached: 64 urls with priority for one site whose DNS does not answer, the last four put back by the limit 5 and read again with the limit 1, make the assertion fail |
| `Scheduler.BudgetIsCounted` | src/fetch/site.h:40-59 | Between operations, the interval's position less the sequencer's budget is the sum of the counts of all named sites, and within the limit |
| `Scheduler.OpensApart` | src/fetch/site.cxx:583-598 | Any two pages that were opened through one IP site are at least the delay apart |
| `Scheduler.FreeConnsFit` | src/utils/constant_fifo.h:79-113 | There are never more free connections than connections, so the fixed array is never full |
| `Scheduler.StayingIsFilter` | src/fetch/site.cxx:358-370 | The urls that stay are those with another name or port, those that leave are the others, and together they are all |
| `Scheduler.FirstLeaves` | src/fetch/site.cxx:403-405 | The url that gave the site its name leaves the ring, so that the loops end |
| `Scheduler.StartIsSane` | src/fetch/site.cxx:96-105 | The empty crawler is in order |
| `Scheduler.TabSumAll` | src/fetch/site.cxx:557-557 | Every url in an IP site belongs to exactly one named site |
| `Rings.Fifo.Put` | src/utils/fifo.h:108-126 | The sequence with one more at the end, also when the array must grow |
| `Rings.Fifo.Grow` | src/utils/fifo.h:112-125 | The larger array holds the same sequence |
| `Rings.Fifo.Get` | src/utils/fifo.h:88-95 | The first of the sequence |
| `Rings.Fifo.RePut` | src/utils/fifo.h:128-132 | The sequence with one more in front |
| `Rings.TakeAndPutBack` | src/fetch/site.cxx:584-588 | What was just taken can always be put back, and the queue is as it was |
| `Rings.FixedRing.Put` | src/fetch/site.cxx:115-120 | The sequence with one more at the end; the assertion fails exactly if one less than the size were in it |
| `Rings.FixedRing.Get` | src/fetch/site.cxx:122-128 | The first of the sequence |
| `Punycode.Encode` | src/utils/punycode.cxx:104-159 | For up to 255 code points of 16 bits the text starts with xn--, decodes to exactly these code points by section 6.2 of RFC 3492, with parameters and a bias of the decoder's own, and ends with a NUL inside the array; there is no overflow and nothing is cut |
| `Punycode.EncodeVarInt` | src/utils/punycode.cxx:52-76 | The digits of the generalised variable-length integer; all of them fit |
| `Punycode.AdaptBias` | src/utils/punycode.cxx:32-41 | The bias that the law of section 6.1 determines, stated as bounds: delta is divided by 700 the first time and by 2 afterwards, gains its share of the points, and is divided by 35 as often as it takes to be at most 455 |
| `PunycodeDecoder.BiasIsUnique` | src/utils/punycode.cxx:32-41 | No two numbers meet the law of the bias |
| `PunycodeDecoder.China` | src/utils/punycode.cxx:104-159 | fiqs8s decodes to the two code points of the name of China |
| `PunycodeDecoder.Class` | src/utils/punycode.cxx:104-159 | The longest of the examples in section 7.1 with basic and other code points in turn decodes as that section says |
| `Punycode.EncodeDigit` | src/utils/punycode.cxx:43-50 | A digit that has this value; no character that is none |
| `Punycode.ReadBack` | src/utils/punycode.cxx:52-76 | The decoder reads the integer back from its digits, and leaves the rest |
| `Punycode.EightDigits` | src/utils/punycode.cxx:113-113 | No delta needs more than 8 digits, for which the array has room |
| `Punycode.StepEmit` | src/utils/punycode.cxx:141-147 | The decoder inserts the code point where the encoder was |
| `Punycode.StepSkip` | src/utils/punycode.cxx:136-140 | The state of encoder and decoder over a code point that is there already |
| `Punycode.StepJump` | src/utils/punycode.cxx:131-134 | The jump to the next code point is what the decoder makes of it |
| `Punycode.ScanFor` | src/utils/punycode.cxx:135-147 | One pass over the host puts all of one code point in place |
| `Punycode.DeltaFits` | src/utils/punycode.cxx:131-139 | Delta never overflows 32 bits |
| `Punycode.RoomLeft` | src/utils/punycode.cxx:126-126 | The array is never full before all code points are written |
| `DomainText.QuotingRoundTrip` | adns/transmit.c:77-119 | The text of a valid name is read as the same labels if and only if all bytes are below 8 or from 33 to 126 |
| `DomainText.LabelMisreads` | adns/transmit.c:91-97 | Any other label is refused, or read as a different one |
| `DomainText.OctalIsReadAsDecimal` | adns/parse.c:38-38 | Byte 200 is printed as 310 and refused; byte 8 is printed as 010 and read as byte 10 |
| `DomainText.HostNameReads` | adns/transmit.c:105-111 | Without quoting, the text of a valid name is read as the same labels if and only if they consist of letters, digits and hyphens, hyphens not first |
| `DomainText.AppendQuoted` | adns/parse.c:29-53 | Appends each byte as it is or quoted, in runs |
| `DomainText.QdplNormal` | adns/transmit.c:77-119 | The label at the head of the text and the text behind it, or a refusal; the label never exceeds its array |
| `DomainText.NextByte` | adns/transmit.c:88-111 | One byte of a label, and how many characters it took |
| `DomainText.CharactersAre` | adns/internal.h:731-740 | Which characters are letters and digits, and which are written as they are |
| `DomainText.ParsedIsValid` | adns/transmit.c:138-148 | Only names with labels of 1 to 63 bytes that fit 255 bytes are accepted |
| `DnsName.ParseDomain` | adns/parse.c:114-162 | For every name whose reading comes to an end: a name is printed if and only if there is one at that place, however it is written with pointers, that is at most 255 long, ends inside its area and is a host name if it must be; then the text is that of its labels and the end is where it ends; a refused name leaves what was printed of it, which was read there |
| `DnsName.FindRR` | adns/parse.c:164-229 | For every owner whose reading comes to an end: the fields of the record behind it, and whether the owner is the other name, ignoring case |
| `DnsName.SameNameIs` | adns/parse.c:170-195 | Names are the same if their letters are up to their case, and all else is equal |
| `DnsName.ReadLabel` | adns/parse.c:134-138 | In a loop: no name that fits, or the end of the name, or its next label; the name gets longer, so loops end |
| `DnsName.FindLabel.Follow` | adns/parse.c:76-89 | Pointers are followed to where they lead, or the first of them is refused |
| `DnsName.TurnsToNext` | adns/parse.c:76-105 | One call reads what the turns of the loops, one by one, lead to: the place behind the next label, or no further |
| `DnsName.LayoutFinishes` | adns/parse.c:76-89 | Where there is a name, reading comes to an end |
| `NamePointers.FinishesExactly` | adns/parse.c:76-105 | Reading a name comes to an end if and only if nowhere, as far as labels and pointers lead within the length of a name, an endless chain of pointers is followed; a fixed number of turns tells |
| `NamePointers.FollowingEnds` | adns/parse.c:76-89 | Following pointers comes to an end if and only if their chain does, or its first pointer is refused because it leaves the place of the name |
| `NamePointers.ChainsAreShort` | adns/parse.c:76-89 | A chain of pointers ends if and only if it ends after as many as the datagram has bytes |
| `NamePointers.BackwardFinishes` | adns/parse.c:76-105 | If the pointers that are followed all go strictly backward, reading comes to an end: each turn makes the name longer or leads to a smaller offset |
| `NamePointers.SelfPointerNeverFinishes` | adns/parse.c:85-88 | Whoever comes to a pointer to itself never finishes |
| `DnsName.AcceptedButEndless` | adns/reply.c:49-144 | For every query there is a reply that passes all tests of its header and whose first owner has no end |
| `DnsName.MkQueryFrDgram` | adns/transmit.c:158-187 | A query with the labels of the other datagram's name, without pointers, that asks for what it should: read as replies are, it has the id and the type, asks for recursion, and holds one question in class IN |
| `DnsName.ReservedSuffices` | adns/transmit.c:34-42 | The query fits into what is asked for if and only if the name without pointers is no longer than the datagram it comes from: so without pointers, and in 257 bytes |
| `DnsName.ReservedFallsShort` | adns/transmit.c:167-178 | A name with overlapping labels that does not fit |
| `DnsName.FindLabel.Next` | adns/parse.c:70-112 | A label is given if and only if it is there, fits the datagram, the area and the length of a name; the end is noted before the first pointer |
| `DnsName.LayoutIsUnique` | adns/parse.c:70-112 | There is one way to read what is at an offset |
| `DnsName.MkQuery` | adns/transmit.c:121-156 | A query with the labels of the text that asks for what it should: read as replies are, it has the id and the type, asks for recursion, and holds one question in class IN; or the status that refuses it. Nothing is written outside the buffer |
| `DnsName.QueryAsks` | adns/transmit.c:34-96 | The bytes of a query, read as adns/reply.c:53-70 reads a header, ask for this id, this type and recursion |
| `DnsName.QueryReadsBack` | adns/transmit.c:121-156 | The name in a query is the one that it was made for |
| `DnsName.TextToQueryAndBack` | adns/transmit.c:121-156 | The labels that were parsed are exactly those in the query, under any reading of it; printed, they are read as the same name if and only if their bytes are all faithful |
| `DnsName.ReadFields` | adns/parse.c:211-224 | The fields of a record in network byte order, with the time to live capped |
| `PersistentFifo.Queue.Put` | src/utils/persistent_fifo.cxx:152-161 | The queue of urls with one more at the end, across buffers and files |
| `PersistentFifo.Queue.Get` | src/utils/persistent_fifo.cxx:138-147 | The first url of the queue, as it is read from its line: the same one if and only if it is well formed; and whether its cookie fits |
| `PersistentFifo.Queue.TryGet` | src/utils/persistent_fifo.cxx:122-136 | The same, or nothing exactly if the queue is empty |
| `PersistentFifo.Queue.Length` | src/utils/persistent_fifo.cxx:163-166 | The length of the queue |
| `PersistentFifo.Queue.ReadLine` | src/utils/persistent_fifo.cxx:221-279 | Ends on a queue that is not empty, with the line up to the first newline of the stream |
| `PersistentFifo.Queue.Fill` | src/utils/persistent_fifo.cxx:244-272 | Reads something, after writing what must be written first; ends, however often it is interrupted |
| `PersistentFifo.Queue.ReadOn` | src/utils/persistent_fifo.cxx:230-274 | There is always room in the buffer for more of a line |
| `PersistentFifo.Queue.WriteUrl` | src/utils/persistent_fifo.cxx:282-298 | The line is in the buffer, which was written to the file if it was full |
| `PersistentFifo.Queue.FlushOut` | src/utils/persistent_fifo.cxx:301-305 | What was in the buffer is at the end of the last file |
| `PersistentFifo.Queue.UpdateWrite` | src/utils/persistent_fifo.cxx:201-216 | After every 100000 lines a new file is the last |
| `PersistentFifo.Queue.UpdateRead` | src/utils/persistent_fifo.cxx:186-199 | After 100000 lines the next file is the first; nothing is left in the buffer then |
| `PersistentFifo.Queue.LengthIs` | src/utils/persistent_fifo.cxx:186-216 | The difference of the file numbers is the number of full files of lines |
| `PersistentFifo.UsedUp` | src/utils/persistent_fifo.cxx:197-197 | When the lines of a file were all taken, its text was all read and used, and the next file is there |
| `PersistentFifo.ValidUrlsFit` | src/utils/persistent_fifo.cxx:285-285 | The assertion on the length of a line holds for valid urls |
| `UrlText.SerializedRoundTrip` | src/utils/url.cxx:245-290 | A url is read as it was written if and only if its host has no colon, its file starts with no digit and, with cookies, has no blank |
| `UrlText.FromLine` | src/utils/url.cxx:245-290 | The constructor reads the parts of a line, and says whether what it copies for the cookie fits the 128 bytes that there are for it |
| `UrlText.Reread` | src/utils/url.cxx:442-457 | Every line that is written can be read; the result is the url if and only if it is well formed |
| `UrlText.CookieFitsExactly` | src/utils/url.cxx:276-285 | The cookie that is read back fits if and only if what is behind the first blank is short enough: the cookie itself if neither host nor file has a blank, which then always fits, otherwise also what is behind the blank |
| `UrlText.CookieOverruns` | src/utils/url.cxx:283-284 | There are valid urls without a cookie whose line overruns it |
| `UrlText.ValueOfDecimal` | src/utils/url.cxx:251-252 | A number is read as it was printed |
| `PathNormalizer.PercentCase` | src/utils/url.cxx:146-166 | Two hexadecimal digits that stand for a visible character are replaced by it, those of a blank stay, everything else fails; both are read before the first is looked at, the second outside of the array exactly if the escape has no digit and the array ends there |
| `PathNormalizer.FileNormalize` | src/utils/url.cxx:82-172 | For any path that starts with a slash it ends, and the array holds what the stack of segments gives, or the function fails exactly if that does: a segment is tested as it is written, decoded when it is pushed, and divided at slashes it was decoded to. It reads outside of the array if and only if the path fills it, ends in a % and nothing happens at any character before |
| `PathSegments.HexDigits` | src/utils/url.cxx:52-62 | Exactly the 22 digits have a value, and it is the place among them |
| `PathSegments.EscapeIsRead` | src/utils/url.cxx:64-77 | Every byte is read from its two digits, in either case |
| `PathSegments.Tilde` | src/utils/url.cxx:146-166 | /%7Euser and /%7euser become /~user |
| `PathSegments.CleanTwice` | src/utils/url.cxx:82-172 | A normalised path is left as it is, if no escape stood for a slash, a dot, a # or a % |
| `PathText.FixedPoint` | src/utils/url.cxx:82-172 | A path is left as it is if and only if it has no #, no segment to be removed and no escape but those of blanks |
| `PathText.EscapedDotsTwice` | src/utils/url.cxx:82-172 | A result that is refused when it is normalised again: /%2e%2e/x becomes /../x |
| `PathSegments.EscapedSlash` | src/utils/url.cxx:105-126 | Going up from a segment with an escaped slash takes away only what is behind it |
| `PathText.NormalIsClean` | src/utils/url.cxx:82-172 | The text alone, character by character with steps back to the last slash, gives what the stack of segments gives, with and without escapes |
| `PathNormalizer.PercentAtTheEnd` | src/utils/url.cxx:146-151 | /% in an array of three characters: the second digit is looked for behind the array, and the path is refused |
| `PathSegments.CleanIsOrdinary` | src/utils/url.cxx:89-143 | No empty or dot segment is left, except an empty one at the end, if no escape stood for a slash, a dot, a # or a % |
| `PathSegments.FailsAboveRoot` | src/utils/url.cxx:105-166 | It fails if and only if some escape is bad or at some point more segments were left than entered |
| `PathNormalizer.SlashCase` | src/utils/url.cxx:87-145 | Each case at a slash does to the array what it does to the text, and nothing is changed exactly if nothing special is ahead |
| `TcpStream.FramesMore` | adns/event.c:352-388 | The frames of a stream depend on its bytes alone |
| `TcpStream.StreamIsFrames` | adns/event.c:353-361 | Every stream is its frames and what is left over |
| `TcpStream.FramesOfFramed` | adns/event.c:353-361 | Messages sent with their lengths are received as they are |
| `TcpStream.Connection.Compact` | adns/event.c:368-371 | What was not used is at the front |
| `TcpStream.Connection.Ensure` | adns/general.c:127-135 | The buffer is large enough, and its content the same |
| `TcpStream.Connection.ProcessReadable` | adns/event.c:349-389 | However the bytes are cut by reads, the messages handed on are exactly the complete frames of the stream so far, in order, while the connection stands and also when reading breaks it; if handling a message breaks it, they are the first of them, and the buffer is empty. Nothing is skipped on return, and there is room before every read |
| `TcpStream.Connection.HandOn` | adns/event.c:353-361 | One frame is handed on; if that breaks the connection, the buffer is emptied at once |
| `Arena.Life` | adns/query.c:477-512 | Whatever happened to an answer (aliases, replies, children that found addresses or failed, resets, failures), it can be made final: with memory, all copies lie one behind the other inside the one block, and each is of another block; without, nothing is left of it |
| `Arena.Query.MakeFinal` | adns/query.c:477-512 | The final answer says the same as the one it was made of, every string, table and list of addresses; its copies lie one behind the other inside the block of the counted size, and the count never falls below zero. Without memory, which can only happen if anything was counted, there are no names, records or blocks, and the status says so. None of the blocks of the query itself is left |
| `Arena.Query.FinalRr` | adns/types.c:139-175 | What the function for the type of the record takes, in its order, and the record says the same |
| `Arena.Query.FinalTable` | adns/types.c:163-175 | The table and each of its strings are copied, and the entries are set in place |
| `Arena.Query.FinalHost` | adns/types.c:556-563 | The name and the addresses are copied; without addresses nothing is |
| `Arena.Query.FinalStr` | adns/query.c:567-577 | As much as `strlen` counts and one more is copied, and it is the same string |
| `Arena.Query.AllocFinal` | adns/query.c:394-408 | The assertion on the count holds |
| `Arena.Query.ParseReply` | adns/reply.c:314-359 | The records say what the reply said, each points to new blocks of its own that were counted for it; a bad one fails the query. The hosts without addresses are the ones that wait |
| `Arena.Query.ParseRr` | adns/types.c:87-113 | A record points to new blocks, none twice, each counted for at least what will be taken of it |
| `Arena.Query.PaTxt` | adns/types.c:181-212 | The table of a TXT record and its strings, or a refusal exactly if the strings do not fill the record |
| `Arena.Query.PaHostaddr` | adns/types.c:414-452 | The name of a host, and its addresses if there were any in the reply |
| `Arena.Query.HostAnswered` | adns/types.c:454-472 | The addresses that a child found move over with what was counted for them; their number is that of the child's records, or -1 after a temporary failure; nothing else changes |
| `Arena.Query.ResetPreserved` | adns/query.c:419-425 | The records go, the names stay, and what they take was counted as preserved |
| `Arena.Query.GotCname` | adns/reply.c:189-225 | One alias is noted, a second one fails the query |
| `Arena.Query.SaveOwner` | adns/query.c:194-208 | The owner is noted |
| `Arena.Query.Sort` | adns/query.c:530-543 | Sorting the records changes nothing about what is taken |
| `Arena.Query.AllocInterim` | adns/query.c:350-358 | A block counts its rounded size |
| `Arena.Query.AllocPreserved` | adns/query.c:360-368 | It counts twice: in all, and in what survives a reset |
| `Answers.TakenIsCounted` | adns/query.c:394-408 | If every block is taken once at most, for no more than it was counted for, all copies take no more than was counted |
| `Answers.CopiesApart` | adns/query.c:394-408 | The copies do not overlap, and are all inside |
| `Answers.StringSizes` | adns/types.c:92-113 | The pair of sizes of a string; it keeps all of it if and only if there is no NUL inside |
| `AnswerBlocks.SoundFits` | adns/query.c:477-512 | All that an answer takes was counted |
| `AnswerBlocks.CountStrings` | adns/types.c:188-196 | Strings are counted if they fill the record exactly |
| `AnswerBlocks.StringsExactly` | adns/types.c:188-209 | The strings that are read are those that were sent, each behind its length, and nothing else can be read |
| `SrvOrder.SortRecords` | adns/query.c:530-543 | Sorted by priority, and nothing lost, whatever the random numbers |
| `SrvOrder.Isort` | adns/general.c:334-350 | A stable insertion sort |
| `SrvOrder.PostSort` | adns/types.c:1125-1184 | The order that the random numbers give, group by group |
| `SrvOrder.OrderedKeeps` | adns/types.c:1125-1184 | Records change places only with records of the same priority |
| `SrvOrder.DrawGroup` | adns/types.c:1155-1177 | Each place of a group is given to one of the records left |
| `SrvOrder.DrawOne` | adns/types.c:1159-1176 | The record whose weight takes the running total to the number changes places with the first one, and the total stays the weight of those left |
| `SrvOrder.Search` | adns/types.c:1167-1170 | The search stops inside the group |
| `SrvOrder.PickIs` | adns/types.c:1159-1170 | As many numbers choose a record as its weight says, and 0 the first |
| `SrvOrder.ChosenIs` | adns/types.c:1159-1170 | So of the numbers up to the total weight, as many choose a record as its weight says |
| `SrvOrder.WeightlessPick` | adns/types.c:1167-1169 | A record without weight is chosen only as the first, by 0 |

## Left out

* Real sockets, files, poll and clocks: what they can report is any outcome. Socket creation, memory and buffer growth succeed in `AdnsEngine`; a system clock that fails (`adns_globalsystemfailure`) is not modelled.
* Search lists and `adns__search_next` (adns/query.c:153-192), reverse look-ups with their own callback (adns/types.c:706-735), and the bytes that are sent over TCP (adns/transmit.c:199-240).
* Children of queries are modelled as small queries over UDP, as `icb_hostaddr` has them; a child is freed before the callback of its parent there, and after it in the source.
- AdnsEngine.Resolver.SpawnChildren: the first send of a child does not meet a socket error, because the parent is on no queue then and such a child would go on to TCP.
- AdnsEngine.Resolver.ProcDgram: takes the outcome of parsing the records as given; names and records themselves are in `DnsName`.
- AdnsEngine.Resolver.Run: events that the caller may not ask for, like cancelling a child, are left out of the run.
- Crawler.Larbin.FetchDns: the number of answers that are ready is given, and whether few enough urls are in memory is any outcome, because the statistic that says so is not modelled.
- Crawler.Larbin.CheckConnections: time-outs of connections and what is read from pages are any outcome.
- Crawler.Larbin.Round: the limits on bandwidth, time and pages, and the end of the search in `cron`, are left out.
- Crawler.Larbin.Run: that urls come to an end is not said; an alias can be answered with an alias for ever, and whether few enough urls are in memory is any outcome.
- Scheduler.FreeConnsFit: the threads of the THREAD_OUTPUT build are left out.
* The statistics of urls in rings drift from the real numbers (src/fetch/site.cxx:449-458); the accounts are about real contents.
- Punycode.Encode: starts from the code points; `utf8_to_unicode` decodes only sequences of one and three bytes and is left out.
- DnsName.MkQueryFrDgram: the buffer grows as needed; whether the size that is asked for in advance would do is said by `ReservedSuffices`.
- DnsName.ParseDomain: requires that reading comes to an end; otherwise the source does not.
- DomainText.QdplNormal: the other parsers of query labels (adns/types.c) are left out.
- PersistentFifo.Queue.Put: requires a line that is short enough, which the source asserts, and without newlines, which urls that were parsed do not have.
- PersistentFifo.Queue.ReadFile: a read that fails for another reason than an interruption ends the program in the source; here it does not happen. Reloading after a crash and the six digits of file names are left out.
- UrlText.FromLine: the depth wraps around at 32 bits. Without cookies the source leaves the field unset; it is `None` here.
- PathNormalizer.FileNormalize: what is read behind the array is any character; it makes no difference to the result.
- Arena.Query.MakeFinal: numbers in a record, and an address, are one number each.
- Arena.Query.ParseRr: takes the data of a record as given; that the names in it are read from a datagram is in `DnsName`.
- SrvOrder.PostSort: the random numbers are given; how evenly they are distributed is not part of the model.
- TcpStream.Connection.ProcessReadable: a read is interrupted only so many times in a row as is given.
* HTML, robots.txt and configuration parsing, the output modules, the web server, the hash tables and other tables: input and output, or easy.
