/**
 The order of SRV records: an insertion sort by priority (`adns__isort`, adns/general.c:334-350, with
 `di_srv`, adns/types.c:1092-1099), then a random order by weight among records of one priority
 (`postsort_srv`, adns/types.c:1125-1184; "The format of the SRV RR" in RFC 2782).
 */
module SrvOrder {
  /** `host` stands for the rest of the record. */
  datatype Srv = Srv(priority: nat, weight: nat, host: nat)

  /** `di_srv`: whether two records that follow each other are in the wrong order. */
  predicate NeedSwap(a: Srv, b: Srv) { a.priority > b.priority }

  predicate InOrder(s: seq<Srv>) {
    forall i, j :: 0 <= i < j < |s| ==> s[i].priority <= s[j].priority
  }

  /** The records of one priority, in their order. */
  function OfPriority(s: seq<Srv>, p: nat): seq<Srv> {
    if s == [] then []
    else OfPriority(s[..|s| - 1], p) + if s[|s| - 1].priority == p then [s[|s| - 1]] else []
  }

  lemma {:induction false} OfPriorityConcat(s: seq<Srv>, t: seq<Srv>, p: nat)
    ensures OfPriority(s + t, p) == OfPriority(s, p) + OfPriority(t, p)
  {
    if t == [] {
      assert s + t == s;
    } else {
      assert (s + t)[..|s + t| - 1] == s + t[..|t| - 1];
      OfPriorityConcat(s, t[..|t| - 1], p);
    }
  }

  lemma {:induction false} NoneOfPriority(s: seq<Srv>, p: nat)
    requires forall k :: 0 <= k < |s| ==> s[k].priority != p
    ensures OfPriority(s, p) == []
  {
    if s != [] {
      NoneOfPriority(s[..|s| - 1], p);
    }
  }

  // ----- the insertion sort -----

  /** A stable sort: sorted, and the records of each priority are in the order they were in. */
  ghost predicate StablySorted(was: seq<Srv>, s: seq<Srv>) {
    InOrder(s) && multiset(s) == multiset(was) && forall p: nat :: OfPriority(s, p) == OfPriority(was, p)
  }

  /** `x` is inserted into a sorted sequence, before those that must come after it. */
  lemma InsertedInOrder(s: seq<Srv>, x: Srv, place: nat)
    requires place <= |s| && InOrder(s)
    requires place > 0 ==> !NeedSwap(s[place - 1], x)
    requires forall k :: place <= k < |s| ==> NeedSwap(s[k], x)
    ensures InOrder(s[..place] + [x] + s[place..])
  {
  }

  lemma InsertedKeepsAll(s: seq<Srv>, x: Srv, place: nat)
    requires place <= |s|
    ensures multiset(s[..place] + [x] + s[place..]) == multiset(s + [x])
  {
    assert s == s[..place] + s[place..];
  }

  lemma InsertedKeeps(s: seq<Srv>, x: Srv, place: nat, p: nat)
    requires place <= |s| && forall k :: place <= k < |s| ==> NeedSwap(s[k], x)
    ensures OfPriority(s[..place] + [x] + s[place..], p) == OfPriority(s + [x], p)
  {
    hide OfPriority;
    var front, behind := s[..place], s[place..];
    assert s == front + behind;
    OfPriorityConcat(front + [x], behind, p);
    OfPriorityConcat(front, [x], p);
    OfPriorityConcat(s, [x], p);
    OfPriorityConcat(front, behind, p);
    if x.priority == p {
      NoneOfPriority(behind, p);
    } else {
      NoneOfPriority([x], p);
    }
  }

  lemma InsertedStably(was: seq<Srv>, s: seq<Srv>, x: Srv, place: nat)
    requires StablySorted(was, s) && place <= |s|
    requires place > 0 ==> !NeedSwap(s[place - 1], x)
    requires forall k :: place <= k < |s| ==> NeedSwap(s[k], x)
    ensures StablySorted(was + [x], s[..place] + [x] + s[place..])
  {
    hide OfPriority, InOrder;
    var t := s[..place] + [x] + s[place..];
    InsertedInOrder(s, x, place);
    InsertedKeepsAll(s, x, place);
    forall p: nat
      ensures OfPriority(t, p) == OfPriority(was + [x], p)
    {
      InsertedKeeps(s, x, place, p);
      OfPriorityConcat(s, [x], p);
      OfPriorityConcat(was, [x], p);
    }
  }

  /** `memmove` and the two copies around it: the record at `i` goes to `place`. */
  method MoveTo(a: array<Srv>, place: nat, i: nat)
    requires place <= i < a.Length
    modifies a
    ensures a[..i + 1] == old(a[..i][..place]) + [old(a[i])] + old(a[..i][place..])
    ensures a[i + 1..] == old(a[i + 1..])
  {
    var temp := a[i];
    ghost var was := a[..];
    for j := i downto place
      invariant forall k :: 0 <= k <= j ==> a[k] == was[k]
      invariant forall k :: j < k <= i ==> a[k] == was[k - 1]
      invariant forall k :: i < k < a.Length ==> a[k] == was[k]
    {
      a[j + 1] := a[j];
    }
    a[place] := temp;
    assert a[..i + 1] == was[..i][..place] + [temp] + was[..i][place..];
    assert a[i + 1..] == was[i + 1..];
  }

  /** `adns__isort`, for records. */
  method Isort(a: array<Srv>)
    modifies a
    ensures StablySorted(old(a[..]), a[..])
  {
    hide StablySorted;
    ghost var was := a[..];
    NothingToSort();
    assert a[..0] == was[..0] == [];
    for i := 0 to a.Length
      invariant StablySorted(was[..i], a[..i]) && a[i..] == was[i..]
    {
      var place := i;
      while place > 0 && NeedSwap(a[place - 1], a[i])
        invariant place <= i && forall k :: place <= k < i ==> NeedSwap(a[k], a[i])
      {
        place := place - 1;
      }
      ghost var s, x := a[..i], a[i];
      InsertedStably(was[..i], s, x, place);
      assert x == was[i] && was[..i + 1] == was[..i] + [x];
      assert a[i + 1..] == a[i..][1..] == was[i + 1..];
      if place != i {
        MoveTo(a, place, i);
      } else {
        assert a[..i + 1] == s[..i] + [x] + s[i..];
      }
    }
    assert was[..a.Length] == was && a[..a.Length] == a[..];
  }

  lemma NothingToSort()
    ensures StablySorted([], [])
  {
  }

  // ----- the choice by weight -----

  function Weight(s: seq<Srv>): nat {
    if s == [] then 0 else Weight(s[..|s| - 1]) + s[|s| - 1].weight
  }

  /** The first record where the running total of the weights reaches `r`. */
  function Pick(s: seq<Srv>, r: nat): (k: nat)
    requires s != [] && r <= Weight(s)
    ensures k < |s| && Weight(s[..k + 1]) >= r && (k > 0 ==> Weight(s[..k]) < r)
  {
    var last := |s| - 1;
    if last > 0 && r <= Weight(s[..last]) then
      var k := Pick(s[..last], r);
      assert s[..last][..k + 1] == s[..k + 1] && s[..last][..k] == s[..k];
      k
    else
      assert s[..last + 1] == s;
      last
  }

  lemma {:induction false} WeightGrows(s: seq<Srv>, j: nat, k: nat)
    requires j <= k <= |s|
    ensures Weight(s[..j]) <= Weight(s[..k])
    decreases k - j
  {
    if j < k {
      assert s[..k][..k - 1] == s[..k - 1];
      WeightGrows(s, j, k - 1);
    }
  }

  /** Which numbers choose which record: as many as its weight says, and 0 the first one. */
  lemma PickIs(s: seq<Srv>, r: nat, k: nat)
    requires s != [] && r <= Weight(s) && k < |s|
    ensures Pick(s, r) == k <==> (Weight(s[..k]) < r <= Weight(s[..k]) + s[k].weight || (r == 0 && k == 0))
  {
    assert s[..k + 1][..k] == s[..k];
    var j := Pick(s, r);
    if j < k {
      WeightGrows(s, j + 1, k);
    } else if j > k {
      WeightGrows(s, k + 1, j);
    }
    assert Weight(s[..0]) == 0;
  }

  /** A record without weight is chosen only if it is the first one, by the number 0; RFC 2782 wants such
      records in front, which nothing here does. */
  lemma WeightlessPick(s: seq<Srv>, r: nat, k: nat)
    requires s != [] && r <= Weight(s) && k < |s| && s[k].weight == 0
    ensures Pick(s, r) == k <==> k == 0 && r == 0
  {
    PickIs(s, r, k);
  }

  /** The record that the random number `draw` gives: any total up to all the weight is as likely. */
  function Chosen(s: seq<Srv>, draw: nat): (k: nat)
    requires s != []
    ensures k < |s|
  {
    Pick(s, draw % (Weight(s) + 1))
  }

  /** So of the numbers up to the total, as many choose a record as its weight says, and 0 the first one. */
  lemma ChosenIs(s: seq<Srv>, draw: nat, k: nat)
    requires k < |s|
    ensures var r := draw % (Weight(s) + 1);
            Chosen(s, draw) == k <==> (Weight(s[..k]) < r <= Weight(s[..k]) + s[k].weight || (r == 0 && k == 0))
  {
    hide Weight, Pick;
    PickIs(s, draw % (Weight(s) + 1), k);
  }

  /** The record at `k` goes to the front, the first one to its place. */
  function Swapped(s: seq<Srv>, k: nat): (t: seq<Srv>)
    requires k < |s|
    ensures |t| == |s|
  {
    s[0 := s[k]][k := s[0]]
  }

  /** The records of one priority in the order that the random numbers `draws` give. */
  function Drawn(s: seq<Srv>, draws: seq<nat>): (t: seq<Srv>)
    requires |draws| >= |s| - 1
    ensures |t| == |s|
    decreases |s|
  {
    if |s| <= 1 then s
    else
      var t := Swapped(s, Chosen(s, draws[0]));
      [t[0]] + Drawn(t[1..], draws[1..])
  }

  lemma SwappedKeeps(s: seq<Srv>, k: nat)
    requires k < |s|
    ensures multiset(Swapped(s, k)) == multiset(s)
    ensures multiset([s[k]]) + multiset(Swapped(s, k)[1..]) == multiset(s)
  {
    assert Swapped(s, k) == [s[k]] + Swapped(s, k)[1..];
  }

  lemma {:induction false} WeightUpdate(s: seq<Srv>, k: nat, x: Srv)
    requires k < |s|
    ensures Weight(s[k := x]) + s[k].weight == Weight(s) + x.weight
  {
    var last := |s| - 1;
    if k < last {
      assert s[k := x][..last] == s[..last][k := x];
      WeightUpdate(s[..last], k, x);
    } else {
      assert s[k := x][..last] == s[..last];
    }
  }

  lemma SwappedWeight(s: seq<Srv>, k: nat)
    requires k < |s|
    ensures Weight(Swapped(s, k)[1..]) + s[k].weight == Weight(s)
  {
    hide Weight;
    var u, t := s[0 := s[k]], Swapped(s, k);
    WeightUpdate(s, 0, s[k]);
    WeightUpdate(u, k, s[0]);
    assert u[k] == s[k];
    assert Weight(t) == Weight(s);
    WeightFirst(t);
    assert t[0] == s[k];
  }

  lemma WeightFirst(t: seq<Srv>)
    requires t != []
    ensures Weight(t[1..]) + t[0].weight == Weight(t)
  {
    hide Weight;
    assert t == [t[0]] + t[1..];
    WeightConcat([t[0]], t[1..]);
    WeightOne(t[0]);
  }

  lemma {:induction false} WeightConcat(s: seq<Srv>, t: seq<Srv>)
    ensures Weight(s + t) == Weight(s) + Weight(t)
  {
    if t == [] {
      assert s + t == s;
    } else {
      assert (s + t)[..|s + t| - 1] == s + t[..|t| - 1];
      WeightConcat(s, t[..|t| - 1]);
    }
  }

  lemma WeightOne(x: Srv)
    ensures Weight([x]) == x.weight
  {
    assert [x][..0] == [];
  }

  /** The draw changes nothing but the order. */
  lemma {:induction false} DrawnKeeps(s: seq<Srv>, draws: seq<nat>)
    requires |draws| >= |s| - 1
    ensures multiset(Drawn(s, draws)) == multiset(s)
    decreases |s|
  {
    hide Chosen;
    if |s| > 1 {
      var k := Chosen(s, draws[0]);
      var t := Swapped(s, k);
      DrawnKeeps(t[1..], draws[1..]);
      SwappedKeeps(s, k);
    }
  }

  // ----- all groups -----

  /** How many records have the priority of the first one, from there on. */
  function GroupLength(s: seq<Srv>): (n: nat)
    ensures n <= |s| && (s != [] ==> n > 0)
    ensures forall k :: 0 <= k < n ==> s[k].priority == s[0].priority
    ensures n < |s| ==> s[n].priority != s[0].priority
  {
    if s == [] then 0
    else if |s| == 1 || s[1].priority != s[0].priority then 1
    else 1 + GroupLength(s[1..])
  }

  /** The order of all records, group by group. */
  function Ordered(s: seq<Srv>, draws: seq<nat>): (t: seq<Srv>)
    requires |draws| >= |s|
    ensures |t| == |s|
    decreases |s|
  {
    if s == [] then []
    else
      var n := GroupLength(s);
      Drawn(s[..n], draws) + Ordered(s[n..], draws[n - 1..])
  }

  /** Records change places within their group only. */
  lemma {:induction false} OrderedKeeps(s: seq<Srv>, draws: seq<nat>)
    requires |draws| >= |s|
    ensures var t := Ordered(s, draws);
            && multiset(t) == multiset(s) && forall k :: 0 <= k < |s| ==> t[k].priority == s[k].priority
    decreases |s|
  {
    hide Drawn, GroupLength, Ordered;
    if s == [] {
      OrderedNothing(draws);
    } else {
      var n := GroupLength(s);
      var g, rest := s[..n], s[n..];
      var x: seq<Srv>, y: seq<Srv> := Drawn(g, draws), Ordered(rest, draws[n - 1..]);
      OrderedStep(s, draws);
      assert s == g + rest && multiset(x + y) == multiset(x) + multiset(y);
      DrawnKeeps(g, draws);
      DrawnSame(g, draws, s[0].priority);
      OrderedKeeps(rest, draws[n - 1..]);
      forall k | 0 <= k < |s|
        ensures (x + y)[k].priority == s[k].priority
      {
        assert s[k] == if k < n then g[k] else rest[k - n];
      }
    }
  }

  lemma DrawnSame(g: seq<Srv>, draws: seq<nat>, p: nat)
    requires |draws| >= |g| - 1 && forall k :: 0 <= k < |g| ==> g[k].priority == p
    ensures forall k :: 0 <= k < |g| ==> Drawn(g, draws)[k].priority == p
  {
    DrawnKeeps(g, draws);
    var t := Drawn(g, draws);
    forall k | 0 <= k < |g|
      ensures t[k].priority == p
    {
      assert t[k] in multiset(t);
      assert t[k] in g;
    }
  }

  // ----- in place -----

  lemma DrawnStep(g: seq<Srv>, draws: seq<nat>)
    requires |g| > 1 && |draws| >= |g| - 1
    ensures var t := Swapped(g, Chosen(g, draws[0]));
            Drawn(g, draws) == [t[0]] + Drawn(t[1..], draws[1..])
  {
    hide Chosen, Swapped;
  }

  /** The search for the record: it never leaves the group. */
  method Search(a: array<Srv>, workbegin: nat, workend: nat, randval: nat) returns (search: nat)
    requires workbegin < workend <= a.Length && randval <= Weight(a[workbegin..workend])
    ensures workbegin <= search < workend && search - workbegin == Pick(a[workbegin..workend], randval)
  {
    hide Pick, Weight;
    ghost var g := a[workbegin..workend];
    search := workbegin;
    var runtotal := a[search].weight;
    WeightOne(g[0]);
    assert g[..1] == [g[0]];
    while runtotal < randval
      invariant workbegin <= search < workend && runtotal == Weight(g[..search - workbegin + 1])
      invariant search > workbegin ==> Weight(g[..search - workbegin]) < randval
      decreases workend - search
    {
      var k := search - workbegin + 1;
      assert g[..|g|] == g;
      assert g[..k + 1] == g[..k] + [g[k]];
      WeightConcat(g[..k], [g[k]]);
      WeightOne(g[k]);
      search := search + 1;
      assert a[search] == g[k];
      runtotal := runtotal + a[search].weight;
    }
    var k := search - workbegin;
    FirstReaching(g, randval, k);
  }

  lemma FirstReaching(s: seq<Srv>, r: nat, k: nat)
    requires s != [] && r <= Weight(s) && k < |s|
    requires Weight(s[..k + 1]) >= r && (k > 0 ==> Weight(s[..k]) < r)
    ensures Pick(s, r) == k
  {
    var j := Pick(s, r);
    if j < k {
      WeightGrows(s, j + 1, k);
    } else if j > k {
      WeightGrows(s, k + 1, j);
    }
  }

  /** The records of one priority end where another begins. */
  method GroupEnd(a: array<Srv>, workbegin: nat) returns (workend: nat, totalweight: nat)
    requires workbegin < a.Length
    ensures workbegin < workend <= a.Length && workend - workbegin == GroupLength(a[workbegin..])
    ensures totalweight == Weight(a[workbegin..workend])
  {
    hide GroupLength, Weight;
    ghost var s := a[workbegin..];
    var cpriority := a[workbegin].priority;
    workend, totalweight := workbegin, 0;
    WeightNothing();
    assert a[workbegin..workbegin] == [];
    while workend < a.Length && a[workend].priority == cpriority
      invariant workbegin <= workend <= a.Length && (workend == workbegin ==> a[workend].priority == cpriority)
      invariant forall k :: workbegin <= k < workend ==> a[k].priority == cpriority
      invariant totalweight == Weight(a[workbegin..workend])
      decreases a.Length - workend
    {
      assert a[workbegin..workend + 1] == a[workbegin..workend] + [a[workend]];
      WeightConcat(a[workbegin..workend], [a[workend]]);
      WeightOne(a[workend]);
      totalweight := totalweight + a[workend].weight;
      workend := workend + 1;
    }
    assert forall k :: 0 <= k < |s| ==> s[k] == a[workbegin + k];
    GroupIs(s, workend - workbegin);
  }

  lemma WeightNothing()
    ensures Weight([]) == 0
  {
  }

  lemma GroupIs(s: seq<Srv>, n: nat)
    requires 0 < n <= |s| && forall k :: 0 <= k < n ==> s[k].priority == s[0].priority
    requires n < |s| ==> s[n].priority != s[0].priority
    ensures GroupLength(s) == n
  {
    var m := GroupLength(s);
  }

  /** One record is chosen among those of `a[workbegin..workend]`, and put first. */
  method DrawOne(a: array<Srv>, workbegin: nat, workend: nat, totalweight0: nat, draw: nat) returns (totalweight: nat)
    requires workbegin < workend <= a.Length && totalweight0 == Weight(a[workbegin..workend])
    modifies a
    ensures a[..workbegin] == old(a[..workbegin]) && a[workend..] == old(a[workend..])
    ensures var g := old(a[workbegin..workend]);
            a[workbegin..workend] == Swapped(g, Chosen(g, draw))
    // The record whose weight takes the running total to the number comes first, and the first one to its place.
    ensures exists k: nat ::
              && workbegin <= k < workend
              && var r, below := draw % (totalweight0 + 1), Weight(old(a[workbegin..k]));
                 && (below < r <= below + old(a[k]).weight || (r == 0 && k == workbegin))
                 && a[workbegin] == old(a[k]) && a[k] == old(a[workbegin])
                 && forall j :: workbegin < j < workend && j != k ==> a[j] == old(a[j])
    ensures totalweight == Weight(a[workbegin + 1..workend])
  {
    hide Weight, Pick;
    ghost var g := a[workbegin..workend];
    var randval := draw % (totalweight0 + 1);
    var search := Search(a, workbegin, workend, randval);
    ghost var k := search - workbegin;
    assert a[search] == g[k];
    ChosenIs(g, draw, k);
    assert g[..k] == old(a[workbegin..search]);
    SwappedWeight(g, k);
    totalweight := totalweight0 - a[search].weight;
    if search != workbegin {
      var rrtmp := a[workbegin];
      a[workbegin] := a[search];
      a[search] := rrtmp;
    }
    assert a[workbegin..workend] == Swapped(g, k);
    assert a[workbegin + 1..workend] == Swapped(g, k)[1..];
  }

  /** The records of one priority: each place is given to one of those that are left, up to the last. */
  method DrawGroup(a: array<Srv>, begin: nat, workend: nat, total: nat, draws: seq<nat>, used0: nat) returns (used: nat)
    requires begin < workend <= a.Length && total == Weight(a[begin..workend])
    requires used0 + (workend - begin) <= |draws|
    modifies a
    ensures used == used0 + (workend - begin) - 1
    ensures a[..begin] == old(a[..begin]) && a[workend..] == old(a[workend..])
    ensures a[begin..workend] == Drawn(old(a[begin..workend]), draws[used0..])
  {
    hide Weight, Chosen, Swapped, Drawn;
    ghost var goal := Drawn(a[begin..workend], draws[used0..]);
    var workbegin, totalweight: nat := begin, total;
    used := used0;
    assert a[begin..begin] == [];
    while workbegin + 1 < workend
      invariant begin <= workbegin < workend && used == used0 + (workbegin - begin)
      invariant a[..begin] == old(a[..begin]) && a[workend..] == old(a[workend..])
      invariant totalweight == Weight(a[workbegin..workend])
      invariant goal == a[begin..workbegin] + Drawn(a[workbegin..workend], draws[used..])
      decreases workend - workbegin
    {
      ghost var g, front := a[workbegin..workend], a[begin..workbegin];
      DrawnStep(g, draws[used..]);
      ghost var t := Swapped(g, Chosen(g, draws[used]));
      FrontStays(a[..workbegin], begin, front);
      totalweight := DrawOne(a, workbegin, workend, totalweight, draws[used]);
      assert a[workbegin..workend] == t;
      FrontStays(a[..workbegin], begin, a[begin..workbegin]);
      assert draws[used..][1..] == draws[used + 1..] && draws[used..][0] == draws[used];
      assert a[begin..workbegin + 1] == front + [t[0]];
      assert a[workbegin + 1..workend] == t[1..];
      assert front + ([t[0]] + Drawn(t[1..], draws[used + 1..])) == front + [t[0]] + Drawn(t[1..], draws[used + 1..]);
      workbegin, used := workbegin + 1, used + 1;
    }
    DrawnOne(a[workbegin..workend], draws[used..]);
    assert a[begin..workend] == a[begin..workbegin] + a[workbegin..workend];
  }

  lemma FrontStays(s: seq<Srv>, begin: nat, front: seq<Srv>)
    requires begin <= |s| && |front| == |s| - begin
    ensures s[begin..] == front <==> forall k :: 0 <= k < |front| ==> s[begin + k] == front[k]
  {
  }

  lemma DrawnOne(g: seq<Srv>, draws: seq<nat>)
    requires |g| == 1
    ensures Drawn(g, draws) == g
  {
  }

  /** `postsort_srv`. The numbers that `nrand48` gives are `draws`. */
  method PostSort(a: array<Srv>, draws: seq<nat>)
    requires |draws| >= a.Length
    modifies a
    ensures a[..] == Ordered(old(a[..]), draws)
  {
    hide Ordered, Drawn, Weight, GroupLength;
    ghost var result := Ordered(a[..], draws);
    var workbegin: nat, used: nat := 0, 0;
    assert a[..0] == [] && a[0..] == a[..] && draws[0..] == draws;
    while workbegin < a.Length
      invariant workbegin <= a.Length && used <= workbegin
      invariant result == a[..workbegin] + Ordered(a[workbegin..], draws[used..])
      decreases a.Length - workbegin
    {
      ghost var front, s := a[..workbegin], a[workbegin..];
      var workend: nat, totalweight: nat := GroupEnd(a, workbegin);
      ghost var n := workend - workbegin;
      OrderedStep(s, draws[used..]);
      assert a[workbegin..workend] == s[..n] && a[workend..] == s[n..];
      ghost var used0 := used;
      used := DrawGroup(a, workbegin, workend, totalweight, draws, used);
      assert draws[used0..][n - 1..] == draws[used..];
      assert a[..workend] == front + a[workbegin..workend];
      Regroup(front, a[workbegin..workend], Ordered(s[n..], draws[used..]));
      workbegin := workend;
    }
    assert a[..a.Length] == a[..] && a[a.Length..] == [];
    OrderedNothing(draws[used..]);
  }

  lemma Regroup(a: seq<Srv>, b: seq<Srv>, c: seq<Srv>)
    ensures a + (b + c) == a + b + c
  {
  }

  lemma OrderedStep(s: seq<Srv>, draws: seq<nat>)
    requires s != [] && |draws| >= |s|
    ensures var n := GroupLength(s);
            Ordered(s, draws) == Drawn(s[..n], draws) + Ordered(s[n..], draws[n - 1..])
  {
  }

  lemma OrderedNothing(draws: seq<nat>)
    ensures Ordered([], draws) == []
  {
  }

  /** Both together: the records are sorted by priority, and none is lost. */
  method SortRecords(a: array<Srv>, draws: seq<nat>)
    requires |draws| >= a.Length
    modifies a
    ensures InOrder(a[..]) && multiset(a[..]) == multiset(old(a[..]))
    ensures exists s :: StablySorted(old(a[..]), s) && |draws| >= |s| && a[..] == Ordered(s, draws)
  {
    hide Ordered;
    Isort(a);
    ghost var s := a[..];
    PostSort(a, draws);
    OrderedKeeps(s, draws);
  }
}
