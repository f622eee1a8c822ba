/**
 What an answer of the resolver points to, and what of it is taken along when the answer is made one block
 (adns/query.c:477-512, and the functions `mf_*` of adns/types.c). A pointer is a number, and a `Memory`
 says what is there: the blocks that were allocated for the query, or the one block in the end.
 */
module Answers {
  import opened Wrappers

  /** The size of `union maxalign`. */
  const ALIGN := 8

  /** `MEM_ROUND` */
  function MemRound(sz: nat): (r: nat)
    ensures sz <= r < sz + ALIGN && r % ALIGN == 0
  {
    (sz + ALIGN - 1) / ALIGN * ALIGN
  }

  /** The sizes of a string with its length in front and of an address, on a machine of 64 bits. */
  const INTSTR_SIZE := 16
  const ADDR_SIZE := 20

  type Ptr = Option<nat>

  /** `adns_rr_intstr`, in the table of a TXT record. */
  datatype Entry = Entry(i: int, str: Ptr)

  /** What a block holds; the records of an answer are kept with the answer. */
  datatype Content =
    | Text(bytes: seq<byte>)
    | Table(entries: seq<Entry>)
    | Addresses(addrs: seq<nat>)
    | Array(bytesize: nat)
  {
    function Size(): nat {
      match this
      case Text(bytes) => |bytes|
      case Table(entries) => INTSTR_SIZE * |entries|
      case Addresses(addrs) => |addrs| * ADDR_SIZE
      case Array(bytesize) => bytesize
    }
  }

  type Memory = map<nat, Content>

  /** A resource record, by what it points to; `n` stands for its numbers. */
  datatype Rr =
    | Flat(n: nat)                                      // mf_flat
    | Str(n: nat, str: Ptr)                             // mf_str, mf_intstr, mf_srvraw
    | Pair(n: nat, one: Ptr, two: Ptr)                  // mf_strpair, mf_intstrpair, mf_soa
    | Many(table: Ptr)                                  // mf_manyistr
    | Host(n: nat, host: Ptr, naddrs: int, addrs: Ptr)  // mfp_hostaddr
    | Bytes(len: nat, data: Ptr)                        // mf_byteblock

  datatype Answer = Answer(cname: Ptr, owner: Ptr, base: Ptr, rrs: seq<Rr>)

  // ----- strings -----

  /** `strlen`, of a string that ends with a NUL at the latest. */
  function CLength(s: seq<byte>): (n: nat)
    requires 0 in s
    ensures n < |s| && s[n] == 0 && 0 !in s[..n]
  {
    if s[0] == 0 then 0
    else
      assert s[1..] == s[1..] && 0 in s[1..];
      var n := CLength(s[1..]);
      assert s[..1 + n] == [s[0]] + s[1..][..n];
      1 + n
  }

  function CString(s: seq<byte>): seq<byte>
    requires 0 in s
  {
    s[..CLength(s)]
  }

  /** The first NUL is where the string ends. */
  lemma EndsThere(s: seq<byte>, n: nat)
    requires n < |s| && s[n] == 0 && 0 !in s[..n]
    ensures 0 in s && CLength(s) == n
  {
    var m := CLength(s);
    assert forall j :: 0 <= j < n ==> s[j] == s[..n][j];
    assert forall j :: 0 <= j < m ==> s[j] == s[..m][j];
  }

  /** The pair of sizes of a string: it is allocated with its length and one more byte, and takes what
      `strlen` counts and one more with it; that is all of it exactly if it has no NUL inside. */
  lemma StringSizes(x: seq<byte>)
    ensures 0 in x + [0] && CLength(x + [0]) + 1 <= |x| + 1
    ensures CLength(x + [0]) == |x| <==> 0 !in x
  {
    var s := x + [0];
    assert s[|x|] == 0;
    var n := CLength(s);
    if n == |x| {
      assert s[..n] == x;
    } else {
      assert s[n] == x[n] == 0;
    }
  }

  /** What is copied of a string is the same string. */
  lemma SameString(s: seq<byte>)
    requires 0 in s
    ensures var t := s[..CLength(s) + 1];
            0 in t && CLength(t) == CLength(s) && CString(t) == CString(s)
  {
    var n := CLength(s);
    var t := s[..n + 1];
    assert t[n] == 0 && t[..n] == s[..n];
    EndsThere(t, n);
  }

  // ----- what a record points to -----

  predicate IsText(m: Memory, p: Ptr) {
    p.Some? ==> p.value in m && m[p.value].Text? && 0 in m[p.value].bytes
  }

  /** A table ends with an entry of its own. */
  predicate IsTable(m: Memory, entries: seq<Entry>) {
    && entries != [] && entries[|entries| - 1] == Entry(-1, None)
    && EntriesOk(m, entries[..|entries| - 1])
  }

  predicate EntriesOk(m: Memory, entries: seq<Entry>) {
    forall j :: 0 <= j < |entries| ==> entries[j].i >= 0 && IsText(m, entries[j].str)
  }

  predicate RrOk(m: Memory, rr: Rr) {
    match rr
    case Flat(_) => true
    case Str(_, p) => IsText(m, p)
    case Pair(_, p, q) => IsText(m, p) && IsText(m, q)
    case Many(p) => p.Some? && p.value in m && m[p.value].Table? && IsTable(m, m[p.value].entries)
    case Host(_, h, n, a) =>
      IsText(m, h) && (a.Some? ==> a.value in m && m[a.value].Addresses? && n > 0 && n == |m[a.value].addrs|)
    case Bytes(len, p) => p.Some? && (len > 0 ==> p.value in m && m[p.value].Text? && |m[p.value].bytes| == len)
  }

  predicate RrsOk(m: Memory, rrs: seq<Rr>) {
    forall j :: 0 <= j < |rrs| ==> RrOk(m, rrs[j])
  }

  predicate AnswerOk(m: Memory, ans: Answer) {
    IsText(m, ans.cname) && IsText(m, ans.owner) && RrsOk(m, ans.rrs) && (ans.rrs != [] ==> ans.base.Some?)
  }

  // ----- what it means -----

  datatype Value =
    | FlatValue(n: nat)
    | StrValue(n: nat, str: Option<seq<byte>>)
    | PairValue(n: nat, one: Option<seq<byte>>, two: Option<seq<byte>>)
    | ManyValue(items: seq<(int, Option<seq<byte>>)>)
    | HostValue(n: nat, host: Option<seq<byte>>, naddrs: int, addrs: Option<seq<nat>>)
    | BytesValue(bytes: seq<byte>)

  function StringAt(m: Memory, p: Ptr): Option<seq<byte>>
    requires IsText(m, p)
  {
    if p.Some? then Some(CString(m[p.value].bytes)) else None
  }

  function Items(m: Memory, entries: seq<Entry>): seq<(int, Option<seq<byte>>)>
    requires EntriesOk(m, entries)
  {
    seq(|entries|, j requires 0 <= j < |entries| => (entries[j].i, StringAt(m, entries[j].str)))
  }

  function ValueOf(m: Memory, rr: Rr): Value
    requires RrOk(m, rr)
  {
    match rr
    case Flat(n) => FlatValue(n)
    case Str(n, p) => StrValue(n, StringAt(m, p))
    case Pair(n, p, q) => PairValue(n, StringAt(m, p), StringAt(m, q))
    case Many(p) =>
      var entries := m[p.value].entries;
      ManyValue(Items(m, entries[..|entries| - 1]))
    case Host(n, h, k, a) => HostValue(n, StringAt(m, h), k, if a.Some? then Some(m[a.value].addrs) else None)
    case Bytes(len, p) => BytesValue(if len > 0 then m[p.value].bytes else [])
  }

  /** Two answers, each in its own memory, say the same. */
  predicate SameAnswer(m: Memory, ans: Answer, m': Memory, ans': Answer)
    requires AnswerOk(m, ans) && AnswerOk(m', ans')
  {
    && StringAt(m, ans.cname) == StringAt(m', ans'.cname) && StringAt(m, ans.owner) == StringAt(m', ans'.owner)
    && |ans.rrs| == |ans'.rrs|
    && forall j :: 0 <= j < |ans.rrs| ==> ValueOf(m, ans.rrs[j]) == ValueOf(m', ans'.rrs[j])
  }

  // ----- what it takes along -----

  /** A block is copied, as many bytes of it. */
  datatype Take = Take(block: nat, size: nat)

  function StrTakes(m: Memory, p: Ptr): seq<Take>
    requires IsText(m, p)
  {
    if p.Some? then [Take(p.value, CLength(m[p.value].bytes) + 1)] else []
  }

  function EntryTakes(m: Memory, entries: seq<Entry>): seq<Take>
    requires EntriesOk(m, entries)
  {
    if entries == [] then []
    else EntryTakes(m, entries[..|entries| - 1]) + StrTakes(m, entries[|entries| - 1].str)
  }

  function RrTakes(m: Memory, rr: Rr): seq<Take>
    requires RrOk(m, rr)
  {
    match rr
    case Flat(_) => []
    case Str(_, p) => StrTakes(m, p)
    case Pair(_, p, q) => StrTakes(m, p) + StrTakes(m, q)
    case Many(p) =>
      var entries := m[p.value].entries;
      [Take(p.value, INTSTR_SIZE * |entries|)] + EntryTakes(m, entries[..|entries| - 1])
    case Host(_, h, n, a) => StrTakes(m, h) + if a.Some? then [Take(a.value, n * ADDR_SIZE)] else []
    case Bytes(len, p) => if len > 0 then [Take(p.value, len)] else []
  }

  function RrsTakes(m: Memory, rrs: seq<Rr>): seq<Take>
    requires RrsOk(m, rrs)
  {
    if rrs == [] then [] else RrsTakes(m, rrs[..|rrs| - 1]) + RrTakes(m, rrs[|rrs| - 1])
  }

  /** All of it, in the order in which it is copied. */
  function AnswerTakes(m: Memory, ans: Answer, rrsz: nat): seq<Take>
    requires AnswerOk(m, ans)
  {
    StrTakes(m, ans.cname) + StrTakes(m, ans.owner)
    + if ans.rrs == [] then [] else [Take(ans.base.value, |ans.rrs| * rrsz)] + RrsTakes(m, ans.rrs)
  }

  /** What the copies take of the final block. */
  function Sum(takes: seq<Take>): nat {
    if takes == [] then 0 else Sum(takes[..|takes| - 1]) + MemRound(takes[|takes| - 1].size)
  }

  lemma {:induction false} SumOfBoth(a: seq<Take>, b: seq<Take>)
    ensures Sum(a + b) == Sum(a) + Sum(b)
  {
    if b == [] {
      assert a + b == a;
    } else {
      assert (a + b)[..|a + b| - 1] == a + b[..|b| - 1];
      SumOfBoth(a, b[..|b| - 1]);
    }
  }

  lemma SumOfOne(t: Take)
    ensures Sum([t]) == MemRound(t.size) && Sum([]) == 0
  {
    assert [t][..0] == [];
  }

  /** All of them are of blocks from `lo` on, and below `hi`. */
  ghost predicate Within(takes: seq<Take>, lo: nat, hi: nat) {
    forall t :: t in takes ==> lo <= t.block < hi
  }

  /** Which blocks are taken, and how often. */
  function Bag(takes: seq<Take>): multiset<nat> {
    if takes == [] then multiset{} else Bag(takes[..|takes| - 1]) + multiset{takes[|takes| - 1].block}
  }

  lemma {:induction false} BagOfBoth(a: seq<Take>, b: seq<Take>)
    ensures Bag(a + b) == Bag(a) + Bag(b)
  {
    if b == [] {
      assert a + b == a;
    } else {
      assert (a + b)[..|a + b| - 1] == a + b[..|b| - 1];
      BagOfBoth(a, b[..|b| - 1]);
    }
  }

  lemma BagOfOne(t: Take)
    ensures Bag([t]) == multiset{t.block} && Bag([]) == multiset{}
  {
    assert [t][..0] == [];
  }

  lemma {:induction false} InBag(takes: seq<Take>, t: Take)
    requires t in takes
    ensures Bag(takes)[t.block] > 0
  {
    if takes[|takes| - 1] != t {
      InBag(takes[..|takes| - 1], t);
    }
  }

  /** No block is taken twice. */
  ghost predicate Once(bag: multiset<nat>) {
    forall k :: bag[k] <= 1
  }

  lemma {:induction false} NotInBag(takes: seq<Take>, k: nat)
    requires forall t :: t in takes ==> t.block != k
    ensures Bag(takes)[k] == 0
  {
    if takes != [] {
      assert takes[|takes| - 1] in takes;
      NotInBag(takes[..|takes| - 1], k);
    }
  }

  /** Blocks from different parts are different. */
  lemma OnceBoth(a: seq<Take>, b: seq<Take>, lo: nat, mid: nat, hi: nat)
    requires Once(Bag(a)) && Once(Bag(b)) && Within(a, lo, mid) && Within(b, mid, hi) && lo <= mid <= hi
    ensures Once(Bag(a + b)) && Within(a + b, lo, hi)
  {
    BagOfBoth(a, b);
    forall k: nat
      ensures Bag(a + b)[k] <= 1
    {
      if k < mid {
        NotInBag(b, k);
      } else {
        NotInBag(a, k);
      }
    }
  }

  lemma OnceOne(t: Take)
    ensures Once(Bag([t])) && Once(Bag([]))
  {
    BagOfOne(t);
  }

  lemma {:induction false} InRrs(m: Memory, rrs: seq<Rr>, t: Take) returns (j: nat)
    requires RrsOk(m, rrs) && t in RrsTakes(m, rrs)
    ensures j < |rrs| && t in RrTakes(m, rrs[j])
  {
    hide RrOk, RrTakes;
    if t in RrTakes(m, rrs[|rrs| - 1]) {
      j := |rrs| - 1;
    } else {
      j := InRrs(m, rrs[..|rrs| - 1], t);
    }
  }

  // ----- what is taken was counted -----

  /** What the blocks outside `taken` were counted for. */
  function Left(counts: seq<nat>, taken: set<nat>): nat {
    if counts == [] then 0
    else Left(counts[..|counts| - 1], taken) + if |counts| - 1 in taken then 0 else counts[|counts| - 1]
  }

  lemma {:induction false} LeftTake(counts: seq<nat>, taken: set<nat>, k: nat)
    ensures k < |counts| && k !in taken ==> Left(counts, taken) == Left(counts, taken + {k}) + counts[k]
    ensures k >= |counts| ==> Left(counts, taken + {k}) == Left(counts, taken)
  {
    if counts != [] {
      LeftTake(counts[..|counts| - 1], taken, k);
    }
  }

  /** If every block is taken once at most, and for no more than it was counted for, then all copies take
      no more than all blocks were counted for. */
  lemma {:induction false} TakenIsCounted(counts: seq<nat>, takes: seq<Take>, taken: set<nat>)
    requires Once(Bag(takes))
    requires forall t :: t in takes ==> t.block !in taken && t.block < |counts| && MemRound(t.size) <= counts[t.block]
    ensures Sum(takes) <= Left(counts, taken)
  {
    hide MemRound;
    if takes != [] {
      var front, t := takes[..|takes| - 1], takes[|takes| - 1];
      assert t in takes;
      forall u | u in front
        ensures u.block != t.block && u in takes
      {
        InBag(front, u);
        assert Bag(takes)[u.block] <= 1;
      }
      assert forall k :: Bag(front)[k] <= Bag(takes)[k];
      TakenIsCounted(counts, front, taken + {t.block});
      LeftTake(counts, taken, t.block);
    }
  }

  // ----- a memory that grows -----

  ghost predicate Grows(m: Memory, m': Memory) {
    forall k :: k in m ==> k in m' && m'[k] == m[k]
  }

  /** The strings stay, at least. */
  ghost predicate KeepsTexts(m: Memory, m': Memory) {
    forall k :: k in m && m[k].Text? ==> k in m' && m'[k] == m[k]
  }

  lemma {:induction false} EntriesStay(m: Memory, m': Memory, entries: seq<Entry>)
    requires KeepsTexts(m, m') && EntriesOk(m, entries)
    ensures EntriesOk(m', entries) && EntryTakes(m', entries) == EntryTakes(m, entries)
    ensures Items(m', entries) == Items(m, entries)
  {
    if entries != [] {
      EntriesStay(m, m', entries[..|entries| - 1]);
    }
  }

  lemma TextStays(m: Memory, m': Memory, p: Ptr)
    requires KeepsTexts(m, m') && IsText(m, p)
    ensures IsText(m', p) && StrTakes(m', p) == StrTakes(m, p) && StringAt(m', p) == StringAt(m, p)
  {
    hide CLength;
  }

  lemma RrStays(m: Memory, m': Memory, rr: Rr)
    requires Grows(m, m') && RrOk(m, rr)
    ensures RrOk(m', rr) && RrTakes(m', rr) == RrTakes(m, rr) && ValueOf(m', rr) == ValueOf(m, rr)
  {
    hide Items, EntryTakes, StrTakes, StringAt, IsText;
    match rr
    case Flat(_) =>
    case Str(_, p) => TextStays(m, m', p);
    case Pair(_, p, q) =>
      TextStays(m, m', p);
      TextStays(m, m', q);
    case Many(p) => EntriesStay(m, m', m[p.value].entries[..|m[p.value].entries| - 1]);
    case Host(_, h, _, _) => TextStays(m, m', h);
    case Bytes(_, _) =>
  }

  lemma {:induction false} RrsStay(m: Memory, m': Memory, rrs: seq<Rr>)
    requires Grows(m, m') && RrsOk(m, rrs)
    ensures RrsOk(m', rrs) && RrsTakes(m', rrs) == RrsTakes(m, rrs)
    ensures forall j :: 0 <= j < |rrs| ==> ValueOf(m', rrs[j]) == ValueOf(m, rrs[j])
  {
    hide RrOk, RrTakes, ValueOf;
    if rrs != [] {
      RrsStay(m, m', rrs[..|rrs| - 1]);
      RrStays(m, m', rrs[|rrs| - 1]);
    }
  }

  lemma AnswerStays(m: Memory, m': Memory, ans: Answer, rrsz: nat)
    requires Grows(m, m') && AnswerOk(m, ans)
    ensures AnswerOk(m', ans) && AnswerTakes(m', ans, rrsz) == AnswerTakes(m, ans, rrsz)
    ensures SameAnswer(m, ans, m', ans)
  {
    hide RrOk, RrTakes, ValueOf, RrsTakes, CLength;
    RrsStay(m, m', ans.rrs);
  }

  lemma RrsOne(m: Memory, rrs: seq<Rr>, rr: Rr)
    requires RrsOk(m, rrs) && RrOk(m, rr)
    ensures RrsOk(m, rrs + [rr]) && RrsTakes(m, rrs + [rr]) == RrsTakes(m, rrs) + RrTakes(m, rr)
  {
    assert (rrs + [rr])[..|rrs|] == rrs;
  }

  lemma EntriesOne(m: Memory, entries: seq<Entry>, e: Entry)
    requires EntriesOk(m, entries) && e.i >= 0 && IsText(m, e.str)
    ensures EntriesOk(m, entries + [e]) && EntryTakes(m, entries + [e]) == EntryTakes(m, entries) + StrTakes(m, e.str)
  {
    assert (entries + [e])[..|entries|] == entries;
  }

  // ----- records in another order -----

  lemma {:induction false} RrsBagConcat(m: Memory, a: seq<Rr>, b: seq<Rr>)
    requires RrsOk(m, a) && RrsOk(m, b)
    ensures RrsOk(m, a + b) && Bag(RrsTakes(m, a + b)) == Bag(RrsTakes(m, a)) + Bag(RrsTakes(m, b))
  {
    hide RrOk, RrTakes, Bag;
    if b == [] {
      assert a + b == a;
      BagOfOne(Take(0, 0));
    } else {
      var front, x := b[..|b| - 1], b[|b| - 1];
      RrsBagConcat(m, a, front);
      assert a + b == a + front + [x] && b == front + [x];
      RrsOne(m, a + front, x);
      RrsOne(m, front, x);
      BagOfBoth(RrsTakes(m, a + front), RrTakes(m, x));
      BagOfBoth(RrsTakes(m, front), RrTakes(m, x));
    }
  }

  lemma RrsBagOne(m: Memory, rr: Rr)
    requires RrOk(m, rr)
    ensures RrsOk(m, [rr]) && RrsTakes(m, [rr]) == RrTakes(m, rr)
  {
    assert [rr][..0] == [];
    assert [] + RrTakes(m, rr) == RrTakes(m, rr);
  }

  lemma RrsBagSplit(m: Memory, rrs: seq<Rr>, i: nat)
    requires RrsOk(m, rrs) && i < |rrs|
    ensures RrsOk(m, rrs[..i]) && RrsOk(m, rrs[i + 1..])
    ensures Bag(RrsTakes(m, rrs)) ==
      Bag(RrsTakes(m, rrs[..i])) + Bag(RrTakes(m, rrs[i])) + Bag(RrsTakes(m, rrs[i + 1..]))
  {
    hide RrOk, RrTakes, Bag, RrsTakes;
    RrsBagOne(m, rrs[i]);
    RrsBagConcat(m, rrs[..i], [rrs[i]]);
    RrsBagConcat(m, rrs[..i] + [rrs[i]], rrs[i + 1..]);
    assert rrs[..i] + [rrs[i]] + rrs[i + 1..] == rrs;
  }

  lemma TakenOut(rrs: seq<Rr>, i: nat)
    requires i < |rrs|
    ensures multiset(rrs[..i] + rrs[i + 1..]) + multiset{rrs[i]} == multiset(rrs)
  {
    assert rrs == rrs[..i] + [rrs[i]] + rrs[i + 1..];
  }

  lemma LastIsThere(rrs: seq<Rr>, sorted: seq<Rr>) returns (i: nat)
    requires multiset(sorted) == multiset(rrs) && sorted != []
    ensures i < |rrs| && rrs[i] == sorted[|sorted| - 1]
    ensures multiset(sorted[..|sorted| - 1]) == multiset(rrs[..i] + rrs[i + 1..])
  {
    var front, x := sorted[..|sorted| - 1], sorted[|sorted| - 1];
    assert sorted == front + [x];
    assert multiset(sorted) == multiset(front) + multiset{x};
    assert x in multiset(rrs);
    i :| 0 <= i < |rrs| && rrs[i] == x;
    TakenOut(rrs, i);
    assert multiset(front) == multiset(sorted) - multiset{x};
  }

  lemma SortedOk(m: Memory, rrs: seq<Rr>, sorted: seq<Rr>)
    requires RrsOk(m, rrs) && multiset(sorted) == multiset(rrs)
    ensures RrsOk(m, sorted) && |sorted| == |rrs|
  {
    hide RrOk;
    assert |multiset(sorted)| == |multiset(rrs)|;
    forall j | 0 <= j < |sorted|
      ensures RrOk(m, sorted[j])
    {
      assert sorted[j] in multiset(rrs);
    }
  }

  /** Sorting the records changes nothing about which blocks are taken. */
  lemma {:induction false} SortedBag(m: Memory, rrs: seq<Rr>, sorted: seq<Rr>)
    requires RrsOk(m, rrs) && multiset(sorted) == multiset(rrs)
    ensures RrsOk(m, sorted) && Bag(RrsTakes(m, sorted)) == Bag(RrsTakes(m, rrs))
    decreases |sorted|
  {
    hide RrOk, RrTakes, Bag, RrsOk;
    SortedOk(m, rrs, sorted);
    if sorted != [] {
      var front, x := sorted[..|sorted| - 1], sorted[|sorted| - 1];
      var i := LastIsThere(rrs, sorted);
      RrsBagSplit(m, rrs, i);
      RrsBagConcat(m, rrs[..i], rrs[i + 1..]);
      SortedBag(m, rrs[..i] + rrs[i + 1..], front);
      RrAt(m, rrs, i);
      RrsOne(m, front, x);
      assert sorted == front + [x];
      BagOfBoth(RrsTakes(m, front), RrTakes(m, x));
    }
  }

  lemma RrAt(m: Memory, rrs: seq<Rr>, i: nat)
    requires RrsOk(m, rrs) && i < |rrs|
    ensures RrOk(m, rrs[i])
  {
  }

  /** One record gets a pointer to a block more. */
  lemma UpdatedBag(m: Memory, rrs: seq<Rr>, i: nat, rr: Rr)
    requires RrsOk(m, rrs) && i < |rrs| && RrOk(m, rr)
    ensures RrsOk(m, rrs[i := rr])
    ensures Bag(RrsTakes(m, rrs[i := rr])) + Bag(RrTakes(m, rrs[i])) == Bag(RrsTakes(m, rrs)) + Bag(RrTakes(m, rr))
  {
    hide RrOk, RrTakes, Bag, RrsTakes;
    RrsBagSplit(m, rrs, i);
    RrsBagSplit(m, rrs[i := rr], i);
    assert rrs[i := rr][..i] == rrs[..i] && rrs[i := rr][i + 1..] == rrs[i + 1..];
  }

  // ----- where the copies are -----

  /** A copy in the final block. */
  datatype Copy = Copy(take: Take, pos: nat)

  /** The copies of `takes`, one behind the other, from `start` on. */
  function Placed(takes: seq<Take>, start: nat): seq<Copy> {
    if takes == [] then []
    else Placed(takes[..|takes| - 1], start) + [Copy(takes[|takes| - 1], start + Sum(takes[..|takes| - 1]))]
  }

  lemma {:induction false} PlacedBoth(a: seq<Take>, b: seq<Take>, start: nat)
    ensures Placed(a + b, start) == Placed(a, start) + Placed(b, start + Sum(a))
  {
    if b == [] {
      assert a + b == a;
    } else {
      var front := b[..|b| - 1];
      assert (a + b)[..|a + b| - 1] == a + front;
      PlacedBoth(a, front, start);
      SumOfBoth(a, front);
    }
  }

  lemma PlacedOne(t: Take, start: nat)
    ensures Placed([t], start) == [Copy(t, start)] && Placed([], start) == []
  {
    assert [t][..0] == [];
  }

  /** The copies do not overlap, are aligned, and are all inside. */
  lemma {:induction false} CopiesApart(takes: seq<Take>, start: nat, i: nat, j: nat)
    requires i < j < |takes|
    ensures var c := Placed(takes, start);
            && |c| == |takes| && c[i].take == takes[i] && c[j].take == takes[j]
            && start <= c[i].pos && c[i].pos + MemRound(takes[i].size) <= c[j].pos
            && c[j].pos + MemRound(takes[j].size) <= start + Sum(takes)
    decreases |takes|
  {
    hide MemRound;
    var front := takes[..|takes| - 1];
    PlacedLength(front, start);
    if j < |front| {
      CopiesApart(front, start, i, j);
    } else {
      CopyInside(front, start, i);
    }
  }

  lemma {:induction false} PlacedLength(takes: seq<Take>, start: nat)
    ensures |Placed(takes, start)| == |takes|
  {
    if takes != [] {
      PlacedLength(takes[..|takes| - 1], start);
    }
  }

  lemma {:induction false} CopyInside(takes: seq<Take>, start: nat, i: nat)
    requires i < |takes|
    ensures var c := Placed(takes, start);
            && |c| == |takes| && c[i].take == takes[i]
            && start <= c[i].pos && c[i].pos + MemRound(takes[i].size) <= start + Sum(takes)
  {
    hide MemRound;
    var front := takes[..|takes| - 1];
    PlacedLength(front, start);
    if i < |front| {
      CopyInside(front, start, i);
    }
  }
}
