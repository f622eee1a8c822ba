/**
 The blocks that are allocated for an answer while its query is under way (adns/query.c:339-425), and why all
 that the answer points to was counted: the parsers of records (the functions `pa_*` and `pap_*` of
 adns/types.c) count on one side, the functions `mf_*` take on the other.
 */
module AnswerBlocks {
  import opened Wrappers
  import opened Answers

  /** One allocated block. `counted` is what it adds to `interim_allocd`. */
  datatype Block = Block(content: Content, counted: nat, preserved: bool)

  function MemoryOf(blocks: seq<Block>): Memory {
    map k: nat | k < |blocks| :: blocks[k].content
  }

  function Counts(blocks: seq<Block>): seq<nat> {
    seq(|blocks|, k requires 0 <= k < |blocks| => blocks[k].counted)
  }

  function PreservedCounts(blocks: seq<Block>): seq<nat> {
    seq(|blocks|, k requires 0 <= k < |blocks| => if blocks[k].preserved then blocks[k].counted else 0)
  }

  /** After a reset, only what was preserved counts. */
  function Kept(b: Block): Block {
    if b.preserved then b else b.(counted := 0)
  }

  function AllKept(blocks: seq<Block>): seq<Block> {
    seq(|blocks|, k requires 0 <= k < |blocks| => Kept(blocks[k]))
  }

  lemma LeftMore(counts: seq<nat>, n: nat)
    ensures Left(counts + [n], {}) == Left(counts, {}) + n
  {
    assert (counts + [n])[..|counts|] == counts;
  }

  lemma CountsMore(blocks: seq<Block>, b: Block)
    ensures Left(Counts(blocks + [b]), {}) == Left(Counts(blocks), {}) + b.counted
    ensures Left(PreservedCounts(blocks + [b]), {}) ==
      Left(PreservedCounts(blocks), {}) + if b.preserved then b.counted else 0
    ensures Grows(MemoryOf(blocks), MemoryOf(blocks + [b]))
  {
    assert Counts(blocks + [b]) == Counts(blocks) + [b.counted];
    assert PreservedCounts(blocks + [b]) == PreservedCounts(blocks) + [if b.preserved then b.counted else 0];
    LeftMore(Counts(blocks), b.counted);
    LeftMore(PreservedCounts(blocks), if b.preserved then b.counted else 0);
  }

  lemma PrefixGrows(blocks: seq<Block>, blocks': seq<Block>)
    requires blocks <= blocks'
    ensures Grows(MemoryOf(blocks), MemoryOf(blocks')) && KeepsTexts(MemoryOf(blocks), MemoryOf(blocks'))
  {
  }

  lemma SameTexts(m: Memory, m': Memory)
    requires Grows(m, m')
    ensures KeepsTexts(m, m')
  {
  }

  // ----- what is taken of a block was counted for it -----

  predicate CoveredTake(blocks: seq<Block>, t: Take) {
    t.block < |blocks| && t.size <= blocks[t.block].content.Size() && MemRound(t.size) <= blocks[t.block].counted
  }

  ghost predicate Covered(blocks: seq<Block>, takes: seq<Take>) {
    forall t :: t in takes ==> CoveredTake(blocks, t)
  }

  lemma CoveredStays(blocks: seq<Block>, blocks': seq<Block>, takes: seq<Take>)
    requires Covered(blocks, takes) && blocks <= blocks'
    ensures Covered(blocks', takes)
  {
  }

  lemma RoundingIsMonotonic(a: nat, b: nat)
    requires a <= b
    ensures MemRound(a) <= MemRound(b)
  {
  }

  /** A record that was parsed while the blocks grew from `b0` to `b1`: its pointers lead to new blocks. */
  ghost predicate ParsedAs(b0: seq<Block>, b1: seq<Block>, rr: Rr) {
    && b0 <= b1 && RrOk(MemoryOf(b1), rr)
    && (var takes := RrTakes(MemoryOf(b1), rr);
        Within(takes, |b0|, |b1|) && Covered(b1, takes) && Once(Bag(takes)))
  }

  ghost predicate RrsParsed(b0: seq<Block>, b1: seq<Block>, rrs: seq<Rr>) {
    && b0 <= b1 && RrsOk(MemoryOf(b1), rrs)
    && (var takes := RrsTakes(MemoryOf(b1), rrs);
        Within(takes, |b0|, |b1|) && Covered(b1, takes) && Once(Bag(takes)))
  }

  lemma RrParsedToo(b0: seq<Block>, b1: seq<Block>, b2: seq<Block>, rrs: seq<Rr>, rr: Rr)
    requires RrsParsed(b0, b1, rrs) && ParsedAs(b1, b2, rr)
    ensures RrsParsed(b0, b2, rrs + [rr])
    ensures RrsOk(MemoryOf(b2), rrs) && forall j :: 0 <= j < |rrs| ==>
      ValueOf(MemoryOf(b2), rrs[j]) == ValueOf(MemoryOf(b1), rrs[j])
  {
    hide RrOk, RrTakes, RrsTakes, Bag, ValueOf, MemRound;
    var m1, m2 := MemoryOf(b1), MemoryOf(b2);
    PrefixGrows(b1, b2);
    RrsStay(m1, m2, rrs);
    RrsOne(m2, rrs, rr);
    CoveredStays(b1, b2, RrsTakes(m1, rrs));
    OnceBoth(RrsTakes(m2, rrs), RrTakes(m2, rr), |b0|, |b1|, |b2|);
  }

  /** The answer points to blocks that were counted, to none twice, and its names were preserved. */
  ghost predicate Sound(blocks: seq<Block>, ans: Answer, rrsz: nat) {
    && AnswerOk(MemoryOf(blocks), ans)
    && Covered(blocks, AnswerTakes(MemoryOf(blocks), ans, rrsz)) && Once(Bag(AnswerTakes(MemoryOf(blocks), ans, rrsz)))
    && (ans.cname.Some? ==> ans.cname.value < |blocks| && blocks[ans.cname.value].preserved)
    && (ans.owner.Some? ==> ans.owner.value < |blocks| && blocks[ans.owner.value].preserved)
  }

  lemma SoundStays(blocks: seq<Block>, blocks': seq<Block>, ans: Answer, rrsz: nat)
    requires Sound(blocks, ans, rrsz) && blocks <= blocks'
    ensures Sound(blocks', ans, rrsz) && SameAnswer(MemoryOf(blocks), ans, MemoryOf(blocks'), ans)
  {
    hide AnswerOk, AnswerTakes, Bag, MemRound, SameAnswer;
    PrefixGrows(blocks, blocks');
    AnswerStays(MemoryOf(blocks), MemoryOf(blocks'), ans, rrsz);
  }

  /** What all copies take was counted. */
  lemma SoundFits(blocks: seq<Block>, ans: Answer, rrsz: nat)
    requires Sound(blocks, ans, rrsz)
    ensures Sum(AnswerTakes(MemoryOf(blocks), ans, rrsz)) <= Left(Counts(blocks), {})
  {
    hide AnswerOk, AnswerTakes, Bag, MemRound, Sum, Left;
    var takes := AnswerTakes(MemoryOf(blocks), ans, rrsz);
    forall t | t in takes
      ensures t.block < |Counts(blocks)| && MemRound(t.size) <= Counts(blocks)[t.block]
    {
      assert CoveredTake(blocks, t);
    }
    TakenIsCounted(Counts(blocks), takes, {});
  }

  function NameTakes(m: Memory, ans: Answer): seq<Take>
    requires AnswerOk(m, ans)
  {
    StrTakes(m, ans.cname) + StrTakes(m, ans.owner)
  }

  lemma WithoutRecords(m: Memory, ans: Answer, rrsz: nat)
    requires AnswerOk(m, ans)
    ensures var names := ans.(base := None, rrs := []);
            && AnswerOk(m, names) && AnswerTakes(m, names, rrsz) == NameTakes(m, ans) == NameTakes(m, names)
    ensures AnswerTakes(m, ans, rrsz) ==
      NameTakes(m, ans)
      + if ans.rrs == [] then [] else [Take(ans.base.value, |ans.rrs| * rrsz)] + RrsTakes(m, ans.rrs)
  {
    assert NameTakes(m, ans) + [] == NameTakes(m, ans);
  }

  /** `adns__reset_preserved`: the names stay, and all that they take still counts. */
  lemma SoundReset(blocks: seq<Block>, ans: Answer, rrsz: nat)
    requires Sound(blocks, ans, rrsz)
    ensures Sound(AllKept(blocks), ans.(base := None, rrs := []), rrsz)
    ensures Left(Counts(AllKept(blocks)), {}) == Left(PreservedCounts(blocks), {})
    ensures Left(PreservedCounts(AllKept(blocks)), {}) == Left(PreservedCounts(blocks), {})
  {
    hide RrOk, RrsTakes, Bag, MemRound, Left, CLength;
    var m, kept := MemoryOf(blocks), AllKept(blocks);
    assert MemoryOf(kept) == m;
    assert Counts(kept) == PreservedCounts(kept) == PreservedCounts(blocks);
    WithoutRecords(m, ans, rrsz);
    var names := NameTakes(m, ans);
    var more := if ans.rrs == [] then [] else [Take(ans.base.value, |ans.rrs| * rrsz)] + RrsTakes(m, ans.rrs);
    BagOfBoth(names, more);
    forall t | t in names
      ensures CoveredTake(kept, t)
    {
      assert CoveredTake(blocks, t);
    }
    assert forall k :: Bag(names)[k] <= Bag(names + more)[k];
  }

  /** The records of a reply come to an answer without any. */
  lemma SoundParsed(b0: seq<Block>, b1: seq<Block>, b2: seq<Block>, ans: Answer, rrs: seq<Rr>, rrsz: nat)
    requires Sound(b0, ans, rrsz) && ans.rrs == [] && rrs != []
    requires b1 == b0 + [Block(Array(|rrs| * rrsz), MemRound(|rrs| * rrsz), false)] && RrsParsed(b1, b2, rrs)
    ensures Sound(b2, ans.(base := Some(|b0|), rrs := rrs), rrsz)
  {
    hide RrOk, RrsTakes, Bag, MemRound, CLength;
    var m := MemoryOf(b2);
    SoundStays(b0, b2, ans, rrsz);
    var all := ans.(base := Some(|b0|), rrs := rrs);
    WithoutRecords(MemoryOf(b0), ans, rrsz);
    WithoutRecords(m, ans, rrsz);
    WithoutRecords(m, all, rrsz);
    var names, t, more := NameTakes(m, ans), Take(|b0|, |rrs| * rrsz), RrsTakes(m, rrs);
    PrefixGrows(b0, b2);
    AnswerStays(MemoryOf(b0), m, ans, rrsz);
    forall u | u in names
      ensures u.block < |b0|
    {
      assert CoveredTake(b0, u);
    }
    OnceOne(t);
    OnceBoth(names, [t], 0, |b0|, |b1|);
    OnceBoth(names + [t], more, 0, |b1|, |b2|);
    assert names + ([t] + more) == names + [t] + more;
    assert CoveredTake(b2, t);
  }

  /** A name comes to the answer. */
  lemma SoundNamed(b0: seq<Block>, text: seq<byte>, ans: Answer, ans': Answer, rrsz: nat)
    requires Sound(b0, ans, rrsz) && 0 in text
    requires || (ans.cname == None && ans' == ans.(cname := Some(|b0|)))
             || (ans.owner == None && ans' == ans.(owner := Some(|b0|)))
    ensures Sound(b0 + [Block(Text(text), MemRound(|text|), true)], ans', rrsz)
  {
    hide RrOk, RrsTakes, Bag, MemRound;
    var b1 := b0 + [Block(Text(text), MemRound(|text|), true)];
    var m := MemoryOf(b1);
    SoundStays(b0, b1, ans, rrsz);
    WithoutRecords(m, ans, rrsz);
    WithoutRecords(m, ans', rrsz);
    PrefixGrows(b0, b1);
    AnswerStays(MemoryOf(b0), m, ans, rrsz);
    var a, t := StrTakes(m, ans.cname), Take(|b0|, CLength(text) + 1);
    var c := StrTakes(m, ans.owner);
    var more := if ans.rrs == [] then [] else [Take(ans.base.value, |ans.rrs| * rrsz)] + RrsTakes(m, ans.rrs);
    var takes, takes' := AnswerTakes(m, ans, rrsz), AnswerTakes(m, ans', rrsz);
    assert takes == a + c + more;
    forall u | u in takes
      ensures u.block < |b0|
    {
      assert CoveredTake(b0, u);
    }
    RoundingIsMonotonic(CLength(text) + 1, |text|);
    assert CoveredTake(b1, t);
    assert takes' ==
      (if ans.cname == None && ans' == ans.(cname := Some(|b0|)) then [t] + c + more else a + [t] + more);
    NamedBag(a, c, more, t);
    OnceMore(takes, takes', t, |b0|);
  }

  lemma NamedBag(a: seq<Take>, c: seq<Take>, more: seq<Take>, t: Take)
    ensures a == [] ==> Bag([t] + c + more) == Bag(a + c + more) + multiset{t.block}
    ensures c == [] ==> Bag(a + [t] + more) == Bag(a + c + more) + multiset{t.block}
  {
    hide Bag;
    BagOfOne(t);
    BagOfBoth(a, c);
    BagOfBoth(a + c, more);
    BagOfBoth([t], c);
    BagOfBoth([t] + c, more);
    BagOfBoth(a, [t]);
    BagOfBoth(a + [t], more);
  }

  /** A new block is taken, too. */
  lemma OnceMore(takes: seq<Take>, takes': seq<Take>, t: Take, n: nat)
    requires Once(Bag(takes)) && Bag(takes') == Bag(takes) + multiset{t.block} && t.block == n
    requires forall u :: u in takes ==> u.block < n
    ensures Once(Bag(takes'))
  {
    hide Bag;
    NotInBag(takes, n);
  }

  // ----- what comes in -----

  /** The data of a record; `found` are the addresses of a host that came with the reply. */
  datatype Incoming =
    | InFlat(n: nat)
    | InStr(n: nat, text: seq<byte>)
    | InPair(n: nat, one: seq<byte>, two: seq<byte>)
    | InMany(s: seq<byte>)
    | InHost(n: nat, name: seq<byte>, found: seq<nat>)
    | InBytes(bytes: seq<byte>)

  function AsString(x: seq<byte>): Option<seq<byte>> {
    StringSizes(x);
    Some(CString(x + [0]))
  }

  function AsItems(texts: seq<seq<byte>>): seq<(int, Option<seq<byte>>)> {
    seq(|texts|, j requires 0 <= j < |texts| => (|texts[j]|, AsString(texts[j])))
  }

  /** What an answer should say. */
  function Meaning(r: Incoming): Option<Value> {
    match r
    case InFlat(n) => Some(FlatValue(n))
    case InStr(n, x) => Some(StrValue(n, AsString(x)))
    case InPair(n, x, y) => Some(PairValue(n, AsString(x), AsString(y)))
    case InMany(s) => if s != [] && Strings(s).Some? then Some(ManyValue(AsItems(Strings(s).value))) else None
    case InHost(n, x, found) =>
      Some(HostValue(n, AsString(x), if found == [] then -1 else |found|, if found == [] then None else Some(found)))
    case InBytes(x) => Some(BytesValue(x))
  }

  // ----- the strings of a TXT record -----

  /** Character strings, each behind its length (section 3.3 of RFC 1035), if they fill `s` exactly. */
  function Strings(s: seq<byte>): Option<seq<seq<byte>>>
  {
    if s == [] then Some([])
    else
      var l: nat := s[0];
      if 1 + l > |s| then None
      else
        match Strings(s[1 + l..])
        case None => None
        case Some(more) => Some([s[1..1 + l]] + more)
  }

  /** Character strings as they are sent. */
  function Sent(texts: seq<seq<byte>>): seq<byte>
    requires Short(texts)
  {
    if texts == [] then [] else [|texts[0]| as byte] + texts[0] + Sent(texts[1..])
  }

  predicate Short(texts: seq<seq<byte>>) { forall j :: 0 <= j < |texts| ==> |texts[j]| < 256 }

  lemma {:induction false} SentIsRead(texts: seq<seq<byte>>)
    requires Short(texts)
    ensures Strings(Sent(texts)) == Some(texts)
  {
    if texts != [] {
      var s, l := Sent(texts), |texts[0]|;
      SentIsRead(texts[1..]);
      assert s[0] == l && s[1..1 + l] == texts[0] && s[1 + l..] == Sent(texts[1..]);
      assert texts == [texts[0]] + texts[1..];
    }
  }

  lemma {:induction false} ReadWasSent(s: seq<byte>)
    requires Strings(s).Some?
    ensures Short(Strings(s).value) && Sent(Strings(s).value) == s
  {
    if s != [] {
      var l: nat := s[0];
      ReadWasSent(s[1 + l..]);
      assert Strings(s).value == [s[1..1 + l]] + Strings(s[1 + l..]).value;
      SentFirst(s[1..1 + l], Strings(s[1 + l..]).value);
      assert s == [l as byte] + s[1..1 + l] + s[1 + l..];
    }
  }

  lemma SentFirst(x: seq<byte>, texts: seq<seq<byte>>)
    requires Short(texts) && |x| < 256
    ensures Short([x] + texts) && Sent([x] + texts) == [|x| as byte] + x + Sent(texts)
  {
    assert ([x] + texts)[1..] == texts;
  }

  /** What is read is what was sent, and nothing else can be read. */
  lemma StringsExactly(s: seq<byte>, texts: seq<seq<byte>>)
    ensures Strings(s) == Some(texts) <==> Short(texts) && s == Sent(texts)
  {
    if Strings(s) == Some(texts) {
      ReadWasSent(s);
    }
    if Short(texts) {
      SentIsRead(texts);
    }
  }

  /** How the strings go on at `c`. */
  lemma StringsStep(s: seq<byte>, c: nat)
    requires c < |s|
    ensures var l: nat := s[c];
            if c + 1 + l > |s| then Strings(s[c..]) == None
            else if Strings(s[c + 1 + l..]).None? then Strings(s[c..]) == None
            else Strings(s[c..]) == Some([s[c + 1..c + 1 + l]] + Strings(s[c + 1 + l..]).value)
  {
    var t, l: nat := s[c..], s[c];
    if c + 1 + l <= |s| {
      assert t[1 + l..] == s[c + 1 + l..] && t[1..1 + l] == s[c + 1..c + 1 + l];
    }
  }

  lemma NothingMore(s: seq<byte>, c: nat)
    requires c <= |s| && Strings(s[c..]).Some?
    ensures Strings(s[c..]).value == [] <==> c == |s|
  {
  }

  function StringBlock(x: seq<byte>): Block { Block(Text(x + [0]), MemRound(|x| + 1), false) }

  function StringBlocks(texts: seq<seq<byte>>): seq<Block> {
    seq(|texts|, j requires 0 <= j < |texts| => StringBlock(texts[j]))
  }

  /** The entries for strings that are in the blocks from `base` on. */
  function EntriesFor(texts: seq<seq<byte>>, base: nat): seq<Entry> {
    seq(|texts|, j requires 0 <= j < |texts| => Entry(|texts[j]|, Some(base + j)))
  }

  const LAST_ENTRY := Entry(-1, None)

  /** A table of `n` entries and a last one, of which the first are filled in. */
  function PartialTable(done: seq<Entry>, n: nat): Content
    requires |done| <= n
  {
    Table(done + seq(n + 1 - |done|, _ => LAST_ENTRY))
  }

  lemma EntryFilled(done: seq<Entry>, n: nat, e: Entry)
    requires |done| < n
    ensures PartialTable(done, n).entries[|done| := e] == PartialTable(done + [e], n).entries
  {
  }

  lemma StringTake(blocks: seq<Block>, k: nat, x: seq<byte>)
    requires k < |blocks| && blocks[k] == StringBlock(x)
    ensures var m, p := MemoryOf(blocks), Some(k);
            && IsText(m, p) && StringAt(m, p) == AsString(x)
            && (var takes := StrTakes(m, p);
                && Within(takes, k, k + 1) && Covered(blocks, takes) && Once(Bag(takes)) && |takes| == 1)
  {
    hide MemRound, Bag, CLength;
    StringSizes(x);
    var t := StrTakes(MemoryOf(blocks), Some(k))[0];
    RoundingIsMonotonic(t.size, |x| + 1);
    OnceOne(t);
    assert StrTakes(MemoryOf(blocks), Some(k)) == [t];
  }

  lemma {:induction false} TxtEntries(blocks: seq<Block>, texts: seq<seq<byte>>, base: nat)
    requires base + |texts| <= |blocks| && forall j :: 0 <= j < |texts| ==> blocks[base + j] == StringBlock(texts[j])
    ensures var m, entries := MemoryOf(blocks), EntriesFor(texts, base);
            && EntriesOk(m, entries) && Items(m, entries) == AsItems(texts)
            && (var takes := EntryTakes(m, entries);
                Within(takes, base, base + |texts|) && Covered(blocks, takes) && Once(Bag(takes)))
  {
    hide MemRound, Bag, StrTakes, CLength, StringAt;
    if texts == [] {
      OnceOne(Take(0, 0));
    } else {
      var front, x := texts[..|texts| - 1], texts[|texts| - 1];
      TxtEntries(blocks, front, base);
      var k := base + |front|;
      StringTake(blocks, k, x);
      var m, entries := MemoryOf(blocks), EntriesFor(texts, base);
      assert entries == EntriesFor(front, base) + [Entry(|x|, Some(k))];
      EntriesOne(m, EntriesFor(front, base), Entry(|x|, Some(k)));
      OnceBoth(EntryTakes(m, EntriesFor(front, base)), StrTakes(m, Some(k)), base, k, k + 1);
      forall j | 0 <= j < |texts|
        ensures Items(m, entries)[j] == AsItems(texts)[j]
      {
        if j < |front| {
          assert Items(m, EntriesFor(front, base))[j] == AsItems(front)[j];
        }
      }
    }
  }

  /** What `pa_txt` adds to the blocks for the strings `texts`. */
  function TxtBlocks(base: nat, texts: seq<seq<byte>>, n: nat): seq<Block>
    requires |texts| <= n
  {
    [Block(PartialTable(EntriesFor(texts, base + 1), n), MemRound(INTSTR_SIZE * (n + 1)), false)] + StringBlocks(texts)
  }

  lemma TxtTable(b0: seq<Block>, texts: seq<seq<byte>>)
    ensures var b1, n, done := b0 + TxtBlocks(|b0|, texts, |texts|), |texts|, EntriesFor(texts, |b0| + 1);
            && |b1| == |b0| + 1 + n && b0 <= b1 && |done| == n
            && b1[|b0|].content == Table(done + [LAST_ENTRY]) && b1[|b0|].counted == MemRound(INTSTR_SIZE * (n + 1))
            && (forall j :: 0 <= j < n ==> b1[|b0| + 1 + j] == StringBlock(texts[j]))
  {
    var done := EntriesFor(texts, |b0| + 1);
    assert PartialTable(done, |texts|).entries == done + [LAST_ENTRY];
  }

  lemma TxtIsParsed(b0: seq<Block>, texts: seq<seq<byte>>)
    ensures var b1, rr := b0 + TxtBlocks(|b0|, texts, |texts|), Many(Some(|b0|));
            ParsedAs(b0, b1, rr) && ValueOf(MemoryOf(b1), rr) == ManyValue(AsItems(texts))
  {
    hide MemRound, Bag, StrTakes, CLength, StringAt, EntryTakes, Items, EntriesOk, TxtBlocks, StringBlock,
         EntriesFor, AsItems;
    var n, b1 := |texts|, b0 + TxtBlocks(|b0|, texts, |texts|);
    TxtTable(b0, texts);
    TxtEntries(b1, texts, |b0| + 1);
    var m, done := MemoryOf(b1), EntriesFor(texts, |b0| + 1);
    assert (done + [LAST_ENTRY])[..n] == done;
    var t := Take(|b0|, INTSTR_SIZE * (n + 1));
    OnceOne(t);
    OnceBoth([t], EntryTakes(m, done), |b0|, |b0| + 1, |b1|);
  }

  lemma NoneParsed(b: seq<Block>)
    ensures RrsParsed(b, b, [])
  {
    OnceOne(Take(0, 0));
  }

  lemma TxtShape(b0: seq<Block>, texts: seq<seq<byte>>, n: nat)
    requires |texts| <= n
    ensures var b1 := b0 + TxtBlocks(|b0|, texts, n);
            |b1| == |b0| + 1 + |texts| && b1[|b0|].content.Table? && |b1[|b0|].content.entries| == n + 1
  {
    hide MemRound;
  }

  lemma TxtStart(b0: seq<Block>, n: nat)
    ensures TxtBlocks(|b0|, [], n) == [Block(PartialTable([], n), MemRound(PartialTable([], n).Size()), false)]
  {
    hide MemRound;
    assert EntriesFor([], |b0| + 1) == [];
    assert StringBlocks([]) == [];
  }

  /** An entry of the table is filled in after its string was allocated. */
  lemma TableFilled(b0: seq<Block>, sofar: seq<seq<byte>>, x: seq<byte>, n: nat, blocks: seq<Block>,
                    entries: seq<Entry>)
    requires |sofar| < n && blocks == b0 + TxtBlocks(|b0|, sofar, n) + [StringBlock(x)]
    requires blocks[|b0|].content.Table? && |blocks[|b0|].content.entries| > |sofar|
    requires entries == blocks[|b0|].content.entries[|sofar| := Entry(|x|, Some(|b0| + 1 + |sofar|))]
    ensures blocks[|b0| := blocks[|b0|].(content := Table(entries))] == b0 + TxtBlocks(|b0|, sofar + [x], n)
    ensures Counts(blocks[|b0| := blocks[|b0|].(content := Table(entries))]) == Counts(blocks)
    ensures PreservedCounts(blocks[|b0| := blocks[|b0|].(content := Table(entries))]) == PreservedCounts(blocks)
  {
    hide MemRound;
    var done, e := EntriesFor(sofar, |b0| + 1), Entry(|x|, Some(|b0| + 1 + |sofar|));
    assert EntriesFor(sofar + [x], |b0| + 1) == done + [e];
    EntryFilled(done, n, e);
    assert StringBlocks(sofar + [x]) == StringBlocks(sofar) + [StringBlock(x)];
  }

  lemma ArrayIsCovered(blocks: seq<Block>, ans: Answer, rrsz: nat)
    requires Sound(blocks, ans, rrsz) && ans.rrs != []
    ensures ans.base.value < |blocks| && MemRound(|ans.rrs| * rrsz) <= blocks[ans.base.value].counted
  {
    hide MemRound, Bag, RrsTakes, RrOk, CLength;
    assert CoveredTake(blocks, Take(ans.base.value, |ans.rrs| * rrsz));
  }

  /** A record that waited for addresses got them, in a new block, or none. */
  lemma HostFilled(b0: seq<Block>, b1: seq<Block>, ans: Answer, i: nat, naddrs: int, addrs: Ptr, found: seq<nat>,
                   rrsz: nat)
    requires Sound(b0, ans, rrsz) && i < |ans.rrs| && ans.rrs[i].Host? && ans.rrs[i].addrs == None
    requires if found == [] then addrs == None && b1 == b0
             else addrs == Some(|b0|) && naddrs == |found|
                  && b1 == b0 + [Block(Addresses(found), MemRound(|found| * ADDR_SIZE), false)]
    ensures var ans' := ans.(rrs := ans.rrs[i := ans.rrs[i].(naddrs := naddrs, addrs := addrs)]);
            && Sound(b1, ans', rrsz) && AnswerOk(MemoryOf(b0), ans) && AnswerOk(MemoryOf(b1), ans')
            && (forall j :: 0 <= j < |ans.rrs| && j != i ==>
                  ans'.rrs[j] == ans.rrs[j] && ValueOf(MemoryOf(b1), ans.rrs[j]) == ValueOf(MemoryOf(b0), ans.rrs[j]))
            && ValueOf(MemoryOf(b0), ans.rrs[i]).HostValue?
            && ValueOf(MemoryOf(b1), ans'.rrs[i]) ==
               ValueOf(MemoryOf(b0), ans.rrs[i]).(naddrs := naddrs, addrs := if found == [] then None else Some(found))
  {
    hide MemRound, Bag, RrsTakes, CLength, StrTakes, Covered, StringAt;
    var m0, m1 := MemoryOf(b0), MemoryOf(b1);
    SoundStays(b0, b1, ans, rrsz);
    PrefixGrows(b0, b1);
    RrsStay(m0, m1, ans.rrs);
    RrStays(m0, m1, ans.rrs[i]);
    var waiting, filled := ans.rrs[i], ans.rrs[i].(naddrs := naddrs, addrs := addrs);
    assert RrOk(m1, waiting) && RrOk(m1, filled);
    HostStays(m0, m1, waiting, filled);
    var t := Take(|b0|, |found| * ADDR_SIZE);
    var takes, extra := RrTakes(m1, waiting), if found == [] then [] else [t];
    assert RrTakes(m1, filled) == takes + extra;
    UpdatedBag(m1, ans.rrs, i, filled);
    BagOfOne(t);
    BagOfBoth(takes, extra);
    Cancelled(Bag(RrsTakes(m1, ans.rrs[i := filled])), Bag(RrsTakes(m1, ans.rrs)), Bag(takes), Bag(extra));
    HostSound(b0, b1, ans, i, filled, t, found, rrsz);
  }

  lemma Cancelled(a: multiset<nat>, b: multiset<nat>, c: multiset<nat>, e: multiset<nat>)
    requires a + c == b + (c + e)
    ensures a == b + e
  {
    forall k: nat
      ensures a[k] == (b + e)[k]
    {
      assert (a + c)[k] == a[k] + c[k] && (b + (c + e))[k] == b[k] + (c[k] + e[k]);
    }
  }

  lemma HostStays(m0: Memory, m1: Memory, h: Rr, h': Rr)
    requires Grows(m0, m1) && KeepsTexts(m0, m1) && RrOk(m0, h) && h.Host? && h'.Host? && h.addrs == None
    requires RrOk(m1, h')
    requires h' == h.(naddrs := h'.naddrs, addrs := h'.addrs)
    ensures ValueOf(m0, h).HostValue?
    ensures ValueOf(m1, h') ==
      ValueOf(m0, h).(naddrs := h'.naddrs, addrs := if h'.addrs == None then None else Some(m1[h'.addrs.value].addrs))
  {
    hide CLength;
    TextStays(m0, m1, h.host);
  }

  lemma HostSound(b0: seq<Block>, b1: seq<Block>, ans: Answer, i: nat, rr: Rr, t: Take, found: seq<nat>, rrsz: nat)
    requires Sound(b0, ans, rrsz) && Sound(b1, ans, rrsz) && i < |ans.rrs| && b0 <= b1 && RrOk(MemoryOf(b1), rr)
    requires found != [] ==> b1 == b0 + [Block(Addresses(found), MemRound(|found| * ADDR_SIZE), false)]
    requires t == Take(|b0|, |found| * ADDR_SIZE)
    requires RrTakes(MemoryOf(b1), rr) == RrTakes(MemoryOf(b1), ans.rrs[i]) + if found == [] then [] else [t]
    requires RrsOk(MemoryOf(b1), ans.rrs[i := rr])
    requires Bag(RrsTakes(MemoryOf(b1), ans.rrs[i := rr])) ==
      Bag(RrsTakes(MemoryOf(b1), ans.rrs)) + if found == [] then multiset{} else multiset{t.block}
    ensures Sound(b1, ans.(rrs := ans.rrs[i := rr]), rrsz)
  {
    hide MemRound, Bag, RrTakes, CLength, StrTakes, RrOk, RrsTakes;
    var m, ans' := MemoryOf(b1), ans.(rrs := ans.rrs[i := rr]);
    WithoutRecords(m, ans, rrsz);
    WithoutRecords(m, ans', rrsz);
    var names, base := NameTakes(m, ans), [Take(ans.base.value, |ans.rrs| * rrsz)];
    var more, more' := RrsTakes(m, ans.rrs), RrsTakes(m, ans'.rrs);
    var takes, takes' := AnswerTakes(m, ans, rrsz), AnswerTakes(m, ans', rrsz);
    assert takes == names + (base + more) && takes' == names + (base + more');
    BagOfBoth(names, base + more);
    BagOfBoth(base, more);
    BagOfBoth(names, base + more');
    BagOfBoth(base, more');
    PrefixGrows(b0, b1);
    AnswerStays(MemoryOf(b0), m, ans, rrsz);
    forall u | u in takes
      ensures u.block < |b0| && CoveredTake(b1, u)
    {
      assert CoveredTake(b0, u);
    }
    assert Bag(takes') == Bag(takes) + if found == [] then multiset{} else multiset{t.block};
    assert found == [] ==> Bag(takes') == Bag(takes);
    if found != [] {
      OnceMore(takes, takes', t, |b0|);
      assert CoveredTake(b1, t);
    }
    forall u | u in takes'
      ensures CoveredTake(b1, u)
    {
      if u in more' {
        var j := InRrs(m, ans'.rrs, u);
        if u in RrTakes(m, ans.rrs[j]) {
          RrsHave(m, ans.rrs, j, u);
        }
      }
    }
  }

  lemma {:induction false} RrsHave(m: Memory, rrs: seq<Rr>, j: nat, t: Take)
    requires RrsOk(m, rrs) && j < |rrs| && t in RrTakes(m, rrs[j])
    ensures t in RrsTakes(m, rrs)
  {
    hide RrOk, RrTakes;
    if j < |rrs| - 1 {
      RrsHave(m, rrs[..|rrs| - 1], j, t);
    }
  }

  /** Sorted records. */
  lemma SoundSorted(blocks: seq<Block>, ans: Answer, sorted: seq<Rr>, rrsz: nat)
    requires Sound(blocks, ans, rrsz) && multiset(sorted) == multiset(ans.rrs)
    ensures Sound(blocks, ans.(rrs := sorted), rrsz)
  {
    hide MemRound, Bag, RrTakes, CLength, StrTakes, RrOk, RrsTakes;
    var m, ans' := MemoryOf(blocks), ans.(rrs := sorted);
    SortedOk(m, ans.rrs, sorted);
    SortedBag(m, ans.rrs, sorted);
    if sorted != [] {
      WithoutRecords(m, ans, rrsz);
      WithoutRecords(m, ans', rrsz);
      var names, base := NameTakes(m, ans), [Take(ans.base.value, |ans.rrs| * rrsz)];
      var more, more' := RrsTakes(m, ans.rrs), RrsTakes(m, sorted);
      assert AnswerTakes(m, ans, rrsz) == names + (base + more) && AnswerTakes(m, ans', rrsz) == names + (base + more');
      BagOfBoth(names, base + more);
      BagOfBoth(base, more);
      BagOfBoth(names, base + more');
      BagOfBoth(base, more');
      forall u | u in more'
        ensures CoveredTake(blocks, u)
      {
        var j := InRrs(m, sorted, u);
        assert sorted[j] in multiset(ans.rrs);
        var i :| 0 <= i < |ans.rrs| && ans.rrs[i] == sorted[j];
        RrsHave(m, ans.rrs, i, u);
      }
    } else {
      assert ans.rrs == [];
    }
  }

  /** The first loop of `pa_txt`: how many strings there are, if they fill the record. */
  method CountStrings(s: seq<byte>) returns (tc: nat, ok: bool)
    ensures ok <==> Strings(s).Some?
    ensures ok ==> tc == |Strings(s).value|
  {
    var cbyte := 0;
    tc := 0;
    assert s[0..] == s;
    while cbyte < |s|
      invariant cbyte <= |s| || Strings(s) == None
      invariant cbyte <= |s| ==> (Strings(s).Some? <==> Strings(s[cbyte..]).Some?)
      invariant cbyte <= |s| && Strings(s).Some? ==> |Strings(s).value| == tc + |Strings(s[cbyte..]).value|
      decreases |s| - cbyte
    {
      StringsStep(s, cbyte);
      var l: nat := s[cbyte];
      cbyte := cbyte + 1 + l;
      tc := tc + 1;
    }
    ok := cbyte == |s|;
    assert ok ==> s[cbyte..] == [];
  }
}
