/**
 The memory of a query (adns/query.c:339-425, adns/query.c:477-512, adns/query.c:567-587). While a query is
 under way, what its answer points to is allocated block by block, and the rounded sizes are counted. In
 the end the answer is made one block of that total size, into which everything is copied, with its pointers
 set to the copies.
 */
module Arena {
  import opened Wrappers
  import opened Answers
  import opened AnswerBlocks

  datatype Status = Ok | TempFail | PermFail | NoMemory

  /** The final block under way: what was counted and not taken yet, the next free place, and what was
      copied. */
  datatype Stage = Stage(interim: int, space: nat, image: Memory, copies: seq<Copy>)

  /** Every copy is there. */
  ghost predicate Filled(s: Stage) {
    && (forall k :: k in s.image ==> k < s.space)
    && (forall c :: c in s.copies ==> c.pos in s.image && s.image[c.pos].Size() == c.take.size)
  }

  /** From `a` to `b` exactly `takes` were copied, one behind the other. */
  ghost predicate Advanced(a: Stage, b: Stage, takes: seq<Take>) {
    && b.interim == a.interim - Sum(takes) && b.space == a.space + Sum(takes)
    && b.copies == a.copies + Placed(takes, a.space)
    && Grows(a.image, b.image) && (forall k :: k in b.image && k !in a.image ==> k >= a.space)
  }

  lemma AdvancedNowhere(a: Stage)
    ensures Advanced(a, a, [])
  {
    assert a.copies + [] == a.copies;
  }

  lemma AdvancedTwice(a: Stage, b: Stage, c: Stage, s: seq<Take>, t: seq<Take>)
    requires Advanced(a, b, s) && Advanced(b, c, t)
    ensures Advanced(a, c, s + t)
  {
    hide Sum, Placed;
    SumOfBoth(s, t);
    PlacedBoth(s, t, a.space);
    assert a.copies + Placed(s, a.space) + Placed(t, b.space) == a.copies + (Placed(s, a.space) + Placed(t, b.space));
  }

  lemma AdvancedSum(a: Stage, b: Stage, s: seq<Take>, t: seq<Take>)
    requires Advanced(a, b, s) && a.interim >= Sum(s + t)
    ensures b.interim >= Sum(t)
  {
    hide Sum;
    SumOfBoth(s, t);
  }

  // ----- the table of a TXT record, on its way -----

  /** The loop of `mf_manyistr` that counts the entries. */
  method CountEntries(ghost m: Memory, entries: seq<Entry>) returns (tc: nat)
    requires IsTable(m, entries)
    ensures tc == |entries| - 1 && EntriesOk(m, entries[..tc])
  {
    tc := 0;
    assert forall j :: 0 <= j < |entries| - 1 ==> entries[j] == entries[..|entries| - 1][j];
    while entries[tc].i >= 0
      invariant tc < |entries|
      invariant forall j :: 0 <= j < tc ==> entries[j].i >= 0
      decreases |entries| - tc
    {
      tc := tc + 1;
    }
  }

  /** Of the copied table at `t`, the first `j` entries point to copies of their strings. */
  ghost predicate TableSet(m: Memory, entries: seq<Entry>, image: Memory, t: nat, j: nat, tc: nat) {
    && IsTable(m, entries) && tc == |entries| - 1 && j <= tc
    && t in image && image[t].Table? && |image[t].entries| == |entries|
    && image[t].entries[j..] == entries[j..]
    && EntriesOk(image, image[t].entries[..j]) && EntriesOk(m, entries[..j])
    && Items(image, image[t].entries[..j]) == Items(m, entries[..j])
  }

  lemma NothingSet(m: Memory, image: Memory, entries: seq<Entry>, tc: nat)
    requires IsTable(m, entries) && tc == |entries| - 1
    ensures forall t :: t in image && image[t] == Table(entries) ==> TableSet(m, entries, image, t, 0, tc)
    ensures entries[..0] == [] && EntriesOk(m, []) && EntryTakes(m, []) == EntryTakes(map[], []) == []
  {
    hide StringAt, IsText;
    forall t | t in image && image[t] == Table(entries)
      ensures TableSet(m, entries, image, t, 0, tc)
    {
      assert Items(image, image[t].entries[..0]) == Items(m, entries[..0]);
    }
  }

  lemma EntryNext(m: Memory, entries: seq<Entry>, j: nat, tc: nat)
    requires j < tc < |entries| && EntriesOk(m, entries[..tc])
    ensures EntriesOk(m, entries[..j + 1]) && entries[j].i >= 0 && IsText(m, entries[j].str)
    ensures EntriesOk(m, entries[..j])
    ensures EntryTakes(m, entries[..j + 1]) == EntryTakes(m, entries[..j]) + StrTakes(m, entries[j].str)
  {
    hide StrTakes;
    assert forall i :: 0 <= i <= j ==> entries[..j + 1][i] == entries[..tc][i];
    assert forall i :: 0 <= i < j ==> entries[..j][i] == entries[..tc][i];
    assert entries[..j + 1] == entries[..j] + [entries[j]];
    EntriesOne(m, entries[..j], entries[j]);
  }

  lemma {:induction false} EntriesSum(m: Memory, entries: seq<Entry>, j: nat, k: nat)
    requires j <= k <= |entries| && EntriesOk(m, entries)
    ensures EntriesOk(m, entries[..j]) && EntriesOk(m, entries[..k])
    ensures Sum(EntryTakes(m, entries[..j])) <= Sum(EntryTakes(m, entries[..k]))
    decreases k - j
  {
    hide StrTakes, Sum, EntryTakes;
    if j < k {
      EntriesSum(m, entries, j, k - 1);
      assert entries[..k] == entries[..k - 1] + [entries[k - 1]];
      EntriesOne(m, entries[..k - 1], entries[k - 1]);
      SumOfBoth(EntryTakes(m, entries[..k - 1]), StrTakes(m, entries[k - 1].str));
    }
  }

  /** What is left is enough for the next string. */
  lemma EnoughForNext(s0: Stage, s1: Stage, m: Memory, entries: seq<Entry>, j: nat, tc: nat, first: Take)
    requires j < tc < |entries| && EntriesOk(m, entries[..tc]) && EntriesOk(m, entries[..j])
    requires s0.interim >= Sum([first] + EntryTakes(m, entries[..tc]))
    requires Advanced(s0, s1, [first] + EntryTakes(m, entries[..j]))
    ensures IsText(m, entries[j].str) && s1.interim >= Sum(StrTakes(m, entries[j].str))
  {
    hide StrTakes, Sum, EntryTakes, Placed, MemRound, IsText;
    EntryNext(m, entries, j, tc);
    assert entries[..tc][..j + 1] == entries[..j + 1] && entries[..tc][..tc] == entries[..tc];
    EntriesSum(m, entries[..tc], j + 1, tc);
    SumOfBoth([first], EntryTakes(m, entries[..tc]));
    SumOfBoth([first], EntryTakes(m, entries[..j]));
    SumOfBoth(EntryTakes(m, entries[..j]), StrTakes(m, entries[j].str));
  }

  lemma NextUnset(m: Memory, entries: seq<Entry>, image: Memory, t: nat, j: nat, tc: nat)
    requires TableSet(m, entries, image, t, j, tc) && j < tc
    ensures image[t].entries[j] == entries[j]
  {
    hide Items, EntriesOk;
    assert image[t].entries[j..][0] == entries[j..][0];
  }

  /** One more entry is set, once its string was copied. */
  lemma EntrySet(m: Memory, entries: seq<Entry>, im: Memory, im': Memory, t: nat, j: nat, tc: nat, str: Ptr)
    requires TableSet(m, entries, im, t, j, tc) && j < tc && Grows(im, im') && KeepsTexts(im, im')
    requires IsText(m, entries[j].str) && entries[j].i >= 0
    requires IsText(im', str) && StringAt(im', str) == StringAt(m, entries[j].str)
    ensures t in im' && im'[t].Table? && |im'[t].entries| > j
    ensures var im2 := im'[t := Table(im'[t].entries[j := im'[t].entries[j].(str := str)])];
            TableSet(m, entries, im2, t, j + 1, tc)
  {
    hide CLength;
    var im2 := im'[t := Table(im'[t].entries[j := im'[t].entries[j].(str := str)])];
    var done := im[t].entries[..j];
    NextUnset(m, entries, im, t, j, tc);
    assert KeepsTexts(im, im2) && KeepsTexts(im', im2);
    EntriesStay(im, im2, done);
    TextStays(im', im2, str);
    var es := im2[t].entries;
    assert es[..j + 1] == done + [entries[j].(str := str)];
    assert entries[..j + 1] == entries[..j] + [entries[j]];
    assert es[j + 1..] == im[t].entries[j..][1..] == entries[j..][1..] == entries[j + 1..];
    ItemsOne(im2, done, entries[j].(str := str));
    ItemsOne(m, entries[..j], entries[j]);
  }

  lemma ItemsOne(m: Memory, entries: seq<Entry>, e: Entry)
    requires EntriesOk(m, entries) && e.i >= 0 && IsText(m, e.str)
    ensures EntriesOk(m, entries + [e]) && Items(m, entries + [e]) == Items(m, entries) + [(e.i, StringAt(m, e.str))]
  {
    hide StringAt, IsText;
  }

  lemma AllSet(m: Memory, entries: seq<Entry>, image: Memory, t: nat, tc: nat, p: nat)
    requires TableSet(m, entries, image, t, tc, tc) && p in m && m[p] == Table(entries)
    ensures RrOk(image, Many(Some(t))) && RrOk(m, Many(Some(p)))
    ensures ValueOf(image, Many(Some(t))) == ValueOf(m, Many(Some(p)))
  {
    hide Items, EntriesOk;
    var es := image[t].entries;
    assert es[tc] == es[tc..][0] && entries[tc] == entries[tc..][0];
  }

  /** A table that was just copied is written to in place. */
  lemma Overwritten(s0: Stage, s1: Stage, s2: Stage, t: nat, takes: seq<Take>)
    requires Advanced(s0, s1, takes) && Filled(s1) && t in s1.image && t !in s0.image && t >= s0.space
    requires s2 == s1.(image := s2.image) && t in s2.image && s2.image == s1.image[t := s2.image[t]]
    requires s2.image[t].Size() == s1.image[t].Size()
    ensures Advanced(s0, s2, takes) && Filled(s2)
  {
  }

  lemma RrsNext(m: Memory, rrs: seq<Rr>, i: nat)
    requires RrsOk(m, rrs) && i < |rrs|
    ensures RrsOk(m, rrs[..i]) && RrsOk(m, rrs[..i + 1]) && RrOk(m, rrs[i])
    ensures RrsTakes(m, rrs[..i + 1]) == RrsTakes(m, rrs[..i]) + RrTakes(m, rrs[i])
  {
    hide RrOk, RrTakes;
    assert rrs[..i + 1] == rrs[..i] + [rrs[i]];
    RrsOne(m, rrs[..i], rrs[i]);
  }

  lemma {:induction false} RrsSum(m: Memory, rrs: seq<Rr>, i: nat)
    requires RrsOk(m, rrs) && i <= |rrs|
    ensures RrsOk(m, rrs[..i]) && Sum(RrsTakes(m, rrs[..i])) <= Sum(RrsTakes(m, rrs))
    decreases |rrs| - i
  {
    hide RrOk, RrTakes, Sum, RrsTakes;
    if i < |rrs| {
      RrsSum(m, rrs, i + 1);
      RrsNext(m, rrs, i);
      SumOfBoth(RrsTakes(m, rrs[..i]), RrTakes(m, rrs[i]));
    } else {
      assert rrs[..i] == rrs;
    }
  }

  /** What is left is enough for the next record. */
  lemma EnoughForRr(s0: Stage, s1: Stage, m: Memory, rrs: seq<Rr>, i: nat, first: Take)
    requires RrsOk(m, rrs) && i < |rrs| && s0.interim >= Sum([first] + RrsTakes(m, rrs))
    requires RrsOk(m, rrs[..i]) && Advanced(s0, s1, [first] + RrsTakes(m, rrs[..i]))
    ensures RrOk(m, rrs[i]) && s1.interim >= Sum(RrTakes(m, rrs[i]))
  {
    hide RrOk, RrTakes, Sum, RrsTakes, Placed, MemRound;
    RrsNext(m, rrs, i);
    RrsSum(m, rrs, i + 1);
    SumOfBoth([first], RrsTakes(m, rrs));
    SumOfBoth([first], RrsTakes(m, rrs[..i]));
    SumOfBoth(RrsTakes(m, rrs[..i]), RrTakes(m, rrs[i]));
  }

  /** The addresses in an answer for the addresses of a host. */
  function FlatData(rrs: seq<Rr>): seq<nat>
    requires forall j :: 0 <= j < |rrs| ==> rrs[j].Flat?
  {
    seq(|rrs|, j requires 0 <= j < |rrs| => rrs[j].n)
  }

  /** The records that wait for the addresses of their hosts. */
  function Waiting(rrs: seq<Rr>): set<nat> {
    set j: nat | j < |rrs| && rrs[j].Host? && rrs[j].addrs == None && rrs[j].naddrs == -1
  }

  lemma WaitingMore(rrs: seq<Rr>, rr: Rr)
    ensures Waiting(rrs + [rr]) ==
      Waiting(rrs) + if rr.Host? && rr.addrs == None && rr.naddrs == -1 then {|rrs|} else {}
  {
    assert forall j :: 0 <= j < |rrs| ==> (rrs + [rr])[j] == rrs[j];
  }

  class Query {
    const rrsz: nat
    var blocks: seq<Block>
    var answer: Answer
    var status: Status
    /** The records that child queries were submitted for. */
    var children: set<nat>
    var interimAllocd: int
    var preservedAllocd: int
    /** Set while the answer is made final, and what was copied then. */
    var finalAllocspace: nat
    var image: Memory
    ghost var copies: seq<Copy>

    ghost predicate Accounts()
      reads this
    {
      interimAllocd >= Left(Counts(blocks), {}) && preservedAllocd >= Left(PreservedCounts(blocks), {})
    }

    ghost predicate Valid()
      reads this
    {
      && finalAllocspace == 0 && Accounts() && Sound(blocks, answer, rrsz) && rrsz > 0
      && children <= Waiting(answer.rrs) && (status != Ok ==> answer.rrs == [])
    }

    function Mem(): Memory
      reads this
    {
      MemoryOf(blocks)
    }

    /** What the records say. */
    ghost predicate Says(values: seq<Value>)
      reads this
    {
      && AnswerOk(Mem(), answer) && |values| == |answer.rrs|
      && forall j :: 0 <= j < |values| ==> ValueOf(Mem(), answer.rrs[j]) == values[j]
    }

    /** `query_alloc` */
    constructor (rrsz: nat)
      requires rrsz > 0
      ensures Valid() && this.rrsz == rrsz && status == Ok && children == {} && interimAllocd == 0
      ensures answer == Answer(None, None, None, []) && image == map[] && copies == []
    {
      this.rrsz := rrsz;
      blocks, answer, status, children := [], Answer(None, None, None, []), Ok, {};
      interimAllocd, preservedAllocd, finalAllocspace := 0, 0, 0;
      image, copies := map[], [];
    }

    // ----- allocating -----

    /** `adns__alloc_interim`, for something. */
    method AllocInterim(c: Content) returns (k: nat)
      requires Accounts()
      modifies this`blocks, this`interimAllocd
      ensures Accounts() && k == |old(blocks)| && interimAllocd == old(interimAllocd) + MemRound(c.Size())
      ensures blocks == old(blocks) + [Block(c, MemRound(c.Size()), false)]
    {
      k := |blocks|;
      CountsMore(blocks, Block(c, MemRound(c.Size()), false));
      blocks := blocks + [Block(c, MemRound(c.Size()), false)];
      interimAllocd := interimAllocd + MemRound(c.Size());
    }

    /** `adns__alloc_preserved` */
    method AllocPreserved(c: Content) returns (k: nat)
      requires Accounts()
      modifies this`blocks, this`interimAllocd, this`preservedAllocd
      ensures Accounts() && k == |old(blocks)| && interimAllocd == old(interimAllocd) + MemRound(c.Size())
      ensures preservedAllocd == old(preservedAllocd) + MemRound(c.Size())
      ensures blocks == old(blocks) + [Block(c, MemRound(c.Size()), true)]
    {
      k := |blocks|;
      CountsMore(blocks, Block(c, MemRound(c.Size()), true));
      blocks := blocks + [Block(c, MemRound(c.Size()), true)];
      interimAllocd := interimAllocd + MemRound(c.Size());
      preservedAllocd := preservedAllocd + MemRound(c.Size());
    }

    /** `adns__alloc_mine`: not part of any answer. */
    method AllocMine(c: Content)
      requires Valid()
      modifies this`blocks
      ensures Valid() && blocks == old(blocks) + [Block(c, 0, false)]
    {
      CountsMore(blocks, Block(c, 0, false));
      SoundStays(blocks, blocks + [Block(c, 0, false)], answer, rrsz);
      blocks := blocks + [Block(c, 0, false)];
    }

    // ----- parsing records -----

    /** `pap_qstring`, and the end of `pap_domain` and `pap_mailbox822`: a string and one byte more. */
    method PapString(x: seq<byte>) returns (p: Ptr)
      requires Accounts()
      modifies this`blocks, this`interimAllocd
      ensures Accounts() && p == Some(|old(blocks)|) && blocks == old(blocks) + [StringBlock(x)]
    {
      var k := AllocInterim(Text(x + [0]));
      p := Some(k);
    }

    /** `pa_txt`, for the data `s` of a record. */
    method PaTxt(s: seq<byte>) returns (ok: bool, rr: Rr)
      requires Accounts()
      modifies this`blocks, this`interimAllocd
      ensures Accounts() && (ok <==> s != [] && Strings(s).Some?) && (!ok ==> blocks == old(blocks))
      ensures ok ==>
        && rr == Many(Some(|old(blocks)|))
        && blocks == old(blocks) + TxtBlocks(|old(blocks)|, Strings(s).value, |Strings(s).value|)
    {
      hide MemRound, Strings, CLength, Left, TxtBlocks, PartialTable, StringBlock, Content.Size;
      rr := Flat(0);
      if s == [] {
        return false, rr;
      }
      var tc: nat;
      tc, ok := CountStrings(s);
      if !ok {
        return;
      }
      ghost var b0, texts := blocks, Strings(s).value;
      var t := AllocInterim(PartialTable([], tc));
      TxtStart(b0, tc);
      var cbyte: nat := 0;
      ghost var sofar: seq<seq<byte>> := [];
      assert s[0..] == s;
      for ti := 0 to tc
        invariant Accounts() && cbyte <= |s| && |sofar| == ti && t == |b0|
        invariant Strings(s[cbyte..]).Some? && texts == sofar + Strings(s[cbyte..]).value
        invariant blocks == b0 + TxtBlocks(t, sofar, tc)
      {
        NothingMore(s, cbyte);
        StringsStep(s, cbyte);
        var l: nat := s[cbyte];
        var x := s[cbyte + 1..cbyte + 1 + l];
        TxtShape(b0, sofar, tc);
        var str := PapString(x);
        var entries := blocks[t].content.entries[ti := Entry(l, str)];
        TableFilled(b0, sofar, x, tc, blocks, entries);
        blocks := blocks[t := blocks[t].(content := Table(entries))];
        sofar := sofar + [x];
        cbyte := cbyte + 1 + l;
      }
      assert sofar == texts;
      rr := Many(Some(t));
    }

    /** `pa_hinfo`, `pa_rp` and `pa_soa`. */
    method PaPair(n: nat, x: seq<byte>, y: seq<byte>) returns (rr: Rr)
      requires Accounts()
      modifies this`blocks, this`interimAllocd
      ensures Accounts() && ParsedAs(old(blocks), blocks, rr)
      ensures ValueOf(Mem(), rr) == PairValue(n, AsString(x), AsString(y))
    {
      hide MemRound, CLength, Left, Bag, StrTakes, StringAt, Counts, PreservedCounts, StringBlock;
      ghost var b0 := blocks;
      var p := PapString(x);
      var q := PapString(y);
      StringTake(blocks, |b0|, x);
      StringTake(blocks, |b0| + 1, y);
      OnceBoth(StrTakes(Mem(), p), StrTakes(Mem(), q), |b0|, |b0| + 1, |b0| + 2);
      rr := Pair(n, p, q);
    }

    /** `pap_hostaddr`, with the addresses that `pap_findaddrs` found; without any, a child query will be
        submitted for them. */
    method PaHostaddr(n: nat, name: seq<byte>, found: seq<nat>) returns (rr: Rr)
      requires Accounts()
      modifies this`blocks, this`interimAllocd
      ensures Accounts() && ParsedAs(old(blocks), blocks, rr)
      ensures Some(ValueOf(Mem(), rr)) == Meaning(InHost(n, name, found))
    {
      hide MemRound, CLength, Left, Bag, StrTakes, StringAt, Counts, PreservedCounts, StringBlock;
      ghost var b0 := blocks;
      var h := PapString(name);
      if found == [] {
        StringTake(blocks, |b0|, name);
        assert StrTakes(Mem(), h) + [] == StrTakes(Mem(), h);
        rr := Host(n, h, -1, None);
      } else {
        var k := AllocInterim(Addresses(found));
        StringTake(blocks, |b0|, name);
        OnceOne(Take(k, |found| * ADDR_SIZE));
        OnceBoth(StrTakes(Mem(), h), [Take(k, |found| * ADDR_SIZE)], |b0|, |b0| + 1, |b0| + 2);
        rr := Host(n, h, |found|, Some(k));
      }
    }

    /** `pa_opaque`; nothing is allocated for no bytes. */
    method PaOpaque(bytes: seq<byte>) returns (rr: Rr)
      requires Accounts()
      modifies this`blocks, this`interimAllocd
      ensures Accounts() && ParsedAs(old(blocks), blocks, rr) && ValueOf(Mem(), rr) == BytesValue(bytes)
    {
      hide MemRound, Left, Bag, Counts, PreservedCounts;
      var k := |blocks|;
      if bytes != [] {
        k := AllocInterim(Text(bytes));
      }
      OnceOne(Take(k, |bytes|));
      rr := Bytes(|bytes|, Some(k));
    }

    /** `typei->parse`, for a record whose data is `r`. */
    method ParseRr(r: Incoming) returns (ok: bool, rr: Rr)
      requires Accounts()
      modifies this`blocks, this`interimAllocd
      ensures Accounts() && old(blocks) <= blocks && (ok <==> Meaning(r).Some?)
      ensures ok ==> ParsedAs(old(blocks), blocks, rr) && ValueOf(Mem(), rr) == Meaning(r).value
    {
      hide MemRound, Strings, CLength, Left, Bag, StrTakes, StringAt, TxtBlocks, Items, EntryTakes, Counts,
           PreservedCounts, StringBlock;
      ok := true;
      ghost var b0 := blocks;
      match r {
        case InFlat(n) =>
          rr := Flat(n);
          OnceOne(Take(0, 0));
        case InStr(n, x) =>
          var p := PapString(x);
          StringTake(blocks, |b0|, x);
          rr := Str(n, p);
        case InPair(n, x, y) =>
          rr := PaPair(n, x, y);
        case InMany(s) =>
          ok, rr := PaTxt(s);
          if ok {
            TxtIsParsed(b0, Strings(s).value);
          }
        case InHost(n, name, found) =>
          rr := PaHostaddr(n, name, found);
        case InBytes(bytes) =>
          rr := PaOpaque(bytes);
      }
    }

    /** What `adns__procdgram` does with the records of a reply (adns/reply.c:314-359). */
    method ParseReply(rs: seq<Incoming>) returns (ok: bool)
      requires Valid() && rs != [] && answer.rrs == [] && status == Ok
      modifies this`blocks, this`answer, this`interimAllocd, this`children, this`status
      ensures Valid() && answer.cname == old(answer).cname && answer.owner == old(answer).owner
      ensures ok <==> forall j :: 0 <= j < |rs| ==> Meaning(rs[j]).Some?
      ensures ok ==>
        && status == Ok && |rs| == |answer.rrs|
        && Says(seq(|rs|, j requires 0 <= j < |rs| => Meaning(rs[j]).value))
      ensures ok ==> children == Waiting(answer.rrs)
      ensures !ok ==> status == PermFail && children == {}
    {
      hide MemRound, Meaning, Left, Bag, ValueOf, RrTakes, RrOk, RrsTakes, AnswerTakes;
      ghost var b0 := blocks;
      children := {};
      var base := AllocInterim(Array(|rs| * rrsz));
      ghost var b1 := blocks;
      SoundStays(b0, b1, answer, rrsz);
      var rrs: seq<Rr> := [];
      NoneParsed(b1);
      ok := true;
      var i := 0;
      while i < |rs| && ok
        modifies this`blocks, this`interimAllocd, this`children
        invariant 0 <= i <= |rs| && Accounts() && answer == old(answer) && b1 <= blocks
        invariant Sound(blocks, answer, rrsz)
        invariant ok ==> forall j :: 0 <= j < i ==> Meaning(rs[j]).Some?
        invariant !ok ==> exists j :: 0 <= j < |rs| && Meaning(rs[j]).None?
        invariant ok ==> RrsParsed(b1, blocks, rrs) && |rrs| == i && children == Waiting(rrs)
        invariant ok ==> forall j :: 0 <= j < i ==> ValueOf(Mem(), rrs[j]) == Meaning(rs[j]).value
        decreases |rs| - i
      {
        ghost var b2 := blocks;
        var rr;
        ok, rr := ParseRr(rs[i]);
        SoundStays(b2, blocks, answer, rrsz);
        if ok {
          RrParsedToo(b1, b2, blocks, rrs, rr);
          WaitingMore(rrs, rr);
          if rr.Host? && rr.addrs == None && rr.naddrs == -1 {
            children := children + {i};
          }
          rrs := rrs + [rr];
        }
        i := i + 1;
      }
      if !ok {
        QueryFail(PermFail);
        return;
      }
      SoundParsed(b0, b1, blocks, answer, rrs, rrsz);
      answer := answer.(base := Some(base), rrs := rrs);
    }

    // ----- resetting -----

    /** `adns__reset_preserved`: the children are cancelled, and the answer keeps its names at most. */
    method ResetPreserved()
      requires Accounts() && finalAllocspace == 0 && Sound(blocks, answer, rrsz) && rrsz > 0
      modifies this`blocks, this`answer, this`interimAllocd, this`children
      ensures Valid() && interimAllocd == preservedAllocd && children == {}
      ensures answer == old(answer).(base := None, rrs := []) && blocks == AllKept(old(blocks))
    {
      hide MemRound, Sound, Left;
      SoundReset(blocks, answer, rrsz);
      children := {};
      answer := answer.(base := None, rrs := []);
      interimAllocd := preservedAllocd;
      blocks := AllKept(blocks);
    }

    /** `adns__query_fail`, before the query is done. */
    method QueryFail(st: Status)
      requires Accounts() && finalAllocspace == 0 && Sound(blocks, answer, rrsz) && rrsz > 0
      modifies this`blocks, this`answer, this`interimAllocd, this`children, this`status
      ensures Valid() && children == {} && status == st
      ensures answer == old(answer).(base := None, rrs := [])
    {
      ResetPreserved();
      status := st;
    }

    // ----- names -----

    /** The name that an alias leads to (adns/reply.c:196-221); there is at most one. */
    method GotCname(name: seq<byte>, dgram: seq<byte>)
      requires Valid() && status == Ok
      modifies this`blocks, this`answer, this`interimAllocd, this`preservedAllocd, this`children, this`status
      ensures Valid() && answer.rrs == (if old(answer).cname == None then old(answer).rrs else [])
      ensures if old(answer).cname == None then status == Ok && answer == old(answer).(cname := Some(|old(blocks)|))
              else status == PermFail && answer.cname == old(answer).cname
      ensures answer.owner == old(answer).owner
      ensures old(answer).cname == None ==> AnswerOk(Mem(), answer) && StringAt(Mem(), answer.cname) == AsString(name)
    {
      hide MemRound, Left, Bag, CLength, AnswerTakes;
      if answer.cname.Some? {
        QueryFail(PermFail);
        return;
      }
      ghost var b0 := blocks;
      var k := AllocPreserved(Text(name + [0]));
      SoundNamed(b0, name + [0], answer, answer.(cname := Some(k)), rrsz);
      answer := answer.(cname := Some(k));
      ghost var b1 := blocks;
      AllocMine(Text(dgram));
      SoundStays(b1, blocks, answer, rrsz);
    }

    /** `save_owner` */
    method SaveOwner(owner: seq<byte>)
      requires Valid() && answer.owner == None
      modifies this`blocks, this`answer, this`interimAllocd, this`preservedAllocd
      ensures Valid() && answer == old(answer).(owner := Some(|old(blocks)|)) && status == old(status)
      ensures children == old(children) && old(blocks) <= blocks
      ensures AnswerOk(Mem(), answer) && StringAt(Mem(), answer.owner) == AsString(owner)
    {
      hide MemRound, Left, Bag, CLength, AnswerTakes;
      ghost var b0 := blocks;
      var k := AllocPreserved(Text(owner + [0]));
      SoundNamed(b0, owner + [0], answer, answer.(owner := Some(k)), rrsz);
      answer := answer.(owner := Some(k));
    }

    // ----- children -----

    /** `icb_hostaddr`: the addresses that a child found move over to the record `i`, which waits for them.
        A temporary failure makes their number -1, a permanent one 0. */
    method HostAnswered(child: Query, i: nat)
      requires Valid() && child.Valid() && child != this && i in children
      requires child.rrsz == ADDR_SIZE && forall j :: 0 <= j < |child.answer.rrs| ==> child.answer.rrs[j].Flat?
      modifies this`blocks, this`answer, this`interimAllocd, this`children, child`blocks, child`interimAllocd
      ensures Valid() && children == old(children) - {i}
      ensures answer == old(answer).(rrs := answer.rrs) && |answer.rrs| == |old(answer).rrs| && old(blocks) <= blocks
      ensures AnswerOk(Mem(), answer) && old(AnswerOk(Mem(), answer))
      ensures forall j :: 0 <= j < |answer.rrs| && j != i ==>
        answer.rrs[j] == old(answer).rrs[j] && ValueOf(Mem(), answer.rrs[j]) == old(ValueOf(Mem(), answer.rrs[j]))
      ensures i < |answer.rrs| && old(ValueOf(Mem(), answer.rrs[i]).HostValue?)
      ensures var found := old(FlatData(child.answer.rrs));
        ValueOf(Mem(), answer.rrs[i]) == old(ValueOf(Mem(), answer.rrs[i])).(
          naddrs := if old(child.status) == TempFail then -1 else |found|,
          addrs := if found == [] then None else Some(found))
      // What was counted for them moves over, too.
      ensures interimAllocd + child.interimAllocd == old(interimAllocd + child.interimAllocd)
      ensures interimAllocd == old(interimAllocd)
        + if old(child.answer.rrs) == [] then 0 else MemRound(|old(child.answer.rrs)| * ADDR_SIZE)
    {
      hide MemRound, Left, Bag, CLength, StrTakes, StringAt, Covered, Once, AnswerTakes, RrsTakes, CoveredTake, Counts,
        PreservedCounts;
      ghost var b0 := blocks;
      var rrs := child.answer.rrs;
      var naddrs := if child.status == TempFail then -1 else |rrs|;
      var addrs: Ptr := None;
      if rrs != [] {
        // `adns__transfer_interim`
        ArrayIsCovered(child.blocks, child.answer, ADDR_SIZE);
        addrs := Some(|blocks|);
        CountsMore(blocks, Block(Addresses(FlatData(rrs)), MemRound(|rrs| * ADDR_SIZE), false));
        blocks := blocks + [Block(Addresses(FlatData(rrs)), MemRound(|rrs| * ADDR_SIZE), false)];
        child.blocks := child.blocks[child.answer.base.value := Block(Array(0), 0, false)];
        child.interimAllocd := child.interimAllocd - MemRound(|rrs| * ADDR_SIZE);
        interimAllocd := interimAllocd + MemRound(|rrs| * ADDR_SIZE);
      }
      HostFilled(b0, blocks, answer, i, naddrs, addrs, FlatData(rrs), rrsz);
      answer := answer.(rrs := answer.rrs[i := answer.rrs[i].(naddrs := naddrs, addrs := addrs)]);
      children := children - {i};
    }

    /** The sort of the records when the query is done. */
    method Sort(sorted: seq<Rr>)
      requires Valid() && children == {} && multiset(sorted) == multiset(answer.rrs)
      modifies this`answer
      ensures Valid() && answer == old(answer).(rrs := sorted)
    {
      hide MemRound, Left, Bag, AnswerTakes, Waiting;
      SoundSorted(blocks, answer, sorted, rrsz);
      NoneSorted(answer.rrs, sorted);
      answer := answer.(rrs := sorted);
    }

    // ----- making the answer final -----

    ghost function Now(): Stage
      reads this
    {
      Stage(interimAllocd, finalAllocspace, image, copies)
    }

    /** `adns__alloc_final` */
    method AllocFinal(sz: nat) returns (rp: nat)
      requires finalAllocspace > 0 && interimAllocd >= MemRound(sz)
      modifies this`interimAllocd, this`finalAllocspace
      ensures rp == old(finalAllocspace) && finalAllocspace == rp + MemRound(sz)
      ensures interimAllocd == old(interimAllocd) - MemRound(sz) >= 0
    {
      var s := MemRound(sz);
      rp := finalAllocspace;
      interimAllocd := interimAllocd - s;
      assert interimAllocd >= 0;
      finalAllocspace := rp + s;
    }

    /** `adns__makefinal_block`, for the block `from`, which now has this content. */
    method CopyFinal(c: Content, ghost from: nat) returns (rp: nat)
      requires finalAllocspace > 0 && Filled(Now()) && interimAllocd >= MemRound(c.Size()) && c.Size() > 0
      modifies this`interimAllocd, this`finalAllocspace, this`image, this`copies
      ensures finalAllocspace > 0 && Filled(Now()) && Advanced(old(Now()), Now(), [Take(from, c.Size())])
      ensures interimAllocd >= 0
      ensures rp == old(finalAllocspace) && rp !in old(image) && image == old(image)[rp := c]
    {
      SumOfOne(Take(from, c.Size()));
      PlacedOne(Take(from, c.Size()), finalAllocspace);
      rp := AllocFinal(c.Size());
      image := image[rp := c];
      copies := copies + [Copy(Take(from, c.Size()), rp)];
    }

    /** `adns__makefinal_str` */
    method FinalStr(p: Ptr) returns (q: Ptr)
      requires finalAllocspace > 0 && Filled(Now()) && IsText(Mem(), p) && interimAllocd >= Sum(StrTakes(Mem(), p))
      modifies this`interimAllocd, this`finalAllocspace, this`image, this`copies
      ensures finalAllocspace > 0 && Filled(Now()) && Advanced(old(Now()), Now(), StrTakes(Mem(), p))
      ensures interimAllocd >= 0
      ensures IsText(image, q) && StringAt(image, q) == StringAt(Mem(), p)
    {
      hide MemRound, CLength, Advanced, Filled, Sum, Placed;
      q := None;
      AdvancedNowhere(Now());
      SumOfOne(Take(0, 0));
      if p.Some? {
        var before := blocks[p.value].content.bytes;
        var l := CLength(before) + 1;
        SumOfOne(Take(p.value, l));
        SameString(before);
        var after := CopyFinal(Text(before[..l]), p.value);
        q := Some(after);
      }
    }

    /** `mf_manyistr`. The table is copied, and then its entries are set, one after the other. */
    method FinalTable(p: nat) returns (t: nat)
      requires finalAllocspace > 0 && Filled(Now()) && RrOk(Mem(), Many(Some(p)))
      requires interimAllocd >= Sum(RrTakes(Mem(), Many(Some(p))))
      modifies this`interimAllocd, this`finalAllocspace, this`image, this`copies
      ensures finalAllocspace > 0 && Filled(Now()) && interimAllocd >= 0
      ensures Advanced(old(Now()), Now(), RrTakes(Mem(), Many(Some(p))))
      ensures RrOk(image, Many(Some(t))) && ValueOf(image, Many(Some(t))) == ValueOf(Mem(), Many(Some(p)))
    {
      hide MemRound, CLength, Advanced, Filled, Sum, Placed, EntryTakes, StrTakes, StringAt, IsText, EntriesOk, Items;
      ghost var m, s0 := Mem(), Now();
      var entries := blocks[p].content.entries;
      var tc := CountEntries(m, entries);
      ghost var first, front := Take(p, INTSTR_SIZE * |entries|), entries[..tc];
      SumOfBoth([first], EntryTakes(m, front));
      SumOfOne(first);
      t := CopyFinal(Table(entries), p);
      NothingSet(m, image, entries, tc);
      AdvancedEmpty(s0, Now(), first);
      for j := 0 to tc
        modifies this`interimAllocd, this`finalAllocspace, this`image, this`copies
        invariant finalAllocspace > 0 && Filled(Now()) && interimAllocd >= 0 && t !in s0.image && t >= s0.space
        invariant EntriesOk(m, entries[..j]) && Advanced(s0, Now(), [first] + EntryTakes(m, entries[..j]))
        invariant TableSet(m, entries, image, t, j, tc)
      {
        ghost var s1, im1 := Now(), image;
        EntryNext(m, entries, j, tc);
        EnoughForNext(s0, s1, m, entries, j, tc, first);
        var te := image[t].entries[j];
        NextUnset(m, entries, image, t, j, tc);
        var str := FinalStr(te.str);
        AdvancedTwice(s0, s1, Now(), [first] + EntryTakes(m, entries[..j]), StrTakes(m, te.str));
        assert [first] + EntryTakes(m, entries[..j]) + StrTakes(m, te.str) == [first] + EntryTakes(m, entries[..j + 1]);
        AdvancedGrows(s1, Now(), StrTakes(m, te.str));
        EntrySet(m, entries, im1, image, t, j, tc, str);
        ghost var s2 := Now();
        image := image[t := Table(image[t].entries[j := te.(str := str)])];
        Overwritten(s0, s2, Now(), t, [first] + EntryTakes(m, entries[..j + 1]));
      }
      assert entries[..tc] == front;
      AllSet(m, entries, image, t, tc, p);
    }

    /** `typei->makefinal` */
    method FinalRr(rr: Rr) returns (to: Rr)
      requires finalAllocspace > 0 && Filled(Now()) && RrOk(Mem(), rr) && interimAllocd >= Sum(RrTakes(Mem(), rr))
      modifies this`interimAllocd, this`finalAllocspace, this`image, this`copies
      ensures finalAllocspace > 0 && Filled(Now()) && Advanced(old(Now()), Now(), RrTakes(Mem(), rr))
      ensures interimAllocd >= 0
      ensures RrOk(image, to) && ValueOf(image, to) == ValueOf(Mem(), rr)
    {
      hide MemRound, CLength, Advanced, Filled, Sum, Placed, EntryTakes, StrTakes, StringAt, IsText, EntriesOk, Items;
      ghost var m, s0 := Mem(), Now();
      AdvancedNowhere(s0);
      SumOfOne(Take(0, 0));
      match rr {
        case Flat(_) =>
          to := rr;
        case Str(n, p) =>
          var q := FinalStr(p);
          to := Str(n, q);
        case Pair(n, p, q) =>
          SumOfBoth(StrTakes(m, p), StrTakes(m, q));
          var one := FinalStr(p);
          ghost var s1, im1 := Now(), image;
          AdvancedSum(s0, s1, StrTakes(m, p), StrTakes(m, q));
          var two := FinalStr(q);
          AdvancedTwice(s0, s1, Now(), StrTakes(m, p), StrTakes(m, q));
          AdvancedGrows(s1, Now(), StrTakes(m, q));
          TextStays(im1, image, one);
          to := Pair(n, one, two);
        case Many(p) =>
          var t := FinalTable(p.value);
          to := Many(Some(t));
        case Host(_, _, _, _) =>
          to := FinalHost(rr);
        case Bytes(len, p) =>
          var q: nat;
          if len > 0 {
            SumOfOne(Take(p.value, len));
            q := CopyFinal(blocks[p.value].content, p.value);
          } else {
            q := AllocFinal(0);
          }
          to := Bytes(len, Some(q));
      }
    }

    /** `mfp_hostaddr` */
    method FinalHost(rr: Rr) returns (to: Rr)
      requires rr.Host?
      requires finalAllocspace > 0 && Filled(Now()) && RrOk(Mem(), rr) && interimAllocd >= Sum(RrTakes(Mem(), rr))
      modifies this`interimAllocd, this`finalAllocspace, this`image, this`copies
      ensures finalAllocspace > 0 && Filled(Now()) && Advanced(old(Now()), Now(), RrTakes(Mem(), rr))
      ensures interimAllocd >= 0
      ensures RrOk(image, to) && ValueOf(image, to) == ValueOf(Mem(), rr)
    {
      hide MemRound, CLength, Advanced, Filled, Sum, Placed, StrTakes, StringAt, IsText;
      ghost var m, s0 := Mem(), Now();
      ghost var more := if rr.addrs.Some? then [Take(rr.addrs.value, rr.naddrs * ADDR_SIZE)] else [];
      assert RrTakes(m, rr) == StrTakes(m, rr.host) + more;
      SumOfBoth(StrTakes(m, rr.host), more);
      var h := FinalStr(rr.host);
      ghost var s1, im1 := Now(), image;
      AdvancedSum(s0, s1, StrTakes(m, rr.host), more);
      var a: Ptr := None;
      AdvancedNowhere(s1);
      if rr.addrs.Some? {
        SumOfOne(Take(rr.addrs.value, rr.naddrs * ADDR_SIZE));
        var k := CopyFinal(blocks[rr.addrs.value].content, rr.addrs.value);
        a := Some(k);
      }
      AdvancedTwice(s0, s1, Now(), StrTakes(m, rr.host), more);
      AdvancedGrows(s1, Now(), more);
      TextStays(im1, image, h);
      to := rr.(host := h, addrs := a);
    }

    /** `makefinal_query`, for an answer whose own size is `size`. If there is memory, all that it points to is
        copied behind it, into one block of `total` bytes: the answer says the same as before; the copies fill
        the block one behind the other, with nothing taken that was not counted. Without memory, which can
        only happen when anything was counted, nothing is left of the answer but the status. */
    method MakeFinal(size: nat) returns (total: nat, found: bool)
      requires Valid() && size > 0 && children == {} && image == map[] && copies == []
      modifies this
      ensures AnswerOk(image, answer) && interimAllocd >= 0 && blocks == []
      ensures !found ==> old(interimAllocd) > 0 && Dropped() && total == size
      ensures found ==> total == MemRound(MemRound(size) + old(interimAllocd)) && status == old(status)
      ensures found ==> old(AnswerOk(Mem(), answer)) && SameAnswer(old(Mem()), old(answer), image, answer)
      ensures var takes := AnswerTakes(old(Mem()), old(answer), rrsz);
        found ==>
          copies == Placed(takes, MemRound(size)) && MemRound(size) + Sum(takes) <= total && Once(Bag(takes))
      ensures forall c :: c in copies ==> c.pos in image && image[c.pos].Size() == c.take.size
    {
      found := *;
      found := found || interimAllocd == 0;
      if found {
        total := CopyAll(size);
      } else {
        GiveUpAnswer();
        total := size;
      }
    }

    /** No memory: no names, no records, no blocks. */
    ghost predicate Dropped()
      reads this
    {
      && answer == Answer(None, None, None, []) && status == NoMemory && blocks == []
      && interimAllocd == 0 == preservedAllocd && children == {} && image == map[] && copies == []
    }

    method GiveUpAnswer()
      requires image == map[] && copies == []
      modifies this`answer, this`status, this`blocks, this`interimAllocd, this`preservedAllocd, this`children
      ensures Dropped()
    {
      preservedAllocd := 0;
      answer := answer.(cname := None, owner := None);
      // `adns__reset_preserved`
      children := {};
      answer := answer.(base := None, rrs := []);
      interimAllocd := preservedAllocd;
      status := NoMemory;
      blocks := [];
    }

    method CopyAll(size: nat) returns (total: nat)
      requires Valid() && size > 0 && children == {} && image == map[] && copies == []
      modifies this`answer, this`blocks, this`interimAllocd, this`finalAllocspace, this`image, this`copies
      ensures total == MemRound(MemRound(size) + old(interimAllocd)) && interimAllocd >= 0 && blocks == []
      ensures old(AnswerOk(Mem(), answer)) && AnswerOk(image, answer)
      ensures SameAnswer(old(Mem()), old(answer), image, answer)
      ensures var takes := AnswerTakes(old(Mem()), old(answer), rrsz);
        && copies == Placed(takes, MemRound(size)) && MemRound(size) + Sum(takes) <= total && Once(Bag(takes))
      ensures forall c :: c in copies ==> c.pos in image && image[c.pos].Size() == c.take.size
    {
      hide MemRound, CLength, Advanced, Sum, Placed, StrTakes, StringAt, IsText, RrsTakes, RrTakes, RrOk, ValueOf,
           Left, Bag;
      ghost var m, ans := Mem(), answer;
      ghost var takes := AnswerTakes(m, ans, rrsz);
      SoundFits(blocks, ans, rrsz);
      RoundingGrows(MemRound(size) + interimAllocd);
      RoundingGrows(size);
      total := MemRound(MemRound(size) + interimAllocd);
      finalAllocspace := MemRound(size);
      ghost var s0 := Now();
      ghost var names, more := NameTakes(m, ans),
        if ans.rrs == [] then [] else [Take(ans.base.value, |ans.rrs| * rrsz)] + RrsTakes(m, ans.rrs);
      WithoutRecords(m, ans, rrsz);
      SumOfBoth(names, more);
      var cname, owner := FinalNames();
      ghost var s1, im1 := Now(), image;
      AdvancedSum(s0, s1, names, more);
      var base, rrs := FinalRecords();
      AdvancedTwice(s0, s1, Now(), names, more);
      AdvancedGrows(s1, Now(), more);
      TextStays(im1, image, cname);
      TextStays(im1, image, owner);
      AdvancedAll(s0, Now(), takes);
      answer := Answer(cname, owner, base, rrs);
      // `free_query_allocs`
      blocks := [];
    }

    method FinalNames() returns (cname: Ptr, owner: Ptr)
      requires finalAllocspace > 0 && Filled(Now()) && AnswerOk(Mem(), answer)
      requires interimAllocd >= Sum(NameTakes(Mem(), answer))
      modifies this`interimAllocd, this`finalAllocspace, this`image, this`copies
      ensures finalAllocspace > 0 && Filled(Now()) && Advanced(old(Now()), Now(), NameTakes(Mem(), answer))
      ensures interimAllocd >= 0
      ensures IsText(image, cname) && StringAt(image, cname) == StringAt(Mem(), answer.cname)
      ensures IsText(image, owner) && StringAt(image, owner) == StringAt(Mem(), answer.owner)
    {
      hide MemRound, CLength, Advanced, Filled, Sum, Placed, StrTakes, StringAt, IsText;
      ghost var m, s0 := Mem(), Now();
      SumOfBoth(StrTakes(m, answer.cname), StrTakes(m, answer.owner));
      cname := FinalStr(answer.cname);
      ghost var s1, im1 := Now(), image;
      AdvancedSum(s0, s1, StrTakes(m, answer.cname), StrTakes(m, answer.owner));
      owner := FinalStr(answer.owner);
      AdvancedTwice(s0, s1, Now(), StrTakes(m, answer.cname), StrTakes(m, answer.owner));
      AdvancedGrows(s1, Now(), StrTakes(m, answer.owner));
      TextStays(im1, image, cname);
    }

    method FinalRecords() returns (base: Ptr, rrs: seq<Rr>)
      requires finalAllocspace > 0 && Filled(Now()) && AnswerOk(Mem(), answer) && rrsz > 0
      requires interimAllocd >= Sum(if answer.rrs == [] then [] else
                 [Take(answer.base.value, |answer.rrs| * rrsz)] + RrsTakes(Mem(), answer.rrs))
      requires interimAllocd >= 0
      modifies this`interimAllocd, this`finalAllocspace, this`image, this`copies
      ensures finalAllocspace > 0 && Filled(Now()) && interimAllocd >= 0
      ensures Advanced(old(Now()), Now(), if answer.rrs == [] then [] else
                [Take(answer.base.value, |answer.rrs| * rrsz)] + RrsTakes(Mem(), answer.rrs))
      ensures RrsOk(image, rrs) && |rrs| == |answer.rrs| && (rrs != [] ==> base.Some?)
      ensures forall j :: 0 <= j < |rrs| ==>
        RrOk(Mem(), answer.rrs[j]) && ValueOf(image, rrs[j]) == ValueOf(Mem(), answer.rrs[j])
    {
      hide MemRound, CLength, Advanced, Filled, Sum, Placed, RrTakes, RrOk, ValueOf, StrTakes, IsText, RrsTakes;
      ghost var m, s0 := Mem(), Now();
      base, rrs := None, [];
      AdvancedNowhere(s0);
      if answer.rrs == [] {
        return;
      }
      ghost var first := Take(answer.base.value, |answer.rrs| * rrsz);
      SumOfBoth([first], RrsTakes(m, answer.rrs));
      SumOfOne(first);
      SizeOfRecords(|answer.rrs|, rrsz);
      var at := CopyFinal(Array(|answer.rrs| * rrsz), answer.base.value);
      base := Some(at);
      AdvancedEmpty(s0, Now(), first);
      NoRecords(m);
      for i := 0 to |answer.rrs|
        modifies this`interimAllocd, this`finalAllocspace, this`image, this`copies
        invariant finalAllocspace > 0 && Filled(Now()) && interimAllocd >= 0 && |rrs| == i && RrsOk(image, rrs)
        invariant Advanced(s0, Now(), [first] + RrsTakes(m, answer.rrs[..i]))
        invariant forall j :: 0 <= j < i ==> ValueOf(image, rrs[j]) == ValueOf(m, answer.rrs[j])
      {
        ghost var s1, im1 := Now(), image;
        RrsNext(m, answer.rrs, i);
        EnoughForRr(s0, s1, m, answer.rrs, i, first);
        var rr := FinalRr(answer.rrs[i]);
        AdvancedTwice(s0, s1, Now(), [first] + RrsTakes(m, answer.rrs[..i]), RrTakes(m, answer.rrs[i]));
        assert [first] + RrsTakes(m, answer.rrs[..i]) + RrTakes(m, answer.rrs[i]) ==
          [first] + RrsTakes(m, answer.rrs[..i + 1]);
        AdvancedGrows(s1, Now(), RrTakes(m, answer.rrs[i]));
        RrsStay(im1, image, rrs);
        RrsOne(image, rrs, rr);
        rrs := rrs + [rr];
      }
      assert answer.rrs[..|answer.rrs|] == answer.rrs;
    }
  }

  lemma RoundingGrows(sz: nat)
    ensures MemRound(sz) >= sz
  {
  }

  lemma SizeOfRecords(n: nat, rrsz: nat)
    requires n > 0 && rrsz > 0
    ensures n * rrsz > 0
  {
  }

  lemma AdvancedEmpty(a: Stage, b: Stage, t: Take)
    requires Advanced(a, b, [t])
    ensures Advanced(a, b, [t] + []) && Advanced(a, b, [t] + EntryTakes(map[], []))
    ensures Advanced(a, b, [t] + RrsTakes(map[], []))
  {
    assert [t] + [] == [t];
  }

  lemma NoRecords(m: Memory)
    ensures RrsTakes(m, []) == RrsTakes(map[], []) == []
  {
  }

  lemma AdvancedGrows(a: Stage, b: Stage, takes: seq<Take>)
    requires Advanced(a, b, takes)
    ensures Grows(a.image, b.image) && KeepsTexts(a.image, b.image)
  {
    SameTexts(a.image, b.image);
  }

  lemma AdvancedAll(a: Stage, b: Stage, takes: seq<Take>)
    requires Advanced(a, b, takes) && a.copies == []
    ensures b.copies == Placed(takes, a.space)
  {
  }

  lemma NoneSorted(rrs: seq<Rr>, sorted: seq<Rr>)
    requires multiset(sorted) == multiset(rrs)
    ensures rrs == [] <==> sorted == []
  {
    assert |multiset(sorted)| == |sorted| && |multiset(rrs)| == |rrs|;
  }

  // ----- any life of a query -----

  /** What may happen to the answer of a query: its owner is noted, an alias, the records of a reply,
      addresses found by a child or a child that failed, being asked again, and failure. */
  datatype Step =
    | Named(owner: seq<byte>)
    | Alias(name: seq<byte>, dgram: seq<byte>)
    | Replied(rs: seq<Incoming>)
    | Found(i: nat, addrs: seq<nat>)
    | NotFound(i: nat, temporary: bool)
    | AskedAgain
    | Failed(temporary: bool)

  function AsRecords(addrs: seq<nat>): seq<Incoming> {
    seq(|addrs|, j requires 0 <= j < |addrs| => InFlat(addrs[j]))
  }

  lemma OnlyFlat(q: Query, addrs: seq<nat>)
    requires |q.answer.rrs| == |addrs|
    requires q.Says(seq(|addrs|, j requires 0 <= j < |addrs| => FlatValue(addrs[j])))
    ensures forall j :: 0 <= j < |addrs| ==> q.answer.rrs[j] == Flat(addrs[j])
  {
  }

  /** A child query that found these addresses, or that failed. */
  method ChildQuery(addrs: seq<nat>, temporary: bool) returns (child: Query)
    ensures fresh(child) && child.Valid() && child.rrsz == ADDR_SIZE && |child.answer.rrs| == |addrs|
    ensures forall j :: 0 <= j < |addrs| ==> child.answer.rrs[j] == Flat(addrs[j])
    ensures child.status == if addrs != [] then Ok else if temporary then TempFail else PermFail
  {
    child := new Query(ADDR_SIZE);
    if addrs == [] {
      child.QueryFail(if temporary then TempFail else PermFail);
    } else {
      var rs := AsRecords(addrs);
      var ok := child.ParseReply(rs);
      assert forall j :: 0 <= j < |rs| ==> Meaning(rs[j]) == Some(FlatValue(addrs[j]));
      assert seq(|rs|, j requires 0 <= j < |rs| => Meaning(rs[j]).value) ==
             seq(|addrs|, j requires 0 <= j < |addrs| => FlatValue(addrs[j]));
      OnlyFlat(child, addrs);
    }
  }

  method Happens(q: Query, step: Step)
    requires q.Valid()
    modifies q`blocks, q`answer, q`interimAllocd, q`preservedAllocd, q`children, q`status
    ensures q.Valid()
    ensures match step
            case Named(_) => q.answer.owner.Some?
            case Alias(_, _) => old(q.status == Ok && q.answer.rrs == []) ==> q.answer.cname.Some? || q.status != Ok
            case Replied(rs) =>
              old(q.status == Ok && q.answer.rrs == []) && rs != [] ==>
                if forall j :: 0 <= j < |rs| ==> Meaning(rs[j]).Some? then |q.answer.rrs| == |rs|
                else q.status == PermFail
            case Found(i, addrs) => addrs != [] ==> q.children == old(q.children) - {i}
            case NotFound(i, _) => q.children == old(q.children) - {i}
            case AskedAgain => old(q.status) == Ok ==> q.answer.rrs == [] && q.children == {}
            case Failed(temporary) => q.status == (if temporary then TempFail else PermFail) && q.answer.rrs == []
  {
    hide Query.Says, Sound, MemRound;
    match step
    case Named(owner) =>
      if q.answer.owner == None {
        q.SaveOwner(owner);
      }
    case Alias(name, dgram) =>
      if q.status == Ok && q.answer.rrs == [] {
        q.GotCname(name, dgram);
      }
    case Replied(rs) =>
      if q.status == Ok && q.answer.rrs == [] && rs != [] {
        var _ := q.ParseReply(rs);
      }
    case Found(i, addrs) =>
      if i in q.children && addrs != [] {
        var child := ChildQuery(addrs, false);
        q.HostAnswered(child, i);
      }
    case NotFound(i, temporary) =>
      if i in q.children {
        var child := ChildQuery([], temporary);
        q.HostAnswered(child, i);
      }
    case AskedAgain =>
      if q.status == Ok {
        q.ResetPreserved();
      }
    case Failed(temporary) =>
      q.QueryFail(if temporary then TempFail else PermFail);
  }

  /** Whatever happened to the answer before, it can be made final: if there is memory, all copies are inside the
      one block, one behind the other, each of another block; otherwise nothing is left of it. */
  method Life(rrsz: nat, size: nat, steps: seq<Step>) returns (q: Query, total: nat, found: bool)
    requires rrsz > 0 && size > 0
    ensures fresh(q) && q.interimAllocd >= 0 && q.blocks == [] && AnswerOk(q.image, q.answer)
    ensures !found ==> q.Dropped()
    ensures found ==>
      exists takes ::
        q.copies == Placed(takes, MemRound(size)) && Once(Bag(takes)) && MemRound(size) + Sum(takes) <= total
    ensures forall c :: c in q.copies ==> c.pos in q.image && q.image[c.pos].Size() == c.take.size
  {
    hide Sound, MemRound, Left, SameAnswer, AnswerTakes, Placed, Bag, Sum, AnswerOk;
    q := new Query(rrsz);
    for i := 0 to |steps|
      invariant fresh(q) && q.Valid() && q.image == map[] && q.copies == []
    {
      Happens(q, steps[i]);
    }
    if q.children != {} {
      q.QueryFail(TempFail);
    }
    var sorted :| multiset(sorted) == multiset(q.answer.rrs);
    q.Sort(sorted);
    total, found := q.MakeFinal(size);
  }
}
