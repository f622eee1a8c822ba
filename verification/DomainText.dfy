/**
 Domain names as text. Printing quotes the bytes of a label (`vbuf__append_quoted1035`,
 adns/parse.c:29-53); parsing reads one label of a query domain (`adns__qdpl_normal`,
 adns/transmit.c:77-119). The text form is that of section 5.1 of RFC 1035, except that the printer
 writes the number of a byte in octal and the parser reads it in decimal.
 */
module DomainText {
  import opened Wrappers

  type Label = seq<byte>

  const DOT: byte := 46
  const HYPHEN: byte := 45
  const BACKSLASH: byte := 92
  const ZERO: byte := 48

  const MAX_LABEL := 63
  const MAX_DOMAIN := 255

  predicate IsDigit(c: byte) { 48 <= c <= 57 }

  predicate IsAlpha(c: byte) { 97 <= c <= 122 || 65 <= c <= 90 }

  /** `ctype_domainunquoted`: letters, digits and `-_/+`. */
  predicate Unquoted(c: byte) { IsAlpha(c) || IsDigit(c) || c == 45 || c == 95 || c == 47 || c == 43 }

  const SMALL := "abcdefghijklmnopqrstuvwxyz"
  const CAPITAL := "ABCDEFGHIJKLMNOPQRSTUVWXYZ"
  const DIGITS := "0123456789"

  lemma SmallAre(c: byte)
    ensures 97 <= c <= 122 <==> c as char in SMALL
  {
    if 97 <= c <= 122 {
      assert SMALL[c - 97] == c as char;
    }
  }

  lemma CapitalAre(c: byte)
    ensures 65 <= c <= 90 <==> c as char in CAPITAL
  {
    if 65 <= c <= 90 {
      assert CAPITAL[c - 65] == c as char;
    }
  }

  lemma DigitsAre(c: byte)
    ensures IsDigit(c) <==> c as char in DIGITS
  {
    if IsDigit(c) {
      assert DIGITS[c - 48] == c as char;
    }
  }

  /** Which characters these are. */
  lemma CharactersAre(c: byte)
    ensures IsAlpha(c) <==> c as char in SMALL || c as char in CAPITAL
    ensures IsDigit(c) <==> c as char in DIGITS
    ensures Unquoted(c) <==> IsAlpha(c) || IsDigit(c) || c as char in "-_/+"
    ensures DOT == '.' as byte && HYPHEN == '-' as byte && BACKSLASH == '\\' as byte && ZERO == '0' as byte
  {
    SmallAre(c);
    CapitalAre(c);
    DigitsAre(c);
  }

  // ----- printing -----

  function Octal(b: byte): seq<byte> {
    [ZERO + b / 64, ZERO + b / 8 % 8, ZERO + b % 8]
  }

  function Escaped(b: byte): seq<byte> {
    if b <= 32 || b >= 127 then [BACKSLASH] + Octal(b)
    else if Unquoted(b) then [b]
    else [BACKSLASH, b]
  }

  function Quoted(x: Label): seq<byte> {
    if x == [] then [] else Escaped(x[0]) + Quoted(x[1..])
  }

  /** What `parse_domain_more` prints for the labels of a name. */
  function Printed(labels: seq<Label>): seq<byte> {
    if labels == [] then []
    else if |labels| == 1 then Quoted(labels[0])
    else Quoted(labels[0]) + [DOT] + Printed(labels[1..])
  }

  /** A `vbuf`: a buffer that grows when something is appended. */
  class Vbuf {
    var used: seq<byte>

    constructor ()
      ensures used == []
    {
      used := [];
    }

    method Append(data: seq<byte>)
      modifies this
      ensures used == old(used) + data
    {
      used := used + data;
    }
  }

  lemma QuotedConcat(a: Label, b: Label)
    ensures Quoted(a + b) == Quoted(a) + Quoted(b)
  {
    if a == [] {
      assert a + b == b;
    } else {
      assert (a + b)[1..] == a[1..] + b;
      QuotedConcat(a[1..], b);
    }
  }

  /** Bytes that need no quoting stand for themselves. */
  lemma {:induction false} QuotedPlain(x: Label)
    requires forall k :: 0 <= k < |x| ==> 32 < x[k] < 127 && Unquoted(x[k])
    ensures Quoted(x) == x
  {
    if x != [] {
      QuotedPlain(x[1..]);
    }
  }

  /** The length of the run of bytes that stand for themselves, and how the byte after it is quoted. */
  method PlainRun(buf: Label) returns (i: nat, qbuf: seq<byte>)
    ensures i <= |buf|
    ensures Quoted(buf[..i]) == buf[..i]
    ensures if i < |buf| then qbuf == Escaped(buf[i]) && qbuf != [] else qbuf == []
  {
    hide Quoted, Octal, Unquoted;
    i, qbuf := 0, [];
    while i < |buf|
      invariant 0 <= i <= |buf|
      invariant forall k :: 0 <= k < i ==> 32 < buf[k] < 127 && Unquoted(buf[k])
    {
      var ch := buf[i];
      if ch <= 32 || ch >= 127 {
        qbuf := [BACKSLASH] + Octal(ch);
        break;
      } else if !Unquoted(ch) {
        qbuf := [BACKSLASH, ch];
        break;
      }
      i := i + 1;
    }
    QuotedPlain(buf[..i]);
  }

  lemma QuotedRun(run: Label, c: byte, rest: Label)
    requires Quoted(run) == run
    ensures Quoted(run + [c] + rest) == run + Escaped(c) + Quoted(rest)
  {
    hide Escaped, Quoted;
    var behind := [c] + rest;
    assert run + [c] + rest == run + behind;
    QuotedConcat(run, behind);
    QuotedHead(behind);
    assert behind[1..] == rest;
    Associates(run, Escaped(c), Quoted(rest));
  }

  lemma Associates(a: seq<byte>, b: seq<byte>, c: seq<byte>)
    ensures a + (b + c) == a + b + c
  {
  }

  lemma QuotedHead(t: Label)
    requires t != []
    ensures Quoted(t) == Escaped(t[0]) + Quoted(t[1..])
  {
  }

  method AppendQuoted(vb: Vbuf, given: Label)
    modifies vb
    ensures vb.used == old(vb.used) + Quoted(given)
  {
    hide Quoted, Escaped;
    var buf := given;
    while buf != []
      invariant vb.used + Quoted(buf) == old(vb.used) + Quoted(given)
      decreases |buf|
    {
      var i: nat, qbuf := PlainRun(buf);
      ghost var before, run := vb.used, buf[..i];
      vb.Append(buf[..i]);
      vb.Append(qbuf);
      if i < |buf| {
        QuotedRun(run, buf[i], buf[i + 1..]);
        assert buf == run + [buf[i]] + buf[i + 1..];
        Associates(before, run, qbuf);
        Associates(before, run + qbuf, Quoted(buf[i + 1..]));
        i := i + 1;
      } else {
        assert buf == run && buf[i..] == [];
        QuotedNothing();
      }
      buf := buf[i..];
    }
    QuotedNothing();
  }

  lemma QuotedNothing()
    ensures Quoted([]) == []
  {
  }

  // ----- parsing -----

  datatype Status =
    Ok | QueryDomainInvalid | QueryDomainTooLong
    | InvalidResponse | UnknownFormat | AnswerDomainTooLong | AnswerDomainInvalid

  /** One byte of a label, written with `used` characters. */
  datatype Read = Bad | Got(c: byte, used: nat)

  /** The character after the last is the terminator of the string. */
  function CharAt(t: seq<byte>, k: nat): byte { if k < |t| then t[k] else 0 }

  function ReadByte(t: seq<byte>, quoteok: bool): (r: Read)
    requires t != []
    ensures r.Got? ==> 0 < r.used <= |t|
  {
    if t[0] != BACKSLASH then Got(t[0], 1)
    else if !quoteok then Bad
    else if IsDigit(CharAt(t, 1)) then
      if |t| >= 4 && IsDigit(t[2]) && IsDigit(t[3]) then
        var c := (t[1] - ZERO) * 100 + (t[2] - ZERO) * 10 + (t[3] - ZERO);
        if c >= 256 then Bad else Got(c, 4)
      else Bad
    else if CharAt(t, 1) == 0 then Bad
    else Got(t[1], 2)
  }

  /** Letters, digits and, but not first, hyphens. */
  predicate HostByte(c: byte, first: bool) {
    IsAlpha(c) || IsDigit(c) || (c == HYPHEN && !first)
  }

  datatype ParsedLabel = BadLabel | ParsedLabel(bytes: Label, rest: seq<byte>)

  /** The label at the head of `t`, after the bytes `sofar` of it; at most `room` bytes. */
  function ParseLabel(t: seq<byte>, quoteok: bool, room: nat, sofar: Label): (r: ParsedLabel)
    ensures r.ParsedLabel? ==> sofar <= r.bytes && |r.rest| <= |t| && (t != [] ==> |r.rest| < |t|)
    decreases |t|
  {
    if t == [] then ParsedLabel(sofar, [])
    else if t[0] == DOT then ParsedLabel(sofar, t[1..])
    else
      match ReadByte(t, quoteok)
      case Bad => BadLabel
      case Got(c, used) =>
        if (!quoteok && !HostByte(c, sofar == [])) || |sofar| == room then BadLabel
        else ParseLabel(t[used..], quoteok, room, sofar + [c])
  }

  /** What comes after a backslash at `owner[p - 1]`. */
  method EscapedByte(owner: seq<byte>, p0: nat) returns (ok: bool, c: byte, p: nat)
    requires 0 < p0 <= |owner| && owner[p0 - 1] == BACKSLASH
    ensures p0 <= p <= |owner|
    ensures ReadByte(owner[p0 - 1..], true) == if ok then Got(c, p - p0 + 1) else Bad
  {
    p := p0;
    if IsDigit(CharAt(owner, p)) {
      if p + 1 == |owner| || p + 2 == |owner| {
        return false, 0, p;
      }
      if IsDigit(owner[p + 1]) && IsDigit(owner[p + 2]) {
        var n := (owner[p] - ZERO) * 100;
        n := n + (owner[p + 1] - ZERO) * 10;
        n := n + (owner[p + 2] - ZERO);
        p := p + 3;
        if n >= 256 {
          return false, 0, p;
        }
        return true, n, p;
      }
      return false, 0, p;
    }
    c := CharAt(owner, p);
    if c == 0 {
      return false, c, p;
    }
    return true, c, p + 1;
  }

  /** The byte of a label at `owner[p0]`, which is no dot; `first` says that it is the first of its label. */
  method NextByte(owner: seq<byte>, p0: nat, quoteok: bool, first: bool) returns (ok: bool, c: byte, p: nat)
    requires p0 < |owner|
    ensures p0 < p <= |owner|
    ensures var r := ReadByte(owner[p0..], quoteok);
            if ok then r == Got(c, p - p0) && (quoteok || HostByte(c, first))
            else r == Bad || (!quoteok && !HostByte(r.c, first))
  {
    hide IsAlpha, IsDigit, HostByte, ReadByte;
    c, p := owner[p0], p0 + 1;
    ghost var t := owner[p0..];
    UnquotedByte(t, quoteok);
    if c == BACKSLASH {
      if !quoteok {
        return false, c, p;
      }
      ok, c, p := EscapedByte(owner, p);
      assert p0 + 1 - 1 == p0;
      return ok, c, p;
    }
    HyphenOrNot(c, first);
    if !quoteok {
      if c == HYPHEN {
        if first {
          return false, c, p;
        }
      } else if !IsAlpha(c) && !IsDigit(c) {
        return false, c, p;
      }
    }
    ok := true;
  }

  /** `adns__qdpl_normal`: from position `start` of `owner`, into `lab`, which has room for
      `lab.Length` bytes. */
  method QdplNormal(owner: seq<byte>, start: nat, lab: array<byte>, quoteok: bool)
    returns (st: Status, p: nat, ll: nat)
    requires start <= |owner|
    modifies lab
    ensures st == Ok || st == QueryDomainInvalid
    ensures p <= |owner| && ll <= lab.Length && (start < |owner| && st == Ok ==> start < p)
    ensures ParseLabel(owner[start..], quoteok, lab.Length, []) ==
      if st == Ok then ParsedLabel(lab[..ll], owner[p..]) else BadLabel
  {
    hide IsAlpha, IsDigit, HostByte, ReadByte, ParseLabel;
    ll, p := 0, start;
    ghost var whole, sofar := ParseLabel(owner[start..], quoteok, lab.Length, []), [];
    while p != |owner|
      invariant start <= p <= |owner| && ll <= lab.Length && lab[..ll] == sofar
      invariant whole == ParseLabel(owner[p..], quoteok, lab.Length, sofar)
      decreases |owner| - p
    {
      ghost var t, before := owner[p..], p;
      ParseStep(t, quoteok, lab.Length, sofar);
      if owner[p] == DOT {
        p := p + 1;
        assert t[1..] == owner[p..];
        return Ok, p, ll;
      }
      var ok, c;
      ok, c, p := NextByte(owner, p, quoteok, ll == 0);
      if !ok || ll == lab.Length {
        return QueryDomainInvalid, p, ll;
      }
      lab[ll] := c;
      ll := ll + 1;
      sofar := sofar + [c];
      assert t[p - before..] == owner[p..];
    }
    ParseNothing(quoteok, lab.Length, lab[..ll]);
    assert owner[p..] == [];
    st := Ok;
  }

  lemma HyphenOrNot(c: byte, first: bool)
    ensures HostByte(c, first) <==> if c == HYPHEN then !first else IsAlpha(c) || IsDigit(c)
  {
  }

  lemma ParseNothing(quoteok: bool, room: nat, sofar: Label)
    ensures ParseLabel([], quoteok, room, sofar) == ParsedLabel(sofar, [])
  {
  }

  lemma ParseStep(t: seq<byte>, quoteok: bool, room: nat, sofar: Label)
    requires t != []
    ensures t[0] == DOT ==> ParseLabel(t, quoteok, room, sofar) == ParsedLabel(sofar, t[1..])
    ensures t[0] != DOT && ReadByte(t, quoteok) == Bad ==> ParseLabel(t, quoteok, room, sofar) == BadLabel
    ensures t[0] != DOT && ReadByte(t, quoteok).Got? ==>
      (var c, used := ReadByte(t, quoteok).c, ReadByte(t, quoteok).used;
       ParseLabel(t, quoteok, room, sofar) ==
       if (!quoteok && !HostByte(c, sofar == [])) || |sofar| == room then BadLabel
       else ParseLabel(t[used..], quoteok, room, sofar + [c]))
  {
  }

  lemma UnquotedByte(t: seq<byte>, quoteok: bool)
    requires t != []
    ensures t[0] != BACKSLASH ==> ReadByte(t, quoteok) == Got(t[0], 1)
    ensures t[0] == BACKSLASH && !quoteok ==> ReadByte(t, quoteok) == Bad
  {
  }

  // ----- whole names -----

  datatype ParsedName = BadName(status: Status) | ParsedName(labels: seq<Label>)

  /** The labels of a query domain, as `adns__mkquery` takes them one after the other. `nbytes` is what
      those before take in a datagram. */
  function ParseName(t: seq<byte>, quoteok: bool, nbytes: nat): ParsedName
    decreases |t|
  {
    if t == [] then ParsedName([])
    else
      match ParseLabel(t, quoteok, MAX_DOMAIN, [])
      case BadLabel => BadName(QueryDomainInvalid)
      case ParsedLabel(x, rest) =>
        if x == [] then BadName(QueryDomainInvalid)
        else if |x| > MAX_LABEL || nbytes + |x| + 1 >= MAX_DOMAIN then BadName(QueryDomainTooLong)
        else Prefixed(x, ParseName(rest, quoteok, nbytes + |x| + 1))
  }

  /** A label in front of the others. */
  function Prefixed(x: Label, r: ParsedName): ParsedName {
    match r
    case BadName(_) => r
    case ParsedName(others) => ParsedName([x] + others)
  }

  /** What the first label decides. */
  lemma NameStep(t: seq<byte>, quoteok: bool, nbytes: nat, x: Label)
    requires t != [] && 1 <= |x| <= MAX_LABEL && nbytes + |x| + 1 < MAX_DOMAIN
    ensures var p, r := ParseLabel(t, quoteok, MAX_DOMAIN, []), ParseName(t, quoteok, nbytes);
            if p.ParsedLabel? && p.bytes == x then r == Prefixed(x, ParseName(p.rest, quoteok, nbytes + |x| + 1))
            else r.ParsedName? ==> r.labels != [] && r.labels[0] != x
  {
    hide ParseLabel;
  }

  lemma PrefixedIs(x: Label, r: ParsedName, others: seq<Label>)
    ensures Prefixed(x, r) == ParsedName([x] + others) <==> r == ParsedName(others)
  {
    if r.ParsedName? && [x] + r.labels == [x] + others {
      assert r.labels == ([x] + r.labels)[1..] == others;
    }
  }

  /** The bytes that a name takes in a datagram, without the last. */
  function WireLength(labels: seq<Label>): nat {
    if labels == [] then 0 else |labels[0]| + 1 + WireLength(labels[1..])
  }

  /** The names that `adns__mkquery` makes queries for. */
  predicate ValidName(labels: seq<Label>) {
    (forall k :: 0 <= k < |labels| ==> 1 <= |labels[k]| <= MAX_LABEL) && WireLength(labels) < MAX_DOMAIN
  }

  /** Parsing returns nothing but valid names. */
  lemma {:induction false} ParsedIsValid(t: seq<byte>, quoteok: bool, nbytes: nat)
    requires nbytes < MAX_DOMAIN
    ensures var r := ParseName(t, quoteok, nbytes);
            r.ParsedName? ==>
              && (forall k :: 0 <= k < |r.labels| ==> 1 <= |r.labels[k]| <= MAX_LABEL)
              && nbytes + WireLength(r.labels) < MAX_DOMAIN
    decreases |t|
  {
    hide ParseLabel;
    if t != [] && ParseLabel(t, quoteok, MAX_DOMAIN, []).ParsedLabel? {
      var p := ParseLabel(t, quoteok, MAX_DOMAIN, []);
      if p.bytes != [] && |p.bytes| <= MAX_LABEL && nbytes + |p.bytes| + 1 < MAX_DOMAIN {
        ParsedIsValid(p.rest, quoteok, nbytes + |p.bytes| + 1);
      }
    }
  }

  // ----- printing, then parsing -----

  /** The bytes that are read back as they were printed: those that are not written as a number, and
      those whose number is the same in octal and in decimal. */
  predicate Faithful(b: byte) { b < 8 || 33 <= b < 127 }

  /** What the parser makes of a number in octal. */
  function Misread(b: byte): nat { b / 64 * 100 + b / 8 % 8 * 10 + b % 8 }

  lemma ReadEscaped(b: byte, rest: seq<byte>)
    ensures var t := Escaped(b) + rest;
            && t[0] != DOT
            && (33 <= b < 127 ==> ReadByte(t, true) == Got(b, |Escaped(b)|))
            && (b < 33 || b >= 127 ==>
                ReadByte(t, true) == (if Misread(b) < 256 then Got(Misread(b), 4) else Bad) && |Escaped(b)| == 4)
            && t[|Escaped(b)|..] == rest
    ensures b < 33 || b >= 127 ==> (Misread(b) == b <==> b < 8)
  {
    var t := Escaped(b) + rest;
    assert t[|Escaped(b)|..] == rest;
    if b < 33 || b >= 127 {
      NumberReads(b, rest);
    }
  }

  lemma NumberReads(b: byte, rest: seq<byte>)
    ensures ReadByte([BACKSLASH] + Octal(b) + rest, true) == if Misread(b) < 256 then Got(Misread(b), 4) else Bad
    ensures Misread(b) == b <==> b < 8
  {
    var t := [BACKSLASH] + Octal(b) + rest;
    assert t[1] == ZERO + b / 64 && t[2] == ZERO + b / 8 % 8 && t[3] == ZERO + b % 8;
  }

  /** What is read for a byte that was printed. */
  function ReadBack(b: byte): nat { if Faithful(b) then b else Misread(b) }

  lemma LabelStep(b: byte, tail: seq<byte>, room: nat, sofar: Label)
    requires |sofar| < room
    ensures ParseLabel(Escaped(b) + tail, true, room, sofar) ==
      if ReadBack(b) < 256 then ParseLabel(tail, true, room, sofar + [ReadBack(b)]) else BadLabel
    ensures !Faithful(b) ==> ReadBack(b) != b
  {
    hide Escaped, ReadByte, ParseLabel, Misread;
    ReadEscaped(b, tail);
    ParseStep(Escaped(b) + tail, true, room, sofar);
  }

  lemma LabelEnds(rest: seq<byte>, room: nat, sofar: Label)
    requires rest == [] || rest[0] == DOT
    ensures ParseLabel(rest, true, room, sofar) == ParsedLabel(sofar, if rest == [] then [] else rest[1..])
  {
  }

  /** A label that was printed, and then the end or the dot before the next one, is read back if all its
      bytes are faithful. */
  lemma {:induction false} LabelReads(x: Label, rest: seq<byte>, room: nat, sofar: Label)
    requires |sofar| + |x| <= room && (rest == [] || rest[0] == DOT)
    requires forall k :: 0 <= k < |x| ==> Faithful(x[k])
    ensures ParseLabel(Quoted(x) + rest, true, room, sofar) ==
      ParsedLabel(sofar + x, if rest == [] then [] else rest[1..])
    decreases |x|
  {
    hide Escaped, ParseLabel, Faithful, Misread;
    if x == [] {
      assert Quoted(x) + rest == rest && sofar + x == sofar;
      LabelEnds(rest, room, sofar);
    } else {
      var tail := Quoted(x[1..]) + rest;
      assert Quoted(x) + rest == Escaped(x[0]) + tail;
      LabelStep(x[0], tail, room, sofar);
      LabelReads(x[1..], rest, room, sofar + [x[0]]);
      assert sofar + [x[0]] + x[1..] == sofar + x;
    }
  }

  /** Otherwise it is refused, or read as another one. */
  lemma {:induction false} LabelMisreads(x: Label, rest: seq<byte>, room: nat, sofar: Label)
    requires |sofar| + |x| <= room
    requires !forall k :: 0 <= k < |x| ==> Faithful(x[k])
    ensures var r := ParseLabel(Quoted(x) + rest, true, room, sofar);
            r.ParsedLabel? ==> r.bytes != sofar + x
    decreases |x|
  {
    hide Escaped, ParseLabel, Faithful, Misread;
    var tail := Quoted(x[1..]) + rest;
    assert Quoted(x) + rest == Escaped(x[0]) + tail;
    LabelStep(x[0], tail, room, sofar);
    if Faithful(x[0]) {
      LabelMisreads(x[1..], rest, room, sofar + [x[0]]);
      assert sofar + [x[0]] + x[1..] == sofar + x;
    } else if ReadBack(x[0]) < 256 {
      var r := ParseLabel(tail, true, room, sofar + [ReadBack(x[0])]);
      assert r.ParsedLabel? ==> r.bytes[|sofar|] == ReadBack(x[0]) != (sofar + x)[|sofar|];
    }
  }

  predicate FaithfulLabel(x: Label) {
    forall k :: 0 <= k < |x| ==> Faithful(x[k])
  }

  predicate AllFaithful(labels: seq<Label>) {
    forall j :: 0 <= j < |labels| ==> FaithfulLabel(labels[j])
  }

  lemma QuotedNotEmpty(x: Label)
    requires x != []
    ensures Quoted(x) != []
  {
  }

  /** The text behind the first label. */
  function Behind(labels: seq<Label>): seq<byte>
    requires labels != []
  {
    if |labels| == 1 then [] else [DOT] + Printed(labels[1..])
  }

  /** The text of a valid name is read back as the same labels if and only if every byte of it is
      faithful: the printer writes numbers in octal, the parser reads them in decimal. */
  lemma {:induction false} NameReads(labels: seq<Label>, nbytes: nat)
    requires forall k :: 0 <= k < |labels| ==> 1 <= |labels[k]| <= MAX_LABEL
    requires nbytes + WireLength(labels) < MAX_DOMAIN
    ensures ParseName(Printed(labels), true, nbytes) == ParsedName(labels) <==> AllFaithful(labels)
    decreases |labels|
  {
    hide ParseLabel, ParseName, Quoted, Faithful, Printed, Behind, AllFaithful, FaithfulLabel;
    if labels == [] {
      NothingParsed(true, nbytes);
      NothingPrinted();
    } else {
      var x, rest := labels[0], labels[1..];
      var behind := Behind(labels);
      PrintedFirst(labels);
      assert labels == [x] + rest;
      NameStep(Quoted(x) + behind, true, nbytes, x);
      FaithfulParts(x, rest);
      FirstLabelReads(x, behind);
      if FaithfulLabel(x) {
        NameReads(rest, nbytes + |x| + 1);
        PrefixedIs(x, ParseName(Printed(rest), true, nbytes + |x| + 1), rest);
      }
    }
  }

  lemma PrintedFirst(labels: seq<Label>)
    requires labels != [] && labels[0] != []
    ensures Printed(labels) == Quoted(labels[0]) + Behind(labels) && Quoted(labels[0]) != []
    ensures var behind := Behind(labels);
            (behind == [] || behind[0] == DOT) && Printed(labels[1..]) == if behind == [] then [] else behind[1..]
  {
    hide Quoted;
    QuotedNotEmpty(labels[0]);
  }

  lemma FirstLabelReads(x: Label, behind: seq<byte>)
    requires |x| <= MAX_DOMAIN && (behind == [] || behind[0] == DOT)
    ensures var r := ParseLabel(Quoted(x) + behind, true, MAX_DOMAIN, []);
            if FaithfulLabel(x) then r == ParsedLabel(x, if behind == [] then [] else behind[1..])
            else r.ParsedLabel? ==> r.bytes != x
  {
    hide ParseLabel, Quoted, Faithful;
    assert [] + x == x;
    if FaithfulLabel(x) {
      LabelReads(x, behind, MAX_DOMAIN, []);
    } else {
      LabelMisreads(x, behind, MAX_DOMAIN, []);
    }
  }

  lemma NothingPrinted()
    ensures Printed([]) == [] && AllFaithful([])
  {
  }

  lemma NothingParsed(quoteok: bool, nbytes: nat)
    ensures ParseName([], quoteok, nbytes) == ParsedName([])
  {
  }

  lemma FaithfulParts(x: Label, rest: seq<Label>)
    ensures AllFaithful([x] + rest) <==> FaithfulLabel(x) && AllFaithful(rest)
  {
    hide FaithfulLabel;
    var labels := [x] + rest;
    assert forall j :: 0 <= j < |rest| ==> labels[j + 1] == rest[j];
    assert labels[0] == x;
  }

  lemma QuotingRoundTrip(labels: seq<Label>)
    requires ValidName(labels)
    ensures ParseName(Printed(labels), true, 0) == ParsedName(labels) <==> AllFaithful(labels)
  {
    NameReads(labels, 0);
  }

  // ----- names without quoting -----

  /** What is printed for names that must be host names: nothing is quoted. */
  function Joined(labels: seq<Label>): seq<byte> {
    if labels == [] then []
    else if |labels| == 1 then labels[0]
    else labels[0] + [DOT] + Joined(labels[1..])
  }

  predicate HostLabel(x: Label) {
    forall k :: 0 <= k < |x| ==> HostByte(x[k], k == 0)
  }

  lemma HostByteIsPlain(c: byte, first: bool, t: seq<byte>)
    requires t != [] && t[0] == c
    ensures HostByte(c, first) ==> c != DOT
    ensures ReadByte(t, false) == Bad || ReadByte(t, false) == Got(c, 1)
    ensures HostByte(c, first) ==> ReadByte(t, false) == Got(c, 1)
  {
  }

  lemma {:induction false} HostLabelReads(x: Label, rest: seq<byte>, room: nat, sofar: Label)
    requires |sofar| + |x| <= room && (rest == [] || rest[0] == DOT)
    ensures var r := ParseLabel(x + rest, false, room, sofar);
            if forall k :: 0 <= k < |x| ==> HostByte(x[k], sofar == [] && k == 0)
            then r == ParsedLabel(sofar + x, if rest == [] then [] else rest[1..])
            else r.ParsedLabel? ==> r.bytes != sofar + x
    decreases |x|
  {
    hide ReadByte, ParseLabel, HostByte;
    if x == [] {
      assert x + rest == rest && sofar + x == sofar;
      if rest == [] {
        ParseNothing(false, room, sofar);
      } else {
        ParseStep(rest, false, room, sofar);
      }
    } else {
      var t, first := x + rest, sofar == [];
      HostByteIsPlain(x[0], first, t);
      ParseStep(t, false, room, sofar);
      assert t[1..] == x[1..] + rest;
      if HostByte(x[0], first) {
        HostLabelReads(x[1..], rest, room, sofar + [x[0]]);
        assert sofar + [x[0]] + x[1..] == sofar + x;
        assert forall k :: 0 <= k < |x| - 1 ==> x[1..][k] == x[k + 1];
        HostBehind(x, first);
      }
    }
  }

  lemma HostBehind(x: Label, first: bool)
    requires x != [] && HostByte(x[0], first)
    ensures (forall k :: 0 <= k < |x[1..]| ==> HostByte(x[1..][k], false))
       <==> (forall k :: 0 <= k < |x| ==> HostByte(x[k], first && k == 0))
  {
    var y := x[1..];
    if forall k :: 0 <= k < |y| ==> HostByte(y[k], false) {
      forall k | 0 <= k < |x|
        ensures HostByte(x[k], first && k == 0)
      {
        assert k > 0 ==> x[k] == y[k - 1];
      }
    }
    if forall k :: 0 <= k < |x| ==> HostByte(x[k], first && k == 0) {
      forall k | 0 <= k < |y|
        ensures HostByte(y[k], false)
      {
        assert y[k] == x[k + 1];
      }
    }
  }

  predicate AllHost(labels: seq<Label>) {
    forall j :: 0 <= j < |labels| ==> HostLabel(labels[j])
  }

  lemma HostParts(x: Label, rest: seq<Label>)
    ensures AllHost([x] + rest) <==> HostLabel(x) && AllHost(rest)
  {
    var labels := [x] + rest;
    assert labels[0] == x && forall j :: 0 <= j < |rest| ==> labels[j + 1] == rest[j];
    if HostLabel(x) && AllHost(rest) {
      forall j | 0 <= j < |labels|
        ensures HostLabel(labels[j])
      {
        assert j > 0 ==> labels[j] == rest[j - 1];
      }
    }
  }

  /** Without quoting, the text of a valid name is read back as the same labels if and only if they are
      all labels of host names. */
  lemma {:induction false} HostNameReads(labels: seq<Label>, nbytes: nat)
    requires forall k :: 0 <= k < |labels| ==> 1 <= |labels[k]| <= MAX_LABEL
    requires nbytes + WireLength(labels) < MAX_DOMAIN
    ensures ParseName(Joined(labels), false, nbytes) == ParsedName(labels) <==> AllHost(labels)
    decreases |labels|
  {
    hide ParseLabel, ParseName, HostLabel, AllHost;
    if labels == [] {
      NoLabelIsHost();
      NothingParsed(false, nbytes);
    } else {
      var x, rest := labels[0], labels[1..];
      var behind := if rest == [] then [] else [DOT] + Joined(rest);
      var t := x + behind;
      assert Joined(labels) == t && labels == [x] + rest;
      HostParts(x, rest);
      FirstHostLabel(x, behind);
      NameStep(t, false, nbytes, x);
      if HostLabel(x) {
        HostNameReads(rest, nbytes + |x| + 1);
        PrefixedIs(x, ParseName(Joined(rest), false, nbytes + |x| + 1), rest);
        assert rest != [] ==> behind[1..] == Joined(rest);
      }
    }
  }

  lemma FirstHostLabel(x: Label, rest: seq<byte>)
    requires |x| <= MAX_DOMAIN && (rest == [] || rest[0] == DOT)
    ensures var r := ParseLabel(x + rest, false, MAX_DOMAIN, []);
            if HostLabel(x) then r == ParsedLabel(x, if rest == [] then [] else rest[1..])
            else r.ParsedLabel? ==> r.bytes != x
  {
    hide ParseLabel, HostByte;
    HostLabelReads(x, rest, MAX_DOMAIN, []);
    assert [] + x == x;
  }

  lemma NoLabelIsHost()
    ensures AllHost([])
  {
  }

  lemma QuotedOne(b: byte)
    ensures Printed([[b]]) == Quoted([b]) == Escaped(b)
  {
  }

  /** A byte of 200 is printed as 310 and read as no byte at all; one of 8 as 010 and read as 10. */
  lemma OctalIsReadAsDecimal()
    ensures Printed([[200]]) == [BACKSLASH, 51, 49, 48] && ParseName(Printed([[200]]), true, 0).BadName?
    ensures Printed([[8]]) == [BACKSLASH, 48, 49, 48] && ParseName(Printed([[8]]), true, 0) == ParsedName([[10]])
  {
    QuotedOne(200);
    QuotedOne(8);
    LabelStep(200, [], MAX_DOMAIN, []);
    LabelStep(8, [], MAX_DOMAIN, []);
    assert Escaped(200) + [] == Escaped(200) && Escaped(8) + [] == Escaped(8);
    LabelEnds([], MAX_DOMAIN, [10]);
    assert [] + [10] == [10];
    assert ParseLabel(Escaped(8), true, MAX_DOMAIN, []) == ParsedLabel([10], []);
    assert ParseName([], true, 2) == ParsedName([]);
    assert [[10]] + [] == [[10]];
  }
}
