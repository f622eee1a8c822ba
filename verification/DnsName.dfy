/**
 Domain names in DNS datagrams, with compression pointers (sections 3.1 and 4.1.4 of RFC 1035): reading
 the labels one after the other (`adns__findlabel_next`, adns/parse.c:70-112), printing a name
 (`adns__parse_domain_more`, adns/parse.c:126-162), and the queries that are made from text
 (`adns__mkquery`, adns/transmit.c:121-156) or from a name in another datagram
 (`adns__mkquery_frdgram`, adns/transmit.c:158-187).
 */
module DnsName {
  import opened Wrappers
  import opened DomainText
  import opened NamePointers

  // ----- how a name lies in a datagram -----

  /** The ways to write a name: labels, then the end, with pointers anywhere between. */
  datatype Layout = End | Text(x: Label, rest: Layout) | Pointer(target: nat, rest: Layout)

  predicate LaidOut(d: Dgram, c: nat, l: Layout)
    decreases l
  {
    match l
    case End => c < |d| && d[c] == 0
    case Text(x, rest) =>
      && 1 <= |x| <= MAX_LABEL && c + 1 + |x| <= |d| && d[c] == |x| && d[c + 1..c + 1 + |x|] == x
      && LaidOut(d, c + 1 + |x|, rest)
    case Pointer(t, rest) => IsPointer(d, c) && t == PointsTo(d, c) && LaidOut(d, t, rest)
  }

  function Labels(l: Layout): seq<Label> {
    match l
    case End => []
    case Text(x, rest) => [x] + Labels(rest)
    case Pointer(_, rest) => Labels(rest)
  }

  /** Where the name ends, for what comes after it in the datagram. */
  function EndOf(c: nat, l: Layout): nat
    decreases l
  {
    match l
    case End => c + 1
    case Text(x, rest) => EndOf(c + 1 + |x|, rest)
    case Pointer(_, _) => c + 2
  }

  /** The length of a name with dots between its labels. */
  function TextLength(labels: seq<Label>): nat {
    if labels == [] then 0 else if |labels| == 1 then |labels[0]| else |labels[0]| + 1 + TextLength(labels[1..])
  }

  /** There is only one way to read a name. */
  lemma {:induction false} LayoutIsUnique(d: Dgram, c: nat, l: Layout, m: Layout)
    requires LaidOut(d, c, l) && LaidOut(d, c, m)
    ensures l == m
    decreases l
  {
    match l
    case End =>
    case Text(x, rest) => LayoutIsUnique(d, c + 1 + |x|, rest, m.rest);
    case Pointer(t, rest) => LayoutIsUnique(d, t, rest, m.rest);
  }

  // ----- names behind pointers -----

  /** The pointers in front of a layout. */
  function Leading(l: Layout): nat {
    match l
    case Pointer(_, rest) => 1 + Leading(rest)
    case _ => 0
  }

  function Landed(l: Layout): (r: Layout)
    ensures !r.Pointer? && Labels(r) == Labels(l)
  {
    match l
    case Pointer(_, rest) => Landed(rest)
    case _ => l
  }

  lemma {:induction false} LayoutEnds(d: Dgram, c: nat, l: Layout)
    requires LaidOut(d, c, l)
    ensures Ends(d, c, Leading(l)) && Ends(d, c, |d|)
    decreases l
  {
    if l.Pointer? {
      LayoutEnds(d, l.target, l.rest);
    }
    ChainIsShort(d, c, Leading(l));
  }

  /** The labels, pointers and the end of a layout. */
  function Nodes(l: Layout): nat {
    match l
    case End => 0
    case Text(_, rest) => 1 + Nodes(rest)
    case Pointer(_, rest) => 1 + Nodes(rest)
  }

  /** Where there is a name, reading comes to an end. */
  lemma {:induction false} LayoutFinishes(d: Dgram, s: Cursor, quoteok: bool, l: Layout)
    requires LaidOut(d, s.at, l)
    ensures OverWithin(d, s, quoteok, Nodes(l)) && Finishes(d, s, quoteok)
    decreases l
  {
    if Turned(d, s, quoteok).On? {
      var t := Turned(d, s, quoteok).next;
      LayoutFinishes(d, t, quoteok, l.rest);
      assert OverWithin(d, t, quoteok, Nodes(l) - 1);
    }
    assert OverWithin(d, s, quoteok, Nodes(l));
  }

  /** A name that is read through pointers. */
  lemma {:induction false} LayoutLands(d: Dgram, c: nat, l: Layout, k: nat)
    requires LaidOut(d, c, l) && Ends(d, c, k)
    ensures LaidOut(d, Landing(d, c, k), Landed(l))
    ensures EndOf(c, l) == if IsPointer(d, c) then c + 2 else EndOf(Landing(d, c, k), Landed(l))
    decreases k
  {
    if l.Pointer? {
      LayoutLands(d, l.target, l.rest, k - 1);
    }
  }

  /** The layout that starts with pointers to a given one. */
  function Through(d: Dgram, c: nat, k: nat, r: Layout): (l: Layout)
    requires Ends(d, c, k)
    ensures Labels(l) == Labels(r) && Landed(l) == Landed(r)
    decreases k
  {
    if IsPointer(d, c) then Pointer(PointsTo(d, c), Through(d, PointsTo(d, c), k - 1, r)) else r
  }

  lemma {:induction false} ThroughIsLaidOut(d: Dgram, c: nat, k: nat, r: Layout)
    requires Ends(d, c, k) && LaidOut(d, Landing(d, c, k), r)
    ensures LaidOut(d, c, Through(d, c, k, r))
    ensures EndOf(c, Through(d, c, k, r)) == if IsPointer(d, c) then c + 2 else EndOf(c, r)
    decreases k
  {
    if IsPointer(d, c) {
      ThroughIsLaidOut(d, PointsTo(d, c), k - 1, r);
    }
  }

  // ----- a name that is being read -----

  /** `l` is the whole name at `c0`; the labels `sofar` were read, the rest of it is `r`, at `c`. Its end
      is that of `r` while no pointer was followed (`open`), and `dmend` afterwards. */
  ghost predicate Midway(d: Dgram, c0: nat, l: Layout, sofar: seq<Label>, c: nat, r: Layout, open: bool, dmend: nat) {
    && LaidOut(d, c0, l) && LaidOut(d, c, r) && Labels(l) == sofar + Labels(r)
    && EndOf(c0, l) == if open then EndOf(c, r) else dmend
  }

  ghost predicate HasWhole(d: Dgram, c0: nat, sofar: seq<Label>, c: nat, r: Layout, open: bool, dmend: nat) {
    exists l :: Midway(d, c0, l, sofar, c, r, open, dmend)
  }

  ghost predicate HasRest(d: Dgram, c0: nat, l: Layout, sofar: seq<Label>, c: nat, open: bool, dmend: nat) {
    exists r :: Midway(d, c0, l, sofar, c, r, open, dmend)
  }

  /** What is at `c` completes a name at `c0`, and any name at `c0` is completed by what is at `c`. */
  ghost predicate Tracks(d: Dgram, c0: nat, sofar: seq<Label>, c: nat, open: bool, dmend: nat) {
    && (forall r :: LaidOut(d, c, r) ==> HasWhole(d, c0, sofar, c, r, open, dmend))
    && (forall l :: LaidOut(d, c0, l) ==> HasRest(d, c0, l, sofar, c, open, dmend))
  }

  lemma TrackStart(d: Dgram, c0: nat, dmend: nat)
    ensures Tracks(d, c0, [], c0, true, dmend)
  {
    forall l | LaidOut(d, c0, l)
      ensures Midway(d, c0, l, [], c0, l, true, dmend)
    {
      assert [] + Labels(l) == Labels(l);
    }
  }

  /** Behind the pointers at `c` there is the label `x`. */
  predicate LabelAt(d: Dgram, c: nat, k: nat, x: Label)
    requires Ends(d, c, k)
  {
    var p := Landing(d, c, k);
    1 <= |x| <= MAX_LABEL && p + 1 + |x| <= |d| && d[p] == |x| && d[p + 1..p + 1 + |x|] == x
  }

  /** Where reading is when these labels were read from `c0` on, if they are there. */
  ghost function BehindLabels(d: Dgram, c0: nat, labels: seq<Label>): Option<nat> {
    if labels == [] then Some(c0)
    else
      var c, x := BehindLabels(d, c0, labels[..|labels| - 1]), labels[|labels| - 1];
      if c.Some? && Ends(d, c.value, |d|) && LabelAt(d, c.value, |d|, x)
      then Some(Landing(d, c.value, |d|) + 1 + |x|) else None
  }

  lemma BehindLabelsMore(d: Dgram, c0: nat, labels: seq<Label>, c: nat, x: Label)
    requires BehindLabels(d, c0, labels) == Some(c) && Ends(d, c, |d|) && LabelAt(d, c, |d|, x)
    ensures BehindLabels(d, c0, labels + [x]) == Some(Landing(d, c, |d|) + 1 + |x|)
  {
    assert (labels + [x])[..|labels|] == labels;
  }

  lemma LabelInFront(d: Dgram, c: nat, k: nat, x: Label, r': Layout)
    requires Ends(d, c, k) && LabelAt(d, c, k, x) && LaidOut(d, Landing(d, c, k) + 1 + |x|, r')
    ensures var r := Through(d, c, k, Text(x, r'));
            && LaidOut(d, c, r) && Labels(r) == [x] + Labels(r')
            && EndOf(c, r) == if IsPointer(d, c) then c + 2 else EndOf(Landing(d, c, k) + 1 + |x|, r')
  {
    ThroughIsLaidOut(d, c, k, Text(x, r'));
  }

  lemma LabelTakenOff(d: Dgram, c: nat, k: nat, x: Label, r: Layout) returns (r': Layout)
    requires Ends(d, c, k) && LabelAt(d, c, k, x) && LaidOut(d, c, r)
    ensures LaidOut(d, Landing(d, c, k) + 1 + |x|, r') && Labels(r) == [x] + Labels(r')
    ensures EndOf(c, r) == if IsPointer(d, c) then c + 2 else EndOf(Landing(d, c, k) + 1 + |x|, r')
  {
    LayoutLands(d, c, r, k);
    r' := Landed(r).rest;
  }

  lemma MidwayOn(d: Dgram, c0: nat, l: Layout, sofar: seq<Label>, c: nat, r: Layout, open: bool, dmend: nat,
                 x: Label, c': nat, r': Layout, hop: bool, dmend': nat)
    requires Midway(d, c0, l, sofar, c, r, open, dmend)
    requires if open then hop ==> dmend' == c + 2 else dmend' == dmend
    requires LaidOut(d, c', r') && Labels(r) == [x] + Labels(r') && EndOf(c, r) == if hop then c + 2 else EndOf(c', r')
    ensures Midway(d, c0, l, sofar + [x], c', r', open && !hop, dmend')
  {
    hide LaidOut, Labels, EndOf;
    assert sofar + ([x] + Labels(r')) == sofar + [x] + Labels(r');
  }

  lemma WholeGrows(d: Dgram, c0: nat, sofar: seq<Label>, c: nat, k: nat, x: Label, open: bool, dmend: nat, dmend': nat,
                   c': nat, r': Layout)
    requires Tracks(d, c0, sofar, c, open, dmend) && Ends(d, c, k) && LabelAt(d, c, k, x)
    requires c' == Landing(d, c, k) + 1 + |x|
    requires if open then IsPointer(d, c) ==> dmend' == c + 2 else dmend' == dmend
    requires LaidOut(d, c', r')
    ensures HasWhole(d, c0, sofar + [x], c', r', open && !IsPointer(d, c), dmend')
  {
    hide LaidOut, Labels, EndOf, IsPointer, Landing, LabelAt, Ends, Through, Midway;
    LabelInFront(d, c, k, x, r');
    var r := Through(d, c, k, Text(x, r'));
    assert HasWhole(d, c0, sofar, c, r, open, dmend);
    var l :| Midway(d, c0, l, sofar, c, r, open, dmend);
    MidwayOn(d, c0, l, sofar, c, r, open, dmend, x, c', r', IsPointer(d, c), dmend');
  }

  lemma RestShrinks(d: Dgram, c0: nat, sofar: seq<Label>, c: nat, k: nat, x: Label, open: bool, dmend: nat, dmend': nat,
                    c': nat, l: Layout)
    requires Tracks(d, c0, sofar, c, open, dmend) && Ends(d, c, k) && LabelAt(d, c, k, x)
    requires c' == Landing(d, c, k) + 1 + |x|
    requires if open then IsPointer(d, c) ==> dmend' == c + 2 else dmend' == dmend
    requires LaidOut(d, c0, l)
    ensures HasRest(d, c0, l, sofar + [x], c', open && !IsPointer(d, c), dmend')
  {
    hide LaidOut, Labels, EndOf, IsPointer, Landing, LabelAt, Ends, Midway;
    assert HasRest(d, c0, l, sofar, c, open, dmend);
    var r :| Midway(d, c0, l, sofar, c, r, open, dmend);
    MidwayParts(d, c0, l, sofar, c, r, open, dmend);
    var r' := LabelTakenOff(d, c, k, x, r);
    MidwayOn(d, c0, l, sofar, c, r, open, dmend, x, c', r', IsPointer(d, c), dmend');
  }

  lemma MidwayParts(d: Dgram, c0: nat, l: Layout, sofar: seq<Label>, c: nat, r: Layout, open: bool, dmend: nat)
    requires Midway(d, c0, l, sofar, c, r, open, dmend)
    ensures LaidOut(d, c, r)
  {
  }

  /** A label `x` was read, behind the pointers at `c`. */
  lemma TrackLabel(d: Dgram, c0: nat, sofar: seq<Label>, c: nat, k: nat, x: Label, open: bool, dmend: nat, dmend': nat)
    requires Tracks(d, c0, sofar, c, open, dmend) && Ends(d, c, k) && LabelAt(d, c, k, x)
    requires if open then IsPointer(d, c) ==> dmend' == c + 2 else dmend' == dmend
    ensures Tracks(d, c0, sofar + [x], Landing(d, c, k) + 1 + |x|, open && !IsPointer(d, c), dmend')
  {
    hide LaidOut, IsPointer, Landing, LabelAt, Ends, HasWhole, HasRest;
    var c' := Landing(d, c, k) + 1 + |x|;
    forall r' | LaidOut(d, c', r')
      ensures HasWhole(d, c0, sofar + [x], c', r', open && !IsPointer(d, c), dmend')
    {
      WholeGrows(d, c0, sofar, c, k, x, open, dmend, dmend', c', r');
    }
    forall l | LaidOut(d, c0, l)
      ensures HasRest(d, c0, l, sofar + [x], c', open && !IsPointer(d, c), dmend')
    {
      RestShrinks(d, c0, sofar, c, k, x, open, dmend, dmend', c', l);
    }
  }

  /** The end was read, behind the pointers at `c`. */
  lemma TrackEnd(d: Dgram, c0: nat, sofar: seq<Label>, c: nat, k: nat, open: bool, dmend: nat) returns (l: Layout)
    requires Tracks(d, c0, sofar, c, open, dmend) && Ends(d, c, k)
    requires Landing(d, c, k) < |d| && d[Landing(d, c, k)] == 0
    ensures LaidOut(d, c0, l) && Labels(l) == sofar
    ensures EndOf(c0, l) == if !open then dmend else if IsPointer(d, c) then c + 2 else c + 1
  {
    ThroughIsLaidOut(d, c, k, End);
    var r := Through(d, c, k, End);
    assert HasWhole(d, c0, sofar, c, r, open, dmend);
    l :| Midway(d, c0, l, sofar, c, r, open, dmend);
    assert sofar + [] == sofar;
  }

  /** The name can be read if it fits. */
  predicate Fits(c: nat, l: Layout, max: nat) {
    TextLength(Labels(l)) <= MAX_DOMAIN && EndOf(c, l) <= max
  }

  lemma {:induction false} TextLengthOf(sofar: seq<Label>, x: Label, more: seq<Label>)
    requires forall j :: 0 <= j < |sofar| ==> sofar[j] != []
    ensures TextLength(sofar + [x]) == if sofar == [] then |x| else TextLength(sofar) + 1 + |x|
    ensures TextLength(sofar + [x] + more) >= TextLength(sofar + [x])
    ensures sofar != [] ==> TextLength(sofar) > 0
  {
    if sofar == [] {
      assert [x] + more == sofar + [x] + more && ([x] + more)[1..] == more;
    } else {
      TextLengthOf(sofar[1..], x, more);
      assert (sofar + [x])[1..] == sofar[1..] + [x];
      assert (sofar + [x] + more)[1..] == sofar[1..] + [x] + more;
    }
  }

  lemma {:induction false} LayoutBounds(d: Dgram, c: nat, l: Layout)
    requires LaidOut(d, c, l)
    ensures c < EndOf(c, l) && forall j :: 0 <= j < |Labels(l)| ==> Labels(l)[j] != []
    decreases l
  {
    match l
    case End =>
    case Text(x, rest) => LayoutBounds(d, c + 1 + |x|, rest);
    case Pointer(t, rest) => LayoutBounds(d, t, rest);
  }

  /** When nothing can be read at `c`, what is there does not fit. */
  lemma UnreadableRest(d: Dgram, max: nat, sofar: seq<Label>, c: nat, open: bool, r: Layout)
    requires LaidOut(d, c, r)
    requires forall j :: 0 <= j < |sofar| ==> sofar[j] != []
    requires !Readable(d, c, max, TextLength(sofar), open)
    ensures TextLength(sofar + Labels(r)) > MAX_DOMAIN || (open && EndOf(c, r) > max)
  {
    hide Labels, TextLength, LaidOut, EndOf, Ends, Landing, IsPointer;
    LayoutEnds(d, c, r);
    LayoutLands(d, c, r, |d|);
    var p, m := Landing(d, c, |d|), Landed(r);
    TextLengthAhead(sofar, m);
    FirstNode(d, p, m);
  }

  /** What a name begins with that is not behind a pointer. */
  lemma FirstNode(d: Dgram, p: nat, m: Layout)
    requires LaidOut(d, p, m) && !m.Pointer?
    ensures p < |d| && d[p] == (if m.Text? then |m.x| else 0) <= MAX_LABEL && p + 1 + d[p] <= |d|
    ensures EndOf(p, m) >= p + 1 + d[p] && (m.Text? ==> m.x != [])
  {
    if m.Text? {
      LayoutBounds(d, p + 1 + |m.x|, m.rest);
    }
  }

  lemma TextLengthAhead(sofar: seq<Label>, m: Layout)
    requires forall j :: 0 <= j < |sofar| ==> sofar[j] != []
    ensures m.Text? && m.x != [] ==> TextLength(sofar + Labels(m)) >= Longer(TextLength(sofar), |m.x|)
    ensures m.End? ==> TextLength(sofar + Labels(m)) == TextLength(sofar)
  {
    hide TextLength;
    match m
    case Text(x, rest) =>
      assert Labels(m) == [x] + Labels(rest);
      assert sofar + ([x] + Labels(rest)) == sofar + [x] + Labels(rest);
      NotTooLong(sofar);
      TextLengthOf(sofar, x, Labels(rest));
    case End =>
      assert sofar + [] == sofar;
    case _ =>
  }

  lemma NotTooLong(sofar: seq<Label>)
    ensures sofar == [] ==> TextLength(sofar) == 0
  {
  }

  lemma TrackFails(d: Dgram, c0: nat, max: nat, sofar: seq<Label>, c: nat, open: bool, dmend: nat, l: Layout)
    requires Tracks(d, c0, sofar, c, open, dmend) && LaidOut(d, c0, l)
    requires forall j :: 0 <= j < |sofar| ==> sofar[j] != []
    requires !Readable(d, c, max, TextLength(sofar), open)
    ensures !Fits(c0, l, max)
  {
    hide LaidOut, Labels, EndOf, Readable, Landing, TextLength;
    assert HasRest(d, c0, l, sofar, c, open, dmend);
    var r :| Midway(d, c0, l, sofar, c, r, open, dmend);
    UnreadableRest(d, max, sofar, c, open, r);
  }

  // ----- reading labels -----

  /** A label, or the end, can be read from `c` on: the datagram holds all of it, the name is not too long
      and, when no pointer was followed before (`open`), what belongs to the name here ends before `max`. */
  predicate Readable(d: Dgram, c: nat, max: nat, namelen: nat, open: bool) {
    Ends(d, c, |d|) &&
    var p := Landing(d, c, |d|);
    && p < |d| && d[p] <= MAX_LABEL && p + 1 + d[p] <= |d| && Longer(namelen, d[p]) <= MAX_DOMAIN
    && (open ==> (if IsPointer(d, c) then c + 2 else p + 1 + d[p]) <= max)
  }

  /** `findlabel_state`. `dmend` is where the end of the name is noted; once a pointer was followed it is
      known, and `open` no longer holds. */
  class FindLabel {
    const dgram: Dgram
    var max: nat
    var cbyte: nat
    var namelen: nat
    var open: bool
    var dmend: nat

    constructor (dgram: Dgram, max: nat, begin: nat)
      ensures this.dgram == dgram && this.max == max && cbyte == begin && namelen == 0 && open
    {
      this.dgram, this.max, this.cbyte, this.namelen, this.open, this.dmend := dgram, max, begin, 0, true, 0;
    }

    /** After a pointer, the whole datagram may be read. */
    predicate Valid()
      reads this
    {
      Sound(dgram, Place())
    }

    function Place(): Cursor
      reads this
    {
      Cursor(cbyte, max, namelen, open)
    }

    /** The length byte of the next label, behind any number of pointers. */
    method Follow() returns (st: Status, lablen: int)
      requires Valid() && !Stuck(dgram, Place())
      modifies this
      ensures lablen >= -1 && st != AnswerDomainInvalid && namelen == old(namelen)
      ensures st == Ok && lablen >= 0 <==>
        Ends(dgram, old(cbyte), |dgram|) &&
        (var p := Landing(dgram, old(cbyte), |dgram|);
         && p < |dgram| && dgram[p] <= MAX_LABEL
         && (old(open) ==> (if IsPointer(dgram, old(cbyte)) then old(cbyte) + 1 else p) < old(max)))
      ensures st == Ok && lablen >= 0 ==>
        (var p := Landing(dgram, old(cbyte), |dgram|);
         && lablen == dgram[p] && cbyte == p + 1 && Valid() && open == (old(open) && !IsPointer(dgram, old(cbyte)))
         && max == (if IsPointer(dgram, old(cbyte)) then |dgram| + 1 else old(max))
         && (open ==> dmend == old(dmend))
         && (!open ==> dmend == if old(open) then old(cbyte) + 2 else old(dmend)))
    {
      lablen := 0;
      ghost var c, j: nat, k := cbyte, |dgram|, |dgram|;
      ghost var hopped := false;
      while true
        invariant !Stuck(dgram, old(Place()))
        invariant Ends(dgram, c, k) ==> Ends(dgram, cbyte, j) && Landing(dgram, cbyte, j) == Landing(dgram, c, k)
        invariant namelen == old(namelen) && open == (old(open) && !hopped)
        invariant hopped <==> j != k
        invariant !hopped ==> cbyte == c && max == old(max) && dmend == old(dmend)
        invariant hopped ==> IsPointer(dgram, c) && Ends(dgram, c, k) && max == |dgram| + 1
        invariant hopped && old(open) ==> dmend == c + 2 <= old(max)
        invariant hopped && !old(open) ==> dmend == old(dmend)
        decreases j
      {
        if cbyte >= |dgram| {
          return Ok, -1;
        }
        if cbyte >= max {
          return InvalidResponse, lablen;
        }
        lablen := dgram[cbyte];
        cbyte := cbyte + 1;
        if lablen < 0x40 {
          break;
        }
        if lablen < 0xC0 {
          return UnknownFormat, lablen;
        }
        if cbyte >= |dgram| {
          return Ok, -1;
        }
        if cbyte >= max {
          return InvalidResponse, lablen;
        }
        var jumpto := dgram[cbyte];
        cbyte := cbyte + 1;
        jumpto := (lablen - 0xC0) * 0x100 + jumpto;
        if open {
          dmend := cbyte;
        }
        cbyte := jumpto;
        open, max := false, |dgram| + 1;
        j, hopped := j - 1, true;
      }
      st := Ok;
    }

    /** `adns__findlabel_next`. A length of -1 says that the datagram is too short. */
    method Next() returns (st: Status, lablen: int, labstart: nat)
      requires Valid() && !Stuck(dgram, Place())
      modifies this
      ensures lablen >= -1 && st != AnswerDomainInvalid
      ensures st == Ok && lablen >= 0 <==> Readable(dgram, old(cbyte), old(max), old(namelen), old(open))
      ensures st == Ok && lablen >= 0 ==>
        (var p := Landing(dgram, old(cbyte), |dgram|);
         && lablen == dgram[p] && labstart == p + 1 && cbyte == p + 1 + lablen
         && Valid() && namelen == Longer(old(namelen), lablen)
         && open == (old(open) && !IsPointer(dgram, old(cbyte)))
         && max == (if IsPointer(dgram, old(cbyte)) then |dgram| + 1 else old(max))
         && (open && lablen == 0 ==> dmend == cbyte)
         && (!open ==> dmend == if old(open) then old(cbyte) + 2 else old(dmend)))
    {
      st, lablen := Follow();
      labstart := cbyte;
      if st != Ok || lablen < 0 {
        return;
      }
      if lablen != 0 {
        if namelen != 0 {
          namelen := namelen + 1;
        }
        namelen := namelen + lablen;
        if namelen > MAX_DOMAIN {
          return AnswerDomainTooLong, lablen, labstart;
        }
        cbyte := cbyte + lablen;
        if cbyte > |dgram| {
          return Ok, -1, labstart;
        }
        if cbyte > max {
          return InvalidResponse, lablen, labstart;
        }
      } else {
        if open {
          dmend := cbyte;
        }
      }
      st := Ok;
    }
  }

  // ----- printing a name -----

  /** The printed form of a name. */
  function Shown(labels: seq<Label>, quoteok: bool): seq<byte> {
    if quoteok then Printed(labels) else Joined(labels)
  }

  predicate Acceptable(labels: seq<Label>, quoteok: bool) { quoteok || AllHost(labels) }

  /** There is a name, it fits, and it is a host name if it must be one. */
  predicate IsName(d: Dgram, c: nat, max: nat, quoteok: bool, l: Layout) {
    LaidOut(d, c, l) && Fits(c, l, max) && Acceptable(Labels(l), quoteok)
  }

  ghost predicate HasName(d: Dgram, c: nat, max: nat, quoteok: bool) {
    exists l :: IsName(d, c, max, quoteok, l)
  }

  lemma PrintedSteps(labels: seq<Label>)
    ensures Printed([]) == [] && (|labels| == 1 ==> Printed(labels) == Quoted(labels[0]))
    ensures |labels| > 1 ==> Printed(labels) == Quoted(labels[0]) + [DOT] + Printed(labels[1..])
  {
    hide Quoted;
  }

  lemma {:induction false} PrintedAppend(sofar: seq<Label>, x: Label)
    ensures Printed(sofar + [x]) == Printed(sofar) + (if sofar == [] then [] else [DOT]) + Quoted(x)
  {
    hide Quoted, Printed;
    PrintedSteps(sofar);
    PrintedSteps(sofar + [x]);
    if sofar == [] {
      assert [] + [x] == [x];
    } else {
      assert (sofar + [x])[1..] == sofar[1..] + [x];
      PrintedAppend(sofar[1..], x);
      if |sofar| > 1 {
        var y, z := Quoted(sofar[0]) + [DOT], Printed(sofar[1..]);
        assert y + (z + [DOT] + Quoted(x)) == y + z + [DOT] + Quoted(x);
      } else {
        PrintedSteps([x]);
        assert sofar[1..] + [x] == [x];
      }
    }
  }

  lemma {:induction false} JoinedAppend(sofar: seq<Label>, x: Label)
    ensures Joined(sofar + [x]) == Joined(sofar) + (if sofar == [] then [] else [DOT]) + x
  {
    if sofar == [] {
      assert [] + [x] == [x];
    } else {
      JoinedAppend(sofar[1..], x);
      assert (sofar + [x])[1..] == sofar[1..] + [x];
    }
  }

  lemma ShownAppend(sofar: seq<Label>, x: Label, quoteok: bool)
    ensures Shown(sofar + [x], quoteok) ==
      Shown(sofar, quoteok) + (if sofar == [] then [] else [DOT]) + (if quoteok then Quoted(x) else x)
  {
    PrintedAppend(sofar, x);
    JoinedAppend(sofar, x);
  }

  lemma AcceptableParts(sofar: seq<Label>, x: Label, more: seq<Label>, quoteok: bool)
    ensures Acceptable(sofar + [x], quoteok) <==> Acceptable(sofar, quoteok) && (quoteok || HostLabel(x))
    ensures Acceptable(sofar + [x] + more, quoteok) ==> Acceptable(sofar + [x], quoteok)
  {
    hide HostLabel;
    var labels, all := sofar + [x], sofar + [x] + more;
    assert forall j :: 0 <= j < |sofar| ==> labels[j] == sofar[j];
    assert labels[|sofar|] == x;
    assert forall j :: 0 <= j < |labels| ==> all[j] == labels[j];
  }

  /** A label that is not one of a host name: there is no acceptable name. */
  lemma TrackRefused(d: Dgram, c0: nat, max: nat, sofar: seq<Label>, x: Label, c: nat, open: bool, dmend: nat,
                     quoteok: bool)
    requires Tracks(d, c0, sofar + [x], c, open, dmend) && !quoteok && !HostLabel(x)
    ensures !HasName(d, c0, max, quoteok)
  {
    hide LaidOut, Labels, EndOf, HostLabel, Acceptable, Fits;
    if HasName(d, c0, max, quoteok) {
      var l :| IsName(d, c0, max, quoteok, l);
      assert HasRest(d, c0, l, sofar + [x], c, open, dmend);
      var r :| Midway(d, c0, l, sofar + [x], c, r, open, dmend);
      AcceptableParts(sofar, x, Labels(r), quoteok);
    }
  }

  lemma NothingRead(quoteok: bool)
    ensures Shown([], quoteok) == [] && Acceptable([], quoteok) && TextLength([]) == 0
  {
  }

  lemma ReadableLabel(d: Dgram, c: nat, max: nat, namelen: nat, open: bool)
    requires Readable(d, c, max, namelen, open)
    ensures Ends(d, c, |d|)
    ensures var p := Landing(d, c, |d|);
            && p < |d| && p + 1 + d[p] <= |d| && Longer(namelen, d[p]) <= MAX_DOMAIN
            && (d[p] > 0 ==> LabelAt(d, c, |d|, d[p + 1..p + 1 + d[p]]))
            && (open ==> if IsPointer(d, c) then c + 2 <= max else p == c && p + 1 + d[p] <= max)
  {
  }

  lemma OpenOnly(d: Dgram, c: nat, max: nat, m: nat, namelen: nat, open: bool)
    requires open ==> m == max
    ensures Readable(d, c, max, namelen, open) == Readable(d, c, m, namelen, open)
  {
  }

  /** `f` reads the name at `c0`, which must end at `max`; it has read the labels `sofar`. */
  ghost predicate Reading(f: FindLabel, c0: nat, max: nat, sofar: seq<Label>)
    reads f
  {
    && f.Valid() && f.namelen == TextLength(sofar) && (if f.open then f.max == max else f.dmend <= max)
    && (forall j :: 0 <= j < |sofar| ==> sofar[j] != [])
    && Tracks(f.dgram, c0, sofar, f.cbyte, f.open, f.dmend) && BehindLabels(f.dgram, c0, sofar) == Some(f.cbyte)
  }

  /** There is a name of these labels, with this end. */
  ghost predicate NameIs(d: Dgram, c0: nat, max: nat, labels: seq<Label>, end: nat) {
    exists l :: LaidOut(d, c0, l) && Fits(c0, l, max) && Labels(l) == labels && EndOf(c0, l) == end
  }

  ghost predicate FittingName(d: Dgram, c0: nat, max: nat) {
    exists l :: LaidOut(d, c0, l) && Fits(c0, l, max)
  }

  lemma NoName(d: Dgram, c0: nat, max: nat, sofar: seq<Label>, c: nat, open: bool, dmend: nat)
    requires Tracks(d, c0, sofar, c, open, dmend)
    requires forall j :: 0 <= j < |sofar| ==> sofar[j] != []
    requires !Readable(d, c, max, TextLength(sofar), open)
    ensures !FittingName(d, c0, max)
  {
    hide Tracks, Readable, Fits;
    if FittingName(d, c0, max) {
      var l :| LaidOut(d, c0, l) && Fits(c0, l, max);
      TrackFails(d, c0, max, sofar, c, open, dmend, l);
    }
  }

  lemma NameFound(d: Dgram, c0: nat, max: nat, sofar: seq<Label>, c: nat, k: nat, open: bool, dmend: nat, end: nat)
    requires Tracks(d, c0, sofar, c, open, dmend) && Ends(d, c, k)
    requires Landing(d, c, k) < |d| && d[Landing(d, c, k)] == 0
    requires end == if !open then dmend else if IsPointer(d, c) then c + 2 else c + 1
    requires end <= max && TextLength(sofar) <= MAX_DOMAIN
    ensures NameIs(d, c0, max, sofar, end)
  {
    hide Tracks, Landing;
    var l := TrackEnd(d, c0, sofar, c, k, open, dmend);
    assert Fits(c0, l, max);
  }

  /** Where the reading of a name begins. */
  function Begin(begin: nat, max: nat): Cursor {
    Cursor(begin, max, 0, true)
  }

  method StartReading(d: Dgram, max: nat, begin: nat) returns (fls: FindLabel)
    ensures fresh(fls) && fls.dgram == d && Reading(fls, begin, max, []) && fls.Place() == Begin(begin, max)
  {
    hide Tracks;
    fls := new FindLabel(d, max, begin);
    TrackStart(d, begin, fls.dmend);
  }

  lemma NotStuck(d: Dgram, s: Cursor, quoteok: bool)
    requires Sound(d, s) && Finishes(d, s, quoteok)
    ensures !Stuck(d, s)
  {
    hide Stuck;
    FinishesExactly(d, s, quoteok);
    NeverStuckOn(d, s, quoteok);
  }

  /** The pointers at `s` lead to a label that can be read, and that the reader takes. */
  predicate LabelNext(d: Dgram, s: Cursor, k: nat, quoteok: bool)
    requires Ends(d, s.at, k)
  {
    var p, hop := Landing(d, s.at, k), IsPointer(d, s.at);
    && p < |d| && 1 <= d[p] <= MAX_LABEL && p + 1 + d[p] <= |d| && Longer(s.namelen, d[p]) <= MAX_DOMAIN
    && (s.open ==> (if hop then s.at + 2 else p + 1 + d[p]) <= s.max)
    && (quoteok || HostLabel(d[p + 1..p + 1 + d[p]]))
  }

  /** Where the reader is behind that label. */
  function Behind(d: Dgram, s: Cursor, k: nat, quoteok: bool): Cursor
    requires Ends(d, s.at, k) && LabelNext(d, s, k, quoteok)
  {
    var p, hop := Landing(d, s.at, k), IsPointer(d, s.at);
    Cursor(p + 1 + d[p], if hop then |d| + 1 else s.max, Longer(s.namelen, d[p]), s.open && !hop)
  }

  lemma NextBehindPointer(d: Dgram, s: Cursor, quoteok: bool, k: nat)
    requires Sound(d, s) && IsPointer(d, s.at) && Ends(d, s.at, k)
    ensures Refused(d, s) ==> !LabelNext(d, s, k, quoteok)
    ensures !Refused(d, s) ==>
      var t := Cursor(PointsTo(d, s.at), |d| + 1, s.namelen, false);
      && LabelNext(d, s, k, quoteok) == LabelNext(d, t, k - 1, quoteok)
      && (LabelNext(d, s, k, quoteok) ==> Behind(d, s, k, quoteok) == Behind(d, t, k - 1, quoteok))
  {
    hide HostLabel;
  }

  lemma NextHere(d: Dgram, s: Cursor, quoteok: bool, k: nat)
    requires Sound(d, s) && !IsPointer(d, s.at)
    ensures Turned(d, s, quoteok) == if LabelNext(d, s, k, quoteok) then On(Behind(d, s, k, quoteok)) else Over
  {
    hide HostLabel;
  }

  /** What one call of `adns__findlabel_next` does, turn by turn: the reader gets behind the next label, or
      it is over without another label. */
  lemma {:induction false} TurnsToNext(d: Dgram, s: Cursor, quoteok: bool, k: nat) returns (n: nat)
    requires Sound(d, s) && Ends(d, s.at, k)
    ensures if LabelNext(d, s, k, quoteok) then After(d, s, quoteok, n) == On(Behind(d, s, k, quoteok))
            else OverWithin(d, s, quoteok, k)
    decreases k
  {
    hide LabelNext, Behind, Turned;
    n := 0;
    if IsPointer(d, s.at) {
      PointerTurn(d, s, quoteok);
      NextBehindPointer(d, s, quoteok, k);
      if !Refused(d, s) {
        n := TurnsToNext(d, Turned(d, s, quoteok).next, quoteok, k - 1);
        n := n + 1;
      }
    } else {
      NextHere(d, s, quoteok, k);
      n := 1;
      assert Turned(d, s, quoteok).On? ==> After(d, s, quoteok, 1) == On(Turned(d, s, quoteok).next);
    }
  }

  /** If reading comes to an end from `s` on, it does from behind the next label on. */
  lemma FinishesBehind(d: Dgram, s: Cursor, quoteok: bool, k: nat)
    requires Sound(d, s) && Ends(d, s.at, k) && LabelNext(d, s, k, quoteok)
    requires Finishes(d, s, quoteok)
    ensures Finishes(d, Behind(d, s, k, quoteok), quoteok)
  {
    hide LabelNext, Behind;
    var m: nat := TurnsToNext(d, s, quoteok, k);
    var n: nat :| OverWithin(d, s, quoteok, n);
    OverFromThere(d, s, quoteok, m, n);
  }

  /** While a name that is there is read, reading comes to an end. */
  lemma ReadingFinishes(f: FindLabel, c0: nat, max: nat, sofar: seq<Label>, quoteok: bool)
    requires Reading(f, c0, max, sofar) && FittingName(f.dgram, c0, max)
    ensures Finishes(f.dgram, f.Place(), quoteok)
  {
    hide LaidOut, Labels, EndOf, Fits, Finishes;
    var l :| LaidOut(f.dgram, c0, l) && Fits(c0, l, max);
    assert HasRest(f.dgram, c0, l, sofar, f.cbyte, f.open, f.dmend);
    var r :| Midway(f.dgram, c0, l, sofar, f.cbyte, r, f.open, f.dmend);
    LayoutFinishes(f.dgram, f.Place(), quoteok, r);
  }

  /** One call of `adns__findlabel_next` in a loop that reads a name: it says that no name fits, or that
      the name is over, or gives the next label. */
  method ReadLabel(fls: FindLabel, ghost c0: nat, ghost max: nat, ghost sofar: seq<Label>, ghost quoteok: bool)
    returns (st: Status, lablen: int, labstart: nat)
    requires Reading(fls, c0, max, sofar) && Finishes(fls.dgram, fls.Place(), quoteok)
    modifies fls
    ensures lablen >= -1 && st != AnswerDomainInvalid
    ensures st != Ok || lablen < 0 ==> !FittingName(fls.dgram, c0, max)
    ensures st == Ok && lablen >= 0 ==> labstart + lablen <= |fls.dgram|
    ensures st == Ok && lablen == 0 ==> NameIs(fls.dgram, c0, max, sofar, fls.dmend)
    ensures st == Ok && lablen > 0 ==>
      && lablen <= MAX_LABEL
      && Reading(fls, c0, max, sofar + [fls.dgram[labstart..labstart + lablen]])
      && (quoteok || HostLabel(fls.dgram[labstart..labstart + lablen]) ==> Finishes(fls.dgram, fls.Place(), quoteok))
      && old(fls.namelen) < fls.namelen <= MAX_DOMAIN
  {
    hide Tracks, BehindLabels, Readable, TextLength, FittingName, NameIs, HostLabel, Finishes, Stuck;
    var d := fls.dgram;
    ghost var c, open, dmend, m := fls.cbyte, fls.open, fls.dmend, fls.max;
    ghost var s := fls.Place();
    NotStuck(d, s, quoteok);
    st, lablen, labstart := fls.Next();
    if st != Ok || lablen < 0 {
      OpenOnly(d, c, max, m, TextLength(sofar), open);
      NoName(d, c0, max, sofar, c, open, dmend);
      return;
    }
    ReadableLabel(d, c, m, TextLength(sofar), open);
    if lablen == 0 {
      NameFound(d, c0, max, sofar, c, |d|, open, dmend, fls.dmend);
    } else {
      ghost var x := d[labstart..labstart + lablen];
      TrackLabel(d, c0, sofar, c, |d|, x, open, dmend, fls.dmend);
      BehindLabelsMore(d, c0, sofar, c, x);
      if quoteok || HostLabel(x) {
        assert LabelNext(d, s, |d|, quoteok) && Behind(d, s, |d|, quoteok) == fls.Place();
        FinishesBehind(d, s, quoteok, |d|);
      }
      TextLengthOf(sofar, x, []);
      NotTooLong(sofar);
    }
  }

  /** A name is acceptable, or none is. */
  lemma NameDecides(d: Dgram, c0: nat, max: nat, labels: seq<Label>, end: nat, quoteok: bool)
    requires NameIs(d, c0, max, labels, end)
    ensures HasName(d, c0, max, quoteok) <==> Acceptable(labels, quoteok)
    ensures Acceptable(labels, quoteok) ==>
      exists l :: IsName(d, c0, max, quoteok, l) && Labels(l) == labels && EndOf(c0, l) == end
  {
    hide Acceptable, Fits;
    var l :| LaidOut(d, c0, l) && Fits(c0, l, max) && Labels(l) == labels && EndOf(c0, l) == end;
    if Acceptable(labels, quoteok) {
      assert IsName(d, c0, max, quoteok, l);
    }
    if HasName(d, c0, max, quoteok) {
      var m :| IsName(d, c0, max, quoteok, m);
      LayoutIsUnique(d, c0, l, m);
    }
  }

  lemma NoFittingName(d: Dgram, c0: nat, max: nat, quoteok: bool)
    requires !FittingName(d, c0, max)
    ensures !HasName(d, c0, max, quoteok)
  {
    hide LaidOut, Fits, Acceptable;
  }

  lemma ReadingTracks(f: FindLabel, c0: nat, max: nat, sofar: seq<Label>)
    requires Reading(f, c0, max, sofar)
    ensures Tracks(f.dgram, c0, sofar, f.cbyte, f.open, f.dmend) && BehindLabels(f.dgram, c0, sofar).Some?
  {
  }

  method IsHostLabel(x: Label) returns (ok: bool)
    requires x != []
    ensures ok == HostLabel(x)
  {
    if !IsAlpha(x[0]) && !IsDigit(x[0]) {
      return false;
    }
    for i := 1 to |x|
      invariant forall k :: 0 <= k < i ==> HostByte(x[k], k == 0)
    {
      if x[i] != HYPHEN && !IsAlpha(x[i]) && !IsDigit(x[i]) {
        return false;
      }
    }
    return true;
  }

  /** A refused name leaves what was printed of it: the labels that were read, and the dot behind them if the
      next one is refused because it is none of a host name. */
  ghost predicate LeftOver(d: Dgram, begin: nat, quoteok: bool, st: Status, used: seq<byte>, labels: seq<Label>) {
    && BehindLabels(d, begin, labels).Some? && Acceptable(labels, quoteok)
    && if st == AnswerDomainInvalid then
         (exists x :: BehindLabels(d, begin, labels + [x]).Some? && !quoteok && !HostLabel(x))
         && used == Shown(labels, quoteok) + if labels == [] then [] else [DOT]
       else used == Shown(labels, quoteok)
  }

  /** `adns__parse_domain`: prints the name at `begin`, which must end at `max`. An empty buffer says that
      the datagram is too short. */
  method ParseDomain(d: Dgram, begin: nat, max: nat, quoteok: bool, vb: Vbuf) returns (st: Status, end: nat)
    requires Finishes(d, Begin(begin, max), quoteok)
    modifies vb
    ensures st == Ok && vb.used != [] <==> HasName(d, begin, max, quoteok)
    ensures st == Ok && vb.used != [] ==>
      exists l :: IsName(d, begin, max, quoteok, l) && vb.used == Shown(Labels(l), quoteok) + [0]
        && end == EndOf(begin, l)
    ensures st != Ok ==> exists labels :: LeftOver(d, begin, quoteok, st, vb.used, labels)
  {
    hide Finishes, Reading, HasName, Shown, HostLabel, Acceptable;
    vb.used := [];
    end := 0;
    var fls := StartReading(d, max, begin);
    var first := true;
    ghost var sofar: seq<Label> := [];
    NothingRead(quoteok);
    while true
      invariant fresh(fls) && fls.dgram == d && Reading(fls, begin, max, sofar)
      invariant Finishes(d, fls.Place(), quoteok)
      invariant Acceptable(sofar, quoteok) && vb.used == Shown(sofar, quoteok) && first == (sofar == [])
      decreases MAX_DOMAIN - fls.namelen
    {
      ReadingTracks(fls, begin, max, sofar);
      var lablen, labstart;
      st, lablen, labstart := ReadLabel(fls, begin, max, sofar, quoteok);
      if st != Ok || lablen < 0 {
        NoFittingName(d, begin, max, quoteok);
        if st == Ok {
          vb.used := [];
        }
        assert st != Ok ==> LeftOver(d, begin, quoteok, st, vb.used, sofar);
        return;
      }
      if lablen == 0 {
        NameDecides(d, begin, max, sofar, fls.dmend, quoteok);
        break;
      }
      var x := d[labstart..labstart + lablen];
      ghost var before := vb.used;
      if first {
        first := false;
      } else {
        vb.Append([DOT]);
      }
      if quoteok {
        AppendQuoted(vb, x);
      } else {
        var ok := IsHostLabel(x);
        if !ok {
          ReadingTracks(fls, begin, max, sofar + [x]);
          TrackRefused(d, begin, max, sofar, x, fls.cbyte, fls.open, fls.dmend, quoteok);
          assert LeftOver(d, begin, quoteok, AnswerDomainInvalid, vb.used, sofar);
          return AnswerDomainInvalid, end;
        }
        vb.Append(x);
      }
      ShownAppend(sofar, x, quoteok);
      AcceptableParts(sofar, x, [], quoteok);
      sofar := sofar + [x];
    }
    vb.Append([0]);
    end := fls.dmend;
  }

  // ----- queries -----

  const HEADER_SIZE := 12
  const CLASS_IN := 1

  function Word(n: nat): seq<byte>
    requires n < 0x1_0000
  {
    [n / 0x100, n % 0x100]
  }

  function Header(id: nat): seq<byte>
    requires id < 0x1_0000
  {
    Word(id) + [1, 0] + Word(1) + Word(0) + Word(0) + Word(0)
  }

  function Footer(typ: nat): seq<byte>
    requires typ < 0x1_0000
  {
    Word(typ) + Word(CLASS_IN)
  }

  /** The labels as they are written without pointers. */
  function Wire(labels: seq<Label>): seq<byte>
    requires forall j :: 0 <= j < |labels| ==> |labels[j]| <= MAX_LABEL
  {
    if labels == [] then [] else [|labels[0]|] + labels[0] + Wire(labels[1..])
  }

  function Query(id: nat, labels: seq<Label>, typ: nat): Dgram
    requires id < 0x1_0000 && typ < 0x1_0000 && forall j :: 0 <= j < |labels| ==> |labels[j]| <= MAX_LABEL
  {
    Header(id) + Wire(labels) + [0] + Footer(typ)
  }

  /** `GET_W` */
  function WordAt(d: Dgram, c: nat): nat
    requires c + 2 <= |d|
  {
    var high: int := d[c];
    high * 0x100 + d[c + 1]
  }

  /** What a server makes of the datagram, read as replies are (adns/reply.c:53-70): a query with this id, of kind
      QUERY, whole, that asks for recursion, with one question and nothing else; and the question is about this
      type and the class IN. */
  predicate AsksFor(q: Dgram, id: nat, typ: nat) {
    && |q| >= 12 + 1 + 4
    && WordAt(q, 0) == id
    && q[2] / 0x80 == 0                 // QR
    && q[2] % 0x80 / 8 == 0             // OPCODE
    && q[2] / 2 % 2 == 0                // TC
    && q[2] % 2 == 1                    // RD
    && q[3] % 0x10 == 0                 // RCODE
    && WordAt(q, 4) == 1 && WordAt(q, 6) == 0 && WordAt(q, 8) == 0 && WordAt(q, 10) == 0
    && WordAt(q, |q| - 4) == typ && WordAt(q, |q| - 2) == 1
  }

  lemma QueryAsks(id: nat, labels: seq<Label>, typ: nat)
    requires id < 0x1_0000 && typ < 0x1_0000 && forall j :: 0 <= j < |labels| ==> |labels[j]| <= MAX_LABEL
    ensures AsksFor(Query(id, labels, typ), id, typ)
  {
    hide Wire;
    var q := Query(id, labels, typ);
    HeaderSize(id);
    assert q[..12] == Header(id);
    assert forall k :: 0 <= k < 12 ==> q[k] == Header(id)[k];
    assert q[|q| - 4..] == Footer(typ);
    assert forall k :: 0 <= k < 4 ==> q[|q| - 4 + k] == Footer(typ)[k];
  }

  lemma {:induction false} WireAppend(labels: seq<Label>, x: Label)
    requires (forall j :: 0 <= j < |labels| ==> |labels[j]| <= MAX_LABEL) && |x| <= MAX_LABEL
    ensures Wire(labels + [x]) == Wire(labels) + [|x|] + x
    ensures WireLength(labels + [x]) == WireLength(labels) + |x| + 1
  {
    if labels == [] {
      assert [] + [x] == [x];
    } else {
      WireAppend(labels[1..], x);
      assert (labels + [x])[1..] == labels[1..] + [x];
    }
  }

  lemma {:induction false} WireSize(labels: seq<Label>)
    requires forall j :: 0 <= j < |labels| ==> |labels[j]| <= MAX_LABEL
    ensures |Wire(labels)| == WireLength(labels)
    ensures labels != [] ==> TextLength(labels) + 1 == WireLength(labels)
    ensures labels == [] ==> TextLength(labels) == 0 == WireLength(labels)
  {
    if labels != [] {
      WireSize(labels[1..]);
    }
  }

  /** A label takes no more bytes than its text; one fewer, if text comes after it. */
  lemma {:induction false} LabelConsumes(t: seq<byte>, quoteok: bool, room: nat, sofar: Label)
    ensures var r := ParseLabel(t, quoteok, room, sofar);
            r.ParsedLabel? ==> |r.bytes| - |sofar| + (if r.rest == [] then 0 else 1) <= |t| - |r.rest|
    decreases |t|
  {
    if t != [] && t[0] != DOT && ReadByte(t, quoteok).Got? {
      var g := ReadByte(t, quoteok);
      if |sofar| != room {
        LabelConsumes(t[g.used..], quoteok, room, sofar + [g.c]);
      }
    }
  }

  method MkQueryHeader(buf: array<byte>, id: nat) returns (rqp: nat)
    requires id < 0x1_0000 && buf.Length >= HEADER_SIZE
    modifies buf
    ensures rqp == HEADER_SIZE && buf[..rqp] == Header(id)
  {
    buf[0], buf[1] := id / 0x100, id % 0x100;
    buf[2], buf[3] := 1, 0;
    buf[4], buf[5] := 0, 1;
    buf[6], buf[7] := 0, 0;
    buf[8], buf[9] := 0, 0;
    buf[10], buf[11] := 0, 0;
    rqp := HEADER_SIZE;
    assert buf[..rqp] == Header(id);
  }

  method MkQueryFooter(buf: array<byte>, used: nat, typ: nat) returns (rqp: nat)
    requires typ < 0x1_0000 && used + 4 <= buf.Length
    modifies buf
    ensures rqp == used + 4 && buf[..rqp] == old(buf[..used]) + Footer(typ)
  {
    buf[used], buf[used + 1] := typ / 0x100, typ % 0x100;
    buf[used + 2], buf[used + 3] := CLASS_IN / 0x100, CLASS_IN % 0x100;
    rqp := used + 4;
    assert buf[..rqp] == buf[..used] + [buf[used], buf[used + 1], buf[used + 2], buf[used + 3]];
  }

  /** Copies `len` bytes of `src` to position `at`. */
  method CopyTo(buf: array<byte>, at: nat, src: seq<byte>)
    requires at + |src| <= buf.Length
    modifies buf
    ensures buf[..at + |src|] == old(buf[..at]) + src
  {
    for i := 0 to |src|
      invariant buf[..at + i] == old(buf[..at]) + src[..i]
    {
      buf[at + i] := src[i];
      assert buf[..at + i + 1] == buf[..at + i] + [src[i]];
    }
  }

  /** The labels that were parsed before the others. */
  function Before(labels: seq<Label>, r: ParsedName): ParsedName {
    match r
    case BadName(_) => r
    case ParsedName(others) => ParsedName(labels + others)
  }

  lemma BeforeTwice(a: seq<Label>, b: seq<Label>, r: ParsedName)
    ensures Before(a, Before(b, r)) == Before(a + b, r)
  {
    if r.ParsedName? {
      assert a + (b + r.labels) == a + b + r.labels;
    }
  }

  /** One round of the loop of `adns__mkquery`: the label at `p0` of the text goes to `rqp0`. */
  method AddLabel(owner: seq<byte>, p0: nat, lab: array<byte>, buf: array<byte>, rqp0: nat, nbytes0: nat, quoteok: bool)
    returns (st: Status, p: nat, rqp: nat, nbytes: nat, ghost x: Label)
    requires p0 < |owner| && lab != buf && lab.Length == MAX_DOMAIN
    requires rqp0 + |owner| - p0 + 1 <= buf.Length
    modifies lab, buf
    ensures st != Ok ==> ParseName(owner[p0..], quoteok, nbytes0) == BadName(st)
    ensures st == Ok ==>
      && p0 < p <= |owner| && 1 <= |x| <= MAX_LABEL && rqp == rqp0 + 1 + |x| <= buf.Length
      && buf[..rqp] == old(buf[..rqp0]) + [|x|] + x
      && nbytes == nbytes0 + |x| + 1 < MAX_DOMAIN && |x| + (if p == |owner| then 0 else 1) <= p - p0
      && ParseName(owner[p0..], quoteok, nbytes0) == Before([x], ParseName(owner[p..], quoteok, nbytes))
  {
    hide ParseLabel;
    ghost var t := owner[p0..];
    rqp, nbytes, x := rqp0, nbytes0, [];
    LabelConsumes(t, quoteok, MAX_DOMAIN, []);
    var ll: nat;
    st, p, ll := QdplNormal(owner, p0, lab, quoteok);
    if st != Ok {
      return;
    }
    x := lab[..ll];
    if ll == 0 {
      st := QueryDomainInvalid;
      return;
    }
    if ll > MAX_LABEL {
      st := QueryDomainTooLong;
      return;
    }
    nbytes := nbytes + ll + 1;
    if nbytes >= MAX_DOMAIN {
      st := QueryDomainTooLong;
      return;
    }
    buf[rqp] := ll;
    assert buf[..rqp + 1] == old(buf[..rqp0]) + [ll];
    CopyTo(buf, rqp + 1, lab[..ll]);
    rqp := rqp + 1 + ll;
  }

  /** `adns__mkquery`. The buffer has room for the text of the name, two more bytes, a header and four
      bytes behind the name; nothing is ever written beyond. */
  method MkQuery(owner: seq<byte>, id: nat, typ: nat, quoteok: bool) returns (st: Status, buf: array<byte>, used: nat)
    requires id < 0x1_0000 && typ < 0x1_0000
    ensures used <= buf.Length
    ensures match ParseName(owner, quoteok, 0)
            case BadName(bad) => st == bad != Ok
            case ParsedName(labels) =>
              && st == Ok && (forall j :: 0 <= j < |labels| ==> |labels[j]| <= MAX_LABEL)
              && buf[..used] == Query(id, labels, typ) && AsksFor(buf[..used], id, typ)
  {
    hide ParseName, Header, Footer, Wire, Before, AsksFor;
    buf := new byte[HEADER_SIZE + |owner| + 2 + 4];
    var lab := new byte[MAX_DOMAIN];
    var rqp: nat := MkQueryHeader(buf, id);
    var p: nat, nbytes: nat := 0, 0;
    ghost var labels: seq<Label> := [];
    used := 0;
    BadIsBad(owner, quoteok, 0);
    assert owner[0..] == owner;
    BeforeNothing(ParseName(owner, quoteok, 0));
    while p != |owner|
      invariant p <= |owner| && nbytes <= p + (if p == |owner| then 1 else 0)
      invariant forall j :: 0 <= j < |labels| ==> 1 <= |labels[j]| <= MAX_LABEL
      invariant rqp == HEADER_SIZE + nbytes && buf[..rqp] == Header(id) + Wire(labels)
      invariant ParseName(owner, quoteok, 0) == Before(labels, ParseName(owner[p..], quoteok, nbytes))
      decreases |owner| - p
    {
      ghost var x := [];
      st, p, rqp, nbytes, x := AddLabel(owner, p, lab, buf, rqp, nbytes, quoteok);
      if st != Ok {
        BeforeBad(labels, st);
        return;
      }
      WireAppend(labels, x);
      BeforeTwice(labels, [x], ParseName(owner[p..], quoteok, nbytes));
      labels := labels + [x];
    }
    NothingParsed(owner[p..], quoteok, nbytes, labels);
    buf[rqp] := 0;
    assert buf[..rqp + 1] == buf[..rqp] + [0];
    rqp := rqp + 1;
    used := MkQueryFooter(buf, rqp, typ);
    QueryAsks(id, labels, typ);
    st := Ok;
  }

  lemma BeforeBad(labels: seq<Label>, st: Status)
    ensures Before(labels, BadName(st)) == BadName(st)
  {
  }

  lemma BeforeNothing(r: ParsedName)
    ensures Before([], r) == r && Wire([]) == []
  {
  }

  lemma NothingParsed(t: seq<byte>, quoteok: bool, nbytes: nat, labels: seq<Label>)
    requires t == []
    ensures Before(labels, ParseName(t, quoteok, nbytes)) == ParsedName(labels)
  {
    assert labels + [] == labels;
  }

  lemma {:induction false} BadIsBad(t: seq<byte>, quoteok: bool, nbytes: nat)
    ensures ParseName(t, quoteok, nbytes) != BadName(Ok)
    decreases |t|
  {
    hide ParseLabel;
    if t != [] && ParseLabel(t, quoteok, MAX_DOMAIN, []).ParsedLabel? {
      var p := ParseLabel(t, quoteok, MAX_DOMAIN, []);
      BadIsBad(p.rest, quoteok, nbytes + |p.bytes| + 1);
    }
  }

  // ----- what a query says is what was parsed -----

  function Plain(labels: seq<Label>): (l: Layout)
    ensures Labels(l) == labels
  {
    if labels == [] then End else Text(labels[0], Plain(labels[1..]))
  }

  lemma SliceParts(d: Dgram, c: nat, a: seq<byte>, b: seq<byte>)
    requires c + |a| + |b| <= |d| && d[c..c + |a| + |b|] == a + b
    ensures d[c..c + |a|] == a && d[c + |a|..c + |a| + |b|] == b
  {
    assert d[c..c + |a| + |b|][..|a|] == a && d[c..c + |a| + |b|][|a|..] == b;
  }

  lemma {:induction false} PlainIsLaidOut(d: Dgram, c: nat, labels: seq<Label>)
    requires forall j :: 0 <= j < |labels| ==> 1 <= |labels[j]| <= MAX_LABEL
    requires c + WireLength(labels) + 1 <= |d| && d[c..c + WireLength(labels) + 1] == Wire(labels) + [0]
    ensures LaidOut(d, c, Plain(labels)) && EndOf(c, Plain(labels)) == c + WireLength(labels) + 1
    decreases |labels|
  {
    hide Wire, WireLength;
    WireFirst(labels);
    if labels == [] {
      assert d[c] == d[c..c + 1][0];
    } else {
      var x, more := labels[0], labels[1..];
      LabelInWire(d, c, x, more);
      PlainIsLaidOut(d, c + 1 + |x|, more);
    }
  }

  lemma WireFirst(labels: seq<Label>)
    requires forall j :: 0 <= j < |labels| ==> |labels[j]| <= MAX_LABEL
    ensures if labels == [] then Wire(labels) == [] && WireLength(labels) == 0
            else
              && Wire(labels) == [|labels[0]|] + labels[0] + Wire(labels[1..])
              && WireLength(labels) == |labels[0]| + 1 + WireLength(labels[1..])
  {
  }

  lemma LabelInWire(d: Dgram, c: nat, x: Label, more: seq<Label>)
    requires |x| <= MAX_LABEL && forall j :: 0 <= j < |more| ==> |more[j]| <= MAX_LABEL
    requires c + 1 + |x| + WireLength(more) + 1 <= |d|
    requires d[c..c + 1 + |x| + WireLength(more) + 1] == [|x|] + x + Wire(more) + [0]
    ensures d[c] == |x| && d[c + 1..c + 1 + |x|] == x
    ensures d[c + 1 + |x|..c + 1 + |x| + WireLength(more) + 1] == Wire(more) + [0]
  {
    hide Wire, WireLength;
    WireSize(more);
    assert [|x|] + x + Wire(more) + [0] == ([|x|] + x) + (Wire(more) + [0]);
    SliceParts(d, c, [|x|] + x, Wire(more) + [0]);
    SliceParts(d, c, [|x|], x);
    assert d[c..c + 1][0] == d[c];
  }

  lemma HeaderSize(id: nat)
    requires id < 0x1_0000
    ensures |Header(id)| == HEADER_SIZE
  {
  }

  /** The name in a query is the one that it was made for. */
  lemma QueryReadsBack(id: nat, labels: seq<Label>, typ: nat)
    requires id < 0x1_0000 && typ < 0x1_0000 && ValidName(labels)
    ensures var q := Query(id, labels, typ);
            NameIs(q, HEADER_SIZE, |q|, labels, |q| - 4)
  {
    hide Header, Wire;
    WireSize(labels);
    var q := Query(id, labels, typ);
    HeaderSize(id);
    assert q[HEADER_SIZE..HEADER_SIZE + WireLength(labels) + 1] == Wire(labels) + [0];
    PlainIsLaidOut(q, HEADER_SIZE, labels);
    assert Fits(HEADER_SIZE, Plain(labels), |q|);
  }

  /** From text to a query and back: the parsed name is what the query holds, and what is printed for it
      is read as the same name again if and only if its bytes are all faithful. */
  lemma TextToQueryAndBack(owner: seq<byte>, id: nat, typ: nat)
    requires id < 0x1_0000 && typ < 0x1_0000 && ParseName(owner, true, 0).ParsedName?
    ensures var labels := ParseName(owner, true, 0).labels;
            && ValidName(labels)
            && (var q := Query(id, labels, typ);
                && HasName(q, HEADER_SIZE, |q|, true)
                && (forall l :: LaidOut(q, HEADER_SIZE, l) ==> Labels(l) == labels && EndOf(HEADER_SIZE, l) == |q| - 4))
            && (ParseName(Shown(labels, true), true, 0) == ParsedName(labels) <==> AllFaithful(labels))
  {
    hide ParseName, AllFaithful, Fits;
    ParsedIsValid(owner, true, 0);
    var labels := ParseName(owner, true, 0).labels;
    QueryReadsBack(id, labels, typ);
    var q := Query(id, labels, typ);
    NameDecides(q, HEADER_SIZE, |q|, labels, |q| - 4, true);
    var m :| LaidOut(q, HEADER_SIZE, m) && Fits(HEADER_SIZE, m, |q|) && Labels(m) == labels
      && EndOf(HEADER_SIZE, m) == |q| - 4;
    forall l | LaidOut(q, HEADER_SIZE, l)
      ensures l == m
    {
      LayoutIsUnique(q, HEADER_SIZE, l, m);
    }
    QuotingRoundTrip(labels);
  }

  /** What `adns__procdgram` asks of a reply before it looks at the answers (adns/reply.c:49-144): the
      header, and that it quotes the question of the query. */
  predicate Accepted(d: Dgram, query: Dgram) {
    && HEADER_SIZE <= |query| <= |d| && d[2] >= 0x80 && d[2] / 8 % 16 == 0 && d[3] % 16 == 0
    && WordAt(d, 4) == 1 && WordAt(d, 6) > 0 && WordAt(d, 0) == WordAt(query, 0)
    && d[HEADER_SIZE..|query|] == query[HEADER_SIZE..]
  }

  /** A reply with one answer, which is `answer` and what follows it. */
  function Reply(query: Dgram, answer: Dgram): Dgram
    requires |query| >= HEADER_SIZE
  {
    query[..2] + [0x81, 0x80, 0, 1, 0, 1, 0, 0, 0, 0] + query[HEADER_SIZE..] + answer
  }

  lemma ReplyParts(query: Dgram, answer: Dgram)
    requires |query| >= HEADER_SIZE
    ensures var d := Reply(query, answer);
            && |d| == |query| + |answer| && d[|query|..] == answer && Accepted(d, query)
  {
    var d := Reply(query, answer);
    assert d[HEADER_SIZE..|query|] == query[HEADER_SIZE..];
    assert d[..12] == query[..2] + [0x81, 0x80, 0, 1, 0, 1, 0, 0, 0, 0];
    assert d[2] == d[..12][2] && d[3] == d[..12][3] && d[4] == d[..12][4] && d[5] == d[..12][5];
    assert d[6] == d[..12][6] && d[7] == d[..12][7] && d[0] == d[..12][0] && d[1] == d[..12][1];
  }

  /** For every query there is a reply that is accepted and whose first owner has no end: it points to
      itself, right behind the question. */
  lemma AcceptedButEndless(id: nat, labels: seq<Label>, typ: nat, more: Dgram, quoteok: bool)
    requires id < 0x1_0000 && typ < 0x1_0000 && ValidName(labels)
    ensures var q := Query(id, labels, typ);
            && |q| < 0x4000
            && (var d := Reply(q, Word(0xC000 + |q|) + more);
                && Accepted(d, q) && !Finishes(d, Begin(|q|, |d|), quoteok))
  {
    hide Header, Wire, Reply, Accepted;
    WireSize(labels);
    HeaderSize(id);
    var q := Query(id, labels, typ);
    var self := Word(0xC000 + |q|);
    var d := Reply(q, self + more);
    ReplyParts(q, self + more);
    assert d[|q|..][0] == self[0] && d[|q|..][1] == self[1];
    ReachedAtOnce(d, Begin(|q|, |d|), quoteok);
    SelfPointerNeverFinishes(d, Begin(|q|, |d|), quoteok, Begin(|q|, |d|));
  }

  lemma ReadingStaysOn(f: FindLabel, c0: nat, max: nat, sofar: seq<Label>, labels: seq<Label>, end: nat)
    requires Reading(f, c0, max, sofar) && NameIs(f.dgram, c0, max, labels, end)
    ensures sofar <= labels
  {
    hide LaidOut, Fits, EndOf;
    var l :| LaidOut(f.dgram, c0, l) && Fits(c0, l, max) && Labels(l) == labels && EndOf(c0, l) == end;
    assert HasRest(f.dgram, c0, l, sofar, f.cbyte, f.open, f.dmend);
    var r :| Midway(f.dgram, c0, l, sofar, f.cbyte, r, f.open, f.dmend);
  }

  lemma NamesAgree(d: Dgram, c0: nat, max: nat, a: seq<Label>, b: seq<Label>, end: nat, end': nat)
    requires NameIs(d, c0, max, a, end) && NameIs(d, c0, max, b, end')
    ensures a == b && end == end'
  {
    hide Fits;
    var l :| LaidOut(d, c0, l) && Fits(c0, l, max) && Labels(l) == a && EndOf(c0, l) == end;
    var m :| LaidOut(d, c0, m) && Fits(c0, m, max) && Labels(m) == b && EndOf(c0, m) == end';
    LayoutIsUnique(d, c0, l, m);
  }

  /** The bytes that `mkquery_header` asks for when a name of a datagram of `len` bytes is copied. */
  function Reserved(len: nat): nat { HEADER_SIZE + len + 4 }

  /** The query fits into what is asked for if and only if the name without pointers is no longer than the
      datagram it comes from. That holds for a name without pointers, and in every datagram of 257 bytes. */
  lemma ReservedSuffices(d: Dgram, begin: nat, l: Layout, id: nat, typ: nat)
    requires LaidOut(d, begin, l) && Fits(begin, l, |d|) && id < 0x1_0000 && typ < 0x1_0000
    requires forall j :: 0 <= j < |Labels(l)| ==> |Labels(l)[j]| <= MAX_LABEL
    ensures |Query(id, Labels(l), typ)| <= Reserved(|d|) <==> WireLength(Labels(l)) + 1 <= |d|
    ensures |d| >= 257 || Pointers(l) == 0 ==> WireLength(Labels(l)) + 1 <= |d|
  {
    hide Header, Wire;
    WireSize(Labels(l));
    HeaderSize(id);
    if Pointers(l) == 0 {
      WithoutPointers(d, begin, l);
    }
  }

  /** The pointers of a layout. */
  function Pointers(l: Layout): nat {
    match l
    case End => 0
    case Text(_, rest) => Pointers(rest)
    case Pointer(_, rest) => 1 + Pointers(rest)
  }

  lemma {:induction false} WithoutPointers(d: Dgram, c: nat, l: Layout)
    requires LaidOut(d, c, l) && Pointers(l) == 0
    ensures c + WireLength(Labels(l)) + 1 == EndOf(c, l) <= |d|
    decreases l
  {
    if l.Text? {
      WithoutPointers(d, c + 1 + |l.x|, l.rest);
    }
  }

  /** A label of all that `fill` needs, and behind it a pointer into its middle. */
  function Overlapping(pre: Dgram, fill: Label): Dgram
    requires |fill| + 2 <= MAX_LABEL && |pre| < 0x3FFF
  {
    pre + [|fill| + 2, |fill|] + fill + [0] + Word(0xC000 + |pre| + 1)
  }

  lemma TwoLabels(x: Label, t: nat, y: Label)
    ensures Labels(Text(x, Pointer(t, Text(y, End)))) == [x, y]
    ensures WireLength([x, y]) == |x| + |y| + 2 && TextLength([x, y]) == |x| + 1 + |y|
  {
    assert Labels(Text(y, End)) == [y] + [];
    assert [x] + [y] == [x, y] && [x, y][1..] == [y] && [y][1..] == [];
    assert WireLength([y]) == |y| + 1 && TextLength([y]) == |y|;
  }

  lemma OverlappingParts(pre: Dgram, fill: Label)
    requires 0 < |fill| <= MAX_LABEL - 2 && |pre| < 0x3FFF
    ensures var d, b, n := Overlapping(pre, fill), |pre|, |fill|;
            && |d| == b + n + 5 && d[b] == n + 2 && d[b + 1] == n && d[b + 2 + n] == 0
            && d[b + 1..b + 3 + n] == [n] + fill + [0] && d[b + 2..b + 2 + n] == fill
            && IsPointer(d, b + 3 + n) && PointsTo(d, b + 3 + n) == b + 1
  {
    var d, b, n := Overlapping(pre, fill), |pre|, |fill|;
    assert d[b + 3 + n..] == Word(0xC000 + b + 1);
    assert d[b + 3 + n] == d[b + 3 + n..][0] && d[b + 4 + n] == d[b + 3 + n..][1];
  }

  /** Labels that overlap: such a name takes more than the datagram it is written in. `pre` has room for the
      header, a question and the fields of a record. */
  lemma ReservedFallsShort(pre: Dgram, fill: Label, id: nat, typ: nat)
    requires |pre| < |fill| <= MAX_LABEL - 2 && id < 0x1_0000 && typ < 0x1_0000
    ensures var d, l := Overlapping(pre, fill), Text([|fill|] + fill + [0], Pointer(|pre| + 1, Text(fill, End)));
            && LaidOut(d, |pre|, l) && Fits(|pre|, l, |d|)
            && Labels(l) == [[|fill|] + fill + [0], fill]
            && |Query(id, Labels(l), typ)| > Reserved(|d|)
  {
    hide Overlapping, IsPointer, PointsTo, Header, Wire, WireLength, TextLength, Labels;
    var d, x := Overlapping(pre, fill), [|fill|] + fill + [0];
    OverlappingParts(pre, fill);
    TwoLabels(x, |pre| + 1, fill);
    WireSize([x, fill]);
    HeaderSize(id);
    assert LaidOut(d, |pre| + 1, Text(fill, End));
    assert LaidOut(d, |pre| + 3 + |fill|, Pointer(|pre| + 1, Text(fill, End)));
    assert EndOf(|pre| + 3 + |fill|, Pointer(|pre| + 1, Text(fill, End))) == |d|;
  }

  /** `adns__mkquery_frdgram`: a query for the name at `begin` of another datagram, which was parsed
      before. Whatever pointers the name has there, the query has none. */
  method MkQueryFrDgram(vb: Vbuf, d: Dgram, begin: nat, id: nat, typ: nat)
    requires FittingName(d, begin, |d|) && id < 0x1_0000 && typ < 0x1_0000
    modifies vb
    ensures exists labels, end ::
      && NameIs(d, begin, |d|, labels, end)
      && (forall j :: 0 <= j < |labels| ==> |labels[j]| <= MAX_LABEL) && vb.used == Query(id, labels, typ)
    ensures AsksFor(vb.used, id, typ)
  {
    hide AsksFor, Reading, FittingName, NameIs, Header, Wire, Finishes, Footer;
    vb.used := Header(id);
    var fls := StartReading(d, |d|, begin);
    ghost var labels: seq<Label> := [];
    BeforeNothing(ParsedName([]));
    while true
      invariant fresh(fls) && fls.dgram == d && Reading(fls, begin, |d|, labels)
      invariant (forall j :: 0 <= j < |labels| ==> |labels[j]| <= MAX_LABEL) && vb.used == Header(id) + Wire(labels)
      decreases MAX_DOMAIN - fls.namelen
    {
      ReadingFinishes(fls, begin, |d|, labels, true);
      var st, lablen, labstart := ReadLabel(fls, begin, |d|, labels, true);
      if lablen == 0 {
        break;
      }
      ghost var x := d[labstart..labstart + lablen];
      WireAppend(labels, x);
      vb.Append([lablen]);
      vb.Append(d[labstart..labstart + lablen]);
      labels := labels + [x];
    }
    vb.Append([0]);
    vb.Append(Word(typ) + Word(CLASS_IN));
    FooterIs(typ);
    assert vb.used == Query(id, labels, typ);
    QueryAsks(id, labels, typ);
  }

  lemma FooterIs(typ: nat)
    requires typ < 0x1_0000
    ensures Footer(typ) == Word(typ) + Word(CLASS_IN)
  {
  }

  // ----- resource records -----

  const MAX_TTL := 604_800

  /** `& ~32`, for letters. */
  function Upper(c: byte): byte {
    if IsAlpha(c) && c >= 97 then c - 32 else c
  }

  predicate SameLabel(a: Label, b: Label) {
    |a| == |b| && forall k :: 0 <= k < |a| ==> Upper(a[k]) == Upper(b[k])
  }

  /** Names that differ in the case of letters at most (section 2.3.3 of RFC 1035). */
  predicate SameName(a: seq<Label>, b: seq<Label>) {
    |a| == |b| && forall j :: 0 <= j < |a| ==> SameLabel(a[j], b[j])
  }

  /** Which letters are the same: those that are 32 apart. */
  lemma SameNameIs(a: seq<Label>, b: seq<Label>)
    ensures SameName(a, b) <==>
      |a| == |b| && forall j :: 0 <= j < |a| ==>
        |a[j]| == |b[j]| && forall k :: 0 <= k < |a[j]| ==>
          var x, y := a[j][k], b[j][k];
          x == y || (65 <= x <= 90 && y == x + 32) || (65 <= y <= 90 && x == y + 32)
  {
    forall x: byte, y: byte
      ensures Upper(x) == Upper(y) <==> x == y || (65 <= x <= 90 && y == x + 32) || (65 <= y <= 90 && x == y + 32)
    {
    }
    assert forall j :: 0 <= j < |a| && |a| == |b| && SameLabel(a[j], b[j]) ==> |a[j]| == |b[j]|;
  }

  method EqualLabels(a: Label, b: Label) returns (same: bool)
    requires |a| == |b|
    ensures same == SameLabel(a, b)
  {
    for k := 0 to |a|
      invariant forall j :: 0 <= j < k ==> Upper(a[j]) == Upper(b[j])
    {
      if Upper(a[k]) != Upper(b[k]) {
        return false;
      }
    }
    return true;
  }

  /** Another name, which the owner of a record is compared with. */
  datatype Other = Other(dgram: Dgram, begin: nat)

  /** The labels of a name that is known to be there. */
  ghost function NameThere(o: Other): (labels: seq<Label>)
    requires FittingName(o.dgram, o.begin, |o.dgram|)
  {
    var l :| LaidOut(o.dgram, o.begin, l) && Fits(o.begin, l, |o.dgram|);
    Labels(l)
  }

  lemma NameThereIs(o: Other)
    requires FittingName(o.dgram, o.begin, |o.dgram|)
    ensures exists end :: NameIs(o.dgram, o.begin, |o.dgram|, NameThere(o), end)
  {
    hide LaidOut, Fits;
    var l :| LaidOut(o.dgram, o.begin, l) && Fits(o.begin, l, |o.dgram|) && Labels(l) == NameThere(o);
    assert NameIs(o.dgram, o.begin, |o.dgram|, NameThere(o), EndOf(o.begin, l));
  }

  /** The other name cannot be the one whose first labels are `sofar`. */
  ghost predicate Differs(sofar: seq<Label>, other: seq<Label>) {
    exists j :: 0 <= j < |sofar| && (j >= |other| || !SameLabel(sofar[j], other[j]))
  }

  lemma DiffersOn(sofar: seq<Label>, x: Label, other: seq<Label>)
    requires Differs(sofar, other)
    ensures Differs(sofar + [x], other)
  {
    hide SameLabel;
    var j :| 0 <= j < |sofar| && (j >= |other| || !SameLabel(sofar[j], other[j]));
    assert (sofar + [x])[j] == sofar[j];
  }

  lemma DiffersHere(sofar: seq<Label>, x: Label, other: seq<Label>)
    requires |sofar| < |other| ==> !SameLabel(x, other[|sofar|])
    ensures Differs(sofar + [x], other)
  {
    assert (sofar + [x])[|sofar|] == x;
  }

  lemma DifferentName(sofar: seq<Label>, other: seq<Label>)
    requires Differs(sofar, other)
    ensures !SameName(sofar, other)
  {
  }

  lemma SameSoFar(sofar: seq<Label>, x: Label, other: seq<Label>)
    requires |sofar| < |other| && SameName(sofar, other[..|sofar|]) && SameLabel(x, other[|sofar|])
    ensures SameName(sofar + [x], other[..|sofar| + 1])
  {
    hide SameLabel;
    forall j | 0 <= j < |sofar|
      ensures SameLabel(sofar[j], other[j])
    {
      assert other[j] == other[..|sofar|][j];
    }
  }

  /** The next label of the other name is compared with `x`; without a label, the other name must be over.
      So far the names were the same. */
  method CompareNext(fls: FindLabel, o: Other, x: Label, ghost sofar: seq<Label>, ghost other: seq<Label>,
                     ghost end: nat)
    returns (same: bool)
    requires fls.dgram == o.dgram && NameIs(o.dgram, o.begin, |o.dgram|, other, end)
    requires |sofar| <= |other| && Reading(fls, o.begin, |o.dgram|, other[..|sofar|])
    requires SameName(sofar, other[..|sofar|])
    modifies fls
    ensures x == [] ==> same == SameName(sofar, other)
    ensures x != [] && same ==>
      && |sofar| < |other| && Reading(fls, o.begin, |o.dgram|, other[..|sofar| + 1])
      && SameName(sofar + [x], other[..|sofar| + 1])
    ensures x != [] && !same ==> Differs(sofar + [x], other)
  {
    hide Reading, FittingName, NameIs, Finishes, SameLabel, Differs, SameName;
    NameFits(o.dgram, o.begin, |o.dgram|, other, end);
    ghost var before := other[..|sofar|];
    ReadingFinishes(fls, o.begin, |o.dgram|, before, true);
    var st, lablen, labstart := ReadLabel(fls, o.begin, |o.dgram|, before, true);
    if lablen == 0 {
      NamesAgree(o.dgram, o.begin, |o.dgram|, before, other, fls.dmend, end);
      assert other == before;
      if x != [] {
        DiffersHere(sofar, x, other);
      }
      return x == [];
    }
    var y := o.dgram[labstart..labstart + lablen];
    ReadingStaysOn(fls, o.begin, |o.dgram|, before + [y], other, end);
    assert (before + [y])[|sofar|] == other[|sofar|] && before + [y] == other[..|sofar| + 1];
    if |x| != lablen {
      LongerDiffers(sofar, x, other);
      return false;
    }
    same := EqualLabels(x, y);
    if same {
      SameSoFar(sofar, x, other);
    } else {
      DiffersHere(sofar, x, other);
    }
  }

  lemma NameFits(d: Dgram, c0: nat, max: nat, labels: seq<Label>, end: nat)
    requires NameIs(d, c0, max, labels, end)
    ensures FittingName(d, c0, max)
  {
  }

  lemma LongerDiffers(sofar: seq<Label>, x: Label, other: seq<Label>)
    requires |sofar| < |other| && |x| != |other[|sofar|]|
    ensures Differs(sofar + [x], other) && !SameName(sofar, other)
  {
    DiffersHere(sofar, x, other);
  }

  /** What a record says; `typ` is -1 if the datagram is too short. */
  datatype Record = Record(typ: int, class_: nat, ttl: nat, rdlen: nat, rdstart: nat, matched: bool, next: nat)

  /** The fields of the record whose owner ends at `e`. */
  predicate FieldsAt(d: Dgram, e: nat, r: Record) {
    if e + 10 > |d| || e + 10 + WordAt(d, e + 8) > |d| then r.typ == -1
    else
      && r.typ == WordAt(d, e) && r.class_ == WordAt(d, e + 2)
      && r.ttl == (var ttl := WordAt(d, e + 4) * 0x1_0000 + WordAt(d, e + 6); if ttl > MAX_TTL then MAX_TTL else ttl)
      && r.rdlen == WordAt(d, e + 8) && r.rdstart == e + 10 && r.next == e + 10 + r.rdlen
  }

  method ReadFields(d: Dgram, e: nat, matched: bool) returns (r: Record)
    ensures FieldsAt(d, e, r) && r.matched == matched
  {
    var cbyte := e;
    r := Record(-1, 0, 0, 0, 0, matched, 0);
    if cbyte + 10 > |d| {
      return;
    }
    var typ := WordAt(d, cbyte);
    cbyte := cbyte + 2;
    var class_ := WordAt(d, cbyte);
    cbyte := cbyte + 2;
    var ttl := WordAt(d, cbyte) * 0x1_0000 + WordAt(d, cbyte + 2);
    cbyte := cbyte + 4;
    if ttl > MAX_TTL {
      ttl := MAX_TTL;
    }
    var rdlen := WordAt(d, cbyte);
    cbyte := cbyte + 2;
    var rdstart := cbyte;
    cbyte := cbyte + rdlen;
    if cbyte > |d| {
      return;
    }
    r := Record(typ, class_, ttl, rdlen, rdstart, matched, cbyte);
  }

  /** `adns__findrr_anychk`: the record at `cbyte`; whether it belongs to the other name is asked at the
      same time. Without an owner that can be read, there is no record. */
  method FindRR(d: Dgram, cbyte: nat, eo: Option<Other>) returns (st: Status, r: Record)
    requires Finishes(d, Begin(cbyte, |d|), true)
    requires eo.Some? ==> FittingName(eo.value.dgram, eo.value.begin, |eo.value.dgram|)
    ensures st == Ok && r.typ != -1 ==> FittingName(d, cbyte, |d|)
    ensures forall labels, end :: NameIs(d, cbyte, |d|, labels, end) ==>
      && st == Ok && FieldsAt(d, end, r)
      && (r.typ != -1 ==> r.matched == (eo.Some? && SameName(labels, NameThere(eo.value))))
  {
    hide Reading, FittingName, NameIs, Finishes, Differs, SameName, FieldsAt, NameThere;
    r := Record(-1, 0, 0, 0, 0, false, 0);
    var fls := StartReading(d, |d|, cbyte);
    var alive := eo.Some?;
    var eofls := fls;
    ghost var other: seq<Label>, otherEnd: nat := [], 0;
    ghost var sofar: seq<Label> := [];
    if eo.Some? {
      eofls := StartReading(eo.value.dgram, |eo.value.dgram|, eo.value.begin);
      NameThereIs(eo.value);
      other := NameThere(eo.value);
      otherEnd :| NameIs(eo.value.dgram, eo.value.begin, |eo.value.dgram|, other, otherEnd);
      assert other[..0] == [];
      NothingSame();
    }
    while true
      invariant fresh(fls) && fls.dgram == d && Reading(fls, cbyte, |d|, sofar) && eo.Some? == (eofls != fls)
      invariant Finishes(d, fls.Place(), true)
      invariant eo.Some? ==> fresh(eofls) && eofls.dgram == eo.value.dgram
      invariant alive ==>
        && eo.Some? && |sofar| <= |other| && Reading(eofls, eo.value.begin, |eo.value.dgram|, other[..|sofar|])
        && SameName(sofar, other[..|sofar|])
      invariant !alive ==> eo.None? || Differs(sofar, other)
      decreases MAX_DOMAIN - fls.namelen
    {
      var lablen, labstart;
      st, lablen, labstart := ReadLabel(fls, cbyte, |d|, sofar, true);
      if st != Ok || lablen < 0 {
        NoNameAtAll(d, cbyte, |d|);
        return;
      }
      var x := d[labstart..labstart + lablen];
      if alive {
        alive := CompareNext(eofls, eo.value, x, sofar, other, otherEnd);
      } else if lablen > 0 && eo.Some? {
        DiffersOn(sofar, x, other);
      } else if eo.Some? {
        DifferentName(sofar, other);
      }
      if lablen == 0 {
        break;
      }
      sofar := sofar + [x];
    }
    var end := fls.dmend;
    assert NameIs(d, cbyte, |d|, sofar, end);
    NameFits(d, cbyte, |d|, sofar, end);
    r := ReadFields(d, end, alive);
    forall labels, e | NameIs(d, cbyte, |d|, labels, e)
      ensures labels == sofar && e == end
    {
      NamesAgree(d, cbyte, |d|, labels, sofar, e, end);
    }
  }

  lemma NothingSame()
    ensures SameName([], [])
  {
  }

  lemma NoNameAtAll(d: Dgram, c0: nat, max: nat)
    requires !FittingName(d, c0, max)
    ensures forall labels, end :: !NameIs(d, c0, max, labels, end)
  {
  }
}
