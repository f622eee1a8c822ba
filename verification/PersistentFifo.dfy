/**
 The queue of urls on disk (src/utils/persistent_fifo.cxx): a buffer for writing, a buffer for reading,
 and numbered files that hold `URL_BY_FILE` lines each, of which the first is read and the last is
 written. All this acts as one queue of urls.
 */
module PersistentFifo {
  import opened Wrappers
  import opened UrlText

  const URL_BY_FILE := 100_000
  const BUF_SIZE := 65_536
  const MAX_LINE := 1192

  const NEWLINE := '\n'
  const NUL := '\0'

  /** The text of a file with these lines. */
  function Flat(lines: seq<string>): string {
    if lines == [] then "" else lines[0] + [NEWLINE] + Flat(lines[1..])
  }

  lemma {:induction false} FlatAppend(lines: seq<string>, line: string)
    ensures Flat(lines + [line]) == Flat(lines) + line + [NEWLINE]
  {
    if lines == [] {
      assert [] + [line] == [line];
    } else {
      FlatAppend(lines[1..], line);
      assert (lines + [line])[1..] == lines[1..] + [line];
    }
  }

  // ----- the state as a value -----

  /** `buffered` is what was read from the first file and not used yet, `unwritten` what was not written
      to the last file yet, `read` how far the first file was read; `lines` is the queue. */
  datatype View = View(
    inCount: nat, outCount: nat, fin: nat, fout: nat,
    buffered: string, files: map<nat, string>, read: nat, unwritten: string,
    lines: seq<string>)
  {
    /** How many lines come before those of file `fout + k`. */
    function Lo(k: nat): int { if k == 0 then 0 else k * URL_BY_FILE - outCount }

    function Hi(k: nat): int {
      if (k + 1) * URL_BY_FILE - outCount < |lines| then (k + 1) * URL_BY_FILE - outCount else |lines|
    }

    predicate Counts() {
      && outCount <= URL_BY_FILE && outCount <= inCount && |lines| == inCount - outCount
      && fin == fout + inCount / URL_BY_FILE
      && fout in files && fin in files && read <= |files[fout]|
    }

    /** The lines of the queue that are in file `fout + k`, or on their way to it or from it. */
    function Part(k: nat): seq<string>
      requires Counts() && k <= fin - fout
    {
      lines[Lo(k)..Hi(k)]
    }

    function Stream(k: nat): string
      requires Counts() && fout + k in files
    {
      (if k == 0 then buffered + files[fout][read..] else files[fout + k])
      + if k == fin - fout then unwritten else ""
    }

    ghost predicate FilePlaced(k: nat)
      requires Counts()
    {
      k <= fin - fout ==> fout + k in files && Stream(k) == Flat(Part(k))
    }

    ghost predicate Coherent() {
      && Counts()
      && (forall i :: 0 <= i < |lines| ==> GoodLine(lines[i]))
      && (forall k: nat {:trigger FilePlaced(k)} :: FilePlaced(k))
    }

    // --- steps ---

    /** `flushOut` */
    function Flushed(): View
      requires fin in files
    {
      this.(files := files[fin := files[fin] + unwritten], unwritten := "")
    }

    /** `n` more bytes of the first file are in the buffer. */
    function ReadMore(n: nat): View
      requires fout in files && read + n <= |files[fout]|
    {
      this.(buffered := buffered + files[fout][read..read + n], read := read + n)
    }

    function Written(line: string): View {
      this.(unwritten := unwritten + line + [NEWLINE], inCount := inCount + 1, lines := lines + [line])
    }

    /** `updateWrite`, when the last file is full. */
    function NextIn(): View {
      this.(fin := fin + 1, files := files[fin + 1 := ""])
    }

    /** The first line leaves the queue; it ends at `p` in the buffer. */
    function Taken(p: nat): View
      requires p < |buffered| && lines != []
    {
      this.(buffered := buffered[p + 1..], outCount := outCount + 1, lines := lines[1..])
    }

    /** `updateRead`, when the first file is used up: it is removed. */
    function NextOut(): View
      requires inCount >= outCount
    {
      this.(files := files - {fout}, fout := fout + 1, read := 0, inCount := inCount - outCount, outCount := 0)
    }
  }

  predicate GoodLine(line: string) { NEWLINE !in line && NUL !in line && |line| + 1 < MAX_LINE }

  /** Valid urls without newlines or NULs have such lines. */
  lemma ValidUrlsFit(u: UrlRecord, useCookies: bool)
    requires u.InRange() && IsValid(u)
    requires NEWLINE !in u.host && NUL !in u.host && NEWLINE !in u.file && NUL !in u.file
    requires u.cookie.Some? ==> NEWLINE !in u.cookie.value && NUL !in u.cookie.value
    ensures GoodLine(Serialized(u, useCookies))
  {
    hide Serialized;
    LineIsWithout(u, useCookies, NEWLINE);
    LineIsWithout(u, useCookies, NUL);
    LineIsShort(u, useCookies);
  }

  lemma FlushedStream(v: View, k: nat)
    requires v.Counts() && k <= v.fin - v.fout && v.fout + k in v.files
    ensures v.Flushed().Counts() && v.Flushed().Stream(k) == v.Stream(k)
  {
    if k == 0 && v.fin == v.fout {
      assert (v.files[v.fout] + v.unwritten)[v.read..] == v.files[v.fout][v.read..] + v.unwritten;
    }
  }

  lemma FlushedIsCoherent(v: View)
    requires v.Coherent()
    ensures v.Flushed().Coherent()
  {
    hide View.Stream;
    var w := v.Flushed();
    forall k: nat
      ensures w.FilePlaced(k)
    {
      assert v.FilePlaced(k);
      if k <= v.fin - v.fout {
        FlushedStream(v, k);
      }
    }
  }

  lemma ReadMoreStream(v: View, n: nat, k: nat)
    requires v.Counts() && v.read + n <= |v.files[v.fout]| && k <= v.fin - v.fout && v.fout + k in v.files
    ensures v.ReadMore(n).Counts() && v.ReadMore(n).Stream(k) == v.Stream(k)
  {
    assert v.files[v.fout][v.read..] == v.files[v.fout][v.read..v.read + n] + v.files[v.fout][v.read + n..];
  }

  lemma ReadMoreIsCoherent(v: View, n: nat)
    requires v.Coherent() && v.read + n <= |v.files[v.fout]|
    ensures v.ReadMore(n).Coherent()
  {
    hide View.Stream;
    var w := v.ReadMore(n);
    forall k: nat
      ensures w.FilePlaced(k)
    {
      assert v.FilePlaced(k);
      if k <= v.fin - v.fout {
        ReadMoreStream(v, n, k);
      }
    }
  }

  // ----- writing -----

  /** After a line was written, the last file may be full; then the next one is started. */
  function PutInto(v: View, line: string): View
    requires v.fin in v.files
  {
    var w := v.Written(line);
    if w.inCount % URL_BY_FILE == 0 then w.Flushed().NextIn() else w
  }

  lemma PutStream(v: View, line: string, k: nat)
    requires v.Counts() && k <= v.fin - v.fout && v.fout + k in v.files
    ensures PutInto(v, line).fout + k in PutInto(v, line).files && PutInto(v, line).Counts()
    ensures PutInto(v, line).Stream(k) == if k == v.fin - v.fout then v.Stream(k) + line + [NEWLINE] else v.Stream(k)
  {
    var u := v.(unwritten := v.unwritten + line + [NEWLINE]);
    assert u.Stream(k) == if k == v.fin - v.fout then v.Stream(k) + line + [NEWLINE] else v.Stream(k);
    FlushedStream(u, k);
  }

  /** The last file has all lines behind those of the others. */
  lemma LastPart(v: View)
    requires v.Counts()
    ensures v.Hi(v.fin - v.fout) == |v.lines| && v.Lo(v.fin - v.fout) <= |v.lines|
  {
  }

  lemma PutBounds(v: View, line: string, k: nat)
    requires v.Counts() && k <= v.fin - v.fout
    ensures var w := PutInto(v, line);
            && w.Counts() && w.Lo(k) == v.Lo(k) && w.Hi(k) == (if k == v.fin - v.fout then |v.lines| + 1 else v.Hi(k))
            && w.lines == v.lines + [line] && 0 <= v.Lo(k) <= v.Hi(k) <= |v.lines|
  {
  }

  lemma PutPart(v: View, line: string, k: nat)
    requires v.Counts() && k <= v.fin - v.fout
    ensures PutInto(v, line).Counts()
    ensures PutInto(v, line).Part(k) == if k == v.fin - v.fout then v.Part(k) + [line] else v.Part(k)
  {
    hide View.Lo, View.Hi, PutInto;
    PutBounds(v, line, k);
    LastPart(v);
    var w := PutInto(v, line);
    if k == v.fin - v.fout {
      assert w.lines[w.Lo(k)..w.Hi(k)] == v.lines[v.Lo(k)..|v.lines|] + [line];
    } else {
      assert w.lines[w.Lo(k)..w.Hi(k)] == v.lines[v.Lo(k)..v.Hi(k)];
    }
  }

  lemma PutIsCoherent(v: View, line: string)
    requires v.Coherent() && GoodLine(line)
    ensures PutInto(v, line).Coherent()
  {
    hide View.Stream, View.Part, PutInto;
    var w := PutInto(v, line);
    PutCounts(v, line);
    forall k: nat
      ensures w.FilePlaced(k)
    {
      assert v.FilePlaced(k);
      if k <= v.fin - v.fout {
        PutStream(v, line, k);
        PutPart(v, line, k);
        FlatAppend(v.Part(k), line);
      } else if k <= w.fin - w.fout {
        assert k == w.fin - w.fout && w.fout + k == w.fin;
        NewFileIsEmpty(v, line);
        assert w.Stream(k) == "" == Flat(w.Part(k));
      }
    }
  }

  lemma PutCounts(v: View, line: string)
    requires v.Counts()
    ensures var w := PutInto(v, line);
            && w.Counts() && w.fout == v.fout && v.fin <= w.fin <= v.fin + 1 && w.lines == v.lines + [line]
  {
  }

  lemma NewFileIsEmpty(v: View, line: string)
    requires v.Counts() && PutInto(v, line).fin > v.fin
    ensures var w := PutInto(v, line);
            w.Counts() && w.fin in w.files && w.Stream(w.fin - w.fout) == "" == Flat(w.Part(w.fin - w.fout))
  {
  }

  // ----- reading -----

  /** The lines that are left in the first file, behind the head of the queue. */
  function Behind(v: View): seq<string>
    requires v.Counts() && v.lines != [] && v.outCount < URL_BY_FILE
  {
    v.lines[1..v.Hi(0)]
  }

  /** The head of the queue is the first thing in the first file. */
  lemma HeadLine(v: View)
    requires v.Coherent() && v.lines != [] && v.outCount < URL_BY_FILE
    ensures v.Stream(0) == v.lines[0] + [NEWLINE] + Flat(Behind(v))
  {
    assert v.FilePlaced(0);
    assert v.Part(0)[1..] == Behind(v);
  }

  /** Of a text that starts with a line and a newline, the first newline is the end of that line. */
  lemma LineEnd(b: string, more: string, x: string, rest: string, p: nat)
    requires b + more == x + [NEWLINE] + rest && NEWLINE !in x
    requires p < |b| && b[p] == NEWLINE && NEWLINE !in b[..p]
    ensures p == |x| && b[..p] == x && b == x + [NEWLINE] + b[p + 1..]
  {
    var s := b + more;
    assert forall i :: 0 <= i < |x| ==> s[i] == x[i];
    assert forall i :: 0 <= i < p ==> s[i] == b[..p][i];
    assert s[|x|] == NEWLINE && s[p] == NEWLINE;
  }

  /** Without any newline, it is part of the line. */
  lemma LineGoesOn(b: string, more: string, x: string, rest: string)
    requires b + more == x + [NEWLINE] + rest && NEWLINE !in b
    ensures |b| <= |x| && more != ""
  {
    var s := b + more;
    assert forall i :: 0 <= i < |b| ==> s[i] == b[i];
    assert s[|x|] == NEWLINE;
  }

  /** Where the first newline is in the buffer, the head of the queue ends. */
  lemma FirstNewline(v: View, p: nat)
    requires v.Coherent() && v.lines != [] && v.outCount < URL_BY_FILE
    requires p < |v.buffered| && v.buffered[p] == NEWLINE && NEWLINE !in v.buffered[..p]
    ensures v.buffered[..p] == v.lines[0]
    ensures v.buffered == v.lines[0] + [NEWLINE] + v.buffered[p + 1..]
  {
    HeadLine(v);
    assert GoodLine(v.lines[0]);
    var more := v.files[v.fout][v.read..] + if v.fin == v.fout then v.unwritten else "";
    assert v.buffered + more == v.Stream(0);
    LineEnd(v.buffered, more, v.lines[0], Flat(Behind(v)), p);
  }

  /** Without a newline in the buffer there is more to read, or to write first. */
  lemma NoNewline(v: View)
    requires v.Coherent() && v.lines != [] && v.outCount < URL_BY_FILE && NEWLINE !in v.buffered
    ensures |v.buffered| < MAX_LINE - 1
    ensures v.read < |v.files[v.fout]| || (v.fin == v.fout && v.unwritten != "")
  {
    HeadLine(v);
    assert GoodLine(v.lines[0]);
    var more := v.files[v.fout][v.read..] + if v.fin == v.fout then v.unwritten else "";
    assert v.buffered + more == v.Stream(0);
    LineGoesOn(v.buffered, more, v.lines[0], Flat(Behind(v)));
  }

  lemma TakenStream(v: View, p: nat)
    requires v.Coherent() && v.lines != [] && v.outCount < URL_BY_FILE
    requires p < |v.buffered| && v.buffered[p] == NEWLINE && NEWLINE !in v.buffered[..p]
    ensures v.Taken(p).Counts() && v.Taken(p).Stream(0) == Flat(Behind(v))
  {
    HeadLine(v);
    FirstNewline(v, p);
    var w := v.Taken(p);
    var front := v.lines[0] + [NEWLINE];
    assert v.Stream(0) == front + w.Stream(0);
    assert front + w.Stream(0) == front + Flat(Behind(v));
    assert (front + w.Stream(0))[|front|..] == w.Stream(0);
    assert (front + Flat(Behind(v)))[|front|..] == Flat(Behind(v));
  }

  lemma TakenBounds(v: View, p: nat, k: nat)
    requires v.Counts() && v.lines != [] && v.outCount < URL_BY_FILE && k <= v.fin - v.fout && p < |v.buffered|
    ensures v.Taken(p).Counts() && 0 <= v.Lo(k) <= v.Hi(k) <= |v.lines|
    ensures v.Taken(p).Hi(k) == v.Hi(k) - 1 && v.Taken(p).Lo(k) == if k == 0 then 0 else v.Lo(k) - 1
    ensures if k == 0 then v.Lo(k) == 0 && v.Hi(k) >= 1 else v.Lo(k) >= 1
  {
  }

  lemma TakenPart(v: View, p: nat, k: nat)
    requires v.Counts() && v.lines != [] && v.outCount < URL_BY_FILE && k <= v.fin - v.fout && p < |v.buffered|
    ensures v.Taken(p).Counts()
    ensures v.Taken(p).Part(k) == if k == 0 then Behind(v) else v.Part(k)
  {
    hide View.Lo, View.Hi;
    TakenBounds(v, p, k);
    TakenBounds(v, p, 0);
    var w := v.Taken(p);
    if k == 0 {
      assert w.lines[0..w.Hi(0)] == v.lines[1..v.Hi(0)];
    } else {
      assert w.lines[w.Lo(k)..w.Hi(k)] == v.lines[v.Lo(k)..v.Hi(k)];
    }
  }

  lemma TakenIsCoherent(v: View, p: nat)
    requires v.Coherent() && v.lines != [] && v.outCount < URL_BY_FILE
    requires p < |v.buffered| && v.buffered[p] == NEWLINE && NEWLINE !in v.buffered[..p]
    ensures v.Taken(p).Coherent()
  {
    hide View.Part;
    var w := v.Taken(p);
    forall k: nat
      ensures w.FilePlaced(k)
    {
      assert v.FilePlaced(k);
      if k <= v.fin - v.fout {
        TakenPart(v, p, k);
        TakenStream(v, p);
      }
    }
  }

  /** When the first file is used up, nothing of it is left in the buffer, and the next one exists. */
  lemma UsedUp(v: View)
    requires v.Coherent() && v.outCount == URL_BY_FILE
    ensures v.fout < v.fin && v.fout + 1 in v.files && v.buffered == "" && v.read == |v.files[v.fout]|
  {
    assert v.FilePlaced(0) && v.FilePlaced(1);
    assert v.Part(0) == [];
  }

  lemma NextOutPart(v: View, k: nat)
    requires v.Counts() && v.outCount == URL_BY_FILE && k < v.fin - v.fout && v.fout + 1 in v.files
    ensures v.NextOut().Counts() && v.NextOut().Part(k) == v.Part(k + 1)
  {
  }

  lemma NextOutIsCoherent(v: View)
    requires v.Coherent() && v.outCount == URL_BY_FILE
    ensures v.NextOut().Coherent()
  {
    hide View.Part;
    UsedUp(v);
    var w := v.NextOut();
    NextOutPart(v, 0);
    forall k: nat
      ensures w.FilePlaced(k)
    {
      assert v.FilePlaced(k + 1);
      if k <= w.fin - w.fout {
        NextOutPart(v, k);
        assert w.Stream(k) == v.Stream(k + 1);
      }
    }
  }

  // ----- no NUL in the buffer -----

  lemma {:induction false} FlatHasNoNul(lines: seq<string>)
    requires forall i :: 0 <= i < |lines| ==> GoodLine(lines[i])
    ensures NUL !in Flat(lines)
  {
    if lines != [] {
      assert GoodLine(lines[0]);
      FlatHasNoNul(lines[1..]);
    }
  }

  lemma BufferHasNoNul(v: View)
    requires v.Coherent()
    ensures NUL !in v.buffered
  {
    assert v.FilePlaced(0);
    FlatHasNoNul(v.Part(0));
    assert forall i :: 0 <= i < |v.buffered| ==> v.Stream(0)[i] == v.buffered[i];
  }

  /** What is still to come to the buffer from the first file. */
  function Remaining(v: View): nat
    requires v.Counts()
  {
    |v.files[v.fout]| - v.read + if v.fin == v.fout then |v.unwritten| else 0
  }

  function Empty(): View {
    View(0, 0, 0, 0, "", map[0 := ""], 0, "", [])
  }

  lemma EmptyFile()
    ensures Empty().Counts() && Empty().Stream(0) == "" == Flat(Empty().Part(0))
  {
  }

  lemma EmptyIsCoherent()
    ensures Empty().Coherent()
  {
    hide View.Stream, View.Part, Flat;
    var v := Empty();
    EmptyFile();
    CoherentIfAlone(v);
  }

  /** A queue with one file, and nothing to come. */
  lemma CoherentIfAlone(v: View)
    requires v.Counts() && v.fin == v.fout && v.lines == [] && v.Stream(0) == Flat(v.Part(0))
    ensures v.Coherent()
  {
    hide View.Stream, View.Part, Flat;
    forall k: nat
      ensures v.FilePlaced(k)
    {
    }
  }

  /** Where the first newline is in a text, if there is any. */
  predicate NewlineAt(b: string, found: bool, p: int) {
    if found then 0 <= p < |b| && b[p] == NEWLINE && NEWLINE !in b[..p] else NEWLINE !in b
  }

  // ----- the queue -----

  class Queue {
    const useCookies: bool
    const outbuf: array<char>
    const buf: array<char>
    var inCount: nat
    var outCount: nat
    var fin: nat
    var fout: nat
    var outbufPos: nat
    var bufPos: nat
    var bufEnd: nat
    /** The files, and how far the first was read. */
    var files: map<nat, string>
    var read: nat
    /** What is in the queue. */
    ghost var urls: seq<UrlRecord>

    ghost predicate Bounds()
      reads this
    {
      && buf != outbuf && buf.Length == BUF_SIZE == outbuf.Length
      && bufPos <= bufEnd < BUF_SIZE && outbufPos <= BUF_SIZE
    }

    /** The state, where the queue is `lines`. */
    ghost function State(lines: seq<string>): View
      requires Bounds()
      reads this, buf, outbuf
    {
      View(inCount, outCount, fin, fout, buf[bufPos..bufEnd], files, read, outbuf[..outbufPos], lines)
    }

    ghost function Lines(us: seq<UrlRecord>): seq<string> {
      seq(|us|, i requires 0 <= i < |us| => Serialized(us[i], useCookies))
    }

    ghost predicate Valid()
      reads this, buf, outbuf
    {
      && Bounds() && (bufPos < bufEnd ==> buf[bufEnd] == NUL)
      && outCount < URL_BY_FILE && State(Lines(urls)).Coherent()
      && forall i :: 0 <= i < |urls| ==> urls[i].InRange()
    }

    /** A new queue: the old files were deleted. */
    constructor (useCookies: bool)
      ensures Valid() && urls == [] && this.useCookies == useCookies && fresh(buf) && fresh(outbuf)
    {
      hide View.Coherent;
      this.useCookies := useCookies;
      inCount, outCount, fin, fout, outbufPos, bufPos, bufEnd, read := 0, 0, 0, 0, 0, 0, 0, 0;
      files := map[0 := ""];
      urls := [];
      outbuf := new char[BUF_SIZE];
      buf := new char[BUF_SIZE];
      new;
      EmptyIsCoherent();
      assert State(Lines(urls)) == Empty();
    }

    method FlushOut(ghost lines: seq<string>)
      requires Bounds() && fin in files
      modifies this`files, this`outbufPos
      ensures Bounds() && State(lines) == old(State(lines)).Flushed()
    {
      files := files[fin := files[fin] + outbuf[..outbufPos]];
      outbufPos := 0;
    }

    method CopyOut(s: string)
      requires Bounds() && outbufPos + |s| <= BUF_SIZE
      modifies outbuf, this`outbufPos
      ensures Bounds() && outbufPos == old(outbufPos) + |s| && outbuf[..outbufPos] == old(outbuf[..outbufPos]) + s
    {
      var start := outbufPos;
      for i := 0 to |s|
        modifies outbuf
        invariant forall j :: 0 <= j < start ==> outbuf[j] == old(outbuf[j])
        invariant forall j :: 0 <= j < i ==> outbuf[start + j] == s[j]
      {
        outbuf[start + i] := s[i];
      }
      outbufPos := start + |s|;
      assert outbuf[..start] == old(outbuf[..outbufPos]);
      assert outbuf[start..outbufPos] == s;
      assert outbuf[..outbufPos] == outbuf[..start] + outbuf[start..outbufPos];
    }

    method WriteUrl(s: string, ghost lines: seq<string>)
      requires Bounds() && fin in files && |s| < MAX_LINE
      modifies this`files, this`outbufPos, outbuf
      ensures Bounds()
      ensures var v := old(State(lines));
              var w := if |v.unwritten| + |s| < BUF_SIZE then v else v.Flushed();
              State(lines) == w.(unwritten := w.unwritten + s)
    {
      if outbufPos + |s| < BUF_SIZE {
        CopyOut(s);
      } else {
        FlushOut(lines);
        CopyOut(s);
      }
    }

    method UpdateWrite(ghost lines: seq<string>)
      requires Bounds() && fin in files
      modifies this`files, this`outbufPos, this`fin
      ensures Bounds()
      ensures State(lines) ==
        if inCount % URL_BY_FILE == 0 then old(State(lines)).Flushed().NextIn() else old(State(lines))
    {
      if inCount % URL_BY_FILE == 0 {
        FlushOut(lines);
        fin := fin + 1;
        files := files[fin := ""];
      }
    }

    /** `put`. The line of the url must be short enough (this is asserted) and free of newlines. */
    method Put(u: UrlRecord)
      requires Valid() && u.InRange() && GoodLine(Serialized(u, useCookies))
      modifies this, outbuf
      ensures Valid() && urls == old(urls) + [u]
    {
      hide View.Coherent, Serialized;
      ghost var v, lines := State(Lines(urls)), Lines(urls);
      CoherentCounts(v);
      var s := Serialized(u, useCookies) + [NEWLINE];
      ghost var w := if |v.unwritten| + |s| < BUF_SIZE then v else v.Flushed();
      FlushedIsCoherent(v);
      PutIsCoherent(w, Serialized(u, useCookies));
      WriteUrl(s, lines);
      inCount := inCount + 1;
      urls := urls + [u];
      assert Lines(urls) == lines + [Serialized(u, useCookies)];
      assert w.unwritten + s == w.unwritten + Serialized(u, useCookies) + [NEWLINE];
      assert State(Lines(urls)) == w.Written(Serialized(u, useCookies));
      UpdateWrite(Lines(urls));
      assert State(Lines(urls)) == PutInto(w, Serialized(u, useCookies));
    }

    /** `strchr`, for a newline: it stops at the end of the string. There is none before `from` in what
        was buffered, which is `b`. */
    method FindNewline(from: nat, ghost b: string) returns (found: bool, posn: nat)
      requires Bounds() && bufPos <= from <= bufEnd && buf[bufEnd] == NUL
      requires b == buf[bufPos..bufEnd] && NUL !in b && NEWLINE !in b[..from - bufPos]
      ensures found ==> bufPos <= posn < bufEnd && b[posn - bufPos] == NEWLINE && NEWLINE !in b[..posn - bufPos]
      ensures !found ==> NEWLINE !in b
    {
      posn := from;
      while buf[posn] != NEWLINE && buf[posn] != NUL
        invariant from <= posn <= bufEnd && NEWLINE !in b[..posn - bufPos]
        decreases bufEnd - posn
      {
        assert posn < bufEnd && buf[posn] == b[posn - bufPos];
        posn := posn + 1;
        assert b[..posn - bufPos] == b[..posn - bufPos - 1] + [b[posn - bufPos - 1]];
      }
      assert posn < bufEnd ==> buf[posn] == b[posn - bufPos] != NUL;
      assert b[..bufEnd - bufPos] == b;
      found := buf[posn] == NEWLINE;
    }

    /** `memmove`: what is in the buffer goes to its beginning. */
    method MoveToFront(ghost lines: seq<string>)
      requires Bounds()
      modifies this`bufPos, this`bufEnd, buf
      ensures Bounds() && State(lines) == old(State(lines)) && bufPos == 0 && bufEnd == old(bufEnd - bufPos)
    {
      var start, len := bufPos, bufEnd - bufPos;
      ghost var was := buf[start..start + len];
      for i := 0 to len
        modifies buf
        invariant forall j :: 0 <= j < i ==> buf[j] == was[j]
        invariant forall j :: i <= j < len ==> buf[start + j] == was[j]
      {
        buf[i] := buf[start + i];
      }
      bufPos, bufEnd := 0, len;
      assert buf[0..len] == was;
    }

    /** More text behind what is in the buffer, and the end of a string behind it. */
    method CopyIn(data: string)
      requires Bounds() && bufEnd + |data| < BUF_SIZE
      modifies buf, this`bufEnd
      ensures Bounds() && bufEnd == old(bufEnd) + |data| && buf[bufEnd] == NUL
      ensures buf[bufPos..bufEnd] == old(buf[bufPos..bufEnd]) + data
    {
      var start := bufEnd;
      for i := 0 to |data|
        modifies buf
        invariant forall j :: 0 <= j < start ==> buf[j] == old(buf[j])
        invariant forall j :: 0 <= j < i ==> buf[start + j] == data[j]
      {
        buf[start + i] := data[i];
      }
      bufEnd := start + |data|;
      buf[bufEnd] := NUL;
      assert buf[bufPos..start] == old(buf[bufPos..bufEnd]);
      assert buf[start..bufEnd] == data;
      Slices(buf, bufPos, start, bufEnd);
      assert buf[bufPos..bufEnd] == buf[bufPos..start] + buf[start..bufEnd];
    }

    /** `read`, of at most what the buffer has room for: some of what is there, if there is any. */
    method ReadFile(ghost lines: seq<string>) returns (rd: nat)
      requires Bounds() && fout in files && read <= |files[fout]| && bufEnd < BUF_SIZE - 1
      modifies buf, this`bufEnd, this`read
      ensures Bounds() && rd <= old(|files[fout]| - read) && (rd == 0 <==> old(read == |files[fout]|))
      ensures State(lines) == old(State(lines)).ReadMore(rd)
      ensures bufEnd == old(bufEnd) + rd && (rd > 0 ==> buf[bufEnd] == NUL)
    {
      var left := |files[fout]| - read;
      rd :| rd <= left && rd <= BUF_SIZE - 1 - bufEnd && (rd == 0 <==> left == 0);
      if rd > 0 {
        CopyIn(files[fout][read..read + rd]);
        read := read + rd;
      } else {
        assert buf[bufPos..bufEnd] + "" == buf[bufPos..bufEnd];
      }
    }

    /** Reads until something was read; what must be read may have to be written first. Reading may be
        interrupted any number of times. */
    method Fill(ghost lines: seq<string>)
      requires Bounds() && State(lines).Coherent() && lines != [] && outCount < URL_BY_FILE
      requires NEWLINE !in buf[bufPos..bufEnd] && bufEnd < BUF_SIZE - 1
      modifies this`files, this`outbufPos, this`bufEnd, this`read, buf
      ensures Bounds() && State(lines).Coherent() && bufEnd > old(bufEnd) && buf[bufEnd] == NUL
      ensures old(buf[bufPos..bufEnd]) <= buf[bufPos..bufEnd]
      ensures State(lines).Counts() && Remaining(State(lines)) < Remaining(old(State(lines)))
    {
      hide View.Coherent;
      CoherentCounts(State(lines));
      var interrupts: nat := *;
      ghost var v := State(lines);
      var rd := 0;
      while rd == 0
        invariant Bounds() && State(lines).Coherent() && State(lines).Counts()
        invariant bufEnd == old(bufEnd) + rd && (rd > 0 ==> buf[bufEnd] == NUL)
        invariant v.buffered <= State(lines).buffered && (rd == 0 ==> State(lines).buffered == v.buffered)
        invariant Remaining(State(lines)) + rd == Remaining(v)
        decreases rd == 0, read == |files[fout]|, interrupts
      {
        var interrupted: bool := *;
        if interrupted && interrupts > 0 {
          interrupts := interrupts - 1;
          continue;
        }
        NoNewline(State(lines));
        ghost var w := State(lines);
        rd := ReadFile(lines);
        ReadMoreIsCoherent(w, rd);
        if rd == 0 {
          FlushedIsCoherent(State(lines));
          FlushOut(lines);
        }
      }
    }

    /** One round of the loop of `readLine`: more is read behind a buffer without a newline. */
    method ReadOn(ghost lines: seq<string>) returns (found: bool, posn: nat)
      requires Bounds() && State(lines).Coherent() && lines != [] && outCount < URL_BY_FILE
      requires NEWLINE !in buf[bufPos..bufEnd]
      modifies this`files, this`outbufPos, this`bufPos, this`bufEnd, this`read, buf
      ensures Bounds() && State(lines).Coherent() && State(lines).Counts() && old(State(lines)).Counts()
      ensures buf[bufEnd] == NUL && Remaining(State(lines)) < Remaining(old(State(lines)))
      ensures NewlineAt(buf[bufPos..bufEnd], found, posn - bufPos)
    {
      hide View.Coherent, View.Counts, View.ReadMore, View.Flushed, Remaining;
      ghost var w := State(lines);
      CoherentCounts(w);
      NoNewline(w);
      if bufPos * 2 > BUF_SIZE {
        MoveToFront(lines);
      }
      var postmp := bufEnd;
      Fill(lines);
      ghost var b := State(lines).buffered;
      BufferHasNoNul(State(lines));
      assert b[..postmp - bufPos] == w.buffered;
      found, posn := FindNewline(postmp, b);
    }

    /** `readLine`: the line that ends at `p` of what was buffered in the end. */
    method ReadLine() returns (line: string, ghost v: View, ghost p: nat)
      requires Valid() && urls != []
      modifies this`files, this`outbufPos, this`bufPos, this`bufEnd, this`read, buf
      ensures Bounds() && (bufPos < bufEnd ==> buf[bufEnd] == NUL)
      ensures v.Coherent() && v.lines == Lines(urls) && v.outCount == outCount
      ensures NewlineAt(v.buffered, true, p) && line == v.buffered[..p]
      ensures State(v.lines) == v.(buffered := v.buffered[p + 1..])
    {
      hide View.Coherent, View.Counts, Remaining;
      ghost var lines := Lines(urls);
      if bufPos == bufEnd {
        assert buf[bufPos..bufEnd] == "" == buf[0..0];
        bufPos, bufEnd := 0, 0;
        buf[0] := NUL;
      }
      CoherentCounts(State(lines));
      BufferHasNoNul(State(lines));
      var found, posn := FindNewline(bufPos, State(lines).buffered);
      while !found
        invariant Bounds() && State(lines).Coherent() && State(lines).Counts() && buf[bufEnd] == NUL
        invariant NewlineAt(buf[bufPos..bufEnd], found, posn - bufPos)
        decreases Remaining(State(lines))
      {
        found, posn := ReadOn(lines);
      }
      v, p := State(lines), posn - bufPos;
      line := CutLine(posn);
    }

    /** The line ends at `posn`; what is behind it stays in the buffer. */
    method CutLine(posn: nat) returns (line: string)
      requires Bounds() && bufPos <= posn < bufEnd
      modifies this`bufPos, buf
      ensures Bounds() && buf[bufEnd] == old(buf[bufEnd]) && buf[posn] == NUL
      ensures line == old(buf[bufPos..bufEnd][..posn - bufPos])
      ensures buf[bufPos..bufEnd] == old(buf[bufPos..bufEnd][posn - bufPos + 1..])
    {
      Slices(buf, bufPos, posn, bufEnd);
      Slices(buf, bufPos, posn + 1, bufEnd);
      line := buf[bufPos..posn];
      ghost var rest := buf[posn + 1..bufEnd];
      buf[posn] := NUL;
      bufPos := posn + 1;
      assert buf[bufPos..bufEnd] == rest;
    }

    /** `updateRead` */
    method UpdateRead(ghost lines: seq<string>)
      requires Bounds() && outCount <= inCount
      requires outCount % URL_BY_FILE == 0 ==> bufPos == bufEnd
      modifies this`files, this`fout, this`read, this`inCount, this`outCount
      ensures Bounds()
      ensures State(lines) ==
        if old(outCount) % URL_BY_FILE == 0 then old(State(lines)).NextOut() else old(State(lines))
    {
      if outCount % URL_BY_FILE == 0 {
        files := files - {fout};
        fout := fout + 1;
        read := 0;
        inCount := inCount - outCount;
        outCount := 0;
        assert bufPos == bufEnd;
      }
    }

    /** `get`. The caller knows that there is something. */
    method Get() returns (u: UrlRecord, fits: bool)
      requires Valid() && urls != []
      modifies this, buf
      ensures old(urls[0].InRange())
      ensures Valid() && urls == old(urls)[1..] && u == Reread(old(urls)[0], useCookies)
      ensures fits <==> (useCookies ==> Copied(old(urls)[0]) < MAX_COOKIE_SIZE)
    {
      hide View.Coherent, Copied, CookieFits, Reread, Serialized, Parsed, HasColon, WellFormed;
      RereadFits(urls[0], useCookies);
      ghost var lines := Lines(urls);
      var line;
      ghost var v, p;
      line, v, p := ReadLine();
      FirstNewline(v, p);
      assert line == lines[0];
      u, fits := FromLine(line, useCookies);
      TakenIsCoherent(v, p);
      CoherentCounts(v);
      outCount := outCount + 1;
      urls := urls[1..];
      ghost var w := State(Lines(urls));
      assert Lines(urls) == lines[1..];
      assert w == v.Taken(p);
      if outCount % URL_BY_FILE == 0 {
        UsedUp(w);
        assert bufPos == bufEnd by {
          assert |buf[bufPos..bufEnd]| == bufEnd - bufPos;
        }
        NextOutIsCoherent(w);
      }
      UpdateRead(Lines(urls));
    }

    method TryGet() returns (u: Option<UrlRecord>, fits: bool)
      requires Valid()
      modifies this, buf
      ensures Valid()
      ensures old(urls) == [] ==> u == None && urls == []
      ensures old(urls) != [] ==>
        && urls == old(urls)[1..] && old(urls)[0].InRange() && u == Some(Reread(old(urls)[0], useCookies))
        && (fits <==> (useCookies ==> Copied(old(urls)[0]) < MAX_COOKIE_SIZE))
    {
      hide View.Coherent, Reread, Copied;
      LengthIs();
      if inCount == outCount {
        return None, true;
      }
      var v;
      v, fits := Get();
      u := Some(v);
    }

    lemma LengthIs()
      requires Valid()
      ensures inCount - outCount == |urls| && fin - fout == inCount / URL_BY_FILE
    {
    }

    /** `getLength` */
    method Length() returns (n: nat)
      requires Valid()
      ensures n == |urls|
    {
      LengthIs();
      n := inCount - outCount;
    }
  }

  lemma Slices(a: array<char>, lo: nat, mid: nat, hi: nat)
    requires lo <= mid <= hi <= a.Length
    ensures a[lo..mid] == a[lo..hi][..mid - lo] && a[mid..hi] == a[lo..hi][mid - lo..]
  {
  }

  lemma CoherentCounts(v: View)
    requires v.Coherent()
    ensures v.Counts()
  {
  }
}
