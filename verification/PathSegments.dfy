/**
 The path of a url as a stack of segments (compare section 5.2.4 of RFC 3986; empty segments are dropped as well,
 and going above the root is an error). Whether a segment is removed is decided before its escapes are replaced;
 an escaped slash divides the segment afterwards.
 */
module PathSegments {
  import opened Wrappers

  // ----- escapes -----

  function HexToInt(c: char): int {
    if '0' <= c <= '9' then c as int - '0' as int
    else if 'a' <= c <= 'f' then c as int - 'a' as int + 10
    else if 'A' <= c <= 'F' then c as int - 'A' as int + 10
    else -1
  }

  /** The character that an escape stands for. */
  function Escaped(t: string): (c: Option<int>)
    ensures c.Some? ==> 0 <= c.value < 256
  {
    if |t| >= 3 && HexToInt(t[1]) >= 0 && HexToInt(t[2]) >= 0 then Some(16 * HexToInt(t[1]) + HexToInt(t[2])) else None
  }

  const LOWER_DIGITS := "0123456789abcdef"
  const UPPER_DIGITS := "0123456789ABCDEF"

  /** Exactly the digits of either case have a value, and it is their place. */
  lemma HexDigits(c: char)
    ensures HexToInt(c) < 16
    ensures HexToInt(c) >= 0 <==> c in LOWER_DIGITS || c in UPPER_DIGITS
    ensures HexToInt(c) >= 0 ==> LOWER_DIGITS[HexToInt(c)] == c || UPPER_DIGITS[HexToInt(c)] == c
  {
    if HexToInt(c) >= 0 {
      assert LOWER_DIGITS[HexToInt(c)] == c || UPPER_DIGITS[HexToInt(c)] == c;
    }
  }

  lemma HexDigitIs(v: nat)
    requires v < 16
    ensures HexToInt(LOWER_DIGITS[v]) == v == HexToInt(UPPER_DIGITS[v])
  {
  }

  /** The digits of a byte, as `setHexStr` writes them (src/utils/url.cxx:64-77) or with any letter in the other
      case, are read as that byte; so every byte has an escape. */
  lemma EscapeIsRead(c: byte, high: char, low: char, rest: string)
    requires high == LOWER_DIGITS[c / 16] || high == UPPER_DIGITS[c / 16]
    requires low == LOWER_DIGITS[c % 16] || low == UPPER_DIGITS[c % 16]
    ensures Escaped(['%', high, low] + rest) == Some(c)
  {
    HexDigitIs(c / 16);
    HexDigitIs(c % 16);
    hide HexToInt;
    var t := ['%', high, low] + rest;
    assert t[1] == high && t[2] == low;
  }

  predicate Visible(c: int) { 33 <= c < 127 }

  const BLANK: int := ' ' as int

  datatype Replacement = Replacement(text: string, used: nat)

  /** What comes in place of the beginning of the text, and how many characters that was. */
  function First(t: string): (p: Option<Replacement>)
    requires t != ""
    ensures p.Some? ==> 1 <= p.value.used <= |t| && 1 <= |p.value.text| <= p.value.used
  {
    if t[0] != '%' then Some(Replacement(t[..1], 1))
    else
      match Escaped(t)
      case None => None
      case Some(c) =>
        if Visible(c) then Some(Replacement([c as char], 3))
        else if c == BLANK then Some(Replacement(t[..3], 3))
        else None
  }

  /** The text with all its escapes replaced, if none is bad. */
  function Decoded(t: string): (d: Option<string>)
    ensures d.Some? ==> (d.value == "" <==> t == "")
    decreases |t|
  {
    if t == "" then Some("")
    else
      var p := First(t);
      if p.None? then None else Before(p.value.text, Decoded(t[p.value.used..]))
  }

  function Before(front: string, d: Option<string>): Option<string> {
    if d.Some? then Some(front + d.value) else None
  }

  // ----- the stack of segments -----

  /** Where the first slash is, or the end. */
  function SegmentLength(t: string): (n: nat)
    ensures n <= |t| && '/' !in t[..n] && (n < |t| ==> t[n] == '/')
  {
    if t == "" || t[0] == '/' then 0
    else
      assert t[..1 + SegmentLength(t[1..])] == [t[0]] + t[1..][..SegmentLength(t[1..])];
      1 + SegmentLength(t[1..])
  }

  function Joined(stack: seq<string>): string {
    if stack == [] then "" else Joined(stack[..|stack| - 1]) + "/" + stack[|stack| - 1]
  }

  /** The text is divided at its slashes. */
  function Divided(d: string): (segs: seq<string>)
    ensures segs != []
    decreases |d|
  {
    var n := SegmentLength(d);
    if n == |d| then [d] else [d[..n]] + Divided(d[n + 1..])
  }

  /** What is left of the path `t`, below the segments on the stack. If it was `cut` off, its last
      segment is an ordinary one whatever it is. */
  function Clean(stack: seq<string>, t: string, cut: bool): Option<string>
    requires t == "" || t[0] == '/'
    decreases |t|
  {
    if t == "" then Some(Joined(stack))
    else
      var n := SegmentLength(t[1..]);
      var seg, rest := t[1..1 + n], t[1 + n..];
      if rest == "" && cut then Before(Joined(stack) + "/", Decoded(seg))
      else if seg == "" || seg == "." then
        if rest == "" then Some(Joined(stack) + "/") else Clean(stack, rest, cut)
      else if seg == ".." then
        if stack == [] then None
        else if rest == "" then Some(Joined(stack[..|stack| - 1]) + "/")
        else Clean(stack[..|stack| - 1], rest, cut)
      else
        var d := Decoded(seg);
        if d.None? then None else Clean(stack + Divided(d.value), rest, cut)
  }

  /** The same, inside of a segment that begins with `cur`. */
  function CleanRest(stack: seq<string>, cur: string, t: string, cut: bool): Option<string> {
    var n := SegmentLength(t);
    var d := Decoded(t[..n]);
    if d.None? then None
    else if t[n..] == "" then Some(Joined(stack) + "/" + (cur + d.value))
    else Clean(stack + Divided(cur + d.value), t[n..], cut)
  }

  predicate SlashFree(stack: seq<string>) {
    forall k :: 0 <= k < |stack| ==> '/' !in stack[k]
  }

  lemma {:induction false} SegmentIs(seg: string, rest: string)
    requires '/' !in seg && (rest == "" || rest[0] == '/')
    ensures SegmentLength(seg + rest) == |seg|
  {
    if seg == "" {
      assert seg + rest == rest;
    } else {
      assert (seg + rest)[1..] == seg[1..] + rest;
      SegmentIs(seg[1..], rest);
    }
  }

  lemma JoinedMore(stack: seq<string>, x: string)
    ensures Joined(stack + [x]) == Joined(stack) + "/" + x
  {
    assert (stack + [x])[..|stack|] == stack;
  }

  lemma {:induction false} DividedIs(stack: seq<string>, d: string)
    ensures Joined(stack + Divided(d)) == Joined(stack) + "/" + d && SlashFree(Divided(d))
    decreases |d|
  {
    hide Joined, SegmentLength;
    var n := SegmentLength(d);
    JoinedMore(stack, d[..n]);
    if n == |d| {
      assert d[..n] == d;
    } else {
      var more, rest := stack + [d[..n]], d[n + 1..];
      DividedIs(more, rest);
      assert stack + ([d[..n]] + Divided(rest)) == more + Divided(rest);
      Rejoined(Joined(stack), d[..n], rest);
      assert d == d[..n] + "/" + rest;
    }
  }

  lemma Rejoined(front: string, x: string, rest: string)
    ensures front + "/" + x + "/" + rest == front + "/" + (x + "/" + rest)
  {
  }

  // ----- when it fails -----

  function Segments(t: string): (segs: seq<string>)
    requires t == "" || t[0] == '/'
    decreases |t|
  {
    if t == "" then []
    else
      var n := SegmentLength(t[1..]);
      [t[1..1 + n]] + Segments(t[1 + n..])
  }

  /** By how much the segment makes the stack higher. */
  function Rise(seg: string): int {
    if seg == "" || seg == "." then 0
    else if seg == ".." then -1
    else
      var d := Decoded(seg);
      if d.None? then 0 else |Divided(d.value)|
  }

  /** How many segments are left on the stack, if it may be overdrawn. */
  function Balance(segs: seq<string>): int {
    if segs == [] then 0 else Rise(segs[0]) + Balance(segs[1..])
  }

  ghost predicate Overdrawn(depth: int, segs: seq<string>) {
    exists k :: 0 <= k <= |segs| && depth + Balance(segs[..k]) < 0
  }

  predicate AnyBad(segs: seq<string>) {
    exists k :: 0 <= k < |segs| && Decoded(segs[k]) == None
  }

  lemma BalanceStep(segs: seq<string>, k: nat)
    requires 0 < k <= |segs|
    ensures Balance(segs[..k]) == Rise(segs[0]) + Balance(segs[1..][..k - 1])
  {
    assert segs[..k][1..] == segs[1..][..k - 1] && segs[..k][0] == segs[0];
  }

  lemma OverdrawnStep(depth: nat, segs: seq<string>)
    requires segs != []
    ensures Overdrawn(depth, segs) <==> Overdrawn(depth + Rise(segs[0]), segs[1..])
    ensures AnyBad(segs) <==> Decoded(segs[0]) == None || AnyBad(segs[1..])
  {
    hide Rise, Decoded;
    var rest, d := segs[1..], depth + Rise(segs[0]);
    if Overdrawn(depth, segs) {
      var k :| 0 <= k <= |segs| && depth + Balance(segs[..k]) < 0;
      assert segs[..0] == [];
      BalanceStep(segs, k);
      assert d + Balance(rest[..k - 1]) < 0;
    }
    if Overdrawn(d, rest) {
      var k :| 0 <= k <= |rest| && d + Balance(rest[..k]) < 0;
      BalanceStep(segs, k + 1);
      assert depth + Balance(segs[..k + 1]) < 0;
    }
    if AnyBad(segs) {
      var k :| 0 <= k < |segs| && Decoded(segs[k]) == None;
      assert k > 0 ==> Decoded(rest[k - 1]) == None;
    }
    if AnyBad(rest) {
      var k :| 0 <= k < |rest| && Decoded(rest[k]) == None;
      assert Decoded(segs[k + 1]) == None;
    }
  }

  lemma DotsAreFine()
    ensures Decoded("") == Some("") && Decoded(".") == Some(".") && Decoded("..") == Some("..")
  {
    PlainStep("", ".");
    PlainStep(".", "..");
  }

  lemma PlainStep(rest: string, t: string)
    requires t == "." + rest
    ensures Decoded(t) == Before(".", Decoded(rest))
  {
    assert t[..1] == "." && t[1..] == rest;
  }

  /** Cleaning fails if and only if some escape is bad or, at some point of the path, more segments were left
      than entered. */
  lemma {:induction false} FailsAboveRoot(stack: seq<string>, t: string)
    requires t == "" || t[0] == '/'
    ensures Clean(stack, t, false) == None <==> AnyBad(Segments(t)) || Overdrawn(|stack|, Segments(t))
    decreases |t|
  {
    hide Joined, Decoded, Divided, AnyBad, Overdrawn;
    if t != "" {
      var n := SegmentLength(t[1..]);
      var seg, rest := t[1..1 + n], t[1 + n..];
      var segs := Segments(t);
      assert segs[1..] == Segments(rest) && segs[0] == seg;
      OverdrawnStep(|stack|, segs);
      DotsAreFine();
      if seg == "" || seg == "." {
        FailsAboveRoot(stack, rest);
      } else if seg == ".." {
        if stack != [] {
          FailsAboveRoot(stack[..|stack| - 1], rest);
        } else {
          OverdrawnAlready(-1, Segments(rest));
        }
      } else if Decoded(seg).Some? {
        FailsAboveRoot(stack + Divided(Decoded(seg).value), rest);
      }
    } else {
      NothingOverdrawn(|stack|);
    }
  }

  lemma OverdrawnAlready(depth: int, segs: seq<string>)
    requires depth < 0
    ensures Overdrawn(depth, segs)
  {
    assert segs[..0] == [];
    assert depth + Balance(segs[..0]) < 0;
  }

  lemma NothingOverdrawn(depth: nat)
    ensures !Overdrawn(depth, []) && !AnyBad([])
  {
    var none: seq<string> := [];
    assert forall k :: 0 <= k <= 0 ==> none[..k] == [];
  }

  // ----- cleaning again -----

  predicate Ordinary(seg: string) { seg != "" && seg != "." && seg != ".." && '/' !in seg }

  /** A segment that is left alone. */
  predicate Stays(seg: string) { Ordinary(seg) && '#' !in seg && Decoded(seg) == Some(seg) }

  predicate AllStay(stack: seq<string>) {
    forall k :: 0 <= k < |stack| ==> Stays(stack[k])
  }

  /** No escape stands for a character that has a meaning of its own. */
  predicate Harmless(t: string) {
    '#' !in t && forall k :: 0 <= k < |t| && t[k] == '%' ==> HarmlessEscape(t[k..])
  }

  predicate HarmlessEscape(t: string) {
    Escaped(t) !in [Some('/' as int), Some('.' as int), Some('#' as int), Some('%' as int)]
  }

  lemma HarmlessPart(t: string, i: nat, j: nat)
    requires Harmless(t) && i <= j <= |t|
    ensures Harmless(t[i..j])
  {
    var s := t[i..j];
    forall k | 0 <= k < |s| && s[k] == '%'
      ensures HarmlessEscape(s[k..])
    {
      assert HarmlessEscape(t[i + k..]);
      assert |s[k..]| >= 3 ==> s[k..][1] == t[i + k..][1] && s[k..][2] == t[i + k..][2];
    }
  }

  lemma FirstAgain(text: string, rest: string)
    requires text != "" && (text[0] == '%' ==> |text| == 3 && Escaped(text) == Some(BLANK))
    requires text[0] != '%' ==> |text| == 1
    ensures First(text + rest) == Some(Replacement(text, |text|))
  {
    assert (text + rest)[..|text|] == text;
  }

  lemma FirstHarmless(seg: string)
    requires seg != "" && Harmless(seg) && '/' !in seg && First(seg).Some?
    ensures var p := First(seg).value;
            && '/' !in p.text && '#' !in p.text
            && (p.text[0] == '%' ==> |p.text| == 3 && Escaped(p.text) == Some(BLANK))
            && (p.text[0] != '%' ==> |p.text| == 1)
            && (p.text[0] == '.' ==> p.used == 1 && p.text == seg[..1])
  {
    assert seg[0..] == seg;
    assert seg[0] == '%' ==> HarmlessEscape(seg);
    if seg[0] == '%' && Escaped(seg) == Some(BLANK) {
      assert seg[..3][1] == seg[1] && seg[..3][2] == seg[2];
    }
  }

  /** A segment with harmless escapes is decoded to an ordinary one, once and for all. */
  lemma {:induction false} DecodedStays(seg: string)
    requires Harmless(seg) && '/' !in seg && Decoded(seg).Some?
    ensures var d := Decoded(seg).value;
            '/' !in d && '#' !in d && Decoded(d) == Some(d)
    decreases |seg|
  {
    if seg != "" {
      var p := First(seg).value;
      var rest := seg[p.used..];
      var d := Decoded(rest).value;
      HarmlessPart(seg, p.used, |seg|);
      FirstHarmless(seg);
      hide Harmless, First;
      DecodedStays(rest);
      FirstAgain(p.text, d);
      assert (p.text + d)[|p.text|..] == d;
    }
  }

  predicate AllDots(t: string) { forall c <- t :: c == '.' }

  lemma DotsBehind(text: string, d: string)
    requires text != "" && AllDots(text + d)
    ensures text[0] == '.' && AllDots(d)
  {
    assert text[0] in text + d;
    assert forall c <- d :: c in text + d;
  }

  /** What is decoded to dots is dots. */
  lemma {:induction false} DecodedToDots(seg: string, d: string)
    requires Harmless(seg) && '/' !in seg && Decoded(seg) == Some(d) && AllDots(d)
    ensures d == seg
    decreases |seg|
  {
    if seg != "" {
      var p := First(seg).value;
      var rest := seg[p.used..];
      var more := Decoded(rest).value;
      HarmlessPart(seg, p.used, |seg|);
      FirstHarmless(seg);
      hide Harmless, First, Escaped, AllDots, Decoded;
      DotsBehind(p.text, more);
      DecodedToDots(rest, more);
      assert seg == seg[..1] + rest;
    }
  }

  lemma DividedOnce(d: string)
    requires '/' !in d
    ensures Divided(d) == [d]
  {
    assert d + "" == d;
    SegmentIs(d, "");
  }

  /** With harmless escapes, the result has none of the segments that are to be removed. */
  lemma {:induction false} CleanIsOrdinary(stack: seq<string>, t: string) returns (left: seq<string>, slash: bool)
    requires (t == "" || t[0] == '/') && AllStay(stack) && Harmless(t)
    ensures var r := Clean(stack, t, false);
            r.Some? ==>
              && AllStay(left) && r.value == Joined(left) + (if slash then "/" else "")
              && (t != "" || stack != [] ==> slash || left != [])
    decreases |t|
  {
    hide Harmless, Decoded, Divided, Joined;
    left, slash := stack, false;
    if t == "" {
      assert Joined(stack) + "" == Joined(stack);
      return;
    }
    var n := SegmentLength(t[1..]);
    var seg, rest := t[1..1 + n], t[1 + n..];
    assert seg == t[1..][..n];
    HarmlessPart(t, 1, 1 + n);
    HarmlessPart(t, 1 + n, |t|);
    assert t[1 + n..|t|] == rest;
    if seg == "" || seg == "." {
      slash := true;
      if rest != "" {
        left, slash := CleanIsOrdinary(stack, rest);
      }
    } else if seg == ".." {
      if stack != [] {
        left, slash := stack[..|stack| - 1], true;
        if rest != "" {
          left, slash := CleanIsOrdinary(stack[..|stack| - 1], rest);
        }
      }
    } else if Decoded(seg).Some? {
      var d := Decoded(seg).value;
      DecodedStays(seg);
      if d == "." || d == ".." {
        DecodedToDots(seg, d);
      }
      DividedOnce(d);
      assert Stays(d);
      left, slash := CleanIsOrdinary(stack + [d], rest);
    }
  }

  /** An ordinary segment is decoded when it is pushed. */
  lemma PushStep(stack: seq<string>, seg: string, rest: string, d: string)
    requires Ordinary(seg) && (rest == "" || rest[0] == '/') && Decoded(seg) == Some(d)
    ensures Clean(stack, "/" + seg + rest, false) == Clean(stack + Divided(d), rest, false)
  {
    hide Joined, Decoded, Divided;
    var t := "/" + seg + rest;
    assert t[1..] == seg + rest;
    SegmentIs(seg, rest);
    assert t[1..1 + |seg|] == seg && t[1 + |seg|..] == rest;
  }

  lemma PushSame(stack: seq<string>, seg: string, rest: string)
    requires Stays(seg) && (rest == "" || rest[0] == '/')
    ensures Clean(stack, "/" + seg + rest, false) == Clean(stack + [seg], rest, false)
  {
    PushStep(stack, seg, rest, seg);
    DividedOnce(seg);
  }

  /** Ordinary segments are pushed one after the other. */
  lemma {:induction false} CleanJoined(stack: seq<string>, more: seq<string>, slash: bool)
    requires AllStay(more)
    ensures var t := Behind(more) + (if slash then "/" else "");
            && (t == "" || t[0] == '/')
            && Clean(stack, t, false) == Some(Joined(stack + more) + (if slash then "/" else ""))
    decreases |more|
  {
    hide Clean, Joined, Stays;
    var end := if slash then "/" else "";
    if more == [] {
      assert stack + more == stack && Behind(more) + end == end;
      CleanEnd(stack, slash);
    } else {
      var rest := Behind(more[1..]) + end;
      assert Behind(more) + end == "/" + more[0] + rest;
      assert rest == "" || rest[0] == '/';
      hide Behind;
      CleanJoined(stack + [more[0]], more[1..], slash);
      assert Stays(more[0]);
      PushSame(stack, more[0], rest);
      assert stack + [more[0]] + more[1..] == stack + more;
    }
  }

  lemma CleanEnd(stack: seq<string>, slash: bool)
    ensures var end := if slash then "/" else "";
            Clean(stack, end, false) == Some(Joined(stack) + end)
  {
    assert "/"[1..] == "";
    assert Joined(stack) + "" == Joined(stack);
  }

  /** The same text as `Joined`, from the other end. */
  function Behind(more: seq<string>): string {
    if more == [] then "" else "/" + more[0] + Behind(more[1..])
  }

  lemma {:induction false} BehindAppend(more: seq<string>, x: string)
    ensures Behind(more + [x]) == Behind(more) + "/" + x
  {
    if more == [] {
      assert [] + [x] == [x];
    } else {
      BehindAppend(more[1..], x);
      assert (more + [x])[1..] == more[1..] + [x];
    }
  }

  lemma {:induction false} JoinedIsBehind(stack: seq<string>)
    ensures Joined(stack) == Behind(stack)
  {
    if stack != [] {
      JoinedIsBehind(stack[..|stack| - 1]);
      BehindAppend(stack[..|stack| - 1], stack[|stack| - 1]);
      assert stack[..|stack| - 1] + [stack[|stack| - 1]] == stack;
    }
  }

  lemma {:induction false} JoinedNoHash(stack: seq<string>)
    requires AllStay(stack)
    ensures '#' !in Joined(stack)
  {
    if stack != [] {
      JoinedNoHash(stack[..|stack| - 1]);
      assert Stays(stack[|stack| - 1]);
    }
  }

  /** A path with harmless escapes that was cleaned is left as it is, and has no `#`. */
  lemma CleanTwice(t: string)
    requires t != "" && t[0] == '/' && Harmless(t)
    ensures var r := Clean([], t, false);
            r.Some? ==> r.value != "" && r.value[0] == '/' && '#' !in r.value && Clean([], r.value, false) == r
  {
    hide Harmless, Clean;
    var r := Clean([], t, false);
    if r.Some? {
      var left, slash := CleanIsOrdinary([], t);
      JoinedNoHash(left);
      JoinedIsBehind(left);
      CleanJoined([], left, slash);
      assert [] + left == left;
    }
  }

  // ----- segments with escapes -----

  lemma DecodedOne(t: string, text: string, rest: string, d: string)
    requires t != "" && First(t).Some? && First(t).value.text == text && rest == t[First(t).value.used..]
    requires Decoded(rest) == Some(d)
    ensures Decoded(t) == Some(text + d)
  {
  }

  lemma DecodedDots()
    ensures Decoded("%2e%2e") == Some("..")
  {
    var t := "%2e%2e";
    assert t[3..] == "%2e" && "%2e"[3..] == "";
    DecodedOne("%2e", ".", "", "");
    assert "." + "" == ".";
    DecodedOne(t, ".", "%2e", ".");
    assert "." + "." == "..";
  }

  lemma DecodedLetter(c: char)
    requires c != '%'
    ensures Decoded([c]) == Some([c])
  {
    var t := [c];
    assert t[1..] == "" && t[..1] == t && t + "" == t;
    DecodedOne(t, t, "", "");
  }

  lemma DecodedSlash()
    ensures Decoded("a%2fb") == Some("a/b")
  {
    DecodedLetter('b');
    assert ['b'] == "b";
    var t := "%2fb";
    assert t[3..] == "b";
    DecodedOne(t, "/", "b", "b");
    assert "/" + "b" == "/b" && "a%2fb"[1..] == t && "a%2fb"[..1] == "a";
    DecodedOne("a%2fb", "a", t, "/b");
    assert "a" + "/b" == "a/b";
  }

  lemma DividedSlash()
    ensures Divided("a/b") == ["a", "b"]
  {
    SegmentIs("a", "/b");
    DividedOnce("b");
    assert "a" + "/b" == "a/b" && "a/b"[..1] == "a" && "a/b"[2..] == "b";
    assert ["a"] + ["b"] == ["a", "b"];
  }

  lemma UpStep(stack: seq<string>, rest: string)
    requires rest != "" && rest[0] == '/' && stack != []
    ensures Clean(stack, "/.." + rest, false) == Clean(stack[..|stack| - 1], rest, false)
  {
    hide Decoded, Divided, Joined;
    var t := "/.." + rest;
    assert t[1..] == ".." + rest;
    SegmentIs("..", rest);
    assert t[1..3] == ".." && t[3..] == rest;
  }

  /** The escape of a visible character, with digits of either case, is replaced by it. */
  lemma VisibleIsRead(c: byte, high: char, low: char, rest: string, d: string)
    requires high == LOWER_DIGITS[c / 16] || high == UPPER_DIGITS[c / 16]
    requires low == LOWER_DIGITS[c % 16] || low == UPPER_DIGITS[c % 16]
    requires 33 <= c < 127 && Decoded(rest) == Some(d)
    ensures Decoded(['%', high, low] + rest) == Some([c as char] + d)
  {
    EscapeIsRead(c, high, low, rest);
    hide Escaped, HexToInt;
    var t := ['%', high, low] + rest;
    assert t[3..] == rest;
    DecodedOne(t, [c as char], rest, d);
  }

  lemma TildeIsRead(digit: char) returns (seg: string)
    requires digit == 'E' || digit == 'e'
    ensures seg == "%7" + [digit] + "user" && '/' !in seg && Decoded(seg) == Some("~user")
  {
    hide Escaped, Decoded, HexToInt;
    DecodedLetters("user");
    VisibleIsRead(126, '7', digit, "user", "user");
    seg := "%7" + [digit] + "user";
    assert seg == ['%', '7', digit] + "user" && ['~'] + "user" == "~user";
  }

  /** An escape with a letter of either case. */
  lemma Tilde(digit: char)
    requires digit == 'E' || digit == 'e'
    ensures Clean([], "/%7" + [digit] + "user", false) == Some("/~user")
  {
    hide Decoded, Clean, Joined;
    var seg := TildeIsRead(digit);
    assert "/" + seg + "" == "/%7" + [digit] + "user";
    PushStep([], seg, "", "~user");
    DividedOnce("~user");
    assert [] + ["~user"] == ["~user"];
    CleanEnd(["~user"], false);
    JoinedNothing();
    JoinedMore([], "~user");
    assert "" + "/" + "~user" == "/~user" && "/~user" + "" == "/~user";
  }

  lemma JoinedNothing()
    ensures Joined([]) == ""
  {
  }

  lemma {:induction false} DecodedLetters(t: string)
    requires '%' !in t
    ensures Decoded(t) == Some(t)
  {
    if t != "" {
      DecodedLetters(t[1..]);
      assert t[..1] + t[1..] == t;
    }
  }

  /** An escaped slash divides its segment: going up takes away only what is behind it. */
  lemma EscapedSlash(stack: seq<string>, rest: string)
    requires rest != "" && rest[0] == '/'
    ensures Clean(stack, "/a%2fb" + ("/.." + rest), false) == Clean(stack + ["a"], rest, false)
  {
    hide Decoded, Divided, Clean;
    DecodedSlash();
    DividedSlash();
    PushStep(stack, "a%2fb", "/.." + rest, "a/b");
    assert "/" + "a%2fb" == "/a%2fb";
    var more := stack + ["a", "b"];
    UpStep(more, rest);
    assert more[..|more| - 1] == stack + ["a"];
  }
}
