/**
 Urls as lines of text: what `url::serialize` writes for the queues on disk (src/utils/url.cxx:442-457)
 and what the constructor `url(char *line)` reads (src/utils/url.cxx:245-290).
 */
module UrlText {
  import opened Wrappers

  /** `depth` is an `int` of 32 bits, `port` has 16. */
  datatype UrlRecord = UrlRecord(depth: int, host: string, port: nat, file: string, cookie: Option<string>)
  {
    predicate InRange() { -0x8000_0000 <= depth < 0x8000_0000 && port < 0x1_0000 }
  }

  const MAX_URL_SIZE := 1024
  const MAX_SITE_SIZE := 256
  const MAX_COOKIE_SIZE := 128

  predicate Digit(c: char) { '0' <= c <= '9' }

  // ----- numbers -----

  function DigitChar(n: nat): (c: char)
    requires n < 10
    ensures Digit(c) && c as int - '0' as int == n
  {
    '0' + n as char
  }

  function Decimal(n: nat): (s: string)
    ensures s != [] && forall k :: 0 <= k < |s| ==> Digit(s[k])
  {
    if n < 10 then [DigitChar(n)] else Decimal(n / 10) + [DigitChar(n % 10)]
  }

  /** The number that is read from digits, in arithmetic modulo `m`. */
  function Value(s: string, m: nat): (v: nat)
    requires m > 0
    requires forall k :: 0 <= k < |s| ==> Digit(s[k])
    ensures v < m
  {
    if s == [] then 0 else (10 * Value(s[..|s| - 1], m) + (s[|s| - 1] as int - '0' as int)) % m
  }

  lemma ValueOfFront(front: string, q: nat, d: nat, m: nat)
    requires (forall k :: 0 <= k < |front| ==> Digit(front[k])) && d < 10 && 10 * q + d < m
    requires Value(front, m) == q
    ensures var s := front + [DigitChar(d)];
            (forall k :: 0 <= k < |s| ==> Digit(s[k])) && Value(s, m) == 10 * q + d
  {
    var s := front + [DigitChar(d)];
    assert s[..|s| - 1] == front && s[|s| - 1] == DigitChar(d);
    Remainder(10 * q + d, m);
  }

  lemma Remainder(n: nat, m: nat)
    requires n < m
    ensures n % m == n
  {
  }

  lemma {:induction false} ValueOfDecimal(n: nat, m: nat)
    requires n < m
    ensures Value(Decimal(n), m) == n
  {
    hide Value;
    if n < 10 {
      ValueOfNothing(m);
      ValueOfFront([], 0, n, m);
      assert [] + [DigitChar(n)] == Decimal(n);
    } else {
      ValueOfDecimal(n / 10, m);
      ValueOfFront(Decimal(n / 10), n / 10, n % 10, m);
    }
  }

  lemma ValueOfNothing(m: nat)
    requires m > 0
    ensures Value([], m) == 0
  {
  }

  /** `int` of 32 bits, as it is printed with `%u` and as it is computed while reading. */
  function Unsigned(d: int): nat { d % 0x1_0000_0000 }

  function Signed(n: nat): int { if n < 0x8000_0000 then n else n - 0x1_0000_0000 }

  // ----- the line of a url -----

  /** The end of the line is not part of it. */
  function Serialized(u: UrlRecord, useCookies: bool): string {
    Decimal(Unsigned(u.depth)) + " " + u.host + ":" + Decimal(u.port) + Tail(u, useCookies)
  }

  /** The file, and the cookie if there is one and cookies are used. */
  function Tail(u: UrlRecord, useCookies: bool): string {
    u.file + if useCookies && u.cookie.Some? then " " + u.cookie.value else ""
  }

  function LeadingDigits(s: string): (n: nat)
    ensures n <= |s| && (forall k :: 0 <= k < n ==> Digit(s[k])) && (n < |s| ==> !Digit(s[n]))
  {
    if s == [] || !Digit(s[0]) then 0 else 1 + LeadingDigits(s[1..])
  }

  function IndexOf(s: string, c: char): (n: nat)
    ensures n <= |s| && (forall k :: 0 <= k < n ==> s[k] != c) && (n < |s| ==> s[n] == c)
  {
    if s == [] || s[0] == c then 0 else 1 + IndexOf(s[1..], c)
  }

  /** The line has a first number, one more character and a colon behind it. */
  predicate HasColon(line: string) {
    var n := LeadingDigits(line);
    n < |line| && IndexOf(line[n + 1..], ':') < |line| - n - 1
  }

  function Parsed(line: string, useCookies: bool): UrlRecord
    requires HasColon(line)
  {
    var n := LeadingDigits(line);
    var named := line[n + 1..];
    var k := IndexOf(named, ':');
    WithTail(Signed(Value(line[..n], 0x1_0000_0000)), named[..k], named[k + 1..], useCookies)
  }

  /** What is behind the colon is the port, the file and the cookie. */
  function WithTail(depth: int, host: string, behind: string, useCookies: bool): UrlRecord {
    var p := LeadingDigits(behind);
    UrlRecord(depth, host, Value(behind[..p], 0x1_0000), FileOf(behind[p..], useCookies),
              CookieOf(behind[p..], useCookies))
  }

  function FileOf(tail: string, useCookies: bool): string {
    if useCookies then tail[..IndexOf(tail, ' ')] else tail
  }

  function CookieOf(tail: string, useCookies: bool): Option<string> {
    var b := IndexOf(tail, ' ');
    if useCookies && b < |tail| then Some(tail[b + 1..]) else None
  }

  /** The digits from `start` on, and where they end. */
  method ReadNumber(line: string, start: nat, m: nat) returns (v: nat, i: nat)
    requires start <= |line| && m > 0
    ensures i == start + LeadingDigits(line[start..]) && v == Value(line[start..i], m)
  {
    hide LeadingDigits;
    i, v := start, 0;
    ghost var t := line[start..];
    while i < |line| && Digit(line[i])
      invariant start <= i <= start + LeadingDigits(t)
      invariant v == Value(t[..i - start], m)
    {
      assert line[i] == t[i - start];
      v := (10 * v + (line[i] as int - '0' as int)) % m;
      i := i + 1;
      assert t[..i - start][..i - start - 1] == t[..i - start - 1];
    }
    assert i < |line| ==> line[i] == t[i - start];
    assert line[start..i] == t[..i - start];
  }

  /** `strchr`, from `start` on. */
  method Find(line: string, start: nat, c: char) returns (i: nat)
    requires start <= |line|
    ensures i == start + IndexOf(line[start..], c)
  {
    hide IndexOf;
    i := start;
    ghost var t := line[start..];
    while i < |line| && line[i] != c
      invariant start <= i <= start + IndexOf(t, c)
    {
      assert line[i] == t[i - start];
      i := i + 1;
    }
    assert i < |line| ==> line[i] == t[i - start];
  }

  /** What is behind the first blank is copied into a buffer of fixed size, and may be too long for that. */
  predicate CookieFits(u: UrlRecord) { u.cookie.Some? ==> |u.cookie.value| < MAX_COOKIE_SIZE }

  /** The file and the cookie, from `start` on. */
  method ReadTail(line: string, start: nat, useCookies: bool)
    returns (file: string, cookie: Option<string>, fits: bool)
    requires start <= |line|
    ensures file == FileOf(line[start..], useCookies) && cookie == CookieOf(line[start..], useCookies)
    ensures fits <==> (cookie.Some? ==> |cookie.value| < MAX_COOKIE_SIZE)
  {
    hide IndexOf;
    fits := true;
    if !useCookies {
      return line[start..], None, fits;
    }
    var cpos: nat := Find(line, start, ' ');
    file := line[start..cpos];
    assert file == line[start..][..cpos - start];
    if cpos == |line| {
      cookie := None;
    } else {
      fits := |line| - (cpos + 1) < MAX_COOKIE_SIZE;
      cookie := Some(line[cpos + 1..]);
      assert line[cpos + 1..] == line[start..][cpos - start + 1..];
    }
  }

  /** The constructor `url(char *line)`. */
  method FromLine(line: string, useCookies: bool) returns (u: UrlRecord, fits: bool)
    requires HasColon(line)
    ensures u == Parsed(line, useCookies) && (fits <==> CookieFits(u))
  {
    hide LeadingDigits, IndexOf, Value, WithTail;
    var depth: nat, i: nat := ReadNumber(line, 0, 0x1_0000_0000);
    assert line[0..] == line && line[0..i] == line[..i];
    var deb: nat := i + 1;
    i := Find(line, deb, ':');
    var host := line[deb..i];
    assert host == line[deb..][..i - deb];
    i := i + 1;
    assert line[i..] == line[deb..][i - deb..];
    u, fits := ReadRest(line, i, Signed(depth), host, useCookies);
  }

  method ReadRest(line: string, i: nat, depth: int, host: string, useCookies: bool)
    returns (u: UrlRecord, fits: bool)
    requires i <= |line|
    ensures u == WithTail(depth, host, line[i..], useCookies) && (fits <==> CookieFits(u))
  {
    hide LeadingDigits, Value, FileOf, CookieOf;
    var port: nat, j: nat := ReadNumber(line, i, 0x1_0000);
    assert line[i..j] == line[i..][..j - i] && line[j..] == line[i..][j - i..];
    var file, cookie;
    file, cookie, fits := ReadTail(line, j, useCookies);
    u := UrlRecord(depth, host, port, file, cookie);
  }

  // ----- reading what was written -----

  lemma {:induction false} LeadingIs(a: string, b: string)
    requires (forall k :: 0 <= k < |a| ==> Digit(a[k])) && (b == [] || !Digit(b[0]))
    ensures LeadingDigits(a + b) == |a|
  {
    if a == [] {
      assert a + b == b;
    } else {
      assert (a + b)[1..] == a[1..] + b;
      LeadingIs(a[1..], b);
    }
  }

  lemma {:induction false} IndexIs(a: string, c: char, b: string)
    requires c !in a && (b == [] || b[0] == c)
    ensures IndexOf(a + b, c) == |a|
  {
    if a == [] {
      assert a + b == b;
    } else {
      assert (a + b)[1..] == a[1..] + b;
      IndexIs(a[1..], c, b);
    }
  }

  /** What a url must be like to be read as it was written: no colon in the name, no digit in front of the
      file, which would be taken for the port, and no blank in the file where a cookie may follow. Without
      cookies there is none to read. */
  predicate WellFormed(u: UrlRecord, useCookies: bool) {
    && ':' !in u.host && (u.file == "" || !Digit(u.file[0]))
    && (if useCookies then ' ' !in u.file else u.cookie == None)
  }

  lemma FirstPart(u: UrlRecord, useCookies: bool)
    ensures var line, n := Serialized(u, useCookies), |Decimal(Unsigned(u.depth))|;
            && LeadingDigits(line) == n < |line| && line[..n] == Decimal(Unsigned(u.depth))
            && line[n + 1..] == u.host + (":" + (Decimal(u.port) + Tail(u, useCookies)))
  {
    hide Decimal, Tail, Unsigned, LeadingDigits;
    var number := Decimal(Unsigned(u.depth));
    var behind := u.host + (":" + (Decimal(u.port) + Tail(u, useCookies)));
    assert Serialized(u, useCookies) == number + (" " + behind);
    LeadingIs(number, " " + behind);
  }

  lemma {:induction false} IndexBefore(a: string, c: char, b: string)
    requires b != "" && b[0] == c
    ensures IndexOf(a + b, c) <= |a| && (IndexOf(a + b, c) == |a| <==> c !in a)
  {
    if a == [] {
      assert a + b == b;
    } else {
      assert (a + b)[1..] == a[1..] + b;
      IndexBefore(a[1..], c, b);
    }
  }

  /** Every line that is written has the shape that the constructor expects. */
  lemma SerializedHasColon(u: UrlRecord, useCookies: bool)
    ensures HasColon(Serialized(u, useCookies))
  {
    hide Decimal, Tail, Unsigned, LeadingDigits, IndexOf, Serialized;
    FirstPart(u, useCookies);
    IndexBefore(u.host, ':', ":" + (Decimal(u.port) + Tail(u, useCookies)));
  }

  lemma SignedUnsigned(d: int)
    requires -0x8000_0000 <= d < 0x8000_0000
    ensures Signed(Unsigned(d)) == d && Unsigned(d) < 0x1_0000_0000
  {
  }

  /** The port and the file: read as they were written, unless the file starts with a digit. */
  lemma PortAndTail(u: UrlRecord, useCookies: bool)
    requires u.InRange()
    ensures var behind := Decimal(u.port) + Tail(u, useCookies);
            var p := LeadingDigits(behind);
            && ((u.file == "" || !Digit(u.file[0])) ==>
                p == |Decimal(u.port)| && behind[..p] == Decimal(u.port) && behind[p..] == Tail(u, useCookies))
            && (u.file != "" && Digit(u.file[0]) ==> |behind[p..]| < |Tail(u, useCookies)|)
  {
    hide Decimal, LeadingDigits;
    var number, tail := Decimal(u.port), Tail(u, useCookies);
    if u.file == "" || !Digit(u.file[0]) {
      LeadingIs(number, tail);
    } else {
      assert tail[0] == u.file[0];
      LeadingMore(number, tail);
    }
  }

  lemma {:induction false} LeadingMore(a: string, b: string)
    requires (forall k :: 0 <= k < |a| ==> Digit(a[k])) && b != "" && Digit(b[0])
    ensures LeadingDigits(a + b) > |a|
  {
    if a == [] {
      assert a + b == b;
    } else {
      assert (a + b)[1..] == a[1..] + b;
      LeadingMore(a[1..], b);
    }
  }

  /** The file and the cookie, for a tail that is read from its beginning. */
  lemma TailParts(u: UrlRecord, useCookies: bool)
    ensures var tail := Tail(u, useCookies);
            && ((if useCookies then ' ' !in u.file else u.cookie == None) ==>
                FileOf(tail, useCookies) == u.file && CookieOf(tail, useCookies) == u.cookie)
            && (useCookies && ' ' in u.file ==> FileOf(tail, useCookies) != u.file)
            && (!useCookies ==> CookieOf(tail, useCookies) == None)
  {
    hide IndexOf;
    var tail := Tail(u, useCookies);
    if useCookies {
      if u.cookie.Some? {
        IndexBefore(u.file, ' ', " " + u.cookie.value);
        assert tail == u.file + (" " + u.cookie.value);
        if ' ' !in u.file {
          assert tail[|u.file| + 1..] == u.cookie.value;
        }
      } else {
        assert tail == u.file;
        if ' ' !in u.file {
          IndexIs(u.file, ' ', "");
          assert u.file + "" == u.file;
        } else {
          InIndex(u.file, ' ');
        }
      }
    } else {
      assert tail == u.file;
    }
  }

  lemma {:induction false} InIndex(s: string, c: char)
    ensures c in s <==> IndexOf(s, c) < |s|
  {
    if s != [] {
      InIndex(s[1..], c);
    }
  }

  /** What is read from the line of a url. */
  lemma ParsedParts(u: UrlRecord, useCookies: bool)
    requires u.InRange()
    ensures HasColon(Serialized(u, useCookies))
    ensures var v := Parsed(Serialized(u, useCookies), useCookies);
            && v.depth == u.depth && (v.host == u.host <==> ':' !in u.host)
            && (':' !in u.host ==>
                (var behind := Decimal(u.port) + Tail(u, useCookies);
                 var p := LeadingDigits(behind);
                 && v.port == Value(behind[..p], 0x1_0000)
                 && v.file == FileOf(behind[p..], useCookies) && v.cookie == CookieOf(behind[p..], useCookies)))
  {
    hide Decimal, LeadingDigits, IndexOf, Serialized, Tail, Value, Unsigned, Signed, FileOf, CookieOf;
    SerializedHasColon(u, useCookies);
    FirstPart(u, useCookies);
    SignedUnsigned(u.depth);
    ValueOfDecimal(Unsigned(u.depth), 0x1_0000_0000);
    var behind := Decimal(u.port) + Tail(u, useCookies);
    var named := u.host + (":" + behind);
    IndexBefore(u.host, ':', ":" + behind);
    if ':' !in u.host {
      assert named[..|u.host|] == u.host && named[|u.host| + 1..] == behind;
    }
  }

  lemma FileIsNoLonger(tail: string, useCookies: bool)
    ensures var cookie := CookieOf(tail, useCookies);
            |FileOf(tail, useCookies)| + (if cookie.Some? then 1 + |cookie.value| else 0) == |tail|
  {
  }

  /** A url is read as it was written if and only if it is well formed. */
  lemma SerializedRoundTrip(u: UrlRecord, useCookies: bool)
    requires u.InRange()
    ensures HasColon(Serialized(u, useCookies))
    ensures Parsed(Serialized(u, useCookies), useCookies) == u <==> WellFormed(u, useCookies)
  {
    hide Decimal, LeadingDigits, Serialized, Value, FileOf, CookieOf, Parsed, HasColon;
    ParsedParts(u, useCookies);
    if ':' !in u.host {
      var behind := Decimal(u.port) + Tail(u, useCookies);
      var p := LeadingDigits(behind);
      PortAndTail(u, useCookies);
      TailParts(u, useCookies);
      ValueOfDecimal(u.port, 0x1_0000);
      FileIsNoLonger(behind[p..], useCookies);
    }
  }

  /** The url that is read for one that was written. */
  function Reread(u: UrlRecord, useCookies: bool): (r: UrlRecord)
    requires u.InRange()
    ensures r == u <==> WellFormed(u, useCookies)
  {
    SerializedRoundTrip(u, useCookies);
    Parsed(Serialized(u, useCookies), useCookies)
  }

  // ----- whether the cookie that is read fits its buffer -----

  /** How much is behind the first blank. */
  function BehindBlank(s: string): nat {
    var b := IndexOf(s, ' ');
    if b < |s| then |s| - b - 1 else 0
  }

  lemma {:induction false} BlankBehindDigits(s: string)
    ensures BehindBlank(s[LeadingDigits(s)..]) == BehindBlank(s)
  {
    if s != [] && Digit(s[0]) {
      BlankBehindDigits(s[1..]);
      assert s[1..][LeadingDigits(s[1..])..] == s[LeadingDigits(s)..];
    }
  }

  /** How much is copied for the cookie: for a host without colon, all that is behind the first blank of the
      file, or the cookie; otherwise a blank behind the first colon of the host comes before these. */
  function Copied(u: UrlRecord): nat {
    var cookie := if u.cookie.Some? then 1 + |u.cookie.value| else 0;
    var more := if ':' in u.host then u.host[IndexOf(u.host, ':')..] else "";
    if ' ' in more then BehindBlank(more) + 1 + |Decimal(u.port)| + |u.file| + cookie
    else if ' ' in u.file then BehindBlank(u.file) + cookie
    else if u.cookie.Some? then |u.cookie.value|
    else 0
  }

  lemma {:induction false} BlankIn(a: string, b: string)
    ensures BehindBlank(a + b) == if ' ' in a then BehindBlank(a) + |b| else BehindBlank(b)
  {
    if a == [] {
      assert a + b == b;
    } else {
      assert (a + b)[1..] == a[1..] + b;
      BlankIn(a[1..], b);
      InIndex(a, ' ');
      InIndex(a[1..], ' ');
    }
  }

  lemma BlankInTail(u: UrlRecord)
    ensures BehindBlank(Decimal(u.port) + Tail(u, true)) ==
            var cookie := if u.cookie.Some? then 1 + |u.cookie.value| else 0;
            if ' ' in u.file then BehindBlank(u.file) + cookie
            else if u.cookie.Some? then |u.cookie.value|
            else 0
    ensures |Tail(u, true)| == |u.file| + if u.cookie.Some? then 1 + |u.cookie.value| else 0
  {
    hide Decimal;
    var cookie := if u.cookie.Some? then " " + u.cookie.value else "";
    BlankIn(Decimal(u.port), Tail(u, true));
    BlankIn(u.file, cookie);
    if u.cookie.Some? {
      assert cookie[0] == ' ';
    }
  }

  lemma RereadCookie(u: UrlRecord) returns (k: nat, behind: string)
    requires u.InRange()
    ensures var named := u.host + (":" + (Decimal(u.port) + Tail(u, true)));
            k == IndexOf(named, ':') < |named| && behind == named[k + 1..]
    ensures Reread(u, true).cookie == CookieOf(behind[LeadingDigits(behind)..], true)
  {
    hide Decimal, LeadingDigits, IndexOf, Serialized, Tail, Value, Unsigned, Signed, CookieOf, FileOf;
    SerializedHasColon(u, true);
    FirstPart(u, true);
    var named := u.host + (":" + (Decimal(u.port) + Tail(u, true)));
    k := IndexOf(named, ':');
    behind := named[k + 1..];
  }

  /** The cookie that is read back fits if and only if what is copied does. */
  lemma CookieFitsExactly(u: UrlRecord)
    requires u.InRange()
    ensures CookieFits(Reread(u, true)) <==> Copied(u) < MAX_COOKIE_SIZE
    ensures ' ' !in u.host && ' ' !in u.file && CookieFits(u) ==> CookieFits(Reread(u, true))
  {
    hide Decimal, LeadingDigits, IndexOf, Tail, BehindBlank, CookieOf, Reread;
    var k, behind := RereadCookie(u);
    BlankBehindDigits(behind);
    CookieIsBehind(behind[LeadingDigits(behind)..]);
    BlankInTail(u);
    BlankBehindColon(u, Decimal(u.port) + Tail(u, true), k, behind);
  }

  lemma NoCookie(line: string, useCookies: bool)
    requires HasColon(line)
    ensures !useCookies ==> CookieFits(Parsed(line, useCookies))
  {
    hide LeadingDigits, IndexOf, Value;
  }

  lemma CookieIsBehind(tail: string)
    ensures (var c := CookieOf(tail, true); c.Some? ==> |c.value| < MAX_COOKIE_SIZE) <==>
            BehindBlank(tail) < MAX_COOKIE_SIZE
  {
  }

  lemma BlankBehindColon(u: UrlRecord, tail: string, k: nat, behind: string)
    requires var named := u.host + (":" + tail); k == IndexOf(named, ':') < |named| && behind == named[k + 1..]
    requires tail == Decimal(u.port) + Tail(u, true)
    ensures var more := if ':' in u.host then u.host[IndexOf(u.host, ':')..] else "";
            && (' ' in more ==> ' ' in u.host)
            && BehindBlank(behind) == if ' ' in more then BehindBlank(more) + 1 + |tail| else BehindBlank(tail)
  {
    hide IndexOf, BehindBlank;
    var named := u.host + (":" + tail);
    IndexBefore(u.host, ':', ":" + tail);
    if ':' in u.host {
      IndexSame(u.host, ':', ":" + tail);
      var more := u.host[k..];
      assert ":" + behind == named[k..] == more + (":" + tail);
      BlankIn(":", behind);
      BlankIn(more, ":" + tail);
      BlankIn(":", tail);
    } else {
      assert behind == tail;
    }
  }

  lemma {:induction false} IndexSame(a: string, c: char, b: string)
    requires c in a
    ensures IndexOf(a + b, c) == IndexOf(a, c) < |a|
  {
    assert (a + b)[0] == a[0];
    if a[0] != c {
      assert (a + b)[1..] == a[1..] + b;
      IndexSame(a[1..], c, b);
    }
  }

  /** Valid urls whose line overruns the buffer of the cookie. */
  lemma CookieOverruns(x: string)
    requires MAX_COOKIE_SIZE <= |x| < MAX_URL_SIZE - 21
    ensures var u := UrlRecord(0, "h", 80, "/ " + x, None);
            u.InRange() && IsValid(u) && !CookieFits(Reread(u, true))
  {
    hide Reread, IndexOf;
    var u := UrlRecord(0, "h", 80, "/ " + x, None);
    CookieFitsExactly(u);
    assert u.file == "/" + (" " + x);
    IndexIs("/", ' ', " " + x);
    assert u.file[1] == ' ';
  }

  /** The same for both ways of reading. */
  lemma RereadFits(u: UrlRecord, useCookies: bool)
    requires u.InRange()
    ensures HasColon(Serialized(u, useCookies))
    ensures Parsed(Serialized(u, useCookies), useCookies) == Reread(u, useCookies)
    ensures CookieFits(Reread(u, useCookies)) <==> (useCookies ==> Copied(u) < MAX_COOKIE_SIZE)
  {
    hide Copied, Serialized, Parsed;
    SerializedHasColon(u, useCookies);
    NoCookie(Serialized(u, useCookies), useCookies);
    CookieFitsExactly(u);
  }

  // ----- how long a line is -----

  /** `url::isValid`, and what there is room for in a cookie. */
  predicate IsValid(u: UrlRecord) {
    && |u.host| < MAX_SITE_SIZE && |u.host| + |u.file| + 18 < MAX_URL_SIZE
    && CookieFits(u)
  }

  function Power10(d: nat): nat { if d == 0 then 1 else 10 * Power10(d - 1) }

  lemma {:induction false} DecimalIsShort(n: nat, d: nat)
    requires n < Power10(d) && d > 0
    ensures |Decimal(n)| <= d
  {
    if n >= 10 && d > 1 {
      DecimalIsShort(n / 10, d - 1);
    }
  }

  /** A character that is in no part of a url is not in its line. */
  lemma LineIsWithout(u: UrlRecord, useCookies: bool, c: char)
    requires !Digit(c) && c != ' ' && c != ':' && c !in u.host && c !in u.file
    requires u.cookie.Some? ==> c !in u.cookie.value
    ensures c !in Serialized(u, useCookies)
  {
    hide Decimal;
    var a, b := Decimal(Unsigned(u.depth)), Decimal(u.port);
    assert c !in a && c !in b;
    assert c !in " " && c !in ":";
  }

  /** The line of a valid url fits the buffer that it is written to. */
  lemma LineIsShort(u: UrlRecord, useCookies: bool)
    requires u.InRange() && IsValid(u)
    ensures |Serialized(u, useCookies)| + 1 < MAX_URL_SIZE + 40 + MAX_COOKIE_SIZE
  {
    hide Decimal;
    SignedUnsigned(u.depth);
    assert Power10(10) == 10_000_000_000 && Power10(5) == 100_000 by {
      TenPowers();
    }
    DecimalIsShort(Unsigned(u.depth), 10);
    DecimalIsShort(u.port, 5);
  }

  lemma TenPowers()
    ensures Power10(10) == 10_000_000_000 && Power10(5) == 100_000
  {
    assert Power10(2) == 100 && Power10(4) == 10_000;
    assert Power10(6) == 1_000_000 && Power10(8) == 100_000_000;
  }
}
