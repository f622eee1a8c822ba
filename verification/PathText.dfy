/**
 The same for the text of a path alone, as the loop of `fileNormalize` goes through it, and when it leaves the
 path as it is.
 */
module PathText {
  import opened Wrappers
  import opened PathSegments

  /** Where the last slash is. */
  function LastSlash(done: string): (k: nat)
    requires done != "" && done[0] == '/'
    ensures k < |done| && done[k] == '/' && '/' !in done[k + 1..]
  {
    if done[|done| - 1] == '/' then |done| - 1
    else
      var k := LastSlash(done[..|done| - 1]);
      assert done[k + 1..] == done[..|done| - 1][k + 1..] + [done[|done| - 1]];
      k
  }

  /** Nothing is gone through without a slash in front. */
  predicate Ready(done: string, r: string) {
    if done == "" then r == "" || r[0] == '/' else done[0] == '/'
  }

  /** None of the five cases at a slash: `/./`, `//`, `/../`, and a dot segment at the end. */
  predicate NothingSpecial(r: string, cut: bool) {
    !("/./" <= r) && !("//" <= r) && !("/../" <= r) && (cut || (r != "/." && r != "/.."))
  }

  /** What the text becomes when `done` was gone through and `r` is ahead. */
  function Normal(done: string, r: string, cut: bool): Option<string>
    requires Ready(done, r)
    decreases |r|
  {
    if r == "" then Some(done)
    else if "/./" <= r then Normal(done, r[2..], cut)
    else if "//" <= r then Normal(done, r[1..], cut)
    else if "/../" <= r then if done == "" then None else Normal(done[..LastSlash(done)], r[3..], cut)
    else if r == "/." && !cut then Some(done + "/")
    else if r == "/.." && !cut then if done == "" then None else Some(done[..LastSlash(done)] + "/")
    else
      var p := First(r);
      if p.None? then None else Normal(done + p.value.text, r[p.value.used..], cut)
  }

  /** What the tests behind a slash say about the segment there. */
  lemma SegmentAhead(r: string) returns (seg: string, rest: string)
    requires r != "" && r[0] == '/'
    ensures var n := SegmentLength(r[1..]); seg == r[1..1 + n] && rest == r[1 + n..]
    ensures r == "/" + seg + rest && '/' !in seg && (rest == "" || rest[0] == '/')
    ensures "/./" <= r <==> seg == "." && rest != ""
    ensures "//" <= r <==> seg == "" && rest != ""
    ensures "/../" <= r <==> seg == ".." && rest != ""
    ensures (r == "/." <==> seg == "." && rest == "") && (r == "/.." <==> seg == ".." && rest == "")
  {
    var t := r[1..];
    var n := SegmentLength(t);
    seg, rest := t[..n], t[n..];
    assert r == "/" + seg + rest;
    if "/./" <= r {
      assert t == "." + r[2..];
      SegmentIs(".", r[2..]);
    }
    if "/../" <= r {
      assert t == ".." + r[3..];
      SegmentIs("..", r[3..]);
    }
    if r == "/." || r == "/.." {
      assert t + "" == t;
      SegmentIs(t, "");
    }
  }

  lemma OneLastSlash(done: string, j: nat, k: nat)
    requires j < |done| && k < |done| && done[j] == '/' == done[k]
    requires '/' !in done[j + 1..] && '/' !in done[k + 1..]
    ensures j == k
  {
    assert forall i :: j < i < |done| ==> done[i] == done[j + 1..][i - j - 1];
    assert forall i :: k < i < |done| ==> done[i] == done[k + 1..][i - k - 1];
  }

  /** To go up in the text is to take the last segment off the stack. */
  lemma JoinedUp(stack: seq<string>)
    requires SlashFree(stack)
    ensures var done := Joined(stack);
            && (done == "" <==> stack == []) && Ready(done, "/")
            && (stack != [] ==> done[..LastSlash(done)] == Joined(stack[..|stack| - 1]))
  {
    if stack != [] {
      var front, last := Joined(stack[..|stack| - 1]), stack[|stack| - 1];
      var done := Joined(stack);
      JoinedUp(stack[..|stack| - 1]);
      assert done == front + "/" + last && done[|front|] == '/' && done[|front| + 1..] == last;
      OneLastSlash(done, |front|, LastSlash(done));
    }
  }

  /** An escape ends in its segment. */
  lemma FirstOf(r: string, n: nat)
    requires 0 < n <= |r| && (n < |r| ==> r[n] == '/')
    ensures First(r[..n]) == First(r) && (First(r).Some? ==> First(r).value.used <= n)
  {
    assert r[..n][..1] == r[..1];
    if n > 2 {
      assert r[..n][1] == r[1] && r[..n][2] == r[2] && r[..n][..3] == r[..3];
    }
  }

  lemma Within(r: string, used: nat, n: nat)
    requires used <= n <= |r|
    ensures r[used..] == r[..n][used..] + r[n..]
    ensures r[..n][used..] == r[used..][..n - used] && r[n..] == r[used..][n - used..]
  {
  }

  lemma FirstInside(r: string)
    requires r != "" && r[0] != '/'
    ensures var n := SegmentLength(r);
            && n > 0 && First(r[..n]) == First(r)
            && (First(r).Some? ==>
                  var used := First(r).value.used;
                  && used <= n && SegmentLength(r[used..]) == n - used
                  && r[..n][used..] == r[used..][..n - used] && r[n..] == r[used..][n - used..])
  {
    var n := SegmentLength(r);
    assert n > 0;
    hide SegmentLength, First;
    FirstOf(r, n);
    if First(r).Some? {
      var used := First(r).value.used;
      Within(r, used, n);
      assert '/' !in r[..n][used..];
      SegmentIs(r[..n][used..], r[n..]);
    }
  }

  /** One step inside of a segment. */
  lemma RestStep(stack: seq<string>, cur: string, r: string, cut: bool)
    requires r != "" && r[0] != '/'
    ensures CleanRest(stack, cur, r, cut) ==
            if First(r).None? then None
            else CleanRest(stack, cur + First(r).value.text, r[First(r).value.used..], cut)
  {
    hide Clean, Joined, Divided, First;
    FirstInside(r);
    var n := SegmentLength(r);
    assert r[..n] != "";
    if First(r).Some? {
      var p := First(r).value;
      var d := Decoded(r[p.used..][..n - p.used]);
      assert Decoded(r[..n]) == Before(p.text, d);
      if d.Some? {
        assert cur + (p.text + d.value) == cur + p.text + d.value;
      }
    } else {
      assert Decoded(r[..n]) == None;
    }
  }

  /** The text alone gives what the stack of segments gives, between segments and inside of one. */
  lemma {:induction false} NormalIsClean(stack: seq<string>, r: string, cut: bool)
    requires SlashFree(stack) && (r == "" || r[0] == '/')
    ensures Ready(Joined(stack), r) && Normal(Joined(stack), r, cut) == Clean(stack, r, cut)
    decreases |r|, 0
  {
    hide Joined, Decoded, Divided, First;
    JoinedUp(stack);
    if r != "" {
      var seg, rest := SegmentAhead(r);
      if "/./" <= r || "//" <= r {
        NormalIsClean(stack, rest, cut);
      } else if "/../" <= r {
        if stack != [] {
          NormalIsClean(stack[..|stack| - 1], rest, cut);
        }
      } else if cut || (r != "/." && r != "/..") {
        BeginStep(stack, r, cut);
        seg, rest := SegmentStays(r, cut);
        assert Joined(stack) + "/" + "" == Joined(stack) + "/";
        NormalInside(stack, "", r[1..], cut);
      }
    }
  }

  lemma SegmentStays(r: string, cut: bool) returns (seg: string, rest: string)
    requires r != "" && r[0] == '/' && NothingSpecial(r, cut)
    ensures var n := SegmentLength(r[1..]); seg == r[1..1 + n] && rest == r[1 + n..]
    ensures var n := SegmentLength(r[1..]); r[1..][..n] == seg && r[1..][n..] == rest
    ensures First(r) == Some(Replacement("/", 1))
    ensures rest != "" ==> seg != "" && seg != "." && seg != ".."
    ensures rest == "" && !cut ==> seg != "." && seg != ".."
  {
    seg, rest := SegmentAhead(r);
    assert r[..1] == "/" && r[1..][..|seg|] == seg && r[1..][|seg|..] == rest;
  }

  /** A segment begins that stays. */
  lemma BeginStep(stack: seq<string>, r: string, cut: bool)
    requires r != "" && r[0] == '/' && NothingSpecial(r, cut)
    ensures Clean(stack, r, cut) == CleanRest(stack, "", r[1..], cut)
  {
    hide Joined, Divided, SegmentLength, First, NothingSpecial;
    var seg, rest := SegmentStays(r, cut);
    var d := Decoded(seg);
    assert seg == "" ==> d == Some("");
    hide Decoded;
    if d.Some? {
      BeginLast(stack, d.value);
    }
  }

  lemma BeginLast(stack: seq<string>, d: string)
    ensures "" + d == d && Joined(stack) + "/" + ("" + d) == Joined(stack) + "/" + d
    ensures Joined(stack) + "/" + "" == Joined(stack) + "/"
    ensures Joined(stack + Divided(d)) == Joined(stack) + "/" + d
  {
    DividedIs(stack, d);
  }

  lemma {:induction false} NormalInside(stack: seq<string>, cur: string, r: string, cut: bool)
    requires SlashFree(stack)
    ensures Ready(Joined(stack) + "/" + cur, r)
    ensures Normal(Joined(stack) + "/" + cur, r, cut) == CleanRest(stack, cur, r, cut)
    decreases |r|, 1
  {
    hide Joined, Divided, First, Clean;
    JoinedUp(stack);
    var done := Joined(stack) + "/" + cur;
    if r == "" {
      assert cur + "" == cur;
    } else if r[0] == '/' {
      DividedIs(stack, cur);
      assert cur + "" == cur && r[0..] == r;
      NormalIsClean(stack + Divided(cur), r, cut);
    } else {
      RestStep(stack, cur, r, cut);
      if First(r).Some? {
        var p := First(r).value;
        assert done + p.text == Joined(stack) + "/" + (cur + p.text);
        NormalInside(stack, cur + p.text, r[p.used..], cut);
      }
    }
  }

  // ----- what is left alone -----

  /** What lies before a `#`. */
  function Head(t: string): string {
    if t == "" || t[0] == '#' then "" else [t[0]] + Head(t[1..])
  }

  lemma {:induction false} HeadIs(t: string)
    ensures Head(t) <= t && '#' !in Head(t)
    ensures if '#' in t then |Head(t)| < |t| && t[|Head(t)|] == '#' else Head(t) == t
  {
    if t != "" && t[0] != '#' {
      HeadIs(t[1..]);
      assert t == [t[0]] + t[1..];
    }
  }

  /** Nothing happens at `k`: no `#`, no segment to be removed behind a slash, no escape but one of a blank. */
  predicate TidyAt(t: string, k: nat)
    requires k < |t|
  {
    t[k] != '#' && NothingSpecial(t[k..], false) && (t[k] == '%' ==> Escaped(t[k..]) == Some(BLANK))
  }

  predicate TidyTo(t: string, n: nat)
    requires n <= |t|
  {
    forall k :: 0 <= k < n ==> TidyAt(t, k)
  }

  predicate Tidy(t: string) { TidyTo(t, |t|) }

  lemma {:induction false} NormalShrinks(done: string, r: string, cut: bool)
    requires Ready(done, r)
    ensures var n := Normal(done, r, cut); n.Some? ==> |n.value| <= |done| + |r|
    decreases |r|
  {
    if r == "" {
    } else if "/./" <= r {
      NormalShrinks(done, r[2..], cut);
    } else if "//" <= r {
      NormalShrinks(done, r[1..], cut);
    } else if "/../" <= r {
      if done != "" {
        NormalShrinks(done[..LastSlash(done)], r[3..], cut);
      }
    } else if !cut && (r == "/." || r == "/..") {
    } else if First(r).Some? {
      var p := First(r).value;
      NormalShrinks(done + p.text, r[p.used..], cut);
    }
  }

  lemma SpecialShrinks(done: string, r: string)
    requires Ready(done, r) && r != "" && !NothingSpecial(r, false)
    ensures var n := Normal(done, r, false); n.Some? ==> |n.value| < |done| + |r|
  {
    if "/./" <= r {
      NormalShrinks(done, r[2..], false);
    } else if "//" <= r {
      NormalShrinks(done, r[1..], false);
    } else if "/../" <= r && done != "" {
      NormalShrinks(done[..LastSlash(done)], r[3..], false);
    }
  }

  lemma TidyBehind(r: string, used: nat)
    requires 0 < used <= |r| && TidyTo(r, used)
    ensures Tidy(r) <==> Tidy(r[used..])
  {
    var rest := r[used..];
    forall k | 0 <= k < |rest|
      ensures TidyAt(rest, k) == TidyAt(r, used + k)
    {
      assert rest[k..] == r[used + k..];
    }
    if Tidy(rest) {
      forall k | 0 <= k < |r|
        ensures TidyAt(r, k)
      {
        assert k >= used ==> TidyAt(rest, k - used);
      }
    }
    if Tidy(r) {
      forall k | 0 <= k < |rest|
        ensures TidyAt(rest, k)
      {
        assert TidyAt(r, used + k);
      }
    }
  }

  /** A blank's escape is a `%20`. */
  lemma TidyFirst(r: string)
    requires r != "" && '#' !in r && NothingSpecial(r, false)
    ensures TidyAt(r, 0) <==> First(r).Some? && First(r).value.text == r[..First(r).value.used]
    ensures First(r).Some? && !TidyAt(r, 0) ==> |First(r).value.text| < First(r).value.used
    ensures TidyAt(r, 0) ==> TidyTo(r, First(r).value.used)
  {
    assert r[0..] == r;
    if r[0] == '%' && Escaped(r) == Some(BLANK) {
      assert r[1] == '2' && r[2] == '0';
      assert r[1..][0] == '2' && r[2..][0] == '0';
    }
  }

  lemma {:induction false} Unchanged(done: string, r: string)
    requires Ready(done, r) && '#' !in r
    ensures Normal(done, r, false) == Some(done + r) <==> Tidy(r)
    decreases |r|
  {
    hide TidyAt, First, LastSlash;
    if r == "" {
      assert done + r == done;
    } else if !NothingSpecial(r, false) {
      SpecialShrinks(done, r);
      assert !TidyAt(r, 0) by {
        NotTidy(r);
      }
    } else {
      TidyFirst(r);
      hide NothingSpecial;
      if First(r).Some? {
        var p := First(r).value;
        assert Normal(done, r, false) == Normal(done + p.text, r[p.used..], false) by {
          NormalStep(done, r);
        }
        NormalShrinks(done + p.text, r[p.used..], false);
        if TidyAt(r, 0) {
          Unchanged(done + p.text, r[p.used..]);
          TidyBehind(r, p.used);
          assert done + p.text + r[p.used..] == done + r;
        }
      } else {
        NormalStep(done, r);
      }
    }
  }

  lemma NotTidy(r: string)
    requires r != "" && !NothingSpecial(r, false)
    ensures !TidyAt(r, 0)
  {
    assert r[0..] == r;
  }

  lemma NormalStep(done: string, r: string)
    requires Ready(done, r) && r != "" && NothingSpecial(r, false)
    ensures First(r).Some? ==> Ready(done + First(r).value.text, r[First(r).value.used..])
    ensures Normal(done, r, false) ==
            if First(r).None? then None
            else Normal(done + First(r).value.text, r[First(r).value.used..], false)
  {
  }

  /** The result is the path itself if and only if nothing happens at any of its characters. */
  lemma FixedPoint(t: string)
    requires t != "" && t[0] == '/'
    ensures Ready("", Head(t)) && (Clean([], Head(t), '#' in t) == Some(t) <==> Tidy(t))
  {
    HeadIs(t);
    var r, cut := Head(t), '#' in t;
    NormalIsClean([], r, cut);
    if cut {
      NormalShrinks("", r, cut);
      assert !TidyAt(t, |r|);
    } else {
      Unchanged("", t);
      assert "" + t == t;
    }
  }

  /** Whether a segment is one of dots is decided before its escapes are replaced, so that the result can be
      refused when it is cleaned again. */
  lemma EscapedDots(x: string)
    requires x != "" && x[0] == '/'
    ensures Clean([], "/%2e%2e" + x, false) == Clean([".."], x, false)
    ensures Clean([], "/.." + x, false) == None && !Tidy("/.." + x)
  {
    hide Decoded, Clean, Tidy;
    DecodedDots();
    DividedOnce("..");
    PushStep([], "%2e%2e", x, "..");
    assert "/" + "%2e%2e" == "/%2e%2e" && [] + [".."] == [".."];
    UpRefused("/.." + x);
  }

  lemma EscapedDotsTwice()
    ensures Clean([], "/%2e%2e/x", false) == Some("/../x") && Clean([], "/../x", false) == None
  {
    hide Clean, Divided;
    EscapedDots("/x");
    assert "/%2e%2e" + "/x" == "/%2e%2e/x" && "/.." + "/x" == "/../x" && "/" + "x" + "" == "/x";
    DecodedLetter('x');
    PushSame([".."], "x", "");
    CleanEnd([".."] + ["x"], false);
    JoinedMore([".."], "x");
    JoinedMore([], "..");
    assert [] + [".."] == [".."] && Joined([]) + "/" + ".." + "/" + "x" + "" == "/../x";
  }

  lemma UpRefused(t: string)
    requires "/../" <= t
    ensures !Tidy(t) && Clean([], t, false) == None
  {
    NormalIsClean([], t, false);
    assert t[0..] == t && !TidyAt(t, 0);
  }
}
