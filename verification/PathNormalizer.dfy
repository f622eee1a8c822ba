/**
 `fileNormalize` (src/utils/url.cxx:82-172): removes empty segments and dot segments from the path of a url and
 replaces the escapes of visible characters, in place. A `#` ends the path; the segment before it is never removed.
 */
module PathNormalizer {
  import opened Wrappers
  import opened PathSegments
  import opened PathText

  const NUL := '\0'

  /** A string of `len` characters, which may be used up to its terminator. */
  predicate Terminated(a: array<char>, len: nat)
    reads a
  {
    len < a.Length && a[len] == NUL && forall k :: 0 <= k < len ==> a[k] != NUL
  }

  /** At `i` the rest `r` of the path begins, up to the end or, if it is `cut`, to a `#`. */
  predicate Here(a: array<char>, i: nat, len: nat, r: string, cut: bool)
    reads a
  {
    && Terminated(a, len) && i + |r| <= len && a[i..i + |r|] == r && '#' !in r && a[0] == '/' && len > 0
    && (if cut then a[i + |r|] == '#' else i + |r| == len)
  }

  /** The loops that copy the rest of the string from `j` to `dst`. */
  method Shift(a: array<char>, j0: nat, dst: nat, ghost len: nat)
    requires dst < j0 <= len && Terminated(a, len)
    modifies a
    ensures Terminated(a, len - (j0 - dst))
    ensures forall k :: 0 <= k < dst ==> a[k] == old(a[k])
    ensures forall k :: dst <= k < len - (j0 - dst) ==> a[k] == old(a[k + (j0 - dst)])
  {
    var j := j0;
    var gap := j0 - dst;
    while a[j] != NUL
      invariant j0 <= j <= len
      invariant forall k :: 0 <= k < dst ==> a[k] == old(a[k])
      invariant forall k :: dst <= k < j - gap ==> a[k] == old(a[k + gap])
      invariant forall k :: j <= k <= len ==> a[k] == old(a[k])
      decreases len - j
    {
      a[j - gap] := a[j];
      j := j + 1;
    }
    a[j - gap] := NUL;
  }

  /** `gap` characters behind the slash at `i` go; another slash follows them. */
  method Remove(a: array<char>, i: nat, gap: nat, ghost len: nat, ghost r: string, ghost cut: bool)
    requires Here(a, i, len, r, cut) && 1 <= gap < |r| && r[0] == '/' == r[gap]
    modifies a
    ensures len >= gap && Here(a, i, len - gap, r[gap..], cut) && a[..i] == old(a[..i])
  {
    Shift(a, i + 1 + gap, i + 1, len);
    ghost var rest := r[gap..];
    forall k | 0 <= k < |rest|
      ensures a[i + k] == rest[k]
    {
      assert old(a[i..i + |r|])[k + gap] == rest[k];
    }
    assert a[i..i + |rest|] == rest;
  }

  /** Looks for the slash before `i`. */
  method Back(a: array<char>, i: nat) returns (k: nat)
    requires 0 < i <= a.Length && a[0] == '/'
    ensures k < i && k == LastSlash(a[..i])
  {
    k := i - 1;
    while a[k] != '/'
      invariant k < i && '/' !in a[k + 1..i]
      decreases k
    {
      assert a[k..i] == [a[k]] + a[k + 1..i];
      k := k - 1;
    }
    assert a[..i][k + 1..] == a[k + 1..i];
    OneLastSlash(a[..i], k, LastSlash(a[..i]));
  }

  /** `/../`: the segment before goes, too. */
  method RemoveUp(a: array<char>, i: nat, ghost len: nat, ghost r: string, ghost cut: bool) returns (k: nat)
    requires Here(a, i, len, r, cut) && i > 0 && |r| > 3 && r[3] == '/'
    modifies a
    ensures k < i && k == LastSlash(old(a[..i])) && a[..k] == old(a[..k])
    ensures i + 3 - k <= len && Here(a, k, len - (i + 3 - k), r[3..], cut)
  {
    k := Back(a, i);
    Shift(a, i + 4, k + 1, len);
    ghost var rest := r[3..];
    forall m | 0 <= m < |rest|
      ensures a[k + m] == rest[m]
    {
      assert old(a[i..i + |r|])[m + 3] == rest[m];
    }
    assert a[k..k + |rest|] == rest;
  }

  /** The look-ahead of the loop, in terms of the rest of the path. */
  lemma Lookahead(a: array<char>, i: nat, len: nat, r: string, cut: bool)
    requires Here(a, i, len, r, cut)
    ensures forall k :: 0 <= k < |r| ==> r[k] == a[i + k]
    ensures NUL !in r && a[i + |r|] == if cut then '#' else NUL
  {
    forall k | 0 <= k < |r|
      ensures r[k] == a[i + k]
    {
      assert a[i..i + |r|][k] == a[i + k];
    }
  }

  /** How far the loop is, and what it will come to. */
  ghost predicate Progress(a: array<char>, i: nat, len: nat, r: string, cut: bool, result: Option<string>)
    reads a
  {
    Here(a, i, len, r, cut) && Ready(a[..i], r) && Normal(a[..i], r, cut) == result
  }

  datatype Next = Continue | Success | Failure

  lemma SlashAhead(a: array<char>, i: nat, len: nat, r: string, cut: bool)
    requires Here(a, i, len, r, cut) && r != "" && r[0] == '/'
    ensures i < len && a[i] == '/'
    ensures a[i + 1] == '.' && a[i + 2] == '/' <==> "/./" <= r
    ensures a[i + 1] == '/' <==> "//" <= r
    ensures a[i + 1] == '.' && a[i + 2] == '.' && a[i + 3] == '/' <==> "/../" <= r
    ensures a[i + 1] == '.' && a[i + 2] == NUL <==> r == "/." && !cut
    ensures a[i + 1] == '.' && a[i + 2] == '.' && a[i + 3] == NUL <==> r == "/.." && !cut
  {
    Lookahead(a, i, len, r, cut);
    PrefixTests(r);
    EndAhead(a, i, len, r, cut, 1);
    EndAhead(a, i, len, r, cut, 2);
    EndAhead(a, i, len, r, cut, 3);
  }

  lemma PrefixTests(r: string)
    requires r != "" && r[0] == '/'
    ensures "/./" <= r <==> |r| > 2 && r[1] == '.' && r[2] == '/'
    ensures "//" <= r <==> |r| > 1 && r[1] == '/'
    ensures "/../" <= r <==> |r| > 3 && r[1] == '.' && r[2] == '.' && r[3] == '/'
    ensures (r == "/." <==> |r| == 2 && r[1] == '.') && (r == "/.." <==> |r| == 3 && r[1] == '.' && r[2] == '.')
  {
  }

  /** The end of the string is where the rest ends, unless that is cut off. */
  lemma EndAhead(a: array<char>, i: nat, len: nat, r: string, cut: bool, k: nat)
    requires Here(a, i, len, r, cut)
    ensures k < |r| ==> i + k < len && r[k] == a[i + k] && a[i + k] != NUL
    ensures k == |r| ==> i + k <= len && a[i + k] == if cut then '#' else NUL
  {
    Lookahead(a, i, len, r, cut);
  }

  lemma HereBounds(a: array<char>, i: nat, len: nat, r: string, cut: bool)
    requires Here(a, i, len, r, cut)
    ensures i + |r| <= len < a.Length && a[0] == '/' && Terminated(a, len) && (cut ==> i + |r| < len)
    ensures r != "" ==> a[i] == r[0] && a[i] != NUL && a[i] != '#'
    ensures r == "" ==> a[i] == NUL || a[i] == '#'
  {
    Lookahead(a, i, len, r, cut);
  }

  lemma HereNext(a: array<char>, i: nat, len: nat, r: string, cut: bool, used: nat)
    requires Here(a, i, len, r, cut) && used <= |r|
    ensures Here(a, i + used, len, r[used..], cut)
  {
    assert a[i + used..i + |r|] == a[i..i + |r|][used..];
  }

  lemma NormalUp(done: string, r: string, cut: bool)
    requires Ready(done, r) && "/../" <= r
    ensures Normal(done, r, cut) == if done == "" then None else Normal(done[..LastSlash(done)], r[3..], cut)
  {
    assert r[1] == '.' && r[2] == '.';
  }

  /** The loop at `/../`. */
  method UpCase(a: array<char>, i0: nat, ghost len0: nat, ghost r0: string, ghost cut: bool,
                ghost result: Option<string>)
    returns (next: Next, i: nat, ghost len: nat, ghost r: string)
    requires Progress(a, i0, len0, r0, cut, result) && "/../" <= r0
    modifies a
    ensures next == Continue ==> Progress(a, i, len, r, cut, result) && len < len0
    ensures next != Continue ==> next == Failure && result == None
  {
    hide Here, Normal;
    HereBounds(a, i0, len0, r0, cut);
    NormalUp(a[..i0], r0, cut);
    i, len, r := i0, len0, r0;
    if i0 == 0 {
      return Failure, i, len, r;
    }
    i := RemoveUp(a, i0, len0, r0, cut);
    len, r := len0 - (i0 + 3 - i), r0[3..];
    assert a[..i] == old(a[..i0])[..i];
    next := Continue;
  }

  /** The loop at `/..` at the end. */
  method LastUp(a: array<char>, i0: nat, ghost len0: nat, ghost result: Option<string>)
    returns (next: Next, ghost len: nat)
    requires Progress(a, i0, len0, "/..", false, result)
    modifies a
    ensures if next == Success then Terminated(a, len) && result == Some(a[..len])
            else next == Failure && result == None
  {
    hide Here;
    HereBounds(a, i0, len0, "/..", false);
    if i0 == 0 {
      return Failure, len0;
    }
    ghost var done := a[..i0];
    var i := Back(a, i0);
    a[i + 1] := NUL;
    assert a[..i] == done[..i] && a[..i + 1] == a[..i] + "/";
    return Success, i + 1;
  }

  /** The loop at a slash. */
  method SlashCase(a: array<char>, i0: nat, ghost len0: nat, ghost r0: string, ghost cut: bool,
                   ghost result: Option<string>)
    returns (next: Next, i: nat, ghost len: nat, ghost r: string)
    requires Progress(a, i0, len0, r0, cut, result) && r0 != "" && r0[0] == '/'
    modifies a
    ensures next == Continue ==> Progress(a, i, len, r, cut, result)
    ensures next == Success ==> Terminated(a, len) && result == Some(a[..len])
    ensures next == Failure ==> result == None
    ensures NothingSpecial(r0, cut) ==>
      next == Continue && len == len0 && i == i0 + 1 && r == r0[1..] && a[..] == old(a[..])
    ensures !NothingSpecial(r0, cut) && next == Continue ==> len < len0
  {
    hide Here;
    HereBounds(a, i0, len0, r0, cut);
    SlashAhead(a, i0, len0, r0, cut);
    i, len, r := i0, len0, r0;
    next := Continue;
    if a[i + 1] == '.' && a[i + 2] == '/' {
      Remove(a, i, 2, len, r, cut);
      len, r := len - 2, r[2..];
    } else if a[i + 1] == '/' {
      Remove(a, i, 1, len, r, cut);
      len, r := len - 1, r[1..];
    } else if a[i + 1] == '.' && a[i + 2] == '.' && a[i + 3] == '/' {
      next, i, len, r := UpCase(a, i, len, r, cut, result);
    } else if a[i + 1] == '.' && a[i + 2] == NUL {
      a[i + 1] := NUL;
      assert a[..i + 1] == old(a[..i0]) + "/";
      return Success, i, i + 1, r;
    } else if a[i + 1] == '.' && a[i + 2] == '.' && a[i + 3] == NUL {
      next, len := LastUp(a, i, len, result);
    } else {
      HereNext(a, i, len, r, cut, 1);
      assert r[..1] == "/" && a[..i + 1] == a[..i] + "/";
      i, r := i + 1, r[1..];
    }
  }

  lemma EscapedHere(a: array<char>, i: nat, len: nat, r: string, cut: bool)
    requires Here(a, i, len, r, cut) && r != ""
    ensures i + 1 < a.Length && i + 2 <= a.Length && (HexToInt(a[i + 1]) >= 0 ==> i + 2 < a.Length)
    ensures i + 2 == a.Length ==> |r| == 1 && !cut && len == a.Length - 1
    ensures HexToInt(a[i + 1]) >= 0 && HexToInt(a[i + 2]) >= 0 ==>
      Escaped(r) == Some(16 * HexToInt(a[i + 1]) + HexToInt(a[i + 2]))
    ensures HexToInt(a[i + 1]) < 0 || HexToInt(a[i + 2]) < 0 ==> Escaped(r) == None
  {
    Lookahead(a, i, len, r, cut);
  }

  /** The loop at a `%`: two hexadecimal digits that stand for a visible character are replaced by it. Both
      are read before the first is looked at, the second from `behind` if the array ends. */
  method PercentCase(a: array<char>, i0: nat, behind: char, ghost len0: nat, ghost r0: string, ghost cut: bool,
                     ghost result: Option<string>)
    returns (ok: bool, outside: bool, i: nat, ghost len: nat, ghost r: string)
    requires Progress(a, i0, len0, r0, cut, result) && r0 != "" && r0[0] == '%'
    modifies a
    ensures outside <==> i0 + 2 == a.Length
    ensures if ok then Progress(a, i, len, r, cut, result) else result == None
    ensures ok ==> |r0| >= 3 && !outside
    ensures Escaped(r0) == Some(BLANK) ==> ok && len == len0 && i == i0 + 3 && r == r0[3..] && a[..] == old(a[..])
    ensures Escaped(r0) != Some(BLANK) && ok ==> len < len0
  {
    hide Here;
    i, len, r := i0, len0, r0;
    HereBounds(a, i, len, r, cut);
    EscapedHere(a, i, len, r, cut);
    outside := i + 2 >= a.Length;
    var v1 := HexToInt(a[i + 1]);
    var v2 := HexToInt(if outside then behind else a[i + 2]);
    if v1 < 0 || v2 < 0 {
      return false, outside, i, len, r;
    }
    var c := 16 * v1 + v2;
    if 33 <= c < 127 {
      ghost var done := a[..i];
      ReplaceEscape(a, i, c as char, len, r, cut);
      assert a[..i + 1] == done + [c as char];
      return true, outside, i + 1, len - 2, r[3..];
    } else if c == ' ' as int {
      HereNext(a, i, len, r, cut, 3);
      Lookahead(a, i, len, r, cut);
      assert a[..i + 3] == a[..i] + r[..3];
      return true, outside, i + 3, len, r[3..];
    } else {
      return false, outside, i, len, r;
    }
  }

  /** The three characters of the escape at `i` become one. */
  method ReplaceEscape(a: array<char>, i: nat, c: char, ghost len: nat, ghost r: string, ghost cut: bool)
    requires Here(a, i, len, r, cut) && |r| >= 3 && i > 0 && c != NUL
    modifies a
    ensures len >= 2 && Here(a, i + 1, len - 2, r[3..], cut) && a[..i] == old(a[..i]) && a[i] == c
  {
    Lookahead(a, i, len, r, cut);
    a[i] := c;
    Shift(a, i + 3, i + 1, len);
    assert forall k :: 0 <= k < |r| - 3 ==> a[i + 1 + k] == r[3..][k];
  }

  lemma StartHere(a: array<char>, len: nat)
    requires Terminated(a, len) && len > 0 && a[0] == '/'
    ensures var t := a[..len]; Here(a, 0, len, Head(t), '#' in t) && Head(t) != "" && Head(t)[0] == '/'
    ensures var t := a[..len]; Progress(a, 0, len, Head(t), '#' in t, Clean([], Head(t), '#' in t))
  {
    var t := a[..len];
    HeadIs(t);
    assert a[0..|Head(t)|] == t[..|Head(t)|];
    assert '#' in t ==> a[|Head(t)|] == t[|Head(t)|];
    assert a[..0] == "";
    NormalIsClean([], Head(t), '#' in t);
  }

  /** Whether the loop looks behind the array: the path fills it, its last character is a `%`, and nothing
      happens at any character before. */
  predicate LooksBehind(t: string, size: nat) {
    size == |t| + 1 && t != "" && t[|t| - 1] == '%' && TidyTo(t, |t| - 1)
  }

  /** As long as the length is the same, nothing has happened; afterwards it is known that something has. */
  ghost predicate SoFar(t: string, i: nat, len: nat, r: string) {
    '#' !in t ==>
      if len == |t| then i <= |t| && r == t[i..] && TidyTo(t, i) else len < |t| && !TidyTo(t, |t| - 1)
  }

  /** One step of the loop, which changes nothing or shortens the string. */
  lemma SoFarStep(t: string, i: nat, len: nat, r: string, i1: nat, len1: nat, r1: string)
    requires SoFar(t, i, len, r) && r != "" && '#' !in r
    requires if NothingSpecial(r, '#' in t) && (r[0] == '%' ==> Escaped(r) == Some(BLANK))
             then len1 == len && i1 == i + First(r).value.used && r1 == r[First(r).value.used..]
             else len1 < len && (r[0] == '%' ==> |r| > 1)
    ensures SoFar(t, i1, len1, r1)
  {
    if '#' !in t && len == |t| {
      assert r[0..] == r && t[i..] == r;
      if len1 == len {
        TidyFirst(r);
        assert t[i..][i1 - i..] == t[i1..];
        forall k | i <= k < i1
          ensures TidyAt(t, k)
        {
          assert TidyAt(r, k - i) && r[k - i..] == t[k..];
        }
      } else if r[0] != '%' {
        SpecialHere(t, i, r);
      } else {
        assert i < |t| - 1 && !TidyAt(t, i);
      }
    }
  }

  lemma SpecialHere(t: string, i: nat, r: string)
    requires i <= |t| && t[i..] == r && r != "" && !NothingSpecial(r, false)
    ensures i < |t| - 1 && !TidyAt(t, i)
  {
  }

  lemma LastPercent(t: string)
    requires t != "" && t[|t| - 1] == '%'
    ensures !TidyAt(t, |t| - 1)
  {
  }

  lemma HashBehind(t: string, size: nat)
    requires LooksBehind(t, size)
    ensures '#' !in t
  {
    forall k | 0 <= k < |t|
      ensures t[k] != '#'
    {
      assert k < |t| - 1 ==> TidyAt(t, k);
    }
  }

  /** A loop that ends at a slash or at the end did not look behind the array. */
  lemma EndsInside(t: string, i: nat, len: nat, r: string, size: nat)
    requires SoFar(t, i, len, r) && (r == "" || !NothingSpecial(r, '#' in t))
    ensures !LooksBehind(t, size)
  {
    if LooksBehind(t, size) {
      HashBehind(t, size);
      LastPercent(t);
    }
    if '#' !in t && len == |t| && r != "" {
      SpecialHere(t, i, r);
    }
  }

  /** A loop that ends at an escape did so if and only if the escape has no digit at all and fills the array. */
  lemma EndsAtEscape(t: string, i: nat, len: nat, r: string, size: nat)
    requires SoFar(t, i, len, r) && r != "" && r[0] == '%' && Escaped(r) != Some(BLANK)
    requires |t| < size && i + |r| <= len < size
    requires i + 2 == size ==> |r| == 1 && '#' !in t && len == size - 1
    ensures LooksBehind(t, size) <==> i + 2 == size
  {
    if LooksBehind(t, size) {
      HashBehind(t, size);
      assert t[i..] == r;
      assert !TidyAt(t, i);
    }
  }

  lemma StepFacts(r: string, cut: bool)
    requires r != ""
    ensures r[0] != '%' ==> First(r) == Some(Replacement(r[..1], 1))
    ensures r[0] == '%' && Escaped(r) == Some(BLANK) ==> First(r).Some? && First(r).value.used == 3
    ensures r[0] != '/' ==> NothingSpecial(r, cut)
  {
  }

  lemma StartSoFar(t: string)
    ensures SoFar(t, 0, |t|, Head(t))
  {
    HeadIs(t);
    assert t[0..] == t;
  }

  lemma ProgressBounds(a: array<char>, i: nat, len: nat, r: string, cut: bool, result: Option<string>)
    requires Progress(a, i, len, r, cut, result)
    ensures i + |r| <= len < a.Length && '#' !in r && (r != "" ==> a[i] == r[0])
    ensures r == "" <==> a[i] == NUL || a[i] == '#'
    ensures r != "" && i + 2 >= a.Length ==> |r| == 1 && !cut && len == a.Length - 1
  {
    HereBounds(a, i, len, r, cut);
  }

  /** The loop at any other character. */
  lemma GoOn(a: array<char>, i: nat, len: nat, r: string, cut: bool, result: Option<string>)
    requires Progress(a, i, len, r, cut, result) && r != "" && r[0] != '/' && r[0] != '%'
    ensures Progress(a, i + 1, len, r[1..], cut, result)
  {
    HereBounds(a, i, len, r, cut);
    HereNext(a, i, len, r, cut, 1);
    hide Here;
    StepFacts(r, cut);
    assert a[..i + 1] == a[..i] + r[..1];
  }

  lemma ProgressEnd(a: array<char>, i: nat, len: nat, cut: bool, result: Option<string>)
    requires Progress(a, i, len, "", cut, result)
    ensures result == Some(a[..i]) && i <= len && forall k :: 0 <= k < i ==> a[k] != NUL
  {
  }

  /** `fileNormalize`, for a string of `len0` characters that starts with a slash. It computes what the stack of
      segments gives, or fails if that does, whatever it finds behind the array. */
  method FileNormalize(a: array<char>, behind: char, ghost len0: nat)
    returns (ok: bool, outside: bool, ghost end: nat)
    requires Terminated(a, len0) && len0 > 0 && a[0] == '/'
    modifies a
    ensures ok ==> Terminated(a, end)
    ensures var t := old(a[..len0]);
            && Head(t) != "" && Head(t)[0] == '/'
            && Clean([], Head(t), '#' in t) == (if ok then Some(a[..end]) else None)
            && (outside <==> LooksBehind(t, a.Length))
  {
    hide Clean, Here, Head, Normal, NothingSpecial, TidyTo, Escaped, First, LooksBehind, Progress, SoFar;
    ghost var t := a[..len0];
    StartHere(a, len0);
    ghost var r, cut, len: nat := Head(t), '#' in t, len0;
    ghost var result := Clean([], r, cut);
    var i: nat := 0;
    StartSoFar(t);
    ProgressBounds(a, i, len, r, cut, result);
    end, outside := 0, false;
    while a[i] != NUL && a[i] != '#'
      invariant Progress(a, i, len, r, cut, result) && i <= len < a.Length && i + |r| <= len
      invariant SoFar(t, i, len, r) && !outside
      invariant '#' !in r && (r != "" ==> a[i] == r[0]) && (r == "" <==> a[i] == NUL || a[i] == '#')
      invariant r != "" && i + 2 >= a.Length ==> |r| == 1 && !cut && len == a.Length - 1
      decreases len, len - i
    {
      ghost var i0, len1, r1 := i, len, r;
      StepFacts(r, cut);
      if a[i] == '/' {
        var next;
        next, i, len, r := SlashCase(a, i, len, r, cut, result);
        if next != Continue {
          EndsInside(t, i0, len1, r1, a.Length);
          return next == Success, false, len;
        }
      } else if a[i] == '%' {
        ok, outside, i, len, r := PercentCase(a, i, behind, len, r, cut, result);
        if !ok {
          EndsAtEscape(t, i0, len1, r1, a.Length);
          return false, outside, len;
        }
      } else {
        GoOn(a, i, len, r, cut, result);
        i, r := i + 1, r[1..];
      }
      SoFarStep(t, i0, len1, r1, i, len, r);
      ProgressBounds(a, i, len, r, cut, result);
    }
    EndsInside(t, i, len, r, a.Length);
    ghost var done := a[..i];
    ProgressEnd(a, i, len, cut, result);
    a[i] := NUL;
    assert a[..i] == done;
    return true, false, i;
  }

  /** A path that ends in a `%` and fills its array: the second digit is looked for behind it. */
  method PercentAtTheEnd(behind: char) returns (ok: bool, outside: bool)
    ensures outside && !ok
  {
    var a := new char[3];
    a[0], a[1], a[2] := '/', '%', NUL;
    assert a[..2] == "/%";
    ghost var end;
    assert TidyAt("/%", 0);
    ok, outside, end := FileNormalize(a, behind, 2);
    HeadIs("/%");
    NormalIsClean([], "/%", false);
    assert "/%"[1..] == "%" && Normal("", "/%", false) == Normal("" + "/%"[..1], "/%"[1..], false);
  }
}
