/**
 The patterns of robots.txt (src/utils/text.cxx): the loop that matches a file against a pattern, and
 for which patterns it finds every file that a pattern with stars stands for.
 */
module RobotsPattern {
  type Text = seq<int>

  const STAR := '*' as int

  /** `strchr` */
  function FirstAt(s: Text, c: int): (k: nat)
    requires c in s
    ensures k < |s| && s[k] == c && forall j :: 0 <= j < k ==> s[j] != c
  {
    if s[0] == c then 0 else 1 + FirstAt(s[1..], c)
  }

  /** A file that begins as the pattern says, where a star stands for all that comes before the first
      occurrence of the next character of the pattern, or for anything at its end. */
  predicate Matched(pattern: Text, file: Text)
    decreases |pattern|
  {
    if pattern == [] then true
    else if pattern[0] != STAR then file != [] && file[0] == pattern[0] && Matched(pattern[1..], file[1..])
    else if |pattern| == 1 then true
    else pattern[1] in file && Matched(pattern[1..], file[FirstAt(file, pattern[1])..])
  }

  /** `robotsMatch` */
  method RobotsMatch(a: Text, b: Text) returns (matched: bool)
    ensures matched == Matched(a, b)
  {
    var i, j := 0, 0;
    while i < |a|
      invariant 0 <= i <= |a| && 0 <= j <= |b| && Matched(a, b) == Matched(a[i..], b[j..])
    {
      assert a[i..][1..] == a[i + 1..];
      if a[i] == STAR {
        i := i + 1;
        if i == |a| {
          j := |b|;
        } else if a[i] in b[j..] {
          var k := FirstAt(b[j..], a[i]);
          assert b[j..][k..] == b[j + k..];
          j := j + k;
        } else {
          return false;
        }
      } else {
        if j == |b| || a[i] != b[j] {
          return false;
        }
        assert b[j..][1..] == b[j + 1..];
        i, j := i + 1, j + 1;
      }
    }
    return true;
  }

  // ----- what a pattern stands for -----

  /** A file that begins with the pattern, each star replaced by some text. */
  ghost predicate StandsFor(pattern: Text, file: Text)
    decreases |pattern|
  {
    if pattern == [] then true
    else if pattern[0] != STAR then file != [] && file[0] == pattern[0] && StandsFor(pattern[1..], file[1..])
    else exists k :: 0 <= k <= |file| && StandsFor(pattern[1..], file[k..])
  }

  /** Whatever matches, the pattern stands for. */
  lemma {:induction false} MatchedIsMeant(p: Text, f: Text)
    requires Matched(p, f)
    ensures StandsFor(p, f)
    decreases |p|
  {
    if p != [] && p[0] != STAR {
      MatchedIsMeant(p[1..], f[1..]);
    } else if |p| == 1 {
      assert f[0..] == f && StandsFor(p[1..], f[0..]);
    } else if p != [] {
      var k := FirstAt(f, p[1]);
      MatchedIsMeant(p[1..], f[k..]);
    }
  }

  /** Without a star, it is what begins with the pattern. */
  lemma {:induction false} PlainPrefix(p: Text, f: Text)
    requires STAR !in p
    ensures Matched(p, f) <==> |p| <= |f| && f[..|p|] == p
  {
    if p != [] && f != [] {
      PlainPrefix(p[1..], f[1..]);
      assert p == [p[0]] + p[1..];
      if |p| <= |f| {
        assert f[..|p|] == [f[0]] + f[1..][..|p| - 1];
      }
    }
  }

  /** Behind each star comes nothing, or one character that is the last or has a star behind it. */
  predicate OneAfterStar(p: Text) {
    forall i :: 0 <= i < |p| - 1 && p[i] == STAR ==> p[i + 1] != STAR && (i + 2 < |p| ==> p[i + 2] == STAR)
  }

  /** The loop finds all that a pattern stands for, for those patterns and for no others: it stops at the
      first occurrence of what is behind a star, and looks for a second star as if it were any character. */
  lemma MatchesExactly(p: Text)
    ensures (forall f :: Matched(p, f) <==> StandsFor(p, f)) <==> OneAfterStar(p)
  {
    if OneAfterStar(p) {
      forall f
        ensures Matched(p, f) <==> StandsFor(p, f)
      {
        if StandsFor(p, f) {
          MeantIsMatched(p, f);
        }
        if Matched(p, f) {
          MatchedIsMeant(p, f);
        }
      }
    } else {
      var f := Missed(p);
    }
  }

  lemma {:induction false} MeantIsMatched(p: Text, f: Text)
    requires OneAfterStar(p) && StandsFor(p, f)
    ensures Matched(p, f)
    decreases |p|
  {
    hide OneAfterStar;
    if p != [] && p[0] != STAR {
      Behind(p, 1);
      MeantIsMatched(p[1..], f[1..]);
    } else if |p| > 1 {
      NextIsStar(p);
      var k := BehindStar(p, f);
      var first := FirstAt(f, p[1]);
      Behind(p, 2);
      assert p[1..][1..] == p[2..] && f[first..][1..] == f[first + 1..];
      if |p| > 2 {
        assert f[k + 1..] == f[first + 1..][k - first..];
        LaterIsEarlier(p[2..], f[first + 1..], k - first);
        MeantIsMatched(p[2..], f[first + 1..]);
      }
      assert Matched(p[2..], f[first + 1..]);
      assert p[1..][0] == p[1] && f[first..][0] == p[1];
      assert Matched(p[1..], f[first..]);
    }
  }

  lemma NextIsStar(p: Text)
    requires OneAfterStar(p) && |p| > 1 && p[0] == STAR
    ensures p[1] != STAR && (|p| > 2 ==> p[2] == STAR)
  {
  }

  /** Where the character behind a star is, in a file that the pattern stands for. */
  lemma BehindStar(p: Text, f: Text) returns (k: nat)
    requires |p| > 1 && p[0] == STAR && p[1] != STAR && StandsFor(p, f)
    ensures k < |f| && f[k] == p[1] && StandsFor(p[2..], f[k + 1..])
  {
    k :| k <= |f| && StandsFor(p[1..], f[k..]);
    assert f[k..][0] == p[1..][0];
    assert p[1..][1..] == p[2..] && f[k..][1..] == f[k + 1..];
  }

  lemma Behind(p: Text, n: nat)
    requires OneAfterStar(p) && n <= |p|
    ensures OneAfterStar(p[n..])
  {
    var q := p[n..];
    forall i | 0 <= i < |q| - 1 && q[i] == STAR
      ensures q[i + 1] != STAR && (i + 2 < |q| ==> q[i + 2] == STAR)
    {
      assert p[n + i] == STAR;
    }
  }

  /** A star in front takes in what comes before. */
  lemma LaterIsEarlier(p: Text, f: Text, k: nat)
    requires p != [] && p[0] == STAR && k <= |f| && StandsFor(p, f[k..])
    ensures StandsFor(p, f)
  {
    var g := f[k..];
    var j :| 0 <= j <= |g| && StandsFor(p[1..], g[j..]);
    assert g[j..] == f[k + j..];
  }

  // ----- a file that is missed -----

  function WithoutStars(p: Text): Text {
    if p == [] then [] else (if p[0] == STAR then [] else [p[0]]) + WithoutStars(p[1..])
  }

  lemma {:induction false} StarsAsNothing(p: Text)
    ensures StandsFor(p, WithoutStars(p)) && STAR !in WithoutStars(p)
  {
    if p != [] {
      var f := WithoutStars(p);
      StarsAsNothing(p[1..]);
      if p[0] == STAR {
        assert f[0..] == WithoutStars(p[1..]) && StandsFor(p[1..], f[0..]);
      } else {
        assert f[1..] == WithoutStars(p[1..]);
      }
    }
  }

  /** For any other pattern there is a file that it stands for and that does not match. */
  lemma {:induction false} Missed(p: Text) returns (f: Text)
    requires !OneAfterStar(p)
    ensures StandsFor(p, f) && !Matched(p, f)
    decreases |p|
  {
    if p[0] != STAR {
      StillNot(p, 1);
      var g := Missed(p[1..]);
      f := [p[0]] + g;
      assert f[1..] == g;
    } else if p[1] == STAR {
      f := WithoutStars(p);
      StarsAsNothing(p);
    } else if |p| > 2 && p[2] != STAR {
      var x := if p[2] == 'x' as int then 'y' as int else 'x' as int;
      var g := WithoutStars(p[1..]);
      StarsAsNothing(p[1..]);
      f := [p[1], x] + g;
      assert f[2..] == g && StandsFor(p[1..], f[2..]);
      assert FirstAt(f, p[1]) == 0 && f[0..] == f;
      assert p[1..][1..][0] == p[2] && f[1..][0] == x;
      assert !Matched(p[1..][1..], f[1..]);
      assert !Matched(p[1..], f);
    } else {
      StillNot(p, 2);
      var g := Missed(p[2..]);
      f := [p[1]] + g;
      assert FirstAt(f, p[1]) == 0 && f[0..] == f;
      assert f[1..] == g && p[1..][1..] == p[2..];
      assert StandsFor(p[1..], f[0..]) && !Matched(p[1..], f);
    }
  }

  lemma StillNot(p: Text, n: nat)
    requires !OneAfterStar(p) && n <= |p|
    requires n == 1 ==> p[0] != STAR
    requires n == 2 ==> p[0] == STAR && p[1] != STAR && (2 < |p| ==> p[2] == STAR)
    requires n == 1 || n == 2
    ensures !OneAfterStar(p[n..])
  {
    var i :| 0 <= i < |p| - 1 && p[i] == STAR && !(p[i + 1] != STAR && (i + 2 < |p| ==> p[i + 2] == STAR));
    assert i >= n;
    assert p[n..][i - n] == STAR;
  }

  /** `*ab` stands for `xaxab`, but the first `a` has no `b` behind it; and `**` does not even match `x`. */
  lemma FirstOnly(a: int, b: int, x: int)
    requires a == 'a' as int && b == 'b' as int && x == 'x' as int
    ensures StandsFor([STAR, a, b], [x, a, x, a, b]) && !Matched([STAR, a, b], [x, a, x, a, b])
    ensures StandsFor([STAR, STAR], [x]) && !Matched([STAR, STAR], [x])
  {
    var p, f, tail := [STAR, a, b], [x, a, x, a, b], [a, b];
    assert p[1..] == tail && tail[1..] == [b] && [b][1..] == [];
    assert f[3..] == tail && StandsFor([b], [b]) && StandsFor(tail, f[3..]);
    assert FirstAt(f, a) == 1 by {
      assert f[1..] == [a, x, a, b];
    }
    assert f[1..][1..][0] == x && !Matched([b], f[1..][1..]);
    assert !Matched(tail, f[1..]);
    assert [STAR, STAR][1..] == [STAR] && [STAR][1..] == [] && [x][0..] == [x];
    assert StandsFor([], [x][0..]);
    assert StandsFor([STAR], [x][0..]);
  }
}
