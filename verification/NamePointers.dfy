/**
 When the reading of a name in a datagram comes to an end. The loops of adns/parse.c follow compression
 pointers (section 4.1.4 of RFC 1035) wherever they lead, so that a name may have no end; here one turn of
 these loops is a function, and the names that do end are described exactly.
 */
module NamePointers {
  import opened Wrappers
  import opened DomainText

  type Dgram = seq<byte>

  predicate IsPointer(d: Dgram, c: nat) { c + 1 < |d| && d[c] >= 0xC0 }

  function PointsTo(d: Dgram, c: nat): nat
    requires IsPointer(d, c)
  {
    var high: int := d[c];
    (high - 0xC0) * 0x100 + d[c + 1]
  }

  // ----- chains of pointers -----

  /** At most `k` pointers follow each other from `c` on. */
  predicate Ends(d: Dgram, c: nat, k: nat)
    decreases k
  {
    IsPointer(d, c) ==> k > 0 && Ends(d, PointsTo(d, c), k - 1)
  }

  /** Where these pointers lead. */
  function Landing(d: Dgram, c: nat, k: nat): (p: nat)
    requires Ends(d, c, k)
    ensures !IsPointer(d, p)
    decreases k
  {
    if IsPointer(d, c) then Landing(d, PointsTo(d, c), k - 1) else c
  }

  ghost predicate HasEnd(d: Dgram, c: nat) { exists k: nat :: Ends(d, c, k) }

  lemma {:induction false} MoreIsEnough(d: Dgram, c: nat, j: nat, k: nat)
    requires Ends(d, c, j) && j <= k
    ensures Ends(d, c, k) && Landing(d, c, k) == Landing(d, c, j)
    decreases j
  {
    if IsPointer(d, c) {
      MoreIsEnough(d, PointsTo(d, c), j - 1, k - 1);
    }
  }

  /** The pointers of a chain that needs all of its `k` steps are at `k` different places. */
  lemma {:induction false} Places(d: Dgram, c: nat, k: nat) returns (places: set<nat>)
    requires Ends(d, c, k) && (k > 0 ==> !Ends(d, c, k - 1))
    ensures |places| == k && forall x :: x in places ==> x < |d| && Ends(d, x, k)
    decreases k
  {
    places := {};
    if k > 0 {
      places := Places(d, PointsTo(d, c), k - 1);
      forall x | x in places
        ensures Ends(d, x, k)
      {
        MoreIsEnough(d, x, k - 1, k);
      }
      places := places + {c};
    }
  }

  lemma {:induction false} FewBelow(s: set<nat>, n: nat)
    requires forall x :: x in s ==> x < n
    ensures |s| <= n
    decreases n
  {
    if n == 0 {
      assert s == {};
    } else {
      FewBelow(s - {n - 1}, n - 1);
    }
  }

  /** A chain that ends has no more pointers than the datagram has bytes. */
  lemma {:induction false} ChainIsShort(d: Dgram, c: nat, k: nat)
    requires Ends(d, c, k)
    ensures Ends(d, c, |d|)
    decreases k
  {
    if k <= |d| {
      MoreIsEnough(d, c, k, |d|);
    } else if Ends(d, c, k - 1) {
      ChainIsShort(d, c, k - 1);
    } else {
      var places := Places(d, c, k);
      FewBelow(places, |d|);
    }
  }

  /** Whether a chain ends can be told by looking at as many pointers as there are bytes. */
  lemma ChainsAreShort(d: Dgram, c: nat)
    ensures HasEnd(d, c) <==> Ends(d, c, |d|)
  {
    if HasEnd(d, c) {
      var k: nat :| Ends(d, c, k);
      ChainIsShort(d, c, k);
    }
  }

  lemma OneOn(d: Dgram, c: nat)
    requires IsPointer(d, c)
    ensures Ends(d, c, |d|) <==> Ends(d, PointsTo(d, c), |d|)
  {
    if Ends(d, PointsTo(d, c), |d|) {
      assert Ends(d, c, |d| + 1);
      ChainIsShort(d, c, |d| + 1);
    }
    if Ends(d, c, |d|) {
      MoreIsEnough(d, PointsTo(d, c), |d| - 1, |d|);
    }
  }

  // ----- the loops -----

  /** The length of a name after one more label. */
  function Longer(namelen: nat, len: nat): nat {
    if len == 0 then namelen else if namelen > 0 then namelen + 1 + len else len
  }

  /** Where the reader of a name is: `open` says that no pointer was followed yet. */
  datatype Cursor = Cursor(at: nat, max: nat, namelen: nat, open: bool)

  datatype Turn = Over | On(next: Cursor)

  /** After a pointer, the whole datagram may be read. */
  predicate Sound(d: Dgram, s: Cursor) {
    s.namelen <= MAX_DOMAIN && (!s.open ==> s.max > |d|)
  }

  /** One turn of the loops: a pointer is followed or a label is read, if it is there; `quoteok` says that
      the reader takes other labels than those of host names. */
  function Turned(d: Dgram, s: Cursor, quoteok: bool): (t: Turn)
    ensures Sound(d, s) && t.On? ==> Sound(d, t.next)
  {
    if s.at >= |d| || s.at >= s.max then Over
    else if d[s.at] >= 0xC0 then
      if s.at + 1 >= |d| || s.at + 1 >= s.max then Over
      else On(Cursor(PointsTo(d, s.at), |d| + 1, s.namelen, false))
    else
      var len, e := d[s.at], s.at + 1 + d[s.at];
      if len > MAX_LABEL || len == 0 || Longer(s.namelen, len) > MAX_DOMAIN || e > |d| || e > s.max then Over
      else if !quoteok && !HostLabel(d[s.at + 1..e]) then Over
      else On(s.(at := e, namelen := Longer(s.namelen, len)))
  }

  /** Reading is over after at most `n` turns more. */
  predicate OverWithin(d: Dgram, s: Cursor, quoteok: bool, n: nat)
    decreases n
  {
    match Turned(d, s, quoteok)
    case Over => true
    case On(t) => n > 0 && OverWithin(d, t, quoteok, n - 1)
  }

  /** Reading the name comes to an end. */
  ghost predicate Finishes(d: Dgram, s: Cursor, quoteok: bool) {
    exists n: nat :: OverWithin(d, s, quoteok, n)
  }

  function After(d: Dgram, s: Cursor, quoteok: bool, n: nat): Turn
    decreases n
  {
    if n == 0 then On(s)
    else match Turned(d, s, quoteok)
         case Over => Over
         case On(t) => After(d, t, quoteok, n - 1)
  }

  /** The reader gets to `t`. */
  ghost predicate Reached(d: Dgram, s: Cursor, quoteok: bool, t: Cursor) {
    exists n: nat :: After(d, s, quoteok, n) == On(t)
  }

  /** A pointer that is not followed, since the name would leave the place that it must be in. */
  predicate Refused(d: Dgram, s: Cursor) {
    s.open && IsPointer(d, s.at) && s.at + 1 >= s.max
  }

  /** A chain of pointers starts here that has no end, and its first pointer is followed. */
  predicate Stuck(d: Dgram, s: Cursor) {
    !Ends(d, s.at, |d|) && !Refused(d, s)
  }

  lemma PointerTurn(d: Dgram, s: Cursor, quoteok: bool)
    requires Sound(d, s) && IsPointer(d, s.at)
    ensures Turned(d, s, quoteok) ==
      if Refused(d, s) then Over else On(Cursor(PointsTo(d, s.at), |d| + 1, s.namelen, false))
  {
  }

  /** Who is stuck stays stuck. */
  lemma {:induction false} StuckForEver(d: Dgram, s: Cursor, quoteok: bool, n: nat)
    requires Sound(d, s) && Stuck(d, s)
    ensures !OverWithin(d, s, quoteok, n)
    decreases n
  {
    PointerTurn(d, s, quoteok);
    if n > 0 {
      OneOn(d, s.at);
      StuckForEver(d, Turned(d, s, quoteok).next, quoteok, n - 1);
    }
  }

  lemma {:induction false} ReachedSound(d: Dgram, s: Cursor, quoteok: bool, n: nat)
    requires Sound(d, s) && After(d, s, quoteok, n).On?
    ensures Sound(d, After(d, s, quoteok, n).next)
    decreases n
  {
    if n > 0 {
      ReachedSound(d, Turned(d, s, quoteok).next, quoteok, n - 1);
    }
  }

  lemma {:induction false} OverFromThere(d: Dgram, s: Cursor, quoteok: bool, m: nat, n: nat)
    requires After(d, s, quoteok, m).On? && OverWithin(d, s, quoteok, n)
    ensures OverWithin(d, After(d, s, quoteok, m).next, quoteok, n)
    decreases m
  {
    if m > 0 {
      var t := Turned(d, s, quoteok).next;
      LaterIsEnough(d, t, quoteok, n - 1, n);
      OverFromThere(d, t, quoteok, m - 1, n);
    }
  }

  lemma {:induction false} LaterIsEnough(d: Dgram, s: Cursor, quoteok: bool, m: nat, n: nat)
    requires OverWithin(d, s, quoteok, m) && m <= n
    ensures OverWithin(d, s, quoteok, n)
    decreases m
  {
    if Turned(d, s, quoteok).On? {
      LaterIsEnough(d, Turned(d, s, quoteok).next, quoteok, m - 1, n - 1);
    }
  }

  lemma ReachedLater(d: Dgram, s: Cursor, quoteok: bool, t: Cursor)
    requires Turned(d, s, quoteok).On? && Reached(d, Turned(d, s, quoteok).next, quoteok, t)
    ensures Reached(d, s, quoteok, t)
  {
    var n: nat :| After(d, Turned(d, s, quoteok).next, quoteok, n) == On(t);
    assert After(d, s, quoteok, n + 1) == On(t);
  }

  lemma ReachedAtOnce(d: Dgram, s: Cursor, quoteok: bool)
    ensures Reached(d, s, quoteok, s)
    ensures Turned(d, s, quoteok).On? ==> Reached(d, s, quoteok, Turned(d, s, quoteok).next)
  {
    assert After(d, s, quoteok, 0) == On(s);
    if Turned(d, s, quoteok).On? {
      assert After(d, s, quoteok, 1) == Turned(d, s, quoteok);
    }
  }

  ghost predicate NeverStuck(d: Dgram, s: Cursor, quoteok: bool) {
    forall t :: Reached(d, s, quoteok, t) ==> !Stuck(d, t)
  }

  lemma NeverStuckOn(d: Dgram, s: Cursor, quoteok: bool)
    requires NeverStuck(d, s, quoteok)
    ensures !Stuck(d, s)
    ensures Turned(d, s, quoteok).On? ==> NeverStuck(d, Turned(d, s, quoteok).next, quoteok)
  {
    hide Turned, Stuck, Reached;
    ReachedAtOnce(d, s, quoteok);
    if Turned(d, s, quoteok).On? {
      forall t | Reached(d, Turned(d, s, quoteok).next, quoteok, t)
        ensures !Stuck(d, t)
      {
        ReachedLater(d, s, quoteok, t);
      }
    }
  }

  /** The turns that are enough, if any number is: as many pointers for each label as there are bytes. */
  function Enough(d: Dgram, namelen: nat, k: nat): nat
    requires namelen <= MAX_DOMAIN
  {
    (MAX_DOMAIN - namelen) * (|d| + 1) + k
  }

  lemma {:induction false} OverInTime(d: Dgram, s: Cursor, quoteok: bool, k: nat)
    requires Sound(d, s) && NeverStuck(d, s, quoteok) && (Ends(d, s.at, k) || Refused(d, s))
    ensures OverWithin(d, s, quoteok, Enough(d, s.namelen, k))
    decreases MAX_DOMAIN - s.namelen, k
  {
    hide Turned, NeverStuck;
    NeverStuckOn(d, s, quoteok);
    if Turned(d, s, quoteok).On? {
      var t := Turned(d, s, quoteok).next;
      if IsPointer(d, s.at) {
        PointerTurn(d, s, quoteok);
        OverInTime(d, t, quoteok, k - 1);
      } else {
        LabelTurn(d, s, quoteok);
        NeverStuckOn(d, t, quoteok);
        OverInTime(d, t, quoteok, |d|);
        LaterIsEnough(d, t, quoteok, Enough(d, t.namelen, |d|), Enough(d, s.namelen, k) - 1);
      }
    }
  }

  lemma LabelTurn(d: Dgram, s: Cursor, quoteok: bool)
    requires Sound(d, s) && Turned(d, s, quoteok).On? && !IsPointer(d, s.at)
    ensures var t := Turned(d, s, quoteok).next;
            && Sound(d, t) && t.namelen > s.namelen && Enough(d, t.namelen, |d|) < Enough(d, s.namelen, 0)
  {
    var t := Turned(d, s, quoteok).next;
    assert (MAX_DOMAIN - s.namelen - 1) * (|d| + 1) >= (MAX_DOMAIN - t.namelen) * (|d| + 1);
  }

  /** Reading comes to an end if and only if nowhere, as far as labels and pointers lead within the length
      of a name, an endless chain of pointers is followed; and a fixed number of turns tells. */
  lemma FinishesExactly(d: Dgram, s: Cursor, quoteok: bool)
    requires Sound(d, s)
    ensures Finishes(d, s, quoteok) <==> NeverStuck(d, s, quoteok)
    ensures Finishes(d, s, quoteok) <==> OverWithin(d, s, quoteok, Enough(d, s.namelen, |d|))
  {
    hide Turned;
    if Finishes(d, s, quoteok) {
      var n: nat :| OverWithin(d, s, quoteok, n);
      forall t | Reached(d, s, quoteok, t)
        ensures !Stuck(d, t)
      {
        var m: nat :| After(d, s, quoteok, m) == On(t);
        ReachedSound(d, s, quoteok, m);
        OverFromThere(d, s, quoteok, m, n);
        if Stuck(d, t) {
          StuckForEver(d, t, quoteok, n);
        }
      }
    }
    if NeverStuck(d, s, quoteok) {
      NeverStuckOn(d, s, quoteok);
      OverInTime(d, s, quoteok, |d|);
    }
  }

  lemma {:induction false} SelfPointerNeverEnds(d: Dgram, c: nat, k: nat)
    requires IsPointer(d, c) && PointsTo(d, c) == c
    ensures !Ends(d, c, k)
  {
    if k > 0 {
      SelfPointerNeverEnds(d, c, k - 1);
    }
  }

  /** Whoever comes to a pointer to itself never finishes. */
  lemma SelfPointerNeverFinishes(d: Dgram, s: Cursor, quoteok: bool, t: Cursor)
    requires Sound(d, s) && Reached(d, s, quoteok, t)
    requires IsPointer(d, t.at) && PointsTo(d, t.at) == t.at && !Refused(d, t)
    ensures !Finishes(d, s, quoteok)
  {
    SelfPointerNeverEnds(d, t.at, |d|);
    FinishesExactly(d, s, quoteok);
  }

  /** The inner loop ends: at most `k` pointers are followed from `s` on. */
  predicate FollowedWithin(d: Dgram, s: Cursor, k: nat)
    decreases k
  {
    IsPointer(d, s.at) && !Refused(d, s) ==>
      k > 0 && FollowedWithin(d, Cursor(PointsTo(d, s.at), |d| + 1, s.namelen, false), k - 1)
  }

  ghost predicate FollowingStops(d: Dgram, s: Cursor) { exists k: nat :: FollowedWithin(d, s, k) }

  /** Following pointers comes to an end if and only if they do, or the first of them is refused. */
  lemma FollowingEnds(d: Dgram, s: Cursor)
    requires Sound(d, s)
    ensures FollowingStops(d, s) <==> Ends(d, s.at, |d|) || Refused(d, s)
  {
    if FollowingStops(d, s) {
      var k: nat :| FollowedWithin(d, s, k);
      FollowedIsShort(d, s, k);
    }
    if Ends(d, s.at, |d|) || Refused(d, s) {
      ShortIsFollowed(d, s, |d|);
    }
  }

  lemma {:induction false} FollowedIsShort(d: Dgram, s: Cursor, k: nat)
    requires Sound(d, s) && FollowedWithin(d, s, k)
    ensures !Stuck(d, s)
    decreases k
  {
    if IsPointer(d, s.at) && !Refused(d, s) {
      var t := Cursor(PointsTo(d, s.at), |d| + 1, s.namelen, false);
      FollowedIsShort(d, t, k - 1);
      assert Ends(d, t.at, |d|);
      OneOn(d, s.at);
    }
  }

  lemma {:induction false} ShortIsFollowed(d: Dgram, s: Cursor, k: nat)
    requires Sound(d, s) && (Ends(d, s.at, k) || Refused(d, s))
    ensures FollowedWithin(d, s, k)
    decreases k
  {
    if IsPointer(d, s.at) && !Refused(d, s) {
      ShortIsFollowed(d, Cursor(PointsTo(d, s.at), |d| + 1, s.namelen, false), k - 1);
    }
  }

  // ----- pointers that lead backward -----

  /** Section 4.1.4 of RFC 1035: a pointer is to a prior occurrence. Only the pointers that are followed
      need to be. */
  ghost predicate GoesBackward(d: Dgram, s: Cursor, quoteok: bool) {
    forall t :: Reached(d, s, quoteok, t) && IsPointer(d, t.at) && !Refused(d, t) ==> PointsTo(d, t.at) < t.at
  }

  lemma BackwardOn(d: Dgram, s: Cursor, quoteok: bool)
    requires GoesBackward(d, s, quoteok)
    ensures IsPointer(d, s.at) && !Refused(d, s) ==> PointsTo(d, s.at) < s.at
    ensures Turned(d, s, quoteok).On? ==> GoesBackward(d, Turned(d, s, quoteok).next, quoteok)
  {
    hide Turned, Reached;
    ReachedAtOnce(d, s, quoteok);
    if Turned(d, s, quoteok).On? {
      var t := Turned(d, s, quoteok).next;
      forall u | Reached(d, t, quoteok, u) && IsPointer(d, u.at) && !Refused(d, u)
        ensures PointsTo(d, u.at) < u.at
      {
        ReachedLater(d, s, quoteok, u);
      }
    }
  }

  /** If all pointers that are followed go strictly backward, reading comes to an end: each turn makes the
      name longer, or leads to a smaller offset at the same length. */
  lemma {:induction false} BackwardFinishes(d: Dgram, s: Cursor, quoteok: bool) returns (n: nat)
    requires Sound(d, s) && GoesBackward(d, s, quoteok)
    ensures OverWithin(d, s, quoteok, n) && Finishes(d, s, quoteok)
    decreases MAX_DOMAIN - s.namelen, s.at
  {
    hide Turned, GoesBackward;
    n := 0;
    BackwardOn(d, s, quoteok);
    if Turned(d, s, quoteok).On? {
      if IsPointer(d, s.at) {
        PointerTurn(d, s, quoteok);
      } else {
        LabelTurn(d, s, quoteok);
      }
      n := BackwardFinishes(d, Turned(d, s, quoteok).next, quoteok);
      n := n + 1;
    }
  }
}
