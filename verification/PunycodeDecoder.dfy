/**
 The decoder of section 6.2 of RFC 3492, with the parameters of section 5 and the law of section 6.1 for the
 bias. It shares nothing with the encoder that is proved against it (module `Punycode`), and is held to
 examples of section 7.1.
 */
module PunycodeDecoder {
  import opened Wrappers

  const BASE := 36
  const INITIAL_N := 128
  const INITIAL_BIAS := 72
  const DELIMITER := 45

  // ----- the bias -----

  function Power35(j: nat): (p: nat)
    ensures p > 0
  {
    if j == 0 then 1 else 35 * Power35(j - 1)
  }

  /** `x` is what is left of `e` after `j` divisions by 35, until it is 455 at most. */
  ghost predicate ScaledDown(e: nat, j: nat, x: nat) {
    && Power35(j) * x <= e < Power35(j) * (x + 1)
    && (j > 0 ==> Power35(j - 1) * 456 <= e)
  }

  /** The part of the delta that counts: a 700th the first time, and half of it later. */
  predicate Damped(delta: nat, first: bool, d: nat) {
    if first then 700 * d <= delta < 700 * (d + 1) else 2 * d <= delta < 2 * (d + 1)
  }

  ghost predicate BiasFrom(d: nat, points: nat, bias: nat, j: nat, x: nat)
    requires points > 0
  {
    && ScaledDown(d + d / points, j, x) && x <= 455
    && 36 * j <= bias && (bias - 36 * j) * (x + 38) <= 36 * x < (bias - 36 * j + 1) * (x + 38)
  }

  /** Section 6.1: the bias after a delta was read and there are `points` code points. */
  ghost predicate BiasLaw(delta: nat, points: nat, first: bool, bias: nat)
    requires points > 0
  {
    exists d: nat, j: nat, x: nat :: Damped(delta, first, d) && BiasFrom(d, points, bias, j, x)
  }

  lemma PowerBounds(i: nat, j: nat)
    ensures i <= j ==> Power35(i) <= Power35(j)
  {
    if i < j {
      PowerBounds(i, j - 1);
    }
  }

  lemma Products(a: nat, b: nat, x: nat, y: nat)
    requires a <= b && x <= y
    ensures a * x <= b * y
  {
    assert a * x <= b * x <= b * y;
  }

  lemma ScaledOnce(e: nat, j: nat, x: nat, j': nat, x': nat)
    requires ScaledDown(e, j, x) && ScaledDown(e, j', x') && x <= 455 && x' <= 455
    ensures j == j' && x == x'
  {
    ScaledNoLess(e, j, x, j', x');
    ScaledNoLess(e, j', x', j, x);
    var p := Power35(j);
    if x < x' {
      Products(p, p, x + 1, x');
    } else if x' < x {
      Products(p, p, x' + 1, x);
    }
  }

  lemma ScaledNoLess(e: nat, j: nat, x: nat, j': nat, x': nat)
    requires ScaledDown(e, j, x) && ScaledDown(e, j', x') && x <= 455 && x' <= 455
    ensures j <= j'
  {
    if j' < j {
      PowerBounds(j', j - 1);
      Products(Power35(j'), Power35(j - 1), x' + 1, 456);
    }
  }

  lemma RatioOnce(b: nat, c: nat, x: nat)
    requires b * (x + 38) <= 36 * x < (b + 1) * (x + 38) && c * (x + 38) <= 36 * x < (c + 1) * (x + 38)
    ensures b == c
  {
    if b < c {
      Products(b + 1, c, x + 38, x + 38);
    } else if c < b {
      Products(c + 1, b, x + 38, x + 38);
    }
  }

  /** There is one such bias, ... */
  lemma BiasIsUnique(delta: nat, points: nat, first: bool, a: nat, b: nat)
    requires points > 0 && BiasLaw(delta, points, first, a) && BiasLaw(delta, points, first, b)
    ensures a == b
  {
    hide ScaledDown, BiasFrom;
    var d: nat, j: nat, x: nat :| Damped(delta, first, d) && BiasFrom(d, points, a, j, x);
    var d': nat, j': nat, x': nat :| Damped(delta, first, d') && BiasFrom(d', points, b, j', x');
    assert d == d';
    OneBias(d, points, a, j, x, b, j', x');
  }

  lemma OneBias(d: nat, points: nat, a: nat, j: nat, x: nat, b: nat, j': nat, x': nat)
    requires points > 0 && BiasFrom(d, points, a, j, x) && BiasFrom(d, points, b, j', x')
    ensures a == b
  {
    ScaledOnce(d + d / points, j, x, j', x');
    RatioOnce(a - 36 * j, b - 36 * j, x);
  }

  lemma ScaledAtFirst(e: nat)
    ensures ScaledDown(e, 0, e)
  {
  }

  lemma ScaledMore(e: nat, j: nat, x: nat)
    requires ScaledDown(e, j, x) && x > 455
    ensures ScaledDown(e, j + 1, x / 35)
  {
    var p, y := Power35(j), x / 35;
    assert 35 * y <= x < 35 * y + 35;
    Products(p, p, 35 * y, x);
    Products(p, p, x + 1, 35 * (y + 1));
    Products(p, p, 456, x);
    assert Power35(j + 1) * y == p * (35 * y) && Power35(j + 1) * (y + 1) == p * (35 * (y + 1));
  }

  lemma {:induction false} ScalesDown(e: nat, j: nat, x: nat) returns (k: nat, y: nat)
    requires ScaledDown(e, j, x)
    ensures ScaledDown(e, k, y) && y <= 455
    decreases x
  {
    k, y := j, x;
    if x > 455 {
      ScaledMore(e, j, x);
      k, y := ScalesDown(e, j + 1, x / 35);
    }
  }

  lemma RatioIs(x: nat)
    ensures var q := 36 * x / (x + 38); q >= 0 && q * (x + 38) <= 36 * x < (q + 1) * (x + 38)
  {
    var q := 36 * x / (x + 38);
    assert 36 * x == (x + 38) * q + 36 * x % (x + 38);
  }

  lemma DampedIs(delta: nat, first: bool)
    ensures Damped(delta, first, if first then delta / 700 else delta / 2)
  {
  }

  lemma BiasIsFrom(d: nat, points: nat, j: nat, x: nat)
    requires points > 0 && ScaledDown(d + d / points, j, x) && x <= 455
    ensures 36 * x / (x + 38) >= 0 && BiasFrom(d, points, 36 * j + 36 * x / (x + 38), j, x)
  {
    hide ScaledDown;
    RatioIs(x);
  }

  lemma LawIs(delta: nat, points: nat, first: bool, d: nat, j: nat, x: nat, bias: nat)
    requires points > 0 && Damped(delta, first, d) && BiasFrom(d, points, bias, j, x)
    ensures BiasLaw(delta, points, first, bias)
  {
    hide BiasFrom, Damped;
  }

  /** ... and there is one in any case. */
  lemma BiasExists(delta: nat, points: nat, first: bool) returns (bias: nat)
    requires points > 0
    ensures BiasLaw(delta, points, first, bias)
  {
    hide ScaledDown, BiasFrom;
    var d := if first then delta / 700 else delta / 2;
    DampedIs(delta, first);
    var e: nat := d + d / points;
    ScaledAtFirst(e);
    var j, x := ScalesDown(e, 0, e);
    BiasIsFrom(d, points, j, x);
    bias := 36 * j + 36 * x / (x + 38);
  }

  ghost function Bias(delta: nat, points: nat, first: bool): (bias: nat)
    requires points > 0
    ensures BiasLaw(delta, points, first, bias)
  {
    assert exists b: nat :: BiasLaw(delta, points, first, b) by {
      var b := BiasExists(delta, points, first);
    }
    var b: nat :| BiasLaw(delta, points, first, b);
    b
  }

  // ----- integers -----

  /** From 1 to 26, and the distance of the position from the bias between. */
  function Threshold(k: nat, bias: nat): (t: nat)
    ensures 1 <= t <= 26
  {
    if k - bias < 1 then 1 else if k - bias > 26 then 26 else k - bias
  }

  /** Section 5 of RFC 3492; either case of a letter is the same digit. */
  function DigitValue(b: nat): Option<nat> {
    if 'a' as nat <= b <= 'z' as nat then Some(b - 'a' as nat)
    else if 'A' as nat <= b <= 'Z' as nat then Some(b - 'A' as nat)
    else if '0' as nat <= b <= '9' as nat then Some(b - '0' as nat + 26)
    else None
  }

  /** Reads one integer as the decoder does, adding it to `i` with weight `w`; also what is left. */
  function ReadInteger(bias: nat, s: seq<nat>, k: nat, w: nat, i: nat): (r: Option<(nat, seq<nat>)>)
    ensures r.Some? ==> |r.value.1| < |s|
  {
    if s == [] then None
    else match DigitValue(s[0])
      case None => None
      case Some(d) =>
        var t := Threshold(k, bias);
        if d < t then Some((i + d * w, s[1..]))
        else ReadInteger(bias, s[1..], k + BASE, w * (BASE - t), i + d * w)
  }

  lemma ReadOne(bias: nat, s: seq<nat>, d: nat, k: nat, w: nat, i: nat)
    requires s != [] && DigitValue(s[0]) == Some(d)
    ensures var t := Threshold(k, bias);
            ReadInteger(bias, s, k, w, i) ==
            if d < t then Some((i + d * w, s[1..])) else ReadInteger(bias, s[1..], k + BASE, w * (BASE - t), i + d * w)
  {
  }

  // ----- code points -----

  /** The decoder's state between two integers: what it has put together, and where it would put the
      next code point. */
  datatype Decoder = Decoder(out: seq<nat>, n: nat, i: nat, bias: nat)

  /** After an integer was read that moved the counter from `i` to `i'`. */
  ghost function Inserted(d: Decoder, i': nat): Decoder
    requires i' >= d.i
  {
    var n, at := d.n + i' / (|d.out| + 1), i' % (|d.out| + 1);
    Decoder(d.out[..at] + [n] + d.out[at..], n, at + 1, Bias(i' - d.i, |d.out| + 1, d.i == 0))
  }

  /** The loop of section 6.2 of RFC 3492. */
  ghost function DecodeFrom(d: Decoder, s: seq<nat>): Option<seq<nat>>
    decreases |s|
  {
    if s == [] then Some(d.out)
    else match ReadInteger(d.bias, s, BASE, 1, d.i)
      case None => None
      case Some((i, rest)) => if i < d.i then None else DecodeFrom(Inserted(d, i), rest)
  }

  /** Where the last delimiter is, or 0. */
  function LastDelimiter(s: seq<nat>): (p: nat)
    ensures p <= |s|
  {
    if s == [] then 0 else if s[|s| - 1] == DELIMITER then |s| - 1 else LastDelimiter(s[..|s| - 1])
  }

  /** Section 6.2 of RFC 3492. */
  ghost function Decode(s: seq<nat>): Option<seq<nat>> {
    var p := LastDelimiter(s);
    if exists j :: 0 <= j < p && s[j] >= INITIAL_N then None
    else DecodeFrom(Decoder(s[..p], INITIAL_N, 0, INITIAL_BIAS), s[if p > 0 then p + 1 else 0..])
  }

  /** The last delimiter is where no other comes behind it. */
  lemma {:induction false} DelimiterFound(s: seq<nat>, p: nat)
    requires p < |s| && s[p] == DELIMITER && forall j :: p < j < |s| ==> s[j] != DELIMITER
    ensures LastDelimiter(s) == p
  {
    if p < |s| - 1 {
      DelimiterFound(s[..|s| - 1], p);
    }
  }

  lemma {:induction false} NoDelimiter(s: seq<nat>)
    requires forall j :: 0 <= j < |s| ==> s[j] != DELIMITER
    ensures LastDelimiter(s) == 0
  {
    if s != [] {
      NoDelimiter(s[..|s| - 1]);
    }
  }

  /** The decoder splits at the delimiter that follows the basic code points. */
  lemma Splits(b: seq<nat>, digits: seq<nat>)
    requires forall j :: 0 <= j < |b| ==> b[j] < INITIAL_N
    requires forall j :: 0 <= j < |digits| ==> digits[j] != DELIMITER
    ensures Decode((if b == [] then [] else b + [DELIMITER]) + digits)
         == DecodeFrom(Decoder(b, INITIAL_N, 0, INITIAL_BIAS), digits)
  {
    hide DecodeFrom, LastDelimiter;
    var s := (if b == [] then [] else b + [DELIMITER]) + digits;
    if b == [] {
      assert s == digits;
      NoDelimiter(s);
    } else {
      DelimiterFound(s, |b|);
      assert s[..|b|] == b;
      assert s[|b| + 1..] == digits;
    }
  }

  // ----- examples -----

  function Text(s: string): seq<nat> { seq(|s|, i requires 0 <= i < |s| => s[i] as nat) }

  lemma {:induction false} ReadExtends(bias: nat, s: seq<nat>, k: nat, w: nat, i: nat, rest: seq<nat>)
    requires ReadInteger(bias, s, k, w, i).Some? && ReadInteger(bias, s, k, w, i).value.1 == []
    ensures ReadInteger(bias, s + rest, k, w, i) == Some((ReadInteger(bias, s, k, w, i).value.0, rest))
    decreases |s|
  {
    assert (s + rest)[1..] == s[1..] + rest;
    var d := DigitValue(s[0]).value;
    var t := Threshold(k, bias);
    if d >= t {
      ReadExtends(bias, s[1..], k + BASE, w * (BASE - t), i + d * w, rest);
    } else {
      assert [] + rest == rest;
    }
  }

  /** The value of digits, from the last one on. */
  lemma LastDigit(bias: nat, x: nat, k: nat, w: nat, i: nat)
    requires DigitValue(x).Some? && DigitValue(x).value < Threshold(k, bias)
    ensures ReadInteger(bias, [x], k, w, i) == Some((i + DigitValue(x).value * w, []))
  {
  }

  lemma MoreDigits(bias: nat, x: nat, s: seq<nat>, k: nat, w: nat, i: nat)
    requires DigitValue(x).Some? && DigitValue(x).value >= Threshold(k, bias)
    ensures ReadInteger(bias, [x] + s, k, w, i) ==
            ReadInteger(bias, s, k + BASE, w * (BASE - Threshold(k, bias)), i + DigitValue(x).value * w)
  {
    assert ([x] + s)[1..] == s;
  }

  lemma BiasIs(delta: nat, points: nat, first: bool, d: nat, j: nat, x: nat, bias: nat)
    requires points > 0 && Damped(delta, first, d) && BiasFrom(d, points, bias, j, x)
    ensures Bias(delta, points, first) == bias
  {
    BiasIsUnique(delta, points, first, bias, Bias(delta, points, first));
  }

  lemma Read2(bias: nat, x: nat, y: nat, k: nat, w: nat, i: nat)
    requires DigitValue(x).Some? && DigitValue(x).value >= Threshold(k, bias)
    requires DigitValue(y).Some? && DigitValue(y).value < Threshold(k + 36, bias)
    ensures ReadInteger(bias, [x, y], k, w, i) ==
            Some((i + DigitValue(x).value * w + DigitValue(y).value * (w * (36 - Threshold(k, bias))), []))
  {
    hide ReadInteger, DigitValue, Threshold;
    assert [x] + [y] == [x, y];
    MoreDigits(bias, x, [y], k, w, i);
    LastDigit(bias, y, k + 36, w * (36 - Threshold(k, bias)), i + DigitValue(x).value * w);
  }

  lemma Read3(bias: nat, x: nat, y: nat, z: nat, k: nat, w: nat, i: nat)
    requires DigitValue(x).Some? && DigitValue(x).value >= Threshold(k, bias)
    requires DigitValue(y).Some? && DigitValue(y).value >= Threshold(k + 36, bias)
    requires DigitValue(z).Some? && DigitValue(z).value < Threshold(k + 72, bias)
    ensures var v := w * (36 - Threshold(k, bias));
            ReadInteger(bias, [x, y, z], k, w, i) ==
            Some((i + DigitValue(x).value * w + DigitValue(y).value * v
                  + DigitValue(z).value * (v * (36 - Threshold(k + 36, bias))), []))
  {
    hide ReadInteger, DigitValue, Threshold;
    assert [x] + [y, z] == [x, y, z];
    MoreDigits(bias, x, [y, z], k, w, i);
    Read2(bias, y, z, k + 36, w * (36 - Threshold(k, bias)), i + DigitValue(x).value * w);
  }

  lemma Read4(bias: nat, x: nat, y: nat, z: nat, a: nat, k: nat, w: nat, i: nat)
    requires DigitValue(x).Some? && DigitValue(x).value >= Threshold(k, bias)
    requires DigitValue(y).Some? && DigitValue(y).value >= Threshold(k + 36, bias)
    requires DigitValue(z).Some? && DigitValue(z).value >= Threshold(k + 72, bias)
    requires DigitValue(a).Some? && DigitValue(a).value < Threshold(k + 108, bias)
    ensures var v := w * (36 - Threshold(k, bias));
            var u := v * (36 - Threshold(k + 36, bias));
            ReadInteger(bias, [x, y, z, a], k, w, i) ==
            Some((i + DigitValue(x).value * w + DigitValue(y).value * v + DigitValue(z).value * u
                  + DigitValue(a).value * (u * (36 - Threshold(k + 72, bias))), []))
  {
    hide ReadInteger, DigitValue, Threshold;
    assert [x] + [y, z, a] == [x, y, z, a];
    MoreDigits(bias, x, [y, z, a], k, w, i);
    Read3(bias, y, z, a, k + 36, w * (36 - Threshold(k, bias)), i + DigitValue(x).value * w);
  }

  /** Reading these digits makes the decoder `d` the decoder `e`. */
  ghost predicate Next(d: Decoder, digits: seq<nat>, e: Decoder) {
    forall rest :: DecodeFrom(d, digits + rest) == DecodeFrom(e, rest)
  }

  lemma InsertedIs(d: Decoder, i: nat, part: nat, j: nat, x: nat, e: Decoder)
    requires i >= d.i && Damped(i - d.i, d.i == 0, part) && BiasFrom(part, |d.out| + 1, e.bias, j, x)
    requires var at := i % (|d.out| + 1);
             e.out == d.out[..at] + [e.n] + d.out[at..] && e.n == d.n + i / (|d.out| + 1) && e.i == at + 1
    ensures e == Inserted(d, i)
  {
    hide BiasFrom, BiasLaw, Damped;
    BiasIs(i - d.i, |d.out| + 1, d.i == 0, part, j, x, e.bias);
  }

  lemma NextIs(d: Decoder, digits: seq<nat>, i: nat, part: nat, j: nat, x: nat, e: Decoder)
    requires digits != [] && ReadInteger(d.bias, digits, BASE, 1, d.i) == Some((i, [])) && i >= d.i
    requires Damped(i - d.i, d.i == 0, part) && BiasFrom(part, |d.out| + 1, e.bias, j, x)
    requires var at := i % (|d.out| + 1);
             e.out == d.out[..at] + [e.n] + d.out[at..] && e.n == d.n + i / (|d.out| + 1) && e.i == at + 1
    ensures Next(d, digits, e)
  {
    InsertedIs(d, i, part, j, x, e);
    hide BiasFrom, Damped, ReadInteger, Inserted;
    forall rest
      ensures DecodeFrom(d, digits + rest) == DecodeFrom(e, rest)
    {
      ReadExtends(d.bias, digits, BASE, 1, d.i, rest);
    }
  }

  lemma NextText(d: Decoder, a: string, e: Decoder, b: string, f: Decoder)
    requires Next(d, Text(a), e) && Next(e, Text(b), f)
    ensures Next(d, Text(a + b), f)
  {
    hide DecodeFrom;
    forall rest
      ensures DecodeFrom(d, Text(a + b) + rest) == DecodeFrom(f, rest)
    {
      assert Text(a + b) + rest == Text(a) + (Text(b) + rest);
      assert DecodeFrom(d, Text(a) + (Text(b) + rest)) == DecodeFrom(e, Text(b) + rest);
    }
  }

  /** The text of digits behind basic code points. */
  lemma Starts(b: string, digits: string, e: Decoder)
    requires (forall c <- b :: c < 128 as char) && '-' !in digits
    requires Next(Decoder(Text(b), INITIAL_N, 0, INITIAL_BIAS), Text(digits), e)
    ensures Decode(Text(if b == "" then digits else b + "-" + digits)) == Some(e.out)
  {
    TextOf(b);
    TextOf(digits);
    TextSplits(b, digits);
    NextAll(Decoder(Text(b), INITIAL_N, 0, INITIAL_BIAS), Text(digits), e);
    hide DecodeFrom, LastDelimiter, Decode, Text, Next;
    Splits(Text(b), Text(digits));
  }

  lemma NextAll(d: Decoder, digits: seq<nat>, e: Decoder)
    requires Next(d, digits, e)
    ensures DecodeFrom(d, digits) == Some(e.out)
  {
    assert digits + [] == digits;
    assert DecodeFrom(d, digits + []) == DecodeFrom(e, []);
  }

  lemma TextOf(s: string)
    ensures (forall c <- s :: c < 128 as char) ==> forall j :: 0 <= j < |s| ==> Text(s)[j] < 128
    ensures '-' !in s ==> forall j :: 0 <= j < |s| ==> Text(s)[j] != DELIMITER
    ensures |Text(s)| == |s|
  {
    assert forall j :: 0 <= j < |s| ==> s[j] in s;
  }

  lemma TextSplits(b: string, digits: string)
    ensures Text(if b == "" then digits else b + "-" + digits) ==
            (if Text(b) == [] then [] else Text(b) + [DELIMITER]) + Text(digits)
  {
  }

  lemma China1() returns (d: Decoder, e: Decoder)
    ensures d == Decoder([], 128, 0, 72)
    ensures e == Decoder([0x4E2D], 0x4E2D, 1, 21)
    ensures Next(d, Text("fiq"), e)
  {
    hide ReadInteger, DecodeFrom, BiasLaw, Bias, Decode, Next;
    d := Decoder([], 128, 0, 72);
    e := Decoder([0x4E2D], 0x4E2D, 1, 21);
    assert Text("fiq") == ['f' as nat, 'i' as nat, 'q' as nat];
    Read3(72, 'f' as nat, 'i' as nat, 'q' as nat, 36, 1, 0);
    NextIs(d, Text("fiq"), 19885, 28, 0, 56, e);
  }

  lemma China2() returns (d: Decoder, e: Decoder)
    ensures d == Decoder([0x4E2D], 0x4E2D, 1, 21)
    ensures e == Decoder([0x4E2D, 0x56FD], 0x56FD, 2, 61)
    ensures Next(d, Text("s8s"), e)
  {
    hide ReadInteger, DecodeFrom, BiasLaw, Bias, Decode, Next;
    d := Decoder([0x4E2D], 0x4E2D, 1, 21);
    e := Decoder([0x4E2D, 0x56FD], 0x56FD, 2, 61);
    assert Text("s8s") == ['s' as nat, '8' as nat, 's' as nat];
    Read3(21, 's' as nat, '8' as nat, 's' as nat, 36, 1, 1);
    NextIs(d, Text("s8s"), 4513, 2256, 1, 96, e);
  }

  /** The name of China, as it is registered. */
  lemma China()
    ensures Decode(Text("fiqs8s")) == Some([0x4E2D, 0x56FD])
  {
    hide Next, DecodeFrom, Decode;
    var d, e := China1();
    var d2, e2 := China2();
    NextText(d, "fiq", e, "s8s", e2);
    assert "fiq" + "s8s" == "fiqs8s";
    assert Text("") == [];
    Starts("", "fiqs8s", e2);
  }

  lemma Class1() returns (d: Decoder, e: Decoder)
    ensures d == Decoder([0x33, 0x42], 128, 0, 72)
    ensures e == Decoder([0x33, 0x42, 0x5148], 0x5148, 3, 27)
    ensures Next(d, Text("ww4c"), e)
  {
    hide ReadInteger, DecodeFrom, BiasLaw, Bias, Decode, Next;
    d := Decoder([0x33, 0x42], 128, 0, 72);
    e := Decoder([0x33, 0x42, 0x5148], 0x5148, 3, 27);
    assert Text("ww4c") == ['w' as nat, 'w' as nat, '4' as nat, 'c' as nat];
    Read4(72, 'w' as nat, 'w' as nat, '4' as nat, 'c' as nat, 36, 1, 0);
    NextIs(d, Text("ww4c"), 62042, 88, 0, 117, e);
  }

  lemma Class2() returns (d: Decoder, e: Decoder)
    ensures d == Decoder([0x33, 0x42, 0x5148], 0x5148, 3, 27)
    ensures e == Decoder([0x33, 0x42, 0x516B, 0x5148], 0x516B, 3, 24)
    ensures Next(d, Text("5e"), e)
  {
    hide ReadInteger, DecodeFrom, BiasLaw, Bias, Decode, Next;
    d := Decoder([0x33, 0x42, 0x5148], 0x5148, 3, 27);
    e := Decoder([0x33, 0x42, 0x516B, 0x5148], 0x516B, 3, 24);
    assert Text("5e") == ['5' as nat, 'e' as nat];
    Read2(27, '5' as nat, 'e' as nat, 36, 1, 3);
    NextIs(d, Text("5e"), 142, 69, 0, 86, e);
  }

  lemma Class3() returns (d: Decoder, e: Decoder)
    ensures d == Decoder([0x33, 0x42, 0x516B, 0x5148], 0x516B, 3, 24)
    ensures e == Decoder([0x33, 0x5E74, 0x42, 0x516B, 0x5148], 0x5E74, 2, 67)
    ensures Next(d, Text("180e"), e)
  {
    hide ReadInteger, DecodeFrom, BiasLaw, Bias, Decode, Next;
    d := Decoder([0x33, 0x42, 0x516B, 0x5148], 0x516B, 3, 24);
    e := Decoder([0x33, 0x5E74, 0x42, 0x516B, 0x5148], 0x5E74, 2, 67);
    assert Text("180e") == ['1' as nat, '8' as nat, '0' as nat, 'e' as nat];
    Read4(24, '1' as nat, '8' as nat, '0' as nat, 'e' as nat, 36, 1, 3);
    NextIs(d, Text("180e"), 16686, 8341, 1, 285, e);
  }

  lemma Class4() returns (d: Decoder, e: Decoder)
    ensures d == Decoder([0x33, 0x5E74, 0x42, 0x516B, 0x5148], 0x5E74, 2, 67)
    ensures e == Decoder([0x33, 0x5E74, 0x42, 0x516B, 0x5148, 0x751F], 0x751F, 6, 82)
    ensures Next(d, Text("575a"), e)
  {
    hide ReadInteger, DecodeFrom, BiasLaw, Bias, Decode, Next;
    d := Decoder([0x33, 0x5E74, 0x42, 0x516B, 0x5148], 0x5E74, 2, 67);
    e := Decoder([0x33, 0x5E74, 0x42, 0x516B, 0x5148, 0x751F], 0x751F, 6, 82);
    assert Text("575a") == ['5' as nat, '7' as nat, '5' as nat, 'a' as nat];
    Read4(67, '5' as nat, '7' as nat, '5' as nat, 'a' as nat, 36, 1, 2);
    NextIs(d, Text("575a"), 34823, 17410, 2, 16, e);
  }

  lemma Class5() returns (d: Decoder, e: Decoder)
    ensures d == Decoder([0x33, 0x5E74, 0x42, 0x516B, 0x5148, 0x751F], 0x751F, 6, 82)
    ensures e == Decoder([0x33, 0x5E74, 0x42, 0x7D44, 0x516B, 0x5148, 0x751F], 0x7D44, 4, 67)
    ensures Next(d, Text("65l"), e)
  {
    hide ReadInteger, DecodeFrom, BiasLaw, Bias, Decode, Next;
    d := Decoder([0x33, 0x5E74, 0x42, 0x516B, 0x5148, 0x751F], 0x751F, 6, 82);
    e := Decoder([0x33, 0x5E74, 0x42, 0x7D44, 0x516B, 0x5148, 0x751F], 0x7D44, 4, 67);
    assert Text("65l") == ['6' as nat, '5' as nat, 'l' as nat];
    Read3(82, '6' as nat, '5' as nat, 'l' as nat, 36, 1, 6);
    NextIs(d, Text("65l"), 14598, 7296, 1, 238, e);
  }

  lemma Class6() returns (d: Decoder, e: Decoder)
    ensures d == Decoder([0x33, 0x5E74, 0x42, 0x7D44, 0x516B, 0x5148, 0x751F], 0x7D44, 4, 67)
    ensures e == Decoder([0x33, 0x5E74, 0x42, 0x7D44, 0x91D1, 0x516B, 0x5148, 0x751F], 0x91D1, 5, 84)
    ensures Next(d, Text("sy2b"), e)
  {
    hide ReadInteger, DecodeFrom, BiasLaw, Bias, Decode, Next;
    d := Decoder([0x33, 0x5E74, 0x42, 0x7D44, 0x516B, 0x5148, 0x751F], 0x7D44, 4, 67);
    e := Decoder([0x33, 0x5E74, 0x42, 0x7D44, 0x91D1, 0x516B, 0x5148, 0x751F], 0x91D1, 5, 84);
    assert Text("sy2b") == ['s' as nat, 'y' as nat, '2' as nat, 'b' as nat];
    Read4(67, 's' as nat, 'y' as nat, '2' as nat, 'b' as nat, 36, 1, 4);
    NextIs(d, Text("sy2b"), 42092, 21044, 2, 19, e);
  }

  /** Example (L) of section 7.1. */
  lemma Class()
    ensures Decode(Text("3B-ww4c5e180e575a65lsy2b")) ==
            Some([0x33, 0x5E74, 0x42, 0x7D44, 0x91D1, 0x516B, 0x5148, 0x751F])
  {
    hide Next, DecodeFrom, Decode;
    var d, e := Class1();
    var d2, e2 := Class2();
    NextText(d, "ww4c", e, "5e", e2);
    assert "ww4c" + "5e" == "ww4c5e";
    var d3, e3 := Class3();
    NextText(d, "ww4c5e", e2, "180e", e3);
    assert "ww4c5e" + "180e" == "ww4c5e180e";
    var d4, e4 := Class4();
    NextText(d, "ww4c5e180e", e3, "575a", e4);
    assert "ww4c5e180e" + "575a" == "ww4c5e180e575a";
    var d5, e5 := Class5();
    NextText(d, "ww4c5e180e575a", e4, "65l", e5);
    assert "ww4c5e180e575a" + "65l" == "ww4c5e180e575a65l";
    var d6, e6 := Class6();
    NextText(d, "ww4c5e180e575a65l", e5, "sy2b", e6);
    assert "ww4c5e180e575a65l" + "sy2b" == "ww4c5e180e575a65lsy2b";
    assert Text("3B") == [0x33, 0x42] && "3B" + "-" + "ww4c5e180e575a65lsy2b" == "3B-ww4c5e180e575a65lsy2b";
    Starts("3B", "ww4c5e180e575a65lsy2b", e6);
  }
}
