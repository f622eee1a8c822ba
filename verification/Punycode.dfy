/**
 The Punycode encoder of src/utils/punycode.cxx, proved against the decoder of section 6.2 of RFC 3492
 (module `PunycodeDecoder`), with the parameters that the source gives it. Code points and bytes are natural
 numbers; a host is at most `MAX_CODE_POINTS` long (src/types.h:77 and `url::isValid`), and a code point has
 16 bits.
 */
module Punycode {
  import opened Wrappers
  import opened PunycodeDecoder

  const BASE := 36
  const TMIN := 1
  const TMAX := 26
  const SKEW := 38
  const DAMP := 700
  const INITIAL_N := 128
  const INITIAL_BIAS := 72
  const DELIMITER := 45
  const UINT32_MAX := 0xFFFF_FFFF
  const MAX_CODE_POINTS := 255

  // ----- the bias -----

  /** `adapt_bias` gives the bias of section 6.1. */
  method AdaptBias(delta0: nat, points: nat, first: bool) returns (bias: nat)
    requires points > 0
    ensures BiasLaw(delta0, points, first, bias)
  {
    hide ScaledDown, BiasFrom, BiasLaw, Damped;
    DampedIs(delta0, first);
    var delta: nat := if first then delta0 / DAMP else delta0 / 2;
    ghost var d := delta;
    delta := delta + delta / points;
    ghost var e, j: nat := delta, 0;
    ScaledAtFirst(e);
    var k: nat := 0;
    while delta > ((BASE - TMIN) * TMAX) / 2
      invariant k == 36 * j && ScaledDown(e, j, delta)
    {
      ScaledMore(e, j, delta);
      j := j + 1;
      delta := delta / (BASE - TMIN);
      k := k + BASE;
    }
    BiasIsFrom(d, points, j, delta);
    bias := k + ((BASE - TMIN + 1) * delta) / (delta + SKEW);
    LawIs(delta0, points, first, d, j, delta, bias);
  }

  function Threshold(k: nat, bias: nat): (t: nat)
    ensures TMIN <= t <= TMAX && t == PunycodeDecoder.Threshold(k, bias)
  {
    if k <= bias then TMIN else if k >= bias + TMAX then TMAX else k - bias
  }

  // ----- digits -----

  predicate IsDigit(b: nat) {
    'a' as nat <= b <= 'z' as nat || '0' as nat <= b <= '9' as nat
  }

  function EncodeDigit(c: nat): (b: nat)
    requires c < BASE
    ensures IsDigit(b) && DigitValue(b) == Some(c)
  {
    if c > 25 then c + 22 else c + 'a' as nat
  }

  // ----- variable-length integers -----

  /** The digit that stands for `q` where the threshold is `t`, and what is left for the next ones. */
  function Low(q: nat, t: nat): (d: nat)
    requires TMIN <= t <= TMAX && q >= t
    ensures t <= d < BASE
  {
    t + (q - t) % (BASE - t)
  }

  function High(q: nat, t: nat): (m: nat)
    requires TMIN <= t <= TMAX && q >= t
    ensures m < q && q == Low(q, t) + m * (BASE - t)
  {
    var m := (q - t) / (BASE - t);
    assert q - t == m * (BASE - t) + (q - t) % (BASE - t);
    assert m * (BASE - t) >= m * 10;
    m
  }

  /** The digits of `q`, from position `k` on. */
  function Digits(bias: nat, q: nat, k: nat): (s: seq<nat>)
    ensures s != [] && forall i :: 0 <= i < |s| ==> IsDigit(s[i])
    decreases q
  {
    var t := Threshold(k, bias);
    if q < t then [EncodeDigit(q)]
    else [EncodeDigit(Low(q, t))] + Digits(bias, High(q, t), k + BASE)
  }

  lemma {:induction false} ReadBack(bias: nat, q: nat, rest: seq<nat>, k: nat, w: nat, i: nat)
    ensures ReadInteger(bias, Digits(bias, q, k) + rest, k, w, i) == Some((i + q * w, rest))
    decreases q
  {
    hide Low, High, EncodeDigit, DigitValue, ReadInteger;
    var t := Threshold(k, bias);
    var s := Digits(bias, q, k);
    if q < t {
      assert (s + rest)[1..] == rest;
      ReadOne(bias, s + rest, q, k, w, i);
    } else {
      var d, m := Low(q, t), High(q, t);
      Weighted(q, d, m, w, BASE - t);
      var w', i' := w * (BASE - t), i + d * w;
      var tail := Digits(bias, m, k + BASE) + rest;
      assert (s + rest)[1..] == tail;
      ReadOne(bias, s + rest, d, k, w, i);
      ReadBack(bias, m, rest, k + BASE, w', i');
    }
  }

  lemma Weighted(q: nat, d: nat, m: nat, w: nat, b: nat)
    requires q == d + m * b
    ensures w * b >= 0 && d * w >= 0 && d * w + m * (w * b) == q * w
  {
    assert m * (w * b) == m * b * w;
  }

  /** Digits needed once every threshold is `TMAX`. */
  function LongestFor(q: nat): nat {
    if q < TMAX then 1 else 1 + LongestFor((q - TMAX) / (BASE - TMAX))
  }

  lemma {:induction false} LongestIsMonotone(q: nat, r: nat)
    requires q <= r
    ensures LongestFor(q) <= LongestFor(r)
    decreases r
  {
    if q >= TMAX {
      LongestIsMonotone((q - TMAX) / (BASE - TMAX), (r - TMAX) / (BASE - TMAX));
    }
  }

  /** No threshold sequence needs more than one digit more than the constant one. */
  lemma {:induction false} DigitsAreFew(bias: nat, q: nat, k: nat)
    ensures |Digits(bias, q, k)| <= LongestFor(q) + (if k >= bias + TMAX then 0 else 1)
    decreases q
  {
    hide Low, High, EncodeDigit;
    var t := Threshold(k, bias);
    if q >= t {
      var m := High(q, t);
      DigitsAreFew(bias, m, k + BASE);
      if k > bias {
        LongestIsMonotone(m, q);
        HighBounds(q, t);
      } else if m > 0 {
        HighBounds(q, t);
        LongestIsMonotone(m, (q - TMAX) / (BASE - TMAX));
      }
    }
  }

  lemma HighBounds(q: nat, t: nat)
    requires TMIN <= t <= TMAX && q >= t
    ensures t == TMAX ==> High(q, t) == (q - TMAX) / (BASE - TMAX)
    ensures t == TMIN && High(q, t) > 0 ==> q >= TMAX && High(q, t) <= (q - TMAX) / (BASE - TMAX)
  {
    if t == TMIN {
      assert High(q, t) == (q - 1) / 35;
    }
  }

  lemma EightDigits(bias: nat, q: nat)
    requires q <= 28_888_885
    ensures |Digits(bias, q, BASE)| <= 8
  {
    hide LongestFor, Digits;
    DigitsAreFew(bias, q, BASE);
    LongestIsMonotone(q, 28_888_885);
    LongestStep(25);
    LongestStep(285);
    LongestStep(2_885);
    LongestStep(28_885);
    LongestStep(288_885);
    LongestStep(2_888_885);
  }

  lemma LongestStep(q: nat)
    ensures LongestFor(10 * q + 35) == 1 + LongestFor(q) && LongestFor(25) == 1
  {
  }

  /** `encode_var_int`: the digits of `delta`, cut off after `dstlen` of them. */
  method EncodeVarInt(bias: nat, delta: nat, dst: array<nat>, at: nat, dstlen: nat) returns (i: nat)
    requires at + |Digits(bias, delta, BASE)| <= dst.Length || at + dstlen <= dst.Length
    modifies dst
    ensures var d := Digits(bias, delta, BASE);
            && i == (if |d| < dstlen then |d| else dstlen) && at + i <= dst.Length
            && dst[..at] == old(dst[..at]) && dst[at..at + i] == d[..i] && dst[at + i..] == old(dst[at + i..])
  {
    hide Low, High, EncodeDigit, Threshold, DigitValue;
    ghost var d := Digits(bias, delta, BASE);
    i := 0;
    var k: nat, q: nat := BASE, delta;
    while i < dstlen
      invariant i <= dstlen && i < |d|
      invariant Digits(bias, q, k) == d[i..]
      invariant at + i <= dst.Length && dst[..at] == old(dst[..at])
      invariant dst[at..at + i] == d[..i] && dst[at + i..] == old(dst[at + i..])
      decreases dstlen - i
    {
      var t := Threshold(k, bias);
      if q < t {
        break;
      }
      dst[at + i] := EncodeDigit(Low(q, t));
      assert dst[at + i] == d[i..][0] == d[i];
      assert d[i..][1..] == d[i + 1..];
      assert dst[at..at + i + 1] == dst[at..at + i] + [dst[at + i]];
      assert d[..i + 1] == d[..i] + [d[i]];
      i := i + 1;
      q := High(q, t);
      k := k + BASE;
    }
    if i < dstlen {
      assert d[i..] == [EncodeDigit(q)];
      dst[at + i] := EncodeDigit(q);
      assert dst[at..at + i + 1] == dst[at..at + i] + [dst[at + i]];
      assert d[..i + 1] == d[..i] + [d[i]];
      i := i + 1;
    }
  }

  /** Having read `s`, the decoder that started as `d` is `e`, whatever comes next. */
  ghost predicate Reads(d: Decoder, s: seq<nat>, e: Decoder) {
    forall rest :: DecodeFrom(d, s + rest) == DecodeFrom(e, rest)
  }

  lemma ReadsMore(d: Decoder, s: seq<nat>, e: Decoder, delta: nat)
    requires Reads(d, s, e)
    ensures Reads(d, s + Digits(e.bias, delta, BASE), Inserted(e, e.i + delta))
  {
    var t := Digits(e.bias, delta, BASE);
    forall rest
      ensures DecodeFrom(d, s + t + rest) == DecodeFrom(Inserted(e, e.i + delta), rest)
    {
      assert s + t + rest == s + (t + rest);
      assert DecodeFrom(d, s + (t + rest)) == DecodeFrom(e, t + rest);
      ReadBack(e.bias, delta, rest, BASE, 1, e.i);
    }
  }

  // ----- what the decoder has when the encoder is at a given place -----

  /** The code points of `src` that are below `n`, or equal to `n` and before position `si`. */
  ghost function Kept(src: seq<nat>, n: nat, si: nat): seq<nat> {
    if src == [] then []
    else
      var last := |src| - 1;
      Kept(src[..last], n, si) + if src[last] < n || (src[last] == n && last < si) then [src[last]] else []
  }

  lemma {:induction false} KeptLength(src: seq<nat>, n: nat, si: nat, m: nat)
    requires m <= |src|
    ensures |Kept(src[..m], n, si)| <= |Kept(src, n, si)| <= |Kept(src[..m], n, si)| + (|src| - m)
    ensures |Kept(src[..m], n, si)| <= m
    ensures Kept(src[..m], n, si) <= Kept(src, n, si)
    decreases |src|, m
  {
    if m == |src| {
      assert src[..m] == src;
      if m > 0 {
        KeptLength(src, n, si, m - 1);
      }
    } else {
      assert src[..|src| - 1][..m] == src[..m];
      KeptLength(src[..|src| - 1], n, si, m);
    }
  }

  /** Moving on past a code point that is not `n`. */
  lemma {:induction false} KeptSkips(src: seq<nat>, n: nat, si: nat)
    requires si >= |src| || src[si] != n
    ensures Kept(src, n, si + 1) == Kept(src, n, si)
  {
    if src != [] {
      KeptSkips(src[..|src| - 1], n, si);
    }
  }

  /** The code point `n` at `si` goes where the prefix before it ends. */
  lemma {:induction false} KeptInserts(src: seq<nat>, n: nat, si: nat)
    requires si < |src| && src[si] == n
    ensures var at := |Kept(src[..si], n, si)|;
            && at <= |Kept(src, n, si)|
            && Kept(src, n, si + 1) == Kept(src, n, si)[..at] + [n] + Kept(src, n, si)[at..]
    decreases |src|
  {
    var front, last := src[..|src| - 1], |src| - 1;
    var at := |Kept(src[..si], n, si)|;
    KeptLength(src, n, si, si);
    if si == last {
      KeptSkips(front, n, si);
      assert front == src[..si];
    } else {
      assert front[..si] == src[..si];
      KeptInserts(front, n, si);
      KeptLength(front, n, si, si);
      var k, tail := Kept(front, n, si), if src[last] < n then [src[last]] else [];
      assert Kept(src, n, si) == k + tail && Kept(src, n, si + 1) == Kept(front, n, si + 1) + tail;
      hide Kept;
      assert (k + tail)[..at] == k[..at] && (k + tail)[at..] == k[at..] + tail;
    }
  }

  lemma KeptGrows(src: seq<nat>, n: nat, si: nat)
    requires si < |src|
    ensures Kept(src[..si + 1], n, si + 1) == Kept(src[..si], n, si) + (if src[si] <= n then [src[si]] else [])
  {
    KeptSkips(src[..si], n, si);
    assert src[..si + 1][..si] == src[..si];
  }

  /** With the whole of `src` scanned for `n`, everything below `n + 1` is there. */
  lemma {:induction false} KeptScanned(src: seq<nat>, n: nat, si: nat)
    requires si >= |src|
    ensures Kept(src, n, si) == Kept(src, n + 1, 0)
  {
    if src != [] {
      KeptScanned(src[..|src| - 1], n, si);
    }
  }

  /** Nothing changes up to the next code point that occurs. */
  lemma {:induction false} KeptJumps(src: seq<nat>, n: nat, m: nat)
    requires n <= m && forall j :: 0 <= j < |src| ==> src[j] < n || src[j] >= m
    ensures Kept(src, n, 0) == Kept(src, m, 0)
  {
    if src != [] {
      KeptJumps(src[..|src| - 1], n, m);
    }
  }

  lemma KeptNothing(n: nat)
    ensures Kept([], n, 0) == []
  {
  }

  lemma {:induction false} KeptAll(src: seq<nat>, n: nat, si: nat)
    ensures |Kept(src, n, si)| <= |src|
    ensures |Kept(src, n, si)| == |src| ==> Kept(src, n, si) == src
    ensures (forall j :: 0 <= j < |src| ==> src[j] < n) ==> |Kept(src, n, si)| == |src|
  {
    if src != [] {
      KeptAll(src[..|src| - 1], n, si);
      assert src == src[..|src| - 1] + [src[|src| - 1]];
    }
  }

  /** The encoder scanning for `n` at position `si`, with `delta` counted since the last integer it
      wrote, and the decoder that has read all those integers. `basic` is the number of code points
      copied at the start. */
  ghost predicate InStep(src: seq<nat>, basic: nat, n: nat, si: nat, h: nat, delta: nat, bias: nat, d: Decoder) {
    && si <= |src| && d.out == Kept(src, n, si) && h == |d.out| && d.bias == bias && d.n <= n
    && (d.i == 0 <==> h == basic) && basic <= h
    && d.n * (h + 1) + d.i + delta == n * (h + 1) + |Kept(src[..si], n, si)|
  }

  lemma StepSkip(src: seq<nat>, basic: nat, n: nat, si: nat, h: nat, delta: nat, bias: nat, d: Decoder)
    requires InStep(src, basic, n, si, h, delta, bias, d) && si < |src| && src[si] != n
    ensures InStep(src, basic, n, si + 1, h, if src[si] < n then delta + 1 else delta, bias, d)
  {
    KeptSkips(src, n, si);
    KeptGrows(src, n, si);
  }

  lemma StepEmit(src: seq<nat>, basic: nat, n: nat, si: nat, h: nat, delta: nat, bias: nat, d: Decoder)
    requires InStep(src, basic, n, si, h, delta, bias, d) && si < |src| && src[si] == n
    ensures InStep(src, basic, n, si + 1, h + 1, 0, Bias(delta, h + 1, h == basic), Inserted(d, d.i + delta))
  {
    hide Bias, Kept;
    var at := |Kept(src[..si], n, si)|;
    KeptLength(src, n, si, si);
    KeptInserts(src, n, si);
    KeptGrows(src, n, si);
    assert d.i + delta == (n - d.n) * (h + 1) + at by {
      assert n * (h + 1) == d.n * (h + 1) + (n - d.n) * (h + 1);
    }
    Quotient(n - d.n, h + 1, at, d.i + delta);
  }

  lemma Quotient(q: nat, b: nat, r: nat, x: nat)
    requires r < b && x == q * b + r
    ensures x / b == q && x % b == r
  {
    MultipleIsFar(b, x / b - q);
    assert x == b * (x / b) + x % b;
    assert b * (x / b - q) == r - x % b;
  }

  lemma JumpSum(n: nat, m: nat, h: nat)
    requires n <= m
    ensures m * (h + 1) == n * (h + 1) + (m - n) * (h + 1) && (m - n) * (h + 1) >= 0
  {
  }

  lemma MultipleIsFar(b: int, k: int)
    requires b >= 0
    ensures (k >= 1 ==> b * k >= b) && (k <= -1 ==> b * k <= -b)
  {
  }

  lemma ProductBounds(x: nat, y: nat, x': nat, y': nat)
    requires x <= x' && y <= y'
    ensures x * y <= x' * y'
  {
    assert x * y <= x' * y <= x' * y';
  }

  lemma StepNext(src: seq<nat>, basic: nat, n: nat, h: nat, delta: nat, bias: nat, d: Decoder)
    requires InStep(src, basic, n, |src|, h, delta, bias, d)
    ensures InStep(src, basic, n + 1, 0, h, delta + 1, bias, d)
  {
    KeptScanned(src, n, |src|);
    assert src[..|src|] == src && src[..0] == [];
  }

  lemma StepJump(src: seq<nat>, basic: nat, n: nat, m: nat, h: nat, delta: nat, bias: nat, d: Decoder)
    requires InStep(src, basic, n, 0, h, delta, bias, d) && n <= m
    requires forall j :: 0 <= j < |src| ==> src[j] < n || src[j] >= m
    ensures InStep(src, basic, m, 0, h, delta + (m - n) * (h + 1), bias, d)
  {
    hide Kept;
    KeptJumps(src, n, m);
    KeptNothing(n);
    KeptNothing(m);
    assert src[..0] == [];
    JumpSum(n, m, h);
  }

  /** Counters of 32 bits are wide enough for hosts. */
  lemma DeltaFits(src: seq<nat>, basic: nat, n: nat, si: nat, h: nat, delta: nat, bias: nat, d: Decoder)
    requires InStep(src, basic, n, si, h, delta, bias, d) && n <= 0x1_0000 && |src| <= MAX_CODE_POINTS
    ensures h <= |src| && delta <= 0x1_0000 * 256 + 255
  {
    hide Kept;
    KeptAll(src, n, si);
    KeptLength(src, n, si, si);
    ProductBounds(n, h + 1, 0x1_0000, 256);
    ProductBounds(0, 0, d.n, h + 1);
  }

  // ----- the encoder -----

  ghost predicate IsHost(src: seq<nat>) {
    |src| <= MAX_CODE_POINTS && forall j :: 0 <= j < |src| ==> src[j] < 0x1_0000
  }

  /** What the encoder has written so far: the prefix, the basic code points, and the digits of the
      integers after which the decoder is `d`. */
  ghost predicate Written(src: seq<nat>, basic: nat, s: seq<nat>, d: Decoder) {
    var b := Kept(src, INITIAL_N, 0);
    var lead := if b == [] then [] else b + [DELIMITER];
    && basic == |b| && |s| >= |lead| && lead == s[..|lead|]
    && (forall j :: |lead| <= j < |s| ==> IsDigit(s[j]))
    && Reads(Decoder(b, INITIAL_N, 0, INITIAL_BIAS), s[|lead|..], d)
    && |s| <= |lead| + 8 * (|d.out| - basic)
  }

  lemma {:induction false} BasicIsBasic(src: seq<nat>, j: nat)
    requires j < |Kept(src, INITIAL_N, 0)|
    ensures Kept(src, INITIAL_N, 0)[j] < INITIAL_N
  {
    if j < |Kept(src[..|src| - 1], INITIAL_N, 0)| {
      BasicIsBasic(src[..|src| - 1], j);
    }
  }

  lemma WrittenDecodes(src: seq<nat>, basic: nat, s: seq<nat>, d: Decoder)
    requires Written(src, basic, s, d)
    ensures Decode(s) == Some(d.out)
  {
    hide Kept, Decode;
    var b := Kept(src, INITIAL_N, 0);
    forall j | 0 <= j < |b|
      ensures b[j] < INITIAL_N
    {
      BasicIsBasic(src, j);
    }
    var lead := if b == [] then [] else b + [DELIMITER];
    var digits := s[|lead|..];
    assert s == lead + digits;
    Splits(b, digits);
    assert digits + [] == digits;
    assert DecodeFrom(Decoder(b, INITIAL_N, 0, INITIAL_BIAS), digits + []) == DecodeFrom(d, []);
  }

  lemma WrittenMore(src: seq<nat>, basic: nat, s: seq<nat>, d: Decoder, delta: nat)
    requires Written(src, basic, s, d) && |Digits(d.bias, delta, BASE)| <= 8 && |d.out| >= basic
    ensures Written(src, basic, s + Digits(d.bias, delta, BASE), Inserted(d, d.i + delta))
  {
    hide Kept, DecodeFrom, Bias, Digits;
    var b := Kept(src, INITIAL_N, 0);
    var start := if b == [] then 0 else |b| + 1;
    var t := Digits(d.bias, delta, BASE);
    ReadsMore(Decoder(b, INITIAL_N, 0, INITIAL_BIAS), s[start..], d, delta);
    assert (s + t)[start..] == s[start..] + t;
  }

  /** How far the output can reach: there is always room for one more integer and the terminator. */
  lemma RoomLeft(src: seq<nat>, basic: nat, n: nat, si: nat, h: nat, delta: nat, bias: nat, d: Decoder, s: seq<nat>)
    requires InStep(src, basic, n, si, h, delta, bias, d) && Written(src, basic, s, d)
    ensures |s| <= 8 * |src| && h <= |src|
    ensures si < |src| && src[si] == n ==> h < |src| && |s| + 8 <= 8 * |src|
  {
    hide Kept, Reads;
    KeptAll(src, n, si);
    if si < |src| && src[si] == n {
      KeptInserts(src, n, si);
      KeptAll(src, n, si + 1);
    }
  }

  /** The smallest code point that is not below `n`. */
  method NextCodePoint(src: seq<nat>, n: nat) returns (m: nat)
    requires IsHost(src) && exists j :: 0 <= j < |src| && src[j] >= n
    ensures n <= m < 0x1_0000 && (forall j :: 0 <= j < |src| ==> src[j] < n || src[j] >= m)
  {
    m := UINT32_MAX;
    var si := 0;
    while si < |src|
      invariant 0 <= si <= |src| && n <= m
      invariant forall j :: 0 <= j < si ==> src[j] < n || src[j] >= m
      invariant m == UINT32_MAX || m < 0x1_0000
    {
      if src[si] >= n && src[si] < m {
        m := src[si];
      }
      si := si + 1;
    }
  }

  /** One pass over the host for the code point `n`. */
  method ScanFor(src: seq<nat>, basic: nat, n: nat, dst: array<nat>, di0: nat, h0: nat, delta0: nat, bias0: nat,
                 ghost d0: Decoder)
    returns (di: nat, h: nat, delta: nat, bias: nat, ghost d: Decoder)
    requires IsHost(src) && n < 0x1_0000 && dst.Length == 8 * |src| + 8 && 4 + di0 <= dst.Length
    requires InStep(src, basic, n, 0, h0, delta0, bias0, d0) && Written(src, basic, dst[4..4 + di0], d0)
    modifies dst
    ensures 4 + di <= dst.Length && dst[..4] == old(dst[..4])
    ensures InStep(src, basic, n, |src|, h, delta, bias, d) && Written(src, basic, dst[4..4 + di], d)
  {
    hide Kept, Digits, InStep, Written, IsHost, Inserted, Bias, BiasLaw;
    var dstlen := 8 * |src| + 8;
    di, h, delta, bias, d := di0, h0, delta0, bias0, d0;
    var si := 0;
    while si < |src|
      invariant 0 <= si <= |src| && 4 + di <= dst.Length && dst[..4] == old(dst[..4])
      invariant InStep(src, basic, n, si, h, delta, bias, d) && Written(src, basic, dst[4..4 + di], d)
    {
      InStepFits(src, basic, n, si, h, delta, bias, d);
      RoomLeft(src, basic, n, si, h, delta, bias, d, dst[4..4 + di]);
      if src[si] < n {
        StepSkip(src, basic, n, si, h, delta, bias, d);
        delta := delta + 1;
        assert delta <= UINT32_MAX;
      } else if src[si] == n {
        ghost var text := dst[4..4 + di];
        ghost var digits := Digits(bias, delta, BASE);
        EightDigits(bias, delta);
        WrittenMore(src, basic, text, d, delta);
        StepEmit(src, basic, n, si, h, delta, bias, d);
        ghost var before := dst[..4 + di];
        Slices(dst[..], before, 4);
        var i := EncodeVarInt(bias, delta, dst, 4 + di, dstlen - di);
        assert digits[..i] == digits;
        Slices(dst[..4 + di + i], before, 4);
        assert dst[4..4 + di + i] == text + digits;
        di := di + i;
        bias := AdaptBias(delta, h + 1, h == basic);
        BiasIsUnique(delta, h + 1, h == basic, bias, Bias(delta, h + 1, h == basic));
        d := Inserted(d, d.i + delta);
        delta := 0;
        h := h + 1;
      } else {
        StepSkip(src, basic, n, si, h, delta, bias, d);
      }
      si := si + 1;
    }
  }

  lemma Slices(s: seq<nat>, front: seq<nat>, a: nat)
    requires a <= |front| && front <= s
    ensures s[..a] == front[..a] && s[a..] == front[a..] + s[|front|..] && s[a..|front|] == front[a..]
  {
  }

  lemma InStepFits(src: seq<nat>, basic: nat, n: nat, si: nat, h: nat, delta: nat, bias: nat, d: Decoder)
    requires InStep(src, basic, n, si, h, delta, bias, d) && n <= 0x1_0000 && IsHost(src)
    ensures h == |d.out| <= |src| && basic <= h && d.bias == bias && delta <= 0x1_0000 * 256 + 255
  {
    DeltaFits(src, basic, n, si, h, delta, bias, d);
  }

  /** One round of the main loop: on to the next code point that occurs, and a pass for it. */
  method Round(src: seq<nat>, basic: nat, n0: nat, dst: array<nat>, di0: nat, h0: nat, delta0: nat, bias0: nat,
               ghost d0: Decoder)
    returns (di: nat, h: nat, n: nat, delta: nat, bias: nat, ghost d: Decoder)
    requires IsHost(src) && n0 <= 0x1_0000 && dst.Length == 8 * |src| + 8 && 4 + di0 <= dst.Length && h0 < |src|
    requires InStep(src, basic, n0, 0, h0, delta0, bias0, d0) && Written(src, basic, dst[4..4 + di0], d0)
    modifies dst
    ensures 4 + di <= dst.Length && dst[..4] == old(dst[..4]) && n0 < n <= 0x1_0000
    ensures InStep(src, basic, n, 0, h, delta, bias, d) && Written(src, basic, dst[4..4 + di], d)
  {
    hide InStep, Written, IsHost;
    Unplaced(src, basic, n0, h0, delta0, bias0, d0);
    n := NextCodePoint(src, n0);
    Jump(src, basic, n0, n, h0, delta0, bias0, d0);
    assert !(n - n0 > (UINT32_MAX - delta0) / (h0 + 1));
    delta := delta0 + (n - n0) * (h0 + 1);
    di, h, delta, bias, d := ScanFor(src, basic, n, dst, di0, h0, delta, bias0, d0);
    StepNext(src, basic, n, h, delta, bias, d);
    n, delta := n + 1, delta + 1;
  }

  /** The basic code points, in order, and the delimiter if there are any. */
  method CopyBasic(src: seq<nat>, dst: array<nat>) returns (b: nat, di: nat)
    requires dst.Length == 8 * |src| + 8
    modifies dst
    ensures b <= |src| && 4 + di <= dst.Length && dst[..4] == old(dst[..4])
    ensures var basic := Kept(src, INITIAL_N, 0);
            |basic| == b && dst[4..4 + di] == if b == 0 then [] else basic + [DELIMITER]
  {
    di := 0;
    var si := 0;
    while si < |src| && di < 8 * |src| + 4
      invariant 0 <= si <= |src| && di <= si && dst[..4] == old(dst[..4])
      invariant dst[4..4 + di] == Kept(src[..si], INITIAL_N, 0)
    {
      assert src[..si + 1][..si] == src[..si];
      if src[si] < 0x80 {
        dst[4 + di] := src[si];
        assert dst[4..4 + di + 1] == dst[4..4 + di] + [src[si]];
        di := di + 1;
      }
      si := si + 1;
    }
    assert src[..si] == src;
    b := di;
    if di != 0 {
      dst[4 + di] := DELIMITER;
      assert dst[4..4 + di + 1] == dst[4..4 + di] + [DELIMITER];
      di := di + 1;
    }
  }

  /** While some code point has not been placed, there is one at or above the current `n`. */
  lemma SomethingLeft(src: seq<nat>, n: nat)
    requires |Kept(src, n, 0)| < |src|
    ensures exists j :: 0 <= j < |src| && src[j] >= n
  {
    KeptAll(src, n, 0);
  }

  lemma StartsInStep(src: seq<nat>, b: nat, s: seq<nat>)
    requires var basic := Kept(src, INITIAL_N, 0); |basic| == b && s == if b == 0 then [] else basic + [DELIMITER]
    ensures var d := Decoder(Kept(src, INITIAL_N, 0), INITIAL_N, 0, INITIAL_BIAS);
            InStep(src, b, INITIAL_N, 0, b, 0, INITIAL_BIAS, d) && Written(src, b, s, d)
  {
    hide DecodeFrom;
    var d := Decoder(Kept(src, INITIAL_N, 0), INITIAL_N, 0, INITIAL_BIAS);
    assert s[|s|..] == [];
    forall rest: seq<nat>
      ensures DecodeFrom(d, [] + rest) == DecodeFrom(d, rest)
    {
      assert [] + rest == rest;
    }
  }

  /** `punycode_encode` from the array of code points on. `dst` holds "xn--", then what the decoder
      turns back into `src`; nothing is cut off, no counter overflows (the branch that gives up on
      overflow is the assertion), and the terminator fits. */
  method Encode(src: seq<nat>) returns (dst: array<nat>, dstLen: nat)
    requires IsHost(src)
    ensures dst.Length == 8 * |src| + 8 && 4 <= dstLen < dst.Length && dst[dstLen] == 0
    ensures dst[..4] == ['x' as nat, 'n' as nat, '-' as nat, '-' as nat]
    ensures Decode(dst[4..dstLen]) == Some(src)
    ensures forall j :: |Kept(src, INITIAL_N, 0)| < j < dstLen - 4 ==> IsDigit(dst[4..dstLen][j])
  {
    hide Kept, InStep, Written, Decode;
    var srclen := |src|;
    var dstlen := 8 * srclen + 8;
    dst := new nat[dstlen];
    dst[0], dst[1], dst[2], dst[3] := 'x' as nat, 'n' as nat, '-' as nat, '-' as nat;
    var b: nat, di: nat := CopyBasic(src, dst);
    var h: nat, n: nat, bias: nat, delta: nat := b, INITIAL_N, INITIAL_BIAS, 0;
    ghost var d := Decoder(Kept(src, INITIAL_N, 0), INITIAL_N, 0, INITIAL_BIAS);
    StartsInStep(src, b, dst[4..4 + di]);
    while h < srclen && di < dstlen - 4
      invariant 4 + di <= dst.Length && dst[..4] == ['x' as nat, 'n' as nat, '-' as nat, '-' as nat]
      invariant n <= 0x1_0000 && InStep(src, b, n, 0, h, delta, bias, d) && Written(src, b, dst[4..4 + di], d)
      decreases 0x1_0000 - n
    {
      di, h, n, delta, bias, d := Round(src, b, n, dst, di, h, delta, bias, d);
    }
    Finished(src, b, n, h, delta, bias, d, dst[4..4 + di]);
    dst[4 + di] := 0;
    dstLen := 4 + di;
  }

  lemma Jump(src: seq<nat>, basic: nat, n: nat, m: nat, h: nat, delta: nat, bias: nat, d: Decoder)
    requires InStep(src, basic, n, 0, h, delta, bias, d) && IsHost(src) && n <= m < 0x1_0000
    requires forall j :: 0 <= j < |src| ==> src[j] < n || src[j] >= m
    ensures m - n <= (UINT32_MAX - delta) / (h + 1) && (m - n) * (h + 1) >= 0
    ensures InStep(src, basic, m, 0, h, delta + (m - n) * (h + 1), bias, d)
  {
    hide InStep;
    InStepFits(src, basic, n, 0, h, delta, bias, d);
    NoOverflow(m - n, h, delta);
    StepJump(src, basic, n, m, h, delta, bias, d);
  }

  lemma Unplaced(src: seq<nat>, basic: nat, n: nat, h: nat, delta: nat, bias: nat, d: Decoder)
    requires InStep(src, basic, n, 0, h, delta, bias, d) && h < |src|
    ensures exists j :: 0 <= j < |src| && src[j] >= n
  {
    SomethingLeft(src, n);
  }

  lemma NoOverflow(jump: nat, h: nat, delta: nat)
    requires jump < 0x1_0000 && h <= MAX_CODE_POINTS && delta <= 0x1_0000 * 256 + 255
    ensures jump <= (UINT32_MAX - delta) / (h + 1)
  {
    ProductBounds(jump, h + 1, 0x1_0000, 256);
    var q, r := (UINT32_MAX - delta) / (h + 1), (UINT32_MAX - delta) % (h + 1);
    assert (h + 1) * q + r == UINT32_MAX - delta;
    if q < jump {
      ProductBounds(q, h + 1, jump, h + 1);
    }
  }

  lemma Finished(src: seq<nat>, basic: nat, n: nat, h: nat, delta: nat, bias: nat, d: Decoder, s: seq<nat>)
    requires InStep(src, basic, n, 0, h, delta, bias, d) && Written(src, basic, s, d)
    ensures |s| <= 8 * |src| && h <= |src|
    ensures h == |src| ==> Decode(s) == Some(src)
    ensures forall j :: |Kept(src, INITIAL_N, 0)| < j < |s| ==> IsDigit(s[j])
  {
    hide Kept, Decode;
    RoomLeft(src, basic, n, 0, h, delta, bias, d, s);
    KeptAll(src, n, 0);
    WrittenDecodes(src, basic, s, d);
  }
}
