/**
 The host-label encoder of section 6.3 of RFC 3492, proved against the decoder
 of section 6.2 of the same document.
 */
module Punycode {
  import opened Wrappers
  import opened PunycodeDecoder

  const BASE := 36
  const T_MIN := 1
  const T_MAX := 26
  const SKEW := 38
  const DAMP := 700
  const INITIAL_BIAS := 72
  const INITIAL_N := 128
  const MAX_INT32 := 0x7FFF_FFFF
  const MAX_CODE_POINT := 0x10FFFF

  /** What a Go string yields when it is read as runes. */
  type CodePoint = c: int | 0 <= c <= MAX_CODE_POINT

  // ---------------------------------------------------------------------
  // Thresholds and bias (sections 5 and 6.1)

  function Threshold(k: int, bias: int): (t: int)
    ensures T_MIN <= t <= T_MAX
  {
    if k <= bias then T_MIN
    else if k >= bias + T_MAX then T_MAX
    else k - bias
  }

  lemma MulAtLeast(d: nat, k: int)
    requires k >= 1
    ensures d * k >= d
  {
  }

  lemma QuotientSmaller(x: nat, b: nat)
    requires b > 0
    ensures 0 <= x / b <= x
  {
    MulAtLeast(x / b, b);
  }

  function ScaledBias(delta: nat, k: nat): nat {
    if delta > ((BASE - T_MIN) * T_MAX) / 2 then
      ScaledBias(delta / (BASE - T_MIN), k + BASE)
    else
      QuotientSmaller((BASE - T_MIN + 1) * delta, delta + SKEW);
      k + (BASE - T_MIN + 1) * delta / (delta + SKEW)
  }

  function AdaptedBias(delta: nat, numPoints: nat, firstTime: bool): nat
    requires numPoints > 0
  {
    var damped := if firstTime then delta / DAMP else delta / 2;
    QuotientSmaller(damped, numPoints);
    ScaledBias(damped + damped / numPoints, 0)
  }

  method Adapt(delta: nat, numPoints: nat, firstTime: bool) returns (bias: nat)
    requires numPoints > 0
    ensures bias == AdaptedBias(delta, numPoints, firstTime) == NextBias(delta, numPoints, firstTime)
  {
    BiasAgrees(delta, numPoints, firstTime);
    var d: nat := if firstTime then delta / DAMP else delta / 2;
    QuotientSmaller(d, numPoints);
    d := d + d / numPoints;
    var k: nat := 0;
    while d > ((BASE - T_MIN) * T_MAX) / 2
      invariant ScaledBias(d, k) == AdaptedBias(delta, numPoints, firstTime)
    {
      d := d / (BASE - T_MIN);
      k := k + BASE;
    }
    QuotientSmaller((BASE - T_MIN + 1) * d, d + SKEW);
    bias := k + (BASE - T_MIN + 1) * d / (d + SKEW);
  }

  /** Encoder and decoder agree on thresholds and bias, each by its own account. */
  lemma ThresholdAgrees(k: nat, bias: nat)
    ensures Threshold(k, bias) == DigitThreshold(k, bias)
  {
  }

  lemma {:induction false} ScaledAgrees(delta: nat, k: nat)
    ensures ScaledBias(delta, k) == BiasOf(delta, k)
    decreases delta
  {
    if delta <= 455 {
    } else {
      ScaledAgrees(delta / 35, k + 36);
    }
  }

  lemma BiasAgrees(delta: nat, numPoints: nat, firstTime: bool)
    requires numPoints > 0
    ensures AdaptedBias(delta, numPoints, firstTime) == NextBias(delta, numPoints, firstTime)
  {
    var damped := if firstTime then delta / 700 else delta / 2;
    QuotientSmaller(damped, numPoints);
    ScaledAgrees(damped + damped / numPoints, 0);
  }

  /** `d` divided by 35 so many times. */
  function Shrunk(d: nat, times: nat): nat {
    if times == 0 then d else Shrunk(d, times - 1) / 35
  }

  lemma {:induction false} ShrunkOnce(d: nat, times: nat)
    ensures Shrunk(d / 35, times) == Shrunk(d, times + 1)
  {
    if times == 0 {
      assert Shrunk(d, 1) == Shrunk(d, 0) / 35;
    } else {
      ShrunkOnce(d, times - 1);
    }
  }

  lemma {:induction false} ScaledMeaning(d: nat, k: nat) returns (times: nat)
    ensures Shrunk(d, times) <= 455 && forall j :: 0 <= j < times ==> Shrunk(d, j) > 455
    ensures ScaledBias(d, k) == k + 36 * times + 36 * Shrunk(d, times) / (Shrunk(d, times) + 38)
    decreases d
  {
    if d <= 455 {
      times := 0;
    } else {
      var fewer := ScaledMeaning(d / 35, k + 36);
      times := fewer + 1;
      ShrunkOnce(d, fewer);
      forall j | 0 <= j < times ensures Shrunk(d, j) > 455 {
        if j > 0 { ShrunkOnce(d, j - 1); }
      }
    }
  }

  /** The bias in numbers: 36 for each division by 35 that brings the damped delta down to
      455, and what 36 parts of the rest are of the rest and 38. */
  lemma BiasMeaning(delta: nat, numPoints: nat, firstTime: bool) returns (times: nat)
    requires numPoints > 0
    ensures var e := if firstTime then delta / 700 else delta / 2;
      var d := e + e / numPoints;
      && d >= 0 && Shrunk(d, times) <= 455 && (forall j :: 0 <= j < times ==> Shrunk(d, j) > 455)
      && AdaptedBias(delta, numPoints, firstTime) == 36 * times + 36 * Shrunk(d, times) / (Shrunk(d, times) + 38)
  {
    var e: nat := if firstTime then delta / 700 else delta / 2;
    QuotientSmaller(e, numPoints);
    times := ScaledMeaning(e + e / numPoints, 0);
  }

  function Digit(d: nat): (c: char)
    requires d < BASE
    ensures DigitValue(c) == Some(d) && LowerDigit(c)
  {
    if d < 26 then (d + 'a' as int) as char else (d - 26 + '0' as int) as char
  }

  predicate LowerDigit(c: char) {
    'a' <= c <= 'z' || '0' <= c <= '9'
  }

  // ---------------------------------------------------------------------
  // Generalized variable-length integers

  /** The value of the digit written for a `q` that the threshold `t` does not end. */
  function Low(q: nat, t: nat): (d: nat)
    requires T_MIN <= t <= T_MAX && t <= q
    ensures t <= d < BASE
  {
    t + (q - t) % (BASE - t)
  }

  /** What is left to write after that digit. */
  function High(q: nat, t: nat): (q': nat)
    requires T_MIN <= t <= T_MAX && t <= q
    ensures q' < q
  {
    QuotientSmaller(q - t, BASE - t);
    (q - t) / (BASE - t)
  }

  /** The digits the encoder writes for `q`. */
  function Digits(q: nat, k: nat, bias: nat): (s: string)
    ensures s != "" && forall j :: 0 <= j < |s| ==> LowerDigit(s[j])
    decreases q
  {
    var t := Threshold(k, bias);
    if q < t then [Digit(q)]
    else [Digit(Low(q, t))] + Digits(High(q, t), k + BASE, bias)
  }

  lemma ReadOne(s: string, k: nat, bias: nat, w: nat, i: nat, d: nat)
    requires s != "" && DigitValue(s[0]) == Some(d)
    ensures var t := Threshold(k, bias);
      ReadDelta(s, k, bias, w, i) ==
        if d < t then Some((i + w * d, s[1..])) else ReadDelta(s[1..], k + BASE, bias, w * (BASE - t), i + d * w)
  {
    assert d * w == w * d;
    ThresholdAgrees(k, bias);
  }

  lemma ReadMore(q: nat, k: nat, bias: nat, w: nat, i: nat, rest: string, t: nat, w': nat, i': nat)
    requires t == Threshold(k, bias) <= q && w' == w * (BASE - t) && i' == i + Low(q, t) * w
    requires ReadDelta(Digits(High(q, t), k + BASE, bias) + rest, k + BASE, bias, w', i')
          == Some((i' + w' * High(q, t), rest))
    ensures ReadDelta(Digits(q, k, bias) + rest, k, bias, w, i) == Some((i + w * q, rest))
  {
    var s := Digits(q, k, bias) + rest;
    assert s[1..] == Digits(High(q, t), k + BASE, bias) + rest;
    ReadOne(s, k, bias, w, i, Low(q, t));
    WeightedSplit(q, t, w, i);
  }

  lemma WeightedSplit(q: nat, t: nat, w: nat, i: nat)
    requires T_MIN <= t <= T_MAX && t <= q
    ensures (i + Low(q, t) * w) + (w * (BASE - t)) * High(q, t) == i + w * q
  {
    var b, d, e := BASE - t, Low(q, t), High(q, t);
    assert q == d + b * e;
    Distribute(w, b, d, e);
  }

  lemma Distribute(w: nat, b: nat, d: nat, e: nat)
    ensures d * w + (w * b) * e == w * (d + b * e)
  {
    assert (w * b) * e == w * (b * e);
  }

  /** Reading back the digits of `q` adds exactly `w * q`, whatever follows them. */
  lemma {:induction false} ReadDigits(q: nat, k: nat, bias: nat, w: nat, i: nat, rest: string)
    ensures ReadDelta(Digits(q, k, bias) + rest, k, bias, w, i) == Some((i + w * q, rest))
    decreases q
  {
    var t := Threshold(k, bias);
    if q < t {
      assert (Digits(q, k, bias) + rest)[1..] == rest;
      ReadOne(Digits(q, k, bias) + rest, k, bias, w, i, q);
    } else {
      ReadDigits(High(q, t), k + BASE, bias, w * (BASE - t), i + Low(q, t) * w, rest);
      ReadMore(q, k, bias, w, i, rest, t, w * (BASE - t), i + Low(q, t) * w);
    }
  }

  // ---------------------------------------------------------------------
  // The part of the input that the decoder has rebuilt so far

  function Below(s: seq<CodePoint>, n: int): seq<nat> {
    if s == [] then []
    else Below(s[..|s| - 1], n) + if s[|s| - 1] < n then [s[|s| - 1]] else []
  }

  lemma {:induction false} BelowConcat(a: seq<CodePoint>, b: seq<CodePoint>, n: int)
    ensures Below(a + b, n) == Below(a, n) + Below(b, n)
    decreases |b|
  {
    if b == [] {
      assert a + b == a;
    } else {
      var init := b[..|b| - 1];
      assert (a + b)[..|a + b| - 1] == a + init;
      BelowConcat(a, init, n);
    }
  }

  lemma {:induction false} BelowSame(s: seq<CodePoint>, n: int, m: int)
    requires n <= m && forall k :: 0 <= k < |s| ==> s[k] < n || m <= s[k]
    ensures Below(s, n) == Below(s, m)
  {
    if s == [] {
    } else {
      BelowSame(s[..|s| - 1], n, m);
    }
  }

  lemma {:induction false} BelowAll(s: seq<CodePoint>, n: int)
    ensures |Below(s, n)| <= |s|
    ensures |Below(s, n)| < |s| <==> exists k :: 0 <= k < |s| && s[k] >= n
    ensures |Below(s, n)| == |s| ==> Below(s, n) == s
  {
    if s == [] {
    } else {
      var init, last := s[..|s| - 1], s[|s| - 1];
      assert s == init + [last];
      BelowAll(init, n);
      if |Below(s, n)| < |s| && last < n {
        var k :| 0 <= k < |init| && init[k] >= n;
        assert s[k] >= n;
      }
    }
  }

  lemma {:induction false} BelowGrows(s: seq<CodePoint>, n: int)
    ensures |Below(s, n)| <= |Below(s, n + 1)|
    ensures (exists k :: 0 <= k < |s| && s[k] == n) ==> |Below(s, n)| < |Below(s, n + 1)|
  {
    if s == [] {
    } else {
      var init := s[..|s| - 1];
      BelowGrows(init, n);
      if k :| 0 <= k < |s| && s[k] == n && s[|s| - 1] != n {
        assert init[k] == n;
      }
    }
  }

  /** Elements up to `n` in the first `j` places, elements below `n` after them. */
  function Kept(input: seq<CodePoint>, n: int, j: nat): seq<nat>
    requires j <= |input|
  {
    Below(input[..j], n + 1) + Below(input[j..], n)
  }

  function Passed(input: seq<CodePoint>, n: int, j: nat): nat
    requires j <= |input|
  {
    |Below(input[..j], n + 1)|
  }

  /** How scanning one more place changes what is kept. */
  lemma KeptStep(input: seq<CodePoint>, n: int, j: nat)
    requires j < |input|
    ensures input[j] < n ==> Kept(input, n, j + 1) == Kept(input, n, j)
    ensures input[j] > n ==> Kept(input, n, j + 1) == Kept(input, n, j)
    ensures input[j] == n ==>
      var p := Passed(input, n, j);
      Kept(input, n, j + 1) == Kept(input, n, j)[..p] + [n] + Kept(input, n, j)[p..]
    ensures Passed(input, n, j + 1) == Passed(input, n, j) + if input[j] <= n then 1 else 0
  {
    assert input[..j + 1][..j] == input[..j];
    assert input[j..] == [input[j]] + input[j + 1..];
    BelowConcat([input[j]], input[j + 1..], n);
    assert [input[j]][..0] == [];
    assert Below([input[j]], n) == if input[j] < n then [input[j]] else [];
    assert Below(input[..j + 1], n + 1) == Below(input[..j], n + 1) + if input[j] <= n then [input[j]] else [];
  }

  lemma KeptBound(input: seq<CodePoint>, n: int, j: nat)
    requires j <= |input|
    ensures |Kept(input, n, j)| <= |input|
  {
    BelowAll(input[..j], n + 1);
    BelowAll(input[j..], n);
  }

  lemma KeptWhole(input: seq<CodePoint>, n: int)
    ensures |Kept(input, n, 0)| == |input| ==> Kept(input, n, 0) == input
  {
    KeptEnds(input, n);
    BelowAll(input, n);
  }

  lemma KeptEnds(input: seq<CodePoint>, n: int)
    ensures Kept(input, n, 0) == Below(input, n) && Passed(input, n, 0) == 0
    ensures Kept(input, n, |input|) == Below(input, n + 1)
    ensures Passed(input, n, |input|) == |Kept(input, n, |input|)|
  {
    assert input[0..] == input && input[..|input|] == input;
  }

  // ---------------------------------------------------------------------
  // Encoder and decoder in step

  /** `digits` takes the decoder from `a` to `b`, whatever follows. */
  ghost predicate Leads(a: Decoder, digits: string, b: Decoder) {
    forall rest: string {:trigger digits + rest} :: DecodeFrom(a, digits + rest) == DecodeFrom(b, rest)
  }

  lemma LeadsOn(a: Decoder, digits: string, b: Decoder, delta: nat)
    requires Leads(a, digits, b)
    ensures Leads(a, digits + Digits(delta, BASE, b.bias), Inserted(b, b.i + delta))
  {
    var more := Digits(delta, BASE, b.bias);
    forall rest: string {:trigger (digits + more) + rest}
      ensures DecodeFrom(a, (digits + more) + rest) == DecodeFrom(Inserted(b, b.i + delta), rest)
    {
      assert (digits + more) + rest == digits + (more + rest);
      ReadDigits(delta, BASE, b.bias, 1, b.i, rest);
    }
  }

  lemma LeadsNowhere(a: Decoder)
    ensures Leads(a, "", a)
  {
    assert forall rest: string {:trigger "" + rest} :: "" + rest == rest;
  }

  lemma LeadsToEnd(a: Decoder, digits: string, b: Decoder)
    requires Leads(a, digits, b)
    ensures DecodeFrom(a, digits) == Some(b.output)
  {
    assert digits + "" == digits;
  }

  /** `r * w`, kept away from multiplication. */
  function Rows(r: nat, w: nat): nat {
    if r == 0 then 0 else Rows(r - 1, w) + w
  }

  lemma {:induction false} RowsProduct(r: nat, w: nat)
    ensures Rows(r, w) == r * w
  {
    if r == 0 {
    } else {
      RowsProduct(r - 1, w);
      assert (r - 1) * w + w == r * w;
    }
  }

  lemma {:induction false} RowsAdd(a: nat, b: nat, w: nat)
    ensures Rows(a + b, w) == Rows(a, w) + Rows(b, w)
  {
    if b == 0 {
    } else {
      RowsAdd(a, b - 1, w);
    }
  }

  /** The decoder's counters and the encoder's delta name the same place. */
  ghost predicate InStep(input: seq<CodePoint>, n: nat, j: nat, delta: nat, st: Decoder) {
    && j <= |input|
    && st.n <= n
    && st.output == Kept(input, n, j)
    && st.i <= |st.output|
    && delta + st.i == Rows(n - st.n, |st.output| + 1) + Passed(input, n, j)
  }

  lemma InsertInStep(input: seq<CodePoint>, n: nat, j: nat, delta: nat, st: Decoder)
    requires InStep(input, n, j, delta, st) && j < |input| && input[j] == n
    ensures var st' := Inserted(st, st.i + delta);
      && st'.n == n && st'.i > 0 && |st'.output| == |st.output| + 1
      && InStep(input, n, j + 1, 0, st')
  {
    var points := |st.output| + 1;
    var p := Passed(input, n, j);
    KeptStep(input, n, j);
    RowsProduct(n - st.n, points);
    DivModUnique(delta + st.i, points, n - st.n, p);
  }

  lemma DivModUnique(x: nat, d: nat, q: nat, r: nat)
    requires r < d && x == q * d + r
    ensures x / d == q && x % d == r
  {
    var e := x / d;
    assert x == d * e + x % d;
    if e < q {
      MulAtLeast(d, q - e);
    }
    if e > q {
      MulAtLeast(d, e - q);
    }
  }

  lemma AdvanceInStep(input: seq<CodePoint>, n: nat, m: nat, delta: nat, st: Decoder)
    requires InStep(input, n, 0, delta, st) && n <= m
    requires forall k :: 0 <= k < |input| ==> input[k] < n || m <= input[k]
    ensures InStep(input, m, 0, delta + Rows(m - n, |st.output| + 1), st)
  {
    KeptEnds(input, n);
    KeptEnds(input, m);
    BelowSame(input, n, m);
    RowsAdd(n - st.n, m - n, |st.output| + 1);
  }

  lemma NextRound(input: seq<CodePoint>, n: nat, delta: nat, st: Decoder)
    requires InStep(input, n, |input|, delta, st)
    ensures InStep(input, n + 1, 0, delta + 1, st)
  {
    KeptEnds(input, n);
    KeptEnds(input, n + 1);
  }

  /** No delta for a text of this length is larger. */
  function MaximumDelta(length: nat): nat {
    (MAX_CODE_POINT + 2) * (length + 1)
  }

  /** The encoder's delta stays small: for fewer than 2^42 code points, and one needs four
      bytes, it never leaves a signed word of 64 bits. */
  lemma DeltaBounded(input: seq<CodePoint>, n: nat, j: nat, delta: nat, st: Decoder)
    requires InStep(input, n, j, delta, st) && n <= MAX_CODE_POINT + 1
    ensures delta <= MaximumDelta(|input|)
    ensures |input| < 0x400_0000_0000 ==> MaximumDelta(|input|) < 0x8000_0000_0000_0000
  {
    InStepFits(input, n, j, delta, st);
    assert Passed(input, n, j) <= |Kept(input, n, j)|;
    hide Kept, Passed;
    RowsProduct(n - st.n, |st.output| + 1);
    ProductGrows(n - st.n, MAX_CODE_POINT + 1, |st.output| + 1, |input| + 1);
  }

  lemma ProductGrows(a: nat, b: nat, c: nat, d: nat)
    requires a <= b && c <= d
    ensures a * c <= b * d
  {
  }

  // ---------------------------------------------------------------------
  // The encoder (section 6.3)

  function BasicChars(s: seq<CodePoint>): string {
    if s == [] then ""
    else BasicChars(s[..|s| - 1]) + if s[|s| - 1] < INITIAL_N then [s[|s| - 1] as char] else ""
  }

  lemma {:induction false} BasicCharsBelow(s: seq<CodePoint>)
    ensures |BasicChars(s)| == |Below(s, INITIAL_N)|
    ensures forall k :: 0 <= k < |BasicChars(s)| ==> BasicChars(s)[k] as int == Below(s, INITIAL_N)[k] < 0x80
  {
    if s == [] {
    } else {
      BasicCharsBelow(s[..|s| - 1]);
    }
  }

  /** What the encoder writes before the first digit. */
  function Head(input: seq<CodePoint>): string {
    BasicChars(input) + if BasicChars(input) == "" then "" else "-"
  }

  function Start(input: seq<CodePoint>): Decoder {
    InitialDecoder(Below(input, INITIAL_N))
  }

  /** A text of lower-case digits after the delimiter splits where the encoder split it. */
  lemma {:induction false} SplitsAtDelimiter(basics: string, digits: string)
    requires forall k :: 0 <= k < |digits| ==> LowerDigit(digits[k])
    ensures basics != "" ==> BasicCount(basics + "-" + digits) == |basics|
    ensures BasicCount(digits) == 0
    decreases |digits|
  {
    if digits == "" {
    } else {
      var init := digits[..|digits| - 1];
      SplitsAtDelimiter(basics, init);
      var s := basics + "-" + digits;
      assert s[..|s| - 1] == basics + "-" + init;
    }
  }

  /** The written text so far takes the decoder to `st`, which is in step with the encoder. */
  ghost predicate Mirrors(input: seq<CodePoint>, n: nat, j: nat, delta: nat, bias: nat, handled: nat,
                          out: string, st: Decoder)
  {
    && Head(input) <= out
    && (forall k :: |Head(input)| <= k < |out| ==> LowerDigit(out[k]))
    && Leads(Start(input), out[|Head(input)|..], st)
    && InStep(input, n, j, delta, st)
    && bias == st.bias
    && |BasicChars(input)| <= handled == |st.output| <= |input|
    && (handled == |BasicChars(input)| <==> st.i == 0)
  }

  lemma MirrorsFirst(input: seq<CodePoint>)
    ensures Mirrors(input, INITIAL_N, 0, 0, INITIAL_BIAS, |BasicChars(input)|, Head(input), Start(input))
  {
    KeptEnds(input, INITIAL_N);
    BelowAll(input, INITIAL_N);
    BasicCharsBelow(input);
    assert Head(input)[|Head(input)|..] == "";
    LeadsNowhere(Start(input));
  }

  lemma InsertedBias(st: Decoder, delta: nat)
    ensures Inserted(st, st.i + delta).bias == AdaptedBias(delta, |st.output| + 1, st.i == 0)
  {
    assert (st.i + delta) - st.i == delta;
    BiasAgrees(delta, |st.output| + 1, st.i == 0);
  }

  lemma InStepFits(input: seq<CodePoint>, n: nat, j: nat, delta: nat, st: Decoder)
    requires InStep(input, n, j, delta, st)
    ensures |st.output| <= |input|
  {
    KeptBound(input, n, j);
  }

  lemma MirrorsInsert(input: seq<CodePoint>, n: nat, j: nat, delta: nat, bias: nat, handled: nat, out: string,
                      st: Decoder)
    requires Mirrors(input, n, j, delta, bias, handled, out, st) && j < |input| && input[j] == n
    ensures Mirrors(input, n, j + 1, 0, AdaptedBias(delta, handled + 1, handled == |BasicChars(input)|),
                    handled + 1, out + Digits(delta, BASE, bias), Inserted(st, st.i + delta))
  {
    hide AdaptedBias, Leads, InStep, Kept, Head, BasicChars, Start;
    var h, more := |Head(input)|, Digits(delta, BASE, bias);
    assert (out + more)[h..] == out[h..] + more;
    assert Leads(Start(input), (out + more)[h..], Inserted(st, st.i + delta)) by {
      LeadsOn(Start(input), out[h..], st, delta);
    }
    assert Inserted(st, st.i + delta).bias == AdaptedBias(delta, handled + 1, handled == |BasicChars(input)|) by {
      InsertedBias(st, delta);
      assert (st.i == 0) == (handled == |BasicChars(input)|);
    }
    InsertInStep(input, n, j, delta, st);
    InStepFits(input, n, j + 1, 0, Inserted(st, st.i + delta));
  }

  lemma MirrorsSkip(input: seq<CodePoint>, n: nat, j: nat, delta: nat, bias: nat, handled: nat, out: string,
                    st: Decoder)
    requires Mirrors(input, n, j, delta, bias, handled, out, st) && j < |input| && input[j] != n
    ensures Mirrors(input, n, j + 1, delta + if input[j] < n then 1 else 0, bias, handled, out, st)
  {
    KeptStep(input, n, j);
  }

  lemma MirrorsAdvance(input: seq<CodePoint>, n: nat, m: nat, delta: nat, bias: nat, handled: nat, out: string,
                       st: Decoder)
    requires Mirrors(input, n, 0, delta, bias, handled, out, st) && n <= m
    requires forall k :: 0 <= k < |input| ==> input[k] < n || m <= input[k]
    ensures (m - n) * (handled + 1) >= 0
    ensures Mirrors(input, m, 0, delta + (m - n) * (handled + 1), bias, handled, out, st)
  {
    AdvanceInStep(input, n, m, delta, st);
    RowsProduct(m - n, handled + 1);
  }

  lemma MirrorsNext(input: seq<CodePoint>, n: nat, delta: nat, bias: nat, handled: nat, out: string, st: Decoder)
    requires Mirrors(input, n, |input|, delta, bias, handled, out, st)
    ensures Mirrors(input, n + 1, 0, delta + 1, bias, handled, out, st)
    ensures handled == |Below(input, n + 1)|
  {
    NextRound(input, n, delta, st);
    KeptEnds(input, n);
  }

  lemma DeltaFits(input: seq<CodePoint>, n: nat, j: nat, delta: nat, bias: nat, handled: nat, out: string, st: Decoder)
    requires Mirrors(input, n, j, delta, bias, handled, out, st) && n <= MAX_CODE_POINT + 1
    ensures delta <= MaximumDelta(|input|)
  {
    DeltaBounded(input, n, j, delta, st);
  }

  /** Before all is handled, some code point is still to come. */
  lemma MirrorsOpen(input: seq<CodePoint>, n: nat, delta: nat, bias: nat, handled: nat, out: string, st: Decoder)
    requires Mirrors(input, n, 0, delta, bias, handled, out, st)
    ensures handled == |Below(input, n)|
    ensures handled < |input| ==> exists k :: 0 <= k < |input| && input[k] >= n
  {
    KeptEnds(input, n);
    BelowAll(input, n);
  }

  lemma MirrorsDone(input: seq<CodePoint>, n: nat, delta: nat, bias: nat, handled: nat, out: string, st: Decoder)
    requires Mirrors(input, n, 0, delta, bias, handled, out, st) && handled == |input|
    ensures Decode(out) == Some(input)
    ensures Head(input) <= out && forall k :: |Head(input)| <= k < |out| ==> LowerDigit(out[k])
  {
    KeptWhole(input, n);
    LeadsToEnd(Start(input), out[|Head(input)|..], st);
    DecodesAs(input, out);
  }

  lemma DecodesAs(input: seq<CodePoint>, out: string)
    requires Head(input) <= out && forall k :: |Head(input)| <= k < |out| ==> LowerDigit(out[k])
    requires DecodeFrom(Start(input), out[|Head(input)|..]) == Some(input)
    ensures Decode(out) == Some(input)
  {
    var digits := out[|Head(input)|..];
    assert out == Head(input) + digits;
    SplitsAtHead(input, digits);
    BasicCodePoints(input);
    var b := BasicCount(out);
    assert forall k :: 0 <= k < b ==> out[k] == out[..b][k];
  }

  lemma SplitsAtHead(input: seq<CodePoint>, digits: string)
    requires forall k :: 0 <= k < |digits| ==> LowerDigit(digits[k])
    ensures var s := Head(input) + digits;
      var b := BasicCount(s);
      && s[..b] == BasicChars(input)
      && (if b > 0 then s[b + 1..] else s) == digits
  {
    var basics, s := BasicChars(input), Head(input) + digits;
    SplitsAtDelimiter(basics, digits);
    if basics == "" {
      assert s == digits;
    } else {
      assert s == basics + "-" + digits;
      assert s[|basics| + 1..] == digits;
    }
  }

  lemma BasicCodePoints(input: seq<CodePoint>)
    ensures CodePoints(BasicChars(input)) == Below(input, INITIAL_N)
    ensures forall k :: 0 <= k < |BasicChars(input)| ==> BasicChars(input)[k] as int < 0x80
  {
    BasicCharsBelow(input);
  }

  /** The least code point that is not below `n`. */
  method NextCodePoint(input: seq<CodePoint>, n: nat) returns (m: nat)
    requires exists k :: 0 <= k < |input| && input[k] >= n
    ensures exists k :: 0 <= k < |input| && input[k] == m
    ensures n <= m && forall k :: 0 <= k < |input| ==> input[k] < n || m <= input[k]
  {
    m := MAX_INT32;
    for j := 0 to |input|
      invariant m == MAX_INT32 || (n <= m && exists k :: 0 <= k < |input| && input[k] == m)
      invariant forall k :: 0 <= k < j && input[k] >= n ==> m <= input[k]
    {
      if input[j] >= n && input[j] < m {
        m := input[j];
      }
    }
  }

  /** Appends the digits of `delta`. */
  method WriteDelta(out: string, delta: nat, bias: nat) returns (longer: string)
    ensures longer == out + Digits(delta, BASE, bias)
  {
    longer := out;
    var q: nat, k: nat := delta, BASE;
    while true
      invariant longer + Digits(q, k, bias) == out + Digits(delta, BASE, bias)
      decreases q
    {
      var t := Threshold(k, bias);
      if q < t { break; }
      longer := longer + [Digit(Low(q, t))];
      q := High(q, t);
      k := k + BASE;
    }
    longer := longer + [Digit(q)];
  }

  /** One pass over the input for the code point `n`. */
  method Scan(input: seq<CodePoint>, n: nat, delta0: nat, bias0: nat, handled0: nat, basic: nat, out0: string,
              ghost st0: Decoder)
    returns (delta: nat, bias: nat, handled: nat, out: string, ghost st: Decoder)
    requires basic == |BasicChars(input)| && n <= MAX_CODE_POINT
    requires Mirrors(input, n, 0, delta0, bias0, handled0, out0, st0)
    ensures Mirrors(input, n, |input|, delta, bias, handled, out, st) && delta <= MaximumDelta(|input|)
  {
    hide Mirrors, MaximumDelta, Digits, AdaptedBias, BasicChars, Inserted;
    delta, bias, handled, out, st := delta0, bias0, handled0, out0, st0;
    DeltaFits(input, n, 0, delta, bias, handled, out, st);
    for j := 0 to |input|
      invariant Mirrors(input, n, j, delta, bias, handled, out, st)
      invariant delta <= MaximumDelta(|input|)
    {
      var c := input[j];
      if c != n { MirrorsSkip(input, n, j, delta, bias, handled, out, st); }
      if c < n {
        delta := delta + 1;
      }
      if c == n {
        MirrorsInsert(input, n, j, delta, bias, handled, out, st);
        st := Inserted(st, st.i + delta);
        out := WriteDelta(out, delta, bias);
        bias := Adapt(delta, handled + 1, handled == basic);
        delta := 0;
        handled := handled + 1;
      }
      DeltaFits(input, n, j + 1, delta, bias, handled, out, st);
    }
  }

  /** Copies the basic code points, in order. */
  method WriteBasics(input: seq<CodePoint>) returns (out: string)
    ensures out == BasicChars(input)
  {
    out := "";
    for j := 0 to |input|
      invariant out == BasicChars(input[..j])
    {
      assert input[..j + 1][..j] == input[..j];
      if input[j] < 0x80 {
        out := out + [input[j] as char];
      }
    }
    assert input[..|input|] == input;
  }

  /** Goes on to the next code point and writes its occurrences. */
  method Round(input: seq<CodePoint>, n0: nat, delta0: nat, bias0: nat, handled0: nat, basic: nat, out0: string,
               ghost st0: Decoder)
    returns (n: nat, delta: nat, bias: nat, handled: nat, out: string, ghost st: Decoder)
    requires basic == |BasicChars(input)| && handled0 < |input|
    requires Mirrors(input, n0, 0, delta0, bias0, handled0, out0, st0)
    ensures Mirrors(input, n, 0, delta, bias, handled, out, st)
    ensures handled0 < handled && n0 < n <= MAX_CODE_POINT + 1 && delta <= MaximumDelta(|input|)
  {
    hide Mirrors, MaximumDelta, BasicChars, Below;
    MirrorsOpen(input, n0, delta0, bias0, handled0, out0, st0);
    n := NextCodePoint(input, n0);
    assert n <= MAX_CODE_POINT;
    MirrorsAdvance(input, n0, n, delta0, bias0, handled0, out0, st0);
    delta := delta0 + (n - n0) * (handled0 + 1);
    DeltaFits(input, n, 0, delta, bias0, handled0, out0, st0);
    assert delta <= MaximumDelta(|input|);
    MirrorsOpen(input, n, delta, bias0, handled0, out0, st0);
    BelowGrows(input, n);
    delta, bias, handled, out, st := Scan(input, n, delta, bias0, handled0, basic, out0, st0);
    MirrorsNext(input, n, delta, bias, handled, out, st);
    delta := delta + 1;
    n := n + 1;
    DeltaFits(input, n, 0, delta, bias, handled, out, st);
  }

  method Encode(input: seq<CodePoint>) returns (out: string)
    ensures Decode(out) == Some(input)
    ensures Head(input) <= out && forall k :: |Head(input)| <= k < |out| ==> LowerDigit(out[k])
  {
    out := WriteBasics(input);
    var n: nat, delta: nat, bias: nat := INITIAL_N, 0, INITIAL_BIAS;
    var basic: nat := |out|;
    var handled: nat := basic;
    if basic > 0 {
      out := out + "-";
    }

    assert out == Head(input);
    hide Mirrors, MaximumDelta, BasicChars, Head, Start, Below;
    ghost var st := Start(input);
    MirrorsFirst(input);
    while handled < |input|
      invariant Mirrors(input, n, 0, delta, bias, handled, out, st)
      invariant n <= MAX_CODE_POINT + 1 && delta <= MaximumDelta(|input|)
      decreases |input| - handled
    {
      n, delta, bias, handled, out, st := Round(input, n, delta, bias, handled, basic, out, st);
    }
    MirrorsDone(input, n, delta, bias, handled, out, st);
  }
}
