/**
 There is one lower-case Punycode text for a sequence of code points: whatever the decoder
 of RFC 3492 turns into the sequence is the text the encoder writes.
 */
module PunycodeUnique {
  import opened Wrappers
  import opened PunycodeDecoder
  import opened Punycode

  // ---------------------------------------------------------------------
  // One text for one number

  /** Lower-case digits that are read as a number are the digits written for it. */
  lemma {:induction false} ReadBack(s: string, k: nat, bias: nat, w: nat, i: nat) returns (q: nat)
    requires AllLower(s) && ReadDelta(s, k, bias, w, i).Some?
    ensures var (grown, rest) := ReadDelta(s, k, bias, w, i).value;
      grown == i + w * q && s == Digits(q, k, bias) + rest
    decreases |s|
  {
    hide ReadDelta, Threshold, AllLower, LowerDigit, DigitValue;
    FirstDigit(s, k, bias, w, i);
    var d, t := DigitValue(s[0]).value, Threshold(k, bias);
    ReadOne(s, k, bias, w, i, d);
    if d < t {
      q := d;
      Commutes(d, w);
      OneDigit(d, k, bias);
    } else {
      var wider := w * (36 - t);
      var high := ReadBack(s[1..], k + 36, bias, wider, i + d * w);
      var (grown, rest) := ReadDelta(s, k, bias, w, i).value;
      q := MoreBack(grown, i, w, d, t, wider, high, k, bias);
      hide Digits;
      assert s == [Digit(d)] + (Digits(high, k + 36, bias) + rest);
    }
  }

  lemma MoreBack(grown: nat, i: nat, w: nat, d: nat, t: nat, wider: nat, high: nat, k: nat, bias: nat) returns (q: nat)
    requires t == Threshold(k, bias) <= d < 36 && wider == w * (36 - t) && grown == (i + d * w) + wider * high
    ensures grown == i + w * q && Digits(q, k, bias) == [Digit(d)] + Digits(high, k + 36, bias)
  {
    hide Digits, Threshold;
    NotNegative(36 - t, high);
    q := d + (36 - t) * high;
    Distribute(w, 36 - t, d, high);
    HighBack(q, d, t, high, k, bias);
  }

  lemma NotNegative(a: nat, b: nat)
    ensures a * b >= 0
  {
  }

  lemma OneDigit(d: nat, k: nat, bias: nat)
    requires d < Threshold(k, bias)
    ensures Digits(d, k, bias) == [Digit(d)]
  {
  }

  lemma FirstDigit(s: string, k: nat, bias: nat, w: nat, i: nat)
    requires AllLower(s) && ReadDelta(s, k, bias, w, i).Some?
    ensures s != "" && DigitValue(s[0]).Some? && DigitValue(s[0]).value < 36
    ensures s == [Digit(DigitValue(s[0]).value)] + s[1..] && AllLower(s[1..])
    ensures w * (36 - Threshold(k, bias)) >= 0
  {
    LowerDigitBack(s[0]);
    Commutes(w, 36 - Threshold(k, bias));
  }

  lemma HighBack(q: nat, d: nat, t: nat, high: nat, k: nat, bias: nat)
    requires t == Threshold(k, bias) <= d < 36 && (36 - t) * high >= 0 && q == d + (36 - t) * high
    ensures Digits(q, k, bias) == [Digit(d)] + Digits(high, k + 36, bias)
  {
    DigitsBack(d, t, high);
    hide Threshold, Low, High;
  }

  lemma Commutes(a: nat, b: nat)
    ensures a * b == b * a
  {
  }

  predicate AllLower(s: string) {
    forall j :: 0 <= j < |s| ==> LowerDigit(s[j])
  }

  lemma LowerDigitBack(c: char)
    requires LowerDigit(c)
    ensures DigitValue(c).Some? && DigitValue(c).value < 36 && Digit(DigitValue(c).value) == c
  {
  }

  /** A digit that does not end a number is the low one of what it is the low digit of. */
  lemma DigitsBack(d: nat, t: nat, high: nat)
    requires 1 <= t <= 26 && t <= d < 36
    ensures (36 - t) * high >= 0
    ensures var q := d + (36 - t) * high; t <= q && Low(q, t) == d && High(q, t) == high
  {
    var q := d + (36 - t) * high;
    assert (36 - t) * high >= 0;
    Commutes(36 - t, high);
    DivModUnique(q - t, 36 - t, high, d - t);
  }

  // ---------------------------------------------------------------------
  // What a decoder leaves alone

  /** Everything has been inserted in order up to `n` and `i`. */
  ghost predicate Settled(st: Decoder) {
    && st.i <= |st.output| && (forall k :: 0 <= k < |st.output| ==> st.output[k] <= st.n)
    && forall k :: st.i <= k < |st.output| ==> st.output[k] < st.n
  }

  lemma Division(g: nat, points: nat)
    requires points > 0
    ensures 0 <= g / points && 0 <= g % points < points && g == points * (g / points) + g % points
    ensures g / points == 0 ==> g == g % points
  {
  }

  function PlaceOf(st: Decoder, grown: nat): (pos: nat)
    ensures pos <= |st.output|
  {
    Division(grown, |st.output| + 1);
    grown % (|st.output| + 1)
  }

  lemma SettlesAt(st: Decoder, t: Decoder, pos: nat)
    requires Settled(st) && st.n <= t.n && pos <= |st.output| && (t.n == st.n ==> st.i <= pos)
    requires t.output == st.output[..pos] + [t.n] + st.output[pos..] && t.i == pos + 1
    ensures Settled(t)
  {
  }

  lemma InsertedSettles(st: Decoder, grown: nat)
    requires Settled(st) && st.i <= grown
    ensures var t, pos := Inserted(st, grown), PlaceOf(st, grown);
      && Settled(t) && st.n <= t.n && t.i == pos + 1 && |t.output| == |st.output| + 1
      && t.output == st.output[..pos] + [t.n] + st.output[pos..]
      && (t.n == st.n ==> st.i <= pos)
  {
    hide Settled, NextBias;
    Division(grown, |st.output| + 1);
    SettlesAt(st, Inserted(st, grown), PlaceOf(st, grown));
  }

  /** Code point and place tell how far the decoder went. */
  lemma SamePlace(st: Decoder, g: nat, h: nat)
    requires st.i <= g && st.i <= h && Inserted(st, g).n == Inserted(st, h).n && PlaceOf(st, g) == PlaceOf(st, h)
    ensures g == h
  {
    hide NextBias;
    var points := |st.output| + 1;
    Division(g, points);
    Division(h, points);
    assert Inserted(st, g).n == st.n + g / points && Inserted(st, h).n == st.n + h / points;
    var a, r := g / points, g % points;
    assert h / points == a && h % points == r;
  }

  function Under(s: seq<nat>, n: int): seq<nat> {
    if s == [] then [] else (if s[0] < n then [s[0]] else []) + Under(s[1..], n)
  }

  lemma {:induction false} UnderConcat(a: seq<nat>, b: seq<nat>, n: int)
    ensures Under(a + b, n) == Under(a, n) + Under(b, n)
  {
    if a == [] {
      assert a + b == b;
    } else {
      assert (a + b)[1..] == a[1..] + b;
      UnderConcat(a[1..], b, n);
    }
  }

  lemma {:induction false} UnderAll(s: seq<nat>, n: int)
    requires forall k :: 0 <= k < |s| ==> s[k] < n
    ensures Under(s, n) == s
  {
    if s == [] {
    } else {
      UnderAll(s[1..], n);
    }
  }

  lemma {:induction false} UnderTwice(s: seq<nat>, m: int, n: int)
    requires m <= n
    ensures Under(Under(s, n), m) == Under(s, m)
  {
    if s == [] {
    } else {
      UnderTwice(s[1..], m, n);
      if s[0] < n {
        var both := Under(s, n);
        assert both == [s[0]] + Under(s[1..], n);
        assert both[0] == s[0] && both[1..] == Under(s[1..], n);
      } else {
        assert Under(s, n) == Under(s[1..], n);
      }
    }
  }

  /** A value that is not below `n` does not show below it. */
  lemma UnderInserted(s: seq<nat>, pos: nat, c: nat, n: int)
    requires pos <= |s| && c >= n
    ensures Under(s[..pos] + [c] + s[pos..], n) == Under(s, n)
  {
    UnderConcat(s[..pos] + [c], s[pos..], n);
    UnderConcat(s[..pos], [c], n);
    UnderConcat(s[..pos], s[pos..], n);
    assert s == s[..pos] + s[pos..];
    assert Under([c], n) == [];
  }

  /** The output keeps what was below `n`, and what was up to `n` and before `i`. */
  ghost predicate Keeps(st: Decoder, out: seq<nat>) {
    && Under(out, st.n) == Under(st.output, st.n) && |out| >= |st.output|
    && st.i <= |Under(out, st.n + 1)| && st.i <= |st.output| && Under(out, st.n + 1)[..st.i] == st.output[..st.i]
  }

  /** Later insertions keep it. */
  lemma {:induction false} Fixed(st: Decoder, s: string, out: seq<nat>)
    requires Settled(st) && DecodeFrom(st, s) == Some(out)
    ensures Keeps(st, out) && (s != "" ==> |out| > |st.output|)
    decreases |s|
  {
    if s == "" {
      UnderAll(st.output, st.n + 1);
    } else {
      var (grown, rest) := ReadDelta(s, 36, st.bias, 1, st.i).value;
      var t, pos := Inserted(st, grown), PlaceOf(st, grown);
      hide Inserted, ReadDelta, Under, PlaceOf, Keeps, Settled;
      InsertedSettles(st, grown);
      Fixed(t, rest, out);
      KeepsLength(t, out);
      if t.n == st.n {
        SameCodePoint(st, t, pos, out);
      } else {
        OnlyBefore(st, t, pos, out);
      }
    }
  }

  lemma KeepsLength(st: Decoder, out: seq<nat>)
    requires Keeps(st, out)
    ensures |out| >= |st.output|
  {
  }

  lemma SameCodePoint(st: Decoder, t: Decoder, pos: nat, out: seq<nat>)
    requires st.n == t.n && st.i <= pos <= |st.output| && t.i == pos + 1 && Keeps(t, out)
    requires t.output == st.output[..pos] + [t.n] + st.output[pos..]
    ensures Keeps(st, out)
  {
    UnderInserted(st.output, pos, t.n, st.n);
    hide Under;
    assert Under(out, st.n + 1)[..st.i] == Under(out, st.n + 1)[..t.i][..st.i] == t.output[..t.i][..st.i] == st.output[..st.i];
  }

  /** When the decoder has gone on to another code point, nothing is inserted below it. */
  lemma OnlyBefore(st: Decoder, t: Decoder, pos: nat, out: seq<nat>)
    requires Settled(st) && st.n < t.n && pos <= |st.output|
    requires t.output == st.output[..pos] + [t.n] + st.output[pos..]
    requires Keeps(t, out)
    ensures Keeps(st, out)
  {
    UnderInserted(st.output, pos, t.n, t.n);
    UnderAll(st.output, t.n);
    UnderAll(st.output, st.n + 1);
    UnderTwice(out, st.n + 1, t.n);
    UnderTwice(out, st.n, t.n);
  }

  // ---------------------------------------------------------------------
  // The first insertion

  /** An insertion shows in the output, among what is up to its code point, at its place. */
  lemma Shows(st: Decoder, t: Decoder, pos: nat, out: seq<nat>)
    requires pos <= |st.output| && t.output == st.output[..pos] + [t.n] + st.output[pos..] && t.i == pos + 1
    requires Keeps(t, out)
    ensures pos < |Under(out, t.n + 1)| && Under(out, t.n + 1)[pos] == t.n
    ensures forall p :: 0 <= p < pos ==> Under(out, t.n + 1)[p] == st.output[p]
  {
    hide Under;
    var shown := Under(out, t.n + 1);
    forall p | 0 <= p <= pos ensures shown[p] == t.output[p] {
      assert shown[..t.i][p] == t.output[..t.i][p];
    }
  }

  /** Below the first inserted code point the output is what was there before. */
  lemma NothingBelow(st: Decoder, t: Decoder, pos: nat, out: seq<nat>, n: nat)
    requires Settled(st) && pos <= |st.output| && st.n <= n < t.n
    requires t.output == st.output[..pos] + [t.n] + st.output[pos..]
    requires Keeps(t, out)
    ensures Under(out, n + 1) == st.output
  {
    UnderInserted(st.output, pos, t.n, t.n);
    UnderAll(st.output, t.n);
    UnderTwice(out, n + 1, t.n);
    UnderAll(st.output, n + 1);
  }

  lemma NotThere(st: Decoder, n: nat, pos: nat)
    requires Settled(st) && st.n <= n && (n == st.n ==> st.i <= pos) && pos < |st.output|
    ensures st.output[pos] != n
  {
  }

  /** The output tells where the first insertion was: none comes before another. */
  lemma NoneEarlier(st: Decoder, a: Decoder, p: nat, b: Decoder, q: nat, out: seq<nat>)
    requires Settled(st) && p <= |st.output| && q <= |st.output| && st.n <= a.n <= b.n
    requires a.output == st.output[..p] + [a.n] + st.output[p..] && a.i == p + 1
    requires b.output == st.output[..q] + [b.n] + st.output[q..] && b.i == q + 1
    requires a.n == st.n ==> st.i <= p
    requires Keeps(a, out) && Keeps(b, out)
    ensures !(a.n < b.n || p < q)
  {
    hide Under, Keeps;
    Shows(st, a, p, out);
    Shows(st, b, q, out);
    if p < |st.output| { NotThere(st, a.n, p); }
    if a.n < b.n { NothingBelow(st, b, q, out, a.n); }
    hide Settled;
  }

  lemma SameFirst(st: Decoder, a: string, b: string, out: seq<nat>)
    requires Settled(st) && a != "" && b != "" && DecodeFrom(st, a) == Some(out) == DecodeFrom(st, b)
    ensures ReadDelta(a, 36, st.bias, 1, st.i).value.0 == ReadDelta(b, 36, st.bias, 1, st.i).value.0
  {
    var (g, resta) := ReadDelta(a, 36, st.bias, 1, st.i).value;
    var (h, restb) := ReadDelta(b, 36, st.bias, 1, st.i).value;
    SameInsertion(st, g, resta, h, restb, out);
  }

  lemma SameInsertion(st: Decoder, g: nat, resta: string, h: nat, restb: string, out: seq<nat>)
    requires Settled(st) && st.i <= g && st.i <= h
    requires DecodeFrom(Inserted(st, g), resta) == Some(out) == DecodeFrom(Inserted(st, h), restb)
    ensures g == h
  {
    hide DecodeFrom, Inserted, ReadDelta, Settled, Under, PlaceOf, Keeps;
    var x, y := Inserted(st, g), Inserted(st, h);
    var p, q := PlaceOf(st, g), PlaceOf(st, h);
    InsertedSettles(st, g);
    InsertedSettles(st, h);
    Fixed(x, resta, out);
    Fixed(y, restb, out);
    if x.n <= y.n { NoneEarlier(st, x, p, y, q, out); }
    if y.n <= x.n { NoneEarlier(st, y, q, x, p, out); }
    SamePlace(st, g, h);
  }

  // ---------------------------------------------------------------------
  // One text for one sequence

  lemma {:induction false} SameDigits(st: Decoder, a: string, b: string, out: seq<nat>)
    requires Settled(st) && AllLower(a) && AllLower(b)
    requires DecodeFrom(st, a) == Some(out) == DecodeFrom(st, b)
    ensures a == b
    decreases |a|
  {
    hide Keeps, Under;
    Fixed(st, a, out);
    Fixed(st, b, out);
    if a == "" || b == "" {
    } else {
      SameFirst(st, a, b, out);
      var q := ReadBack(a, 36, st.bias, 1, st.i);
      var r := ReadBack(b, 36, st.bias, 1, st.i);
      var (g, resta) := ReadDelta(a, 36, st.bias, 1, st.i).value;
      var (h, restb) := ReadDelta(b, 36, st.bias, 1, st.i).value;
      assert q == r;
      InsertedSettles(st, g);
      hide Settled, Inserted, Digits;
      SuffixLower(a, Digits(q, 36, st.bias), resta);
      SuffixLower(b, Digits(q, 36, st.bias), restb);
      SameDigits(Inserted(st, g), resta, restb, out);
    }
  }

  lemma SuffixLower(s: string, digits: string, rest: string)
    requires AllLower(s) && s == digits + rest
    ensures AllLower(rest)
  {
    forall j | 0 <= j < |rest| ensures LowerDigit(rest[j]) {
      assert s[|digits| + j] == rest[j];
    }
  }

  /** The form of what the encoder writes. */
  ghost predicate WellFormed(input: seq<CodePoint>, s: string) {
    Head(input) <= s && AllLower(s[|Head(input)|..])
  }

  /** Any text of that form which the decoder turns into the input is the one the encoder
      writes. */
  lemma EncodingUnique(input: seq<CodePoint>, a: string, b: string)
    requires WellFormed(input, a) && WellFormed(input, b)
    requires Decode(a) == Some(input) == Decode(b)
    ensures a == b
  {
    hide DecodeFrom, Decode, Head, Start, Settled;
    var h := |Head(input)|;
    DecodedDigits(input, a);
    DecodedDigits(input, b);
    StartSettled(input);
    SameDigits(Start(input), a[h..], b[h..], input);
    assert a == a[..h] + a[h..] && b == b[..h] + b[h..];
  }

  lemma StartSettled(input: seq<CodePoint>)
    ensures Settled(Start(input))
  {
    BasicCharsBelow(input);
  }

  /** Decoding starts with the basic code points and goes on with the digits. */
  lemma DecodedDigits(input: seq<CodePoint>, s: string)
    requires WellFormed(input, s) && Decode(s) == Some(input)
    ensures DecodeFrom(Start(input), s[|Head(input)|..]) == Some(input)
  {
    var digits := s[|Head(input)|..];
    assert s == Head(input) + digits;
    hide DecodeFrom;
    SplitsAtHead(input, digits);
    BasicCodePoints(input);
  }
}
