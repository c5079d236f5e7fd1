/**
 Positions on the 63-bit hash ring: the cardinal of a hash, ring distance, and the
 split of the ring into vertical partitions. Words are 64 bits wide.
 */
module DhtPosition {
  import opened Wrappers
  import opened Base64
  import opened IndexAbstract

  const CARDINAL_SYMBOLS := 10
  const MAX_POSITION := 0x7FFF_FFFF_FFFF_FFFF
  const RING := 0x8000_0000_0000_0000
  const WORD64 := 0x1_0000_0000_0000_0000

  /** The first `n` symbols as a number in base 64, missing symbols as zeros. */
  function Leading(s: string, n: nat): (c: nat)
    requires AllSymbols(s)
  {
    if n == 0 then 0 else 64 * Leading(s, n - 1) + if n <= |s| then Value(s[n - 1]) else 0
  }

  function Pow64(n: nat): nat {
    if n == 0 then 1 else 64 * Pow64(n - 1)
  }

  lemma {:induction false} LeadingBound(s: string, n: nat)
    requires AllSymbols(s)
    ensures Leading(s, n) < Pow64(n)
  {
    if n == 0 {
    } else {
      LeadingBound(s, n - 1);
    }
  }

  lemma Pow64Ten()
    ensures 8 * Pow64(CARDINAL_SYMBOLS) == RING
    ensures forall n :: 0 <= n <= CARDINAL_SYMBOLS ==> Pow64(n) <= Pow64(CARDINAL_SYMBOLS)
  {
    assert Pow64(3) == 64 * Pow64(2) == 0x4_0000;
    assert Pow64(5) == 64 * Pow64(4) == 4096 * Pow64(3);
    assert Pow64(7) == 64 * Pow64(6) == 4096 * Pow64(5);
    assert Pow64(9) == 64 * Pow64(8) == 4096 * Pow64(7);
  }

  lemma LeadingNone(s: string)
    ensures s[..0] == "" && AllSymbols(s[..0]) && Leading(s[..0], 0) == 0
  {
  }

  /** One symbol more. */
  lemma LeadingStep(s: string, i: nat)
    requires i < |s| && i < CARDINAL_SYMBOLS && AllSymbols(s[..i]) && Value(s[i]) >= 0
    ensures AllSymbols(s[..i + 1])
    ensures Leading(s[..i + 1], i + 1) == Leading(s[..i], i) * 64 + Value(s[i]) < WORD64
    ensures Leading(s[..i + 1], i + 1) == (Leading(s[..i], i) * 64 + Value(s[i])) % WORD64
  {
    var more := s[..i + 1];
    assert AllSymbols(more) by {
      assert forall k :: 0 <= k < i ==> more[k] == s[..i][k];
    }
    LeadingPrefix(more, i, i);
    assert more[..i] == s[..i];
    LeadingBound(more, i + 1);
    Pow64Ten();
  }

  lemma LeadingShifts(s: string, j: nat)
    requires AllSymbols(s) && |s| <= j < CARDINAL_SYMBOLS
    ensures Leading(s, j + 1) == Leading(s, j) * 64 % WORD64
  {
    LeadingBound(s, j + 1);
    Pow64Ten();
  }

  lemma LeadingFits(s: string)
    requires AllSymbols(s)
    ensures 8 * Leading(s, CARDINAL_SYMBOLS) + 7 <= MAX_POSITION
  {
    LeadingBound(s, CARDINAL_SYMBOLS);
    Pow64Ten();
  }

  /** The shifts wrap at 64 bits in the program; within ten symbols they never do. */
  method Cardinal(s: string) returns (r: Option<nat>)
    ensures r.None? <==> exists k :: 0 <= k < |s| && k < CARDINAL_SYMBOLS && Value(s[k]) < 0
    ensures r.Some? ==> AllSymbols(Prefix(s)) && r.value == 8 * Leading(Prefix(s), CARDINAL_SYMBOLS) + 7 <= MAX_POSITION
  {
    var n := if |s| < CARDINAL_SYMBOLS then |s| else CARDINAL_SYMBOLS;
    var c: nat := 0;
    LeadingNone(s);
    hide Leading, Value, AllSymbols;
    for i := 0 to n
      invariant AllSymbols(s[..i]) && c == Leading(s[..i], i)
    {
      var v := Value(s[i]);
      if v < 0 {
        return None;
      }
      LeadingStep(s, i);
      c := (c * 64 + v) % WORD64;
    }
    assert s[..n] == Prefix(s);
    PrefixSymbols(s);
    for j := n to CARDINAL_SYMBOLS
      invariant c == Leading(Prefix(s), j)
    {
      LeadingShifts(Prefix(s), j);
      c := c * 64 % WORD64;
    }
    LeadingFits(Prefix(s));
    return Some((c * 8 + 7) % WORD64);
  }

  lemma PrefixSymbols(s: string)
    requires AllSymbols(Prefix(s))
    ensures forall k :: 0 <= k < |s| && k < CARDINAL_SYMBOLS ==> Value(s[k]) >= 0
  {
    assert forall k :: 0 <= k < |Prefix(s)| ==> Prefix(s)[k] == s[k];
  }

  function Prefix(s: string): string {
    if |s| < CARDINAL_SYMBOLS then s else s[..CARDINAL_SYMBOLS]
  }

  lemma {:induction false} LeadingPrefix(s: string, k: nat, n: nat)
    requires AllSymbols(s) && n <= k <= |s|
    ensures Leading(s[..k], n) == Leading(s, n)
  {
    if n == 0 {
    } else {
      LeadingPrefix(s, k, n - 1);
    }
  }

  /** Where a hash sits on the ring; only well-formed hashes sit anywhere. */
  function Position(h: string): (r: Option<nat>)
    ensures r.Some? <==> ValidHash(h)
  {
    if ValidHash(h) then Some(8 * Leading(h, CARDINAL_SYMBOLS) + 7) else None
  }

  method PositionOf(h: string) returns (r: Option<nat>)
    ensures r == Position(h)
  {
    if |h| != HASH_LENGTH {
      return None;
    }
    for i := 0 to |h|
      invariant AllSymbols(h[..i])
    {
      if Value(h[i]) < 0 {
        return None;
      }
    }
    assert h[..|h|] == h;
    r := Cardinal(h);
    LeadingPrefix(h, CARDINAL_SYMBOLS, CARDINAL_SYMBOLS);
  }

  lemma PositionOnRing(h: string)
    requires ValidHash(h)
    ensures Position(h).value <= MAX_POSITION
  {
    LeadingBound(h, CARDINAL_SYMBOLS);
    Pow64Ten();
  }

  lemma {:induction false} LeadingZero(s: string, n: nat)
    requires AllSymbols(s) && forall k :: 0 <= k < n && k < |s| ==> Value(s[k]) == 0
    ensures Leading(s, n) == 0
  {
    if n == 0 {
    } else {
      LeadingZero(s, n - 1);
    }
  }

  lemma {:induction false} LeadingMost(s: string, n: nat)
    requires AllSymbols(s) && n <= |s| && forall k :: 0 <= k < n ==> Value(s[k]) == 63
    ensures Leading(s, n) == Pow64(n) - 1
  {
    if n == 0 {
    } else {
      LeadingMost(s, n - 1);
    }
  }

  /** The low three bits are set; the least position has no other bit set, and the greatest all. */
  lemma PositionEnds(h: string)
    requires ValidHash(h)
    ensures Position(h).value % 8 == 7
    ensures (forall k :: 0 <= k < CARDINAL_SYMBOLS ==> Value(h[k]) == 0) ==> Position(h).value == 7
    ensures (forall k :: 0 <= k < CARDINAL_SYMBOLS ==> Value(h[k]) == 63) ==> Position(h).value == MAX_POSITION
  {
    if forall k :: 0 <= k < CARDINAL_SYMBOLS ==> Value(h[k]) == 0 { LeadingZero(h, CARDINAL_SYMBOLS); }
    if forall k :: 0 <= k < CARDINAL_SYMBOLS ==> Value(h[k]) == 63 { LeadingMost(h, CARDINAL_SYMBOLS); }
    hide Leading, Value;
    Pow64Ten();
  }

  /** Numbers in base 64 compare as their symbol texts do. */
  lemma {:induction false} LeadingCompares(a: string, b: string, n: nat)
    requires AllSymbols(a) && AllSymbols(b) && n <= |a| && n <= |b|
    ensures Leading(a, n) < Leading(b, n) <==> Compare(a[..n], b[..n]) < 0
    ensures Leading(a, n) == Leading(b, n) <==> a[..n] == b[..n]
  {
    if n == 0 {
    } else {
      hide Compare, Value, Rank;
      LeadingCompares(a, b, n - 1);
      assert a[..n] == a[..n - 1] + [a[n - 1]] && b[..n] == b[..n - 1] + [b[n - 1]];
      CompareExtends(a[..n - 1], b[..n - 1], a[n - 1], b[n - 1]);
      CompareEqual(a[..n - 1], b[..n - 1]);
      assert Value(a[n - 1]) == Value(b[n - 1]) ==> a[n - 1] == b[n - 1];
      assert a[..n] == b[..n] ==> a[..n][..n - 1] == b[..n][..n - 1] && a[..n][n - 1] == b[..n][n - 1];
    }
  }

  lemma {:induction false} CompareExtends(a: string, b: string, c: char, d: char)
    requires |a| == |b|
    ensures Compare(a + [c], b + [d]) ==
      if Compare(a, b) != 0 then Compare(a, b)
      else if Rank(c) < Rank(d) then -1 else if Rank(c) > Rank(d) then 1 else 0
  {
    if a == "" {
    } else {
      CompareExtends(a[1..], b[1..], c, d);
      assert (a + [c])[1..] == a[1..] + [c] && (b + [d])[1..] == b[1..] + [d];
    }
  }

  /** The ring orders hashes as base64 order does on their first ten symbols. */
  lemma PositionOrders(a: string, b: string)
    requires ValidHash(a) && ValidHash(b)
    ensures Position(a).value < Position(b).value <==> Compare(a[..CARDINAL_SYMBOLS], b[..CARDINAL_SYMBOLS]) < 0
    ensures Position(a).value == Position(b).value <==> a[..CARDINAL_SYMBOLS] == b[..CARDINAL_SYMBOLS]
  {
    LeadingCompares(a, b, CARDINAL_SYMBOLS);
  }

  // ---------------------------------------------------------------------
  // Distance

  type Word = x: int | 0 <= x < WORD64

  /** Unsigned 64-bit arithmetic, each operation wrapping. */
  function Distance(from: Word, to: Word): Word {
    if to >= from then to - from
    else ((MAX_POSITION - from) % WORD64 + to + 1) % WORD64
  }

  /** The distance is the clockwise one exactly while the words differ by at most one turn. */
  lemma DistanceExact(from: Word, to: Word)
    ensures Distance(from, to) == (to - from) % RING <==> -RING <= to - from < RING
  {
    if to < from {
      assert (MAX_POSITION - from) % WORD64 == if from <= MAX_POSITION then MAX_POSITION - from else MAX_POSITION - from + WORD64;
    }
  }

  /** A full turn apart is too far. */
  lemma DistanceAcrossTurns()
    ensures Distance(0, RING) == RING != (RING - 0) % RING
  {
  }

  /** On the ring, walking the distance clockwise arrives, and no shorter walk does. */
  lemma DistanceArrives(from: Word, to: Word, steps: nat)
    requires from <= MAX_POSITION && to <= MAX_POSITION
    ensures (from + Distance(from, to)) % RING == to
    ensures (from + steps) % RING == to ==> Distance(from, to) <= steps
  {
    DistanceOnRing(from, to);
    hide Distance;
    if (from + steps) % RING == to {
      assert from + steps == (from + steps) / RING * RING + to;
    }
  }

  lemma DistanceOnRing(from: Word, to: Word)
    requires from <= MAX_POSITION && to <= MAX_POSITION
    ensures Distance(from, to) == if to >= from then to - from else RING - from + to
    ensures (from + Distance(from, to)) % RING == to
  {
  }

  // ---------------------------------------------------------------------
  // Vertical partitions

  /** `x & ((1 << s) - 1)`. */
  function Low(x: nat, s: nat): nat {
    if s == 0 then 0 else 2 * Low(x / 2, s - 1) + x % 2
  }

  function ShiftLength(exponent: int): (r: Option<nat>)
    ensures r.Some? <==> 0 <= exponent <= 62
  {
    if exponent < 0 || exponent > 62 then None else Some(63 - exponent)
  }

  function VerticalPartition(hash: string, exponent: int): Option<nat> {
    match (Position(hash), ShiftLength(exponent))
    case (Some(position), Some(shift)) => Some(Shr(position, shift))
    case _ => None
  }

  /** The two parts joined do not overlap, so the program's bitwise or is their sum. */
  function VerticalPosition(word: string, vertical: nat, exponent: int): Option<nat> {
    match (Position(word), ShiftLength(exponent))
    case (Some(position), Some(shift)) =>
      if vertical >= Shl(1, exponent) then None
      else Some(Low(position, shift) + Shl(vertical, shift))
    case _ => None
  }

  lemma {:induction false} SplitWord(x: nat, s: nat)
    ensures x == Shl(Shr(x, s), s) + Low(x, s) && Low(x, s) < Shl(1, s)
  {
    if s == 0 {
    } else {
      SplitWord(x / 2, s - 1);
    }
  }

  lemma {:induction false} JoinedParts(v: nat, r: nat, s: nat)
    requires r < Shl(1, s)
    ensures Shr(Shl(v, s) + r, s) == v && Low(Shl(v, s) + r, s) == r
  {
    if s == 0 {
    } else {
      JoinedParts(v, r / 2, s - 1);
    }
  }

  lemma {:induction false} ShiftBound(v: nat, s: nat, e: nat)
    requires v < Shl(1, e)
    ensures Shl(v, s) + Shl(1, s) <= Shl(1, e + s)
  {
    if s == 0 {
    } else {
      ShiftBound(v, s - 1, e);
    }
  }

  lemma {:induction false} ShiftUnder(x: nat, s: nat, e: nat)
    requires x < Shl(1, e + s)
    ensures Shr(x, s) < Shl(1, e)
  {
    if s == 0 {
    } else {
      ShiftUnder(x / 2, s - 1, e);
    }
  }

  lemma RingIsShift()
    ensures Shl(1, 63) == RING
  {
    ShiftByWord(1);
    ShiftByFourMore(1, 32);
    ShiftByFourMore(1, 36);
    ShiftByFourMore(1, 40);
    ShiftByFourMore(1, 44);
    ShiftByFourMore(1, 48);
    ShiftByFourMore(1, 52);
    ShiftByFourMore(1, 56);
    assert Shl(1, 63) == 2 * Shl(1, 62) == 4 * Shl(1, 61);
  }

  /** A vertical position stays on the ring, lies in the partition asked for, and
      keeps the bits of the word below it; every partition below the count exists. */
  lemma VerticalPositionParts(word: string, vertical: nat, exponent: int)
    ensures VerticalPosition(word, vertical, exponent).Some? <==>
      ValidHash(word) && 0 <= exponent <= 62 && vertical < Shl(1, exponent)
    ensures VerticalPosition(word, vertical, exponent).Some? ==>
      var p := VerticalPosition(word, vertical, exponent).value;
      var shift := 63 - exponent;
      && p <= MAX_POSITION
      && Shr(p, shift) == vertical
      && Low(p, shift) == Low(Position(word).value, shift)
  {
    if VerticalPosition(word, vertical, exponent).Some? {
      var shift := 63 - exponent;
      SplitWord(Position(word).value, shift);
      JoinedParts(vertical, Low(Position(word).value, shift), shift);
      ShiftBound(vertical, shift, exponent);
      RingIsShift();
    }
  }

  /** Moving a word to its own partition moves it nowhere. */
  lemma OwnPartition(word: string, exponent: int)
    requires ValidHash(word) && 0 <= exponent <= 62
    ensures VerticalPartition(word, exponent).Some?
    ensures VerticalPosition(word, VerticalPartition(word, exponent).value, exponent) == Position(word)
  {
    var position, shift := Position(word).value, 63 - exponent;
    PositionOnRing(word);
    RingIsShift();
    ShiftUnder(position, shift, exponent);
    SplitWord(position, shift);
  }
}
