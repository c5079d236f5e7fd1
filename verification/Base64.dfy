/**
 The "enhanced base64" alphabet and its two directions. Both loops shift a 32-bit
 buffer; they are proved against the plain reading of the text as one bit string.
 */
module Base64 {
  import opened Wrappers

  const ALPHABET :=
    "ABCDEFGHIJKLM" + "NOPQRSTUVWXYZ" + "abcdefghijklm" + "nopqrstuvwxyz" + "0123456789-_"
  const WORD := 0x1_0000_0000

  type Byte = b: int | 0 <= b < 256

  // ---------------------------------------------------------------------
  // Symbols

  function Symbol(v: nat): char
    requires v < 64
  {
    if v < 26 then (v + 'A' as int) as char
    else if v < 52 then (v - 26 + 'a' as int) as char
    else if v < 62 then (v - 52 + '0' as int) as char
    else if v == 62 then '-'
    else '_'
  }

  /** The value of a symbol; -1 outside the alphabet. */
  function Value(c: char): (v: int)
    ensures -1 <= v < 64
    ensures v >= 0 ==> Symbol(v) == c
  {
    if 'A' <= c <= 'Z' then c as int - 'A' as int
    else if 'a' <= c <= 'z' then c as int - 'a' as int + 26
    else if '0' <= c <= '9' then c as int - '0' as int + 52
    else if c == '-' then 62
    else if c == '_' then 63
    else -1
  }

  lemma SymbolsDistinct(v: nat)
    requires v < 64
    ensures Value(Symbol(v)) == v
  {
  }

  lemma AlphabetSpelled(v: nat)
    requires v < 64
    ensures |ALPHABET| == 64 && ALPHABET[v] == Symbol(v)
  {
  }

  /** The table that maps every byte to its symbol value. */
  method NewDecodeTable() returns (table: array<int>)
    ensures fresh(table) && table.Length == 256
    ensures forall b :: 0 <= b < 256 ==> table[b] == Value(b as char)
  {
    AlphabetSpelled(0);
    table := new int[256](_ => -1);
    for i := 0 to |ALPHABET|
      invariant forall b :: 0 <= b < 256 ==> table[b] == if 0 <= Value(b as char) < i then Value(b as char) else -1
    {
      AlphabetSpelled(i);
      SymbolsDistinct(i);
      assert ALPHABET[i] as int < 256;
      table[ALPHABET[i] as int] := i;
    }
  }

  // ---------------------------------------------------------------------
  // Bit strings, most significant bit first

  /** `v << k` on unbounded integers. */
  function Shl(v: nat, k: nat): (w: nat)
    ensures w >= v
  {
    if k == 0 then v else 2 * Shl(v, k - 1)
  }

  /** `v >> k`. */
  function Shr(v: nat, k: nat): nat {
    if k == 0 then v else Shr(v / 2, k - 1)
  }

  /** The `n` low bits of `v`. */
  function Bits(v: nat, n: nat): (s: seq<bool>)
    ensures |s| == n
  {
    if n == 0 then [] else Bits(v / 2, n - 1) + [v % 2 == 1]
  }

  function Zeros(n: nat): seq<bool> {
    seq(n, _ => false)
  }

  lemma {:induction false} BitsSplit(v: nat, n: nat, k: nat)
    ensures Bits(v, n + k) == Bits(Shr(v, k), n) + Bits(v, k)
    decreases k
  {
    if k > 0 {
      BitsSplit(v / 2, n, k - 1);
    } else {
      assert Bits(v, n) + [] == Bits(v, n);
    }
  }

  /** Bits from `m` up do not reach the `n <= m` low bits. */
  lemma {:induction false} BitsIgnoreHigh(q: nat, r: nat, m: nat, n: nat)
    requires n <= m
    ensures Bits(Shl(q, m) + r, n) == Bits(r, n)
    decreases n
  {
    if n == 0 {
    } else {
      BitsIgnoreHigh(q, r / 2, m - 1, n - 1);
    }
  }

  /** Appending `k` low bits. */
  lemma {:induction false} BitsAppend(v: nat, w: nat, n: nat, k: nat)
    requires w < Shl(1, k)
    ensures Bits(Shl(v, k) + w, n + k) == Bits(v, n) + Bits(w, k)
    decreases k
  {
    if k > 0 {
      BitsAppend(v, w / 2, n, k - 1);
    } else {
      assert Bits(v, n) + [] == Bits(v, n);
    }
  }

  lemma {:induction false} BitsOfZero(n: nat)
    ensures Bits(0, n) == Zeros(n)
  {
    if n == 0 {
    } else {
      BitsOfZero(n - 1);
      assert Zeros(n) == Zeros(n - 1) + [false];
    }
  }

  lemma {:induction false} BitsInjective(v: nat, w: nat, n: nat)
    requires v < Shl(1, n) && w < Shl(1, n) && Bits(v, n) == Bits(w, n)
    ensures v == w
  {
    if n == 0 {
    } else {
      assert Bits(v, n)[..n - 1] == Bits(v / 2, n - 1) && Bits(w, n)[..n - 1] == Bits(w / 2, n - 1);
      assert Bits(v, n)[n - 1] == Bits(w, n)[n - 1];
      BitsInjective(v / 2, w / 2, n - 1);
    }
  }

  lemma ShiftByFourMore(v: nat, k: nat)
    ensures Shl(v, k + 4) == 16 * Shl(v, k)
  {
    assert Shl(v, k + 4) == 2 * Shl(v, k + 3);
    assert Shl(v, k + 2) == 2 * Shl(v, k + 1);
  }

  lemma ShiftBySix(v: nat)
    ensures Shl(v, 6) == 64 * v
  {
    ShiftByFourMore(v, 2);
    assert Shl(v, 2) == 2 * Shl(v, 1);
  }

  lemma ShiftByEight(v: nat)
    ensures Shl(v, 8) == 256 * v
  {
    ShiftByFourMore(v, 0);
    ShiftByFourMore(v, 4);
  }

  lemma ShiftByWord(v: nat)
    ensures Shl(v, 32) == WORD * v
  {
    ShiftByEight(v);
    ShiftByFourMore(v, 8);
    ShiftByFourMore(v, 12);
    ShiftByFourMore(v, 16);
    ShiftByFourMore(v, 20);
    ShiftByFourMore(v, 24);
    ShiftByFourMore(v, 28);
  }

  /** Wrapping to 32 bits keeps the low bits, and masking keeps the masked ones. */
  lemma BitsOfWord(v: nat, n: nat)
    requires n <= 32
    ensures Bits(v % WORD, n) == Bits(v, n)
  {
    ShiftByWord(v / WORD);
    BitsIgnoreHigh(v / WORD, v % WORD, 32, n);
  }

  lemma BitsOfMask(v: nat)
    ensures Bits(v % 64, 6) == Bits(v, 6) && Bits(v % 256, 8) == Bits(v, 8)
  {
    ShiftBySix(v / 64);
    BitsIgnoreHigh(v / 64, v % 64, 6, 6);
    ShiftByEight(v / 256);
    BitsIgnoreHigh(v / 256, v % 256, 8, 8);
  }

  function ByteBits(src: seq<Byte>): (s: seq<bool>)
    ensures |s| == 8 * |src|
  {
    if src == [] then [] else ByteBits(src[..|src| - 1]) + Bits(src[|src| - 1], 8)
  }

  predicate AllSymbols(s: string) {
    forall k :: 0 <= k < |s| ==> Value(s[k]) >= 0
  }

  function SymbolBits(s: string): (bits: seq<bool>)
    requires AllSymbols(s)
    ensures |bits| == 6 * |s|
  {
    if s == "" then [] else SymbolBits(s[..|s| - 1]) + Bits(Value(s[|s| - 1]), 6)
  }

  lemma {:induction false} ByteBitsInjective(a: seq<Byte>, b: seq<Byte>)
    requires ByteBits(a) == ByteBits(b)
    ensures a == b
    decreases |a|
  {
    if a == [] {
    } else {
      var a', b' := a[..|a| - 1], b[..|b| - 1];
      assert ByteBits(a)[..8 * |a'|] == ByteBits(a') && ByteBits(b)[..8 * |b'|] == ByteBits(b');
      assert ByteBits(a)[8 * |a'|..] == Bits(a[|a| - 1], 8) && ByteBits(b)[8 * |b'|..] == Bits(b[|b| - 1], 8);
      ByteBitsInjective(a', b');
      ShiftByEight(1);
      BitsInjective(a[|a| - 1], b[|b| - 1], 8);
      assert a == a' + [a[|a| - 1]] && b == b' + [b[|b| - 1]];
    }
  }

  lemma {:induction false} SymbolBitsInjective(a: string, b: string)
    requires AllSymbols(a) && AllSymbols(b) && SymbolBits(a) == SymbolBits(b)
    ensures a == b
    decreases |a|
  {
    if a == "" {
    } else {
      var a', b' := a[..|a| - 1], b[..|b| - 1];
      assert SymbolBits(a)[..6 * |a'|] == SymbolBits(a') && SymbolBits(b)[..6 * |b'|] == SymbolBits(b');
      assert SymbolBits(a)[6 * |a'|..] == Bits(Value(a[|a| - 1]), 6);
      assert SymbolBits(b)[6 * |b'|..] == Bits(Value(b[|b| - 1]), 6);
      hide Bits, Shl, SymbolBits;
      SymbolBitsInjective(a', b');
      ShiftBySix(1);
      BitsInjective(Value(a[|a| - 1]), Value(b[|b| - 1]), 6);
      assert a == a' + [a[|a| - 1]] && b == b' + [b[|b| - 1]];
    }
  }

  // ---------------------------------------------------------------------
  // What the two directions compute

  /** `s` spells the bits of `src`, padded with zero bits to whole symbols. */
  ghost predicate Encodes(src: seq<Byte>, s: string) {
    && |s| == (8 * |src| + 5) / 6
    && AllSymbols(s)
    && SymbolBits(s) == ByteBits(src) + Zeros(6 * |s| - 8 * |src|)
  }

  /** Line feeds carry no bits. */
  function Payload(s: string): string {
    if s == "" then "" else Payload(s[..|s| - 1]) + if s[|s| - 1] == '\n' then "" else [s[|s| - 1]]
  }

  function DecodedLength(symbols: nat): nat {
    6 * symbols / 8
  }

  /** `out` is the whole bytes among the bits of `s`. */
  ghost predicate Decodes(s: string, out: seq<Byte>) {
    && AllSymbols(Payload(s))
    && |out| == DecodedLength(|Payload(s)|)
    && ByteBits(out) == SymbolBits(Payload(s))[..8 * |out|]
  }

  // ---------------------------------------------------------------------
  // The encoder

  lemma RemainderIs(x: nat, q: nat, r: nat)
    requires r < WORD && x == WORD * q + r
    ensures x % WORD == r
  {
  }

  /** Low bits added after the wrap are where they would be without it. */
  lemma WrapThenAdd(x: nat, low: nat)
    requires low < 64 || (low < 256 && x % 4 == 0)
    ensures 64 * x % WORD + low == (64 * x + low) % WORD
  {
    var q, top := x / 0x400_0000, x % 0x400_0000;
    assert x % 4 == 0 ==> top % 4 == 0;
    RemainderIs(64 * x, q, 64 * top);
    RemainderIs(64 * x + low, q, 64 * top + low);
  }

  /** One byte more in the 32-bit buffer: the pending bits grow by the byte's bits. */
  lemma BufferByte(buf: nat, bits: nat, b: Byte)
    requires bits <= 8
    ensures Bits(Shl(buf, 8) % WORD + b, bits + 8) == Bits(buf, bits) + Bits(b, 8)
  {
    hide Bits, Shl;
    ShiftByEight(buf);
    ShiftByEight(1);
    WrapThenAdd(4 * buf, b);
    BitsAppend(buf, b, bits, 8);
    BitsOfWord(Shl(buf, 8) + b, bits + 8);
  }

  lemma BufferSymbol(buf: nat, bits: nat, v: nat)
    requires bits <= 8 && v < 64
    ensures Bits(Shl(buf, 6) % WORD + v, bits + 6) == Bits(buf, bits) + Bits(v, 6)
  {
    hide Bits, Shl;
    ShiftBySix(buf);
    ShiftBySix(1);
    WrapThenAdd(buf, v);
    BitsAppend(buf, v, bits, 6);
    BitsOfWord(Shl(buf, 6) + v, bits + 6);
  }

  lemma TakeSymbol(buf: nat, bits: nat)
    ensures Bits(buf, 6 + bits) == Bits(Shr(buf, bits) % 64, 6) + Bits(buf, bits)
  {
    BitsSplit(buf, 6, bits);
    BitsOfMask(Shr(buf, bits));
  }

  lemma TakeByte(buf: nat, bits: nat)
    ensures Bits(buf, 8 + bits) == Bits(Shr(buf, bits) % 256, 8) + Bits(buf, bits)
  {
    BitsSplit(buf, 8, bits);
    BitsOfMask(Shr(buf, bits));
  }

  lemma PadLast(buf: nat, bits: nat)
    requires 0 < bits < 6
    ensures Bits(Shl(buf, 6 - bits) % WORD % 64, 6) == Bits(buf, bits) + Zeros(6 - bits)
  {
    var x := Shl(buf, 6 - bits);
    BitsOfMask(x % WORD);
    BitsOfWord(x, 6);
    BitsAppend(buf, 0, bits, 6 - bits);
    BitsOfZero(6 - bits);
  }

  lemma EmptyTexts()
    ensures ByteBits([]) == [] && SymbolBits("") == [] && Payload("") == ""
    ensures forall v: nat :: Bits(v, 0) == []
  {
  }

  lemma SymbolBitsAppend(s: string, v: nat)
    requires AllSymbols(s) && v < 64
    ensures AllSymbols(s + [Symbol(v)])
    ensures SymbolBits(s + [Symbol(v)]) == SymbolBits(s) + Bits(v, 6)
  {
    SymbolsDistinct(v);
    assert (s + [Symbol(v)])[..|s|] == s;
  }

  lemma ByteBitsAppend(src: seq<Byte>, b: Byte)
    ensures ByteBits(src + [b]) == ByteBits(src) + Bits(b, 8)
  {
    assert (src + [b])[..|src|] == src;
  }

  method Encode(src: seq<Byte>) returns (s: string)
    ensures Encodes(src, s)
  {
    hide Bits, SymbolBits, ByteBits, Shl, Shr;
    EmptyTexts();
    if |src| == 0 {
      return "";
    }
    s := "";
    var buf: nat, bits: nat := 0, 0;
    for i := 0 to |src|
      invariant bits < 6 && 8 * i == 6 * |s| + bits
      invariant AllSymbols(s)
      invariant SymbolBits(s) + Bits(buf, bits) == ByteBits(src[..i])
    {
      ByteBitsAppend(src[..i], src[i]);
      assert src[..i + 1] == src[..i] + [src[i]];
      BufferByte(buf, bits, src[i]);
      assert SymbolBits(s) + (Bits(buf, bits) + Bits(src[i], 8)) == ByteBits(src[..i + 1]);
      buf := Shl(buf, 8) % WORD + src[i];
      bits := bits + 8;
      while bits >= 6
        invariant bits < 14 && 8 * (i + 1) == 6 * |s| + bits
        invariant AllSymbols(s)
        invariant SymbolBits(s) + Bits(buf, bits) == ByteBits(src[..i + 1])
      {
        bits := bits - 6;
        TakeSymbol(buf, bits);
        var v := Shr(buf, bits) % 64;
        SymbolBitsAppend(s, v);
        assert SymbolBits(s) + (Bits(v, 6) + Bits(buf, bits)) == ByteBits(src[..i + 1]);
        s := s + [Symbol(v)];
      }
    }
    assert src[..|src|] == src;
    if bits > 0 {
      PadLast(buf, bits);
      var v := Shl(buf, 6 - bits) % WORD % 64;
      SymbolBitsAppend(s, v);
      assert SymbolBits(s) + (Bits(buf, bits) + Zeros(6 - bits)) == ByteBits(src) + Zeros(6 - bits);
      s := s + [Symbol(v)];
    }
  }

  // ---------------------------------------------------------------------
  // The decoder

  lemma PayloadAppend(s: string, i: nat)
    requires i < |s|
    ensures Payload(s[..i + 1]) == Payload(s[..i]) + if s[i] == '\n' then "" else [s[i]]
  {
    assert s[..i + 1][..i] == s[..i];
  }

  lemma {:induction false} PayloadSymbols(s: string)
    ensures AllSymbols(Payload(s)) <==> forall k :: 0 <= k < |s| ==> s[k] == '\n' || Value(s[k]) >= 0
  {
    if s == "" {
    } else {
      var init, c := s[..|s| - 1], s[|s| - 1];
      PayloadSymbols(init);
      assert c != '\n' ==> Payload(s)[|Payload(init)|] == c;
      assert forall k :: 0 <= k < |Payload(init)| ==> Payload(s)[k] == Payload(init)[k];
      assert forall k :: 0 <= k < |init| ==> s[k] == init[k];
    }
  }

  method Decode(s: string) returns (r: Option<seq<Byte>>)
    ensures r.None? <==> !AllSymbols(Payload(s))
    ensures r.Some? ==> Decodes(s, r.value)
  {
    hide Bits, SymbolBits, ByteBits, Shl, Shr, Payload;
    EmptyTexts();
    PayloadSymbols(s);
    if s == "" {
      return Some([]);
    }
    var out: seq<Byte> := [];
    var buf: nat, bits: nat := 0, 0;
    for i := 0 to |s|
      invariant forall k :: 0 <= k < i ==> s[k] == '\n' || Value(s[k]) >= 0
      invariant AllSymbols(Payload(s[..i]))
      invariant bits < 8 && 6 * |Payload(s[..i])| == 8 * |out| + bits
      invariant ByteBits(out) + Bits(buf, bits) == SymbolBits(Payload(s[..i]))
    {
      PayloadAppend(s, i);
      if s[i] == '\n' {
        assert Payload(s[..i + 1]) == Payload(s[..i]);
        continue;
      }
      var v := Value(s[i]);
      if v < 0 {
        return None;
      }
      var before := Payload(s[..i]);
      SymbolBitsAppend(before, v);
      BufferSymbol(buf, bits, v);
      assert ByteBits(out) + (Bits(buf, bits) + Bits(v, 6)) == SymbolBits(before + [s[i]]);
      buf := Shl(buf, 6) % WORD + v;
      bits := bits + 6;
      if bits >= 8 {
        bits := bits - 8;
        TakeByte(buf, bits);
        var b := Shr(buf, bits) % 256;
        ByteBitsAppend(out, b);
        assert ByteBits(out) + (Bits(b, 8) + Bits(buf, bits)) == SymbolBits(before + [s[i]]);
        out := out + [b];
        assert ByteBits(out) + Bits(buf, bits) == SymbolBits(before + [s[i]]);
      }
    }
    assert s[..|s|] == s;
    assert SymbolBits(Payload(s))[..8 * |out|] == ByteBits(out);
    return Some(out);
  }

  /** The length computed without decoding; it fails on the same texts. */
  method DecodedWireFormBodyBytes(body: string) returns (r: Option<nat>)
    ensures r.None? <==> !AllSymbols(Payload(body))
    ensures r.Some? ==> r.value == DecodedLength(|Payload(body)|)
  {
    PayloadSymbols(body);
    var symbols := 0;
    for i := 0 to |body|
      invariant forall k :: 0 <= k < i ==> body[k] == '\n' || Value(body[k]) >= 0
      invariant symbols == |Payload(body[..i])|
    {
      PayloadAppend(body, i);
      if body[i] == '\n' {
        continue;
      }
      if Value(body[i]) < 0 {
        return None;
      }
      symbols := symbols + 1;
    }
    assert body[..|body|] == body;
    return Some(symbols / 4 * 3 + symbols % 4 * 6 / 8);
  }

  // ---------------------------------------------------------------------
  // Round trips

  lemma {:induction false} PayloadOfSymbols(s: string)
    requires AllSymbols(s)
    ensures Payload(s) == s
  {
    if s == "" {
    } else {
      PayloadOfSymbols(s[..|s| - 1]);
      assert s == s[..|s| - 1] + [s[|s| - 1]];
    }
  }

  lemma DecodeEncode(src: seq<Byte>, s: string, out: seq<Byte>)
    requires Encodes(src, s) && Decodes(s, out)
    ensures out == src
  {
    hide SymbolBits, ByteBits, Payload;
    PayloadOfSymbols(s);
    assert (ByteBits(src) + Zeros(6 * |s| - 8 * |src|))[..8 * |src|] == ByteBits(src);
    ByteBitsInjective(out, src);
  }

  /** The encoding of a text is unique, so the encoder is a function of the bytes. */
  lemma EncodingUnique(src: seq<Byte>, a: string, b: string)
    requires Encodes(src, a) && Encodes(src, b)
    ensures a == b
  {
    SymbolBitsInjective(a, b);
  }

  /** Texts that spell nothing beyond whole bytes but the padding of the last symbol. */
  predicate Canonical(symbols: string)
    requires AllSymbols(symbols)
  {
    && |symbols| % 4 != 1
    && (|symbols| % 4 == 2 ==> Value(symbols[|symbols| - 1]) % 16 == 0)
    && (|symbols| % 4 == 3 ==> Value(symbols[|symbols| - 1]) % 4 == 0)
  }

  lemma LeftoverBits(k: nat)
    ensures var n := DecodedLength(k);
      && 6 * k - 8 * n == (if k % 4 == 0 then 0 else 8 - 2 * (k % 4))
      && ((8 * n + 5) / 6 == k <==> k % 4 != 1)
  {
    var q := k / 4;
    assert k == 4 * q + k % 4;
    assert DecodedLength(k) == 3 * q + 6 * (k % 4) / 8;
  }

  /** Encoding a decoded text gives the text back exactly when it is canonical. */
  lemma EncodeDecode(s: string, out: seq<Byte>, again: string)
    requires Decodes(s, out) && Encodes(out, again)
    ensures again == Payload(s) <==> Canonical(Payload(s))
  {
    hide SymbolBits, ByteBits, Bits, Payload, DecodedLength, Canonical;
    var p := Payload(s);
    LeftoverBits(|p|);
    if |again| == |p| {
      SameText(p, out, again);
    }
    CanonicalTail(p, 8 * |out|);
  }

  lemma CanonicalTail(p: string, n: nat)
    requires AllSymbols(p)
    requires n <= 6 * |p| && 6 * |p| - n == if |p| % 4 == 0 then 0 else 8 - 2 * (|p| % 4)
    ensures Canonical(p) <==> |p| % 4 != 1 && SymbolBits(p)[n..] == Zeros(6 * |p| - n)
  {
    hide SymbolBits, Bits;
    if |p| % 4 == 2 {
      TailOfLast(p, 4);
    } else if |p| % 4 == 3 {
      TailOfLast(p, 2);
    }
  }

  lemma TailOfLast(p: string, k: nat)
    requires AllSymbols(p) && p != "" && (k == 2 || k == 4)
    ensures SymbolBits(p)[6 * |p| - k..] == Zeros(k) <==> Value(p[|p| - 1]) % (if k == 2 then 4 else 16) == 0
  {
    hide SymbolBits, Bits;
    var v := Value(p[|p| - 1]);
    LastSymbolBits(p);
    assert SymbolBits(p)[6 * |p| - k..] == SymbolBits(p)[6 * |p| - 6..][6 - k..];
    TailZero(v, k);
  }

  lemma SameText(p: string, out: seq<Byte>, again: string)
    requires AllSymbols(p) && |again| == |p| && 8 * |out| <= 6 * |p|
    requires ByteBits(out) == SymbolBits(p)[..8 * |out|] && Encodes(out, again)
    ensures again == p <==> SymbolBits(p)[8 * |out|..] == Zeros(6 * |p| - 8 * |out|)
  {
    var n, zeros := 8 * |out|, Zeros(6 * |p| - 8 * |out|);
    assert AllSymbols(again) && SymbolBits(again) == ByteBits(out) + zeros;
    hide SymbolBits, ByteBits, Zeros, AllSymbols, Encodes;
    assert SymbolBits(p) == SymbolBits(p)[..n] + SymbolBits(p)[n..];
    assert SymbolBits(again)[n..] == zeros;
    if SymbolBits(p)[n..] == zeros {
      SymbolBitsInjective(again, p);
    }
  }

  lemma LastSymbolBits(s: string)
    requires AllSymbols(s) && s != ""
    ensures SymbolBits(s)[6 * |s| - 6..] == Bits(Value(s[|s| - 1]), 6)
  {
  }

  lemma TailZero(v: nat, k: nat)
    requires k == 2 || k == 4
    ensures Bits(v, 6)[6 - k..] == Zeros(k) <==> v % (if k == 2 then 4 else 16) == 0
  {
    hide Bits, Zeros;
    BitsSplit(v, 6 - k, k);
    assert Bits(v, 6)[6 - k..] == Bits(v, k);
    BitsOfZero(k);
    ShiftTwo(1);
    ShiftTwo(v / 4);
    ShiftByFourMore(1, 0);
    ShiftByFourMore(v / 16, 0);
    var p := Shl(1, k);
    BitsIgnoreHigh(v / p, v % p, k, k);
    if Bits(v, k) == Zeros(k) {
      BitsInjective(v % p, 0, k);
    }
  }

  lemma ShiftTwo(v: nat)
    ensures Shl(v, 2) == 4 * v
  {
    assert Shl(v, 2) == 2 * Shl(v, 1);
  }
}
