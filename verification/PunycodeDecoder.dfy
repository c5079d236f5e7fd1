/**
 The decoder of RFC 3492, from the text of the standard alone: the parameters of section 5,
 the bias adaptation of section 6.1 and the decoding procedure of section 6.2.
 */
module PunycodeDecoder {
  import opened Wrappers

  /** Section 6.2: the threshold at a digit position, kept between 1 and 26. */
  function DigitThreshold(k: nat, bias: nat): (t: nat)
    ensures 1 <= t <= 26
  {
    if k <= bias then 1 else if k >= bias + 26 then 26 else k - bias
  }

  /** Section 6.1: one damping for the first delta, another for the rest, and half as much
      again for every code point there is. */
  function Damped(delta: nat, points: nat, first: bool): nat
    requires points > 0
  {
    var d := if first then delta / 700 else delta / 2;
    assert d / points >= 0;
    d + d / points
  }

  /** Divided by 35 as often as it takes to come down to 455, counting by 36. */
  function BiasOf(d: nat, k: nat): nat {
    if d > 455 then BiasOf(d / 35, k + 36) else assert 36 * d / (d + 38) >= 0; k + 36 * d / (d + 38)
  }

  function NextBias(delta: nat, points: nat, first: bool): nat
    requires points > 0
  {
    BiasOf(Damped(delta, points, first), 0)
  }

  function DigitValue(c: char): Option<nat> {
    if 'a' <= c <= 'z' then Some(c as int - 'a' as int)
    else if 'A' <= c <= 'Z' then Some(c as int - 'A' as int)
    else if '0' <= c <= '9' then Some(c as int - '0' as int + 26)
    else None
  }

  /** The counters and the output of the decoder between two insertions. */
  datatype Decoder = Decoder(n: nat, i: nat, bias: nat, output: seq<nat>)

  /** Reads one generalized variable-length integer and adds it to `i`. */
  function ReadDelta(s: string, k: nat, bias: nat, w: nat, i: nat): (r: Option<(nat, string)>)
    ensures r.Some? ==> i <= r.value.0 && |r.value.1| < |s|
  {
    if s == "" then None
    else
      match DigitValue(s[0])
      case None => None
      case Some(d) =>
        var t := DigitThreshold(k, bias);
        if d < t then Some((i + d * w, s[1..]))
        else ReadDelta(s[1..], k + 36, bias, w * (36 - t), i + d * w)
  }

  /** What the decoder does once `i` has grown to `grown`. */
  function Inserted(st: Decoder, grown: nat): Decoder
    requires st.i <= grown
  {
    var points := |st.output| + 1;
    var pos := grown % points;
    var n := st.n + grown / points;
    Decoder(n, pos + 1, NextBias(grown - st.i, points, st.i == 0),
            st.output[..pos] + [n] + st.output[pos..])
  }

  function DecodeFrom(st: Decoder, s: string): Option<seq<nat>>
    decreases |s|
  {
    if s == "" then Some(st.output)
    else
      match ReadDelta(s, 36, st.bias, 1, st.i)
      case None => None
      case Some((grown, rest)) => DecodeFrom(Inserted(st, grown), rest)
  }

  /** How many characters precede the last delimiter; 0 if there is none. */
  function BasicCount(s: string): (b: nat)
    ensures b <= |s| && (b > 0 ==> b < |s| && s[b] == '-')
  {
    if s == "" then 0
    else if s[|s| - 1] == '-' then |s| - 1
    else BasicCount(s[..|s| - 1])
  }

  function CodePoints(s: string): seq<nat> {
    seq(|s|, k requires 0 <= k < |s| => s[k] as int)
  }

  function InitialDecoder(basics: seq<nat>): Decoder {
    Decoder(0x80, 0, 72, basics)
  }

  function Decode(s: string): Option<seq<nat>> {
    var b := BasicCount(s);
    if exists k :: 0 <= k < b && s[k] as int >= 0x80 then None
    else DecodeFrom(InitialDecoder(CodePoints(s[..b])), if b > 0 then s[b + 1..] else s)
  }
}
