/**
 Base64 as Go's encoding/base64 package reads and writes it: the alphabets of sections 4
 and 5 of RFC 4648, unpadded output, and the decoder's two tolerances (line breaks are
 skipped, and the unused low bits of the last digit are not checked).
 */
module Base64 {
  import opened Prelude

  type Digit = x: int | 0 <= x < 64

  datatype Alphabet = Std | Url

  function DigitChar(a: Alphabet, d: Digit): char {
    if d < 26 then ('A' as int + d) as char
    else if d < 52 then ('a' as int + (d - 26)) as char
    else if d < 62 then ('0' as int + (d - 52)) as char
    else if d == 62 then (if a == Std then '+' else '-')
    else (if a == Std then '/' else '_')
  }

  function CharDigit(a: Alphabet, c: char): Option<Digit> {
    if 'A' <= c <= 'Z' then Some(c as int - 'A' as int)
    else if 'a' <= c <= 'z' then Some(c as int - 'a' as int + 26)
    else if '0' <= c <= '9' then Some(c as int - '0' as int + 52)
    else if c == (if a == Std then '+' else '-') then Some(62)
    else if c == (if a == Std then '/' else '_') then Some(63)
    else None
  }

  /** One quantum of one, two or three bytes. */
  function EncodeQuantum(a: Alphabet, b: seq<Byte>): string
    requires 1 <= |b| <= 3
  {
    var c0 := DigitChar(a, b[0] / 4);
    if |b| == 1 then [c0, DigitChar(a, (b[0] % 4) * 16)]
    else
      var c1 := DigitChar(a, (b[0] % 4) * 16 + b[1] / 16);
      if |b| == 2 then [c0, c1, DigitChar(a, (b[1] % 16) * 4)]
      else [c0, c1, DigitChar(a, (b[1] % 16) * 4 + b[2] / 64), DigitChar(a, b[2] % 64)]
  }

  /** `RawStdEncoding.EncodeToString` and `RawURLEncoding.EncodeToString`. */
  function Encode(a: Alphabet, b: seq<Byte>): string {
    if |b| == 0 then ""
    else if |b| <= 3 then EncodeQuantum(a, b)
    else EncodeQuantum(a, b[..3]) + Encode(a, b[3..])
  }

  /** The decoder reads as if the line breaks were not there. */
  function SkipLineBreaks(s: string): string {
    if s == "" then ""
    else if s[0] == '\n' || s[0] == '\r' then SkipLineBreaks(s[1..])
    else [s[0]] + SkipLineBreaks(s[1..])
  }

  lemma {:induction false} SkipsApart(x: string, y: string)
    ensures SkipLineBreaks(x + y) == SkipLineBreaks(x) + SkipLineBreaks(y)
  {
    if x == "" {
      assert x + y == y;
    } else {
      SkipsApart(x[1..], y);
      assert (x + y)[1..] == x[1..] + y;
    }
  }

  /** Reading is the same with a line break anywhere in the text. */
  lemma LineBreaksAreSkipped(x: string, y: string)
    ensures SkipLineBreaks(x + ("\n" + y)) == SkipLineBreaks(x + y) == SkipLineBreaks(x + ("\r" + y))
  {
    SkipsApart(x, y);
    SkipsApart(x, "\n" + y);
    SkipsApart(x, "\r" + y);
    assert ("\n" + y)[1..] == y && ("\r" + y)[1..] == y;
  }

  /** One quantum of two, three or four digits. */
  function DecodeQuantum(a: Alphabet, s: string): Option<seq<Byte>>
    requires 2 <= |s| <= 4
  {
    var d0, d1 := CharDigit(a, s[0]), CharDigit(a, s[1]);
    if d0.None? || d1.None? then None
    else
      var b0: Byte := d0.value * 4 + d1.value / 16;
      if |s| == 2 then Some([b0])
      else
        var d2 := CharDigit(a, s[2]);
        if d2.None? then None
        else
          var b1: Byte := (d1.value % 16) * 16 + d2.value / 4;
          if |s| == 3 then Some([b0, b1])
          else
            var d3 := CharDigit(a, s[3]);
            if d3.None? then None
            else
              var b2: Byte := (d2.value % 4) * 64 + d3.value;
              Some([b0, b1, b2])
  }

  function Join(x: Option<seq<Byte>>, y: Option<seq<Byte>>): Option<seq<Byte>> {
    if x.Some? && y.Some? then Some(x.value + y.value) else None
  }

  function DecodeDigits(a: Alphabet, s: string): Option<seq<Byte>> {
    if |s| == 0 then Some([])
    else if |s| == 1 then None
    else if |s| <= 4 then DecodeQuantum(a, s)
    else Join(DecodeQuantum(a, s[..4]), DecodeDigits(a, s[4..]))
  }

  /** `RawStdEncoding.DecodeString` and `RawURLEncoding.DecodeString`. */
  function DecodeRaw(a: Alphabet, s: string): Option<seq<Byte>> {
    DecodeDigits(a, SkipLineBreaks(s))
  }

  function DecodePaddedDigits(a: Alphabet, s: string): Option<seq<Byte>> {
    if |s| == 0 then Some([])
    else if |s| < 4 then None
    else if |s| == 4 then
      if s[3] != '=' then DecodeQuantum(a, s)
      else DecodeQuantum(a, if s[2] == '=' then s[..2] else s[..3])
    else Join(DecodeQuantum(a, s[..4]), DecodePaddedDigits(a, s[4..]))
  }

  /** `URLEncoding.DecodeString`: padding is required. */
  function DecodePadded(a: Alphabet, s: string): Option<seq<Byte>> {
    DecodePaddedDigits(a, SkipLineBreaks(s))
  }

  /** The characters `Encode` can produce. */
  predicate InAlphabet(a: Alphabet, c: char) {
    CharDigit(a, c).Some?
  }

  lemma DigitRoundTrip(a: Alphabet, d: Digit)
    ensures CharDigit(a, DigitChar(a, d)) == Some(d)
  {
  }

  lemma {:induction false} EncodeInAlphabet(a: Alphabet, b: seq<Byte>)
    ensures forall i :: 0 <= i < |Encode(a, b)| ==> InAlphabet(a, Encode(a, b)[i])
    ensures b != [] ==> |Encode(a, b)| >= 2
  {
    forall d: Digit ensures InAlphabet(a, DigitChar(a, d)) {
      DigitRoundTrip(a, d);
    }
    hide DigitChar, CharDigit;
    if |b| > 3 {
      EncodeInAlphabet(a, b[3..]);
    }
  }

  lemma {:induction false} NothingToSkip(s: string)
    requires forall i :: 0 <= i < |s| ==> s[i] != '\n' && s[i] != '\r'
    ensures SkipLineBreaks(s) == s
  {
    if s != "" {
      NothingToSkip(s[1..]);
    }
  }

  /** The first digit and the upper bits of the second make up the first byte; the rest of the second is left over. */
  lemma SixAndTwo(x: Byte, low: int)
    requires 0 <= low < 16
    ensures 0 <= (x % 4) * 16 + low < 64
    ensures (x / 4) * 4 + ((x % 4) * 16 + low) / 16 == x && ((x % 4) * 16 + low) % 16 == low
  {
  }

  lemma FourAndFour(y: Byte, low: int)
    requires 0 <= low < 4
    ensures 0 <= (y % 16) * 4 + low < 64
    ensures (y / 16) * 16 + ((y % 16) * 4 + low) / 4 == y && ((y % 16) * 4 + low) % 4 == low
  {
  }

  lemma OneByte(a: Alphabet, b: seq<Byte>)
    requires |b| == 1
    ensures DecodeQuantum(a, EncodeQuantum(a, b)) == Some(b)
  {
    hide DigitChar, CharDigit;
    SixAndTwo(b[0], 0);
    DigitRoundTrip(a, b[0] / 4);
    DigitRoundTrip(a, (b[0] % 4) * 16);
    assert b == [b[0]];
  }

  lemma TwoBytes(a: Alphabet, b: seq<Byte>)
    requires |b| == 2
    ensures DecodeQuantum(a, EncodeQuantum(a, b)) == Some(b)
  {
    hide DigitChar, CharDigit;
    SixAndTwo(b[0], b[1] / 16);
    FourAndFour(b[1], 0);
    DigitRoundTrip(a, b[0] / 4);
    DigitRoundTrip(a, (b[0] % 4) * 16 + b[1] / 16);
    DigitRoundTrip(a, (b[1] % 16) * 4);
    assert b == [b[0], b[1]];
  }

  lemma ThreeBytes(a: Alphabet, b: seq<Byte>)
    requires |b| == 3
    ensures DecodeQuantum(a, EncodeQuantum(a, b)) == Some(b)
  {
    hide DigitChar, CharDigit;
    SixAndTwo(b[0], b[1] / 16);
    FourAndFour(b[1], b[2] / 64);
    DigitRoundTrip(a, b[0] / 4);
    DigitRoundTrip(a, (b[0] % 4) * 16 + b[1] / 16);
    DigitRoundTrip(a, (b[1] % 16) * 4 + b[2] / 64);
    DigitRoundTrip(a, b[2] % 64);
    assert b == [b[0], b[1], b[2]];
  }

  lemma QuantumRoundTrip(a: Alphabet, b: seq<Byte>)
    requires 1 <= |b| <= 3
    ensures DecodeQuantum(a, EncodeQuantum(a, b)) == Some(b)
  {
    hide DecodeQuantum, EncodeQuantum;
    if |b| == 1 {
      OneByte(a, b);
    } else if |b| == 2 {
      TwoBytes(a, b);
    } else {
      ThreeBytes(a, b);
    }
  }

  lemma {:induction false} DigitsRoundTrip(a: Alphabet, b: seq<Byte>)
    ensures DecodeDigits(a, Encode(a, b)) == Some(b)
  {
    if 1 <= |b| <= 3 {
      QuantumRoundTrip(a, b);
    } else if |b| > 3 {
      var q, t := EncodeQuantum(a, b[..3]), Encode(a, b[3..]);
      QuantumRoundTrip(a, b[..3]);
      DigitsRoundTrip(a, b[3..]);
      EncodeInAlphabet(a, b[3..]);
      assert (q + t)[..4] == q && (q + t)[4..] == t;
      assert b == b[..3] + b[3..];
    }
  }

  /** Decoding undoes encoding, for every byte string. */
  lemma RoundTrip(a: Alphabet, b: seq<Byte>)
    ensures DecodeRaw(a, Encode(a, b)) == Some(b)
  {
    EncodeInAlphabet(a, b);
    NothingToSkip(Encode(a, b));
    DigitsRoundTrip(a, b);
  }

  // The alphabets and the order of bits

  /** The digits 0 to 63 are A to Z, a to z, 0 to 9 and two more, as sections 4 and 5 of RFC 4648 list them. */
  lemma DigitsAreListed(a: Alphabet)
    ensures DigitChar(a, 0) == 'A' && DigitChar(a, 25) == 'Z' && DigitChar(a, 26) == 'a' && DigitChar(a, 51) == 'z'
    ensures DigitChar(a, 52) == '0' && DigitChar(a, 61) == '9'
    ensures DigitChar(a, 62) == (if a == Std then '+' else '-') && DigitChar(a, 63) == (if a == Std then '/' else '_')
    ensures forall d: Digit, e: Digit :: e == d + 1 && e < 62 && e != 26 && e != 52 ==>
              DigitChar(a, e) as int == DigitChar(a, d) as int + 1
  {
  }

  function Value(a: Alphabet, c: char): int {
    match CharDigit(a, c)
    case Some(d) => d
    case None => -1
  }

  /** Three bytes and the four digits they become are the same 24 bits, most significant first. */
  lemma QuantumIsBits(a: Alphabet, b: seq<Byte>)
    requires |b| == 3
    ensures var s := EncodeQuantum(a, b);
            && |s| == 4
            && Value(a, s[0]) * 262144 + Value(a, s[1]) * 4096 + Value(a, s[2]) * 64 + Value(a, s[3]) ==
               (b[0] as int) * 65536 + (b[1] as int) * 256 + b[2] as int
  {
    hide DigitChar, CharDigit;
    SixAndTwo(b[0], b[1] / 16);
    FourAndFour(b[1], b[2] / 64);
    DigitRoundTrip(a, b[0] / 4);
    DigitRoundTrip(a, (b[0] % 4) * 16 + b[1] / 16);
    DigitRoundTrip(a, (b[1] % 16) * 4 + b[2] / 64);
    DigitRoundTrip(a, b[2] % 64);
  }

  /** What padded encoders write: up to two padding characters make the length a multiple of four. */
  function Padded(s: string): string {
    s + if |s| % 4 == 2 then "==" else if |s| % 4 == 3 then "=" else ""
  }

  lemma {:induction false} PaddedDigitsRoundTrip(a: Alphabet, b: seq<Byte>)
    ensures DecodePaddedDigits(a, Padded(Encode(a, b))) == Some(b)
  {
    hide DecodeQuantum, EncodeQuantum, CharDigit;
    if 1 <= |b| <= 3 {
      QuantumRoundTrip(a, b);
      QuantumShape(a, b);
      var q := EncodeQuantum(a, b);
      assert Encode(a, b) == q && Padded(q)[..|q|] == q;
      assert |b| == 3 ==> Padded(q) == q;
    } else if |b| > 3 {
      var q, t := EncodeQuantum(a, b[..3]), Encode(a, b[3..]);
      QuantumRoundTrip(a, b[..3]);
      QuantumShape(a, b[..3]);
      PaddedDigitsRoundTrip(a, b[3..]);
      EncodeInAlphabet(a, b[3..]);
      PaddedBehind(q, t);
      assert b == b[..3] + b[3..];
    }
  }

  lemma QuantumShape(a: Alphabet, b: seq<Byte>)
    requires 1 <= |b| <= 3
    ensures var s := EncodeQuantum(a, b); |s| == |b| + 1 && forall k :: 0 <= k < |s| ==> s[k] != '='
  {
  }

  /** Decoding with padding undoes padded encoding, for every byte string. */
  lemma PaddedRoundTrip(a: Alphabet, b: seq<Byte>)
    ensures DecodePadded(a, Padded(Encode(a, b))) == Some(b)
  {
    EncodeInAlphabet(a, b);
    NothingToSkip(Padded(Encode(a, b)));
    PaddedDigitsRoundTrip(a, b);
  }

  /** Padding is no part of the unpadded form: such text is refused there, unless there was nothing to pad. */
  lemma {:induction false} PaddedIsNotRaw(a: Alphabet, b: seq<Byte>)
    ensures DecodeRaw(a, Padded(Encode(a, b))) == if |b| % 3 == 0 then Some(b) else None
  {
    hide Encode, DecodeDigits;
    EncodeInAlphabet(a, b);
    NothingToSkip(Padded(Encode(a, b)));
    PaddedDigitsAreNotRaw(a, b);
  }

  lemma {:induction false} PaddedDigitsAreNotRaw(a: Alphabet, b: seq<Byte>)
    ensures DecodeDigits(a, Padded(Encode(a, b))) == if |b| % 3 == 0 then Some(b) else None
  {
    hide EncodeQuantum, CharDigit;
    PaddingIsNoDigit(a);
    if 1 <= |b| <= 3 {
      QuantumRoundTrip(a, b);
      QuantumShape(a, b);
      assert |b| == 3 ==> Padded(Encode(a, b)) == Encode(a, b);
    } else if |b| > 3 {
      var q, t := EncodeQuantum(a, b[..3]), Encode(a, b[3..]);
      QuantumRoundTrip(a, b[..3]);
      QuantumShape(a, b[..3]);
      PaddedDigitsAreNotRaw(a, b[3..]);
      EncodeInAlphabet(a, b[3..]);
      assert |q + t| % 4 == |t| % 4;
      assert Padded(q + t) == q + Padded(t);
      assert (q + Padded(t))[..4] == q && (q + Padded(t))[4..] == Padded(t);
      assert b == b[..3] + b[3..];
    }
  }

  lemma PaddedBehind(q: string, t: string)
    requires |q| == 4
    ensures Padded(q + t) == q + Padded(t) && (q + Padded(t))[..4] == q && (q + Padded(t))[4..] == Padded(t)
  {
    assert |q + t| % 4 == |t| % 4;
  }

  lemma PaddingIsNoDigit(a: Alphabet)
    ensures CharDigit(a, '=').None?
  {
  }
}
