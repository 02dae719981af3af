/** The streaming measurer of 16 kHz, 16-bit, little-endian, mono PCM. Floats are reals here. */
module AudioAnalysis {
  import opened Prelude

  const SAMPLE_RATE := 16000

  datatype Failure = ErrDuration | ErrInvalid

  /** `fingerprinted` is the byte string whose SHA-256 digest is the fingerprint; `meanSquare` is RMS squared. */
  datatype Report = Report(fingerprinted: seq<Byte>, durationMs: int, meanSquare: real, peak: real)

  datatype Stats = Stats(samples: nat, squares: real, peak: real)

  function Max(x: real, y: real): real {
    if x < y then y else x
  }

  function Min(x: real, y: real): real {
    if y < x then y else x
  }

  function Square(x: real): real {
    x * x
  }

  function Mean(total: real, n: nat): real
    requires n > 0
  {
    total / n as real
  }

  /** Two bytes read as a signed 16-bit number. */
  function Sample(low: Byte, high: Byte): int {
    var u := low + 256 * high;
    if u < 32768 then u else u - 65536
  }

  function Amplitude(low: Byte, high: Byte): real {
    var s := Sample(low, high);
    (if s < 0 then -s else s) as real / 32768.0
  }

  /** The statistics of all complete samples in `b`; an odd last byte is not counted. */
  function Measure(b: seq<Byte>): Stats {
    if |b| < 2 then Stats(0, 0.0, 0.0)
    else if |b| % 2 == 1 then Measure(b[..|b| - 1])
    else
      var m := Measure(b[..|b| - 2]);
      var a := Amplitude(b[|b| - 2], b[|b| - 1]);
      Stats(m.samples + 1, m.squares + Square(a), Max(m.peak, a))
  }

  /** Bytes in the longest stream of whole samples no longer than `maxDuration` nanoseconds. */
  function ByteLimit(maxDuration: Time): int
    requires maxDuration >= 0
  {
    maxDuration * SAMPLE_RATE / 1_000_000_000 * 2
  }

  /** What a stream of writes leaves behind: the accepted bytes and whether some write was refused. */
  datatype Intake = Intake(accepted: seq<Byte>, refused: bool)

  function Accept(limit: int, s: Intake, chunk: seq<Byte>): Intake {
    if |s.accepted| + |chunk| > limit then s.(refused := true) else s.(accepted := s.accepted + chunk)
  }

  function AcceptAll(limit: int, chunks: seq<seq<Byte>>): Intake {
    if chunks == [] then Intake([], false)
    else Accept(limit, AcceptAll(limit, chunks[..|chunks| - 1]), chunks[|chunks| - 1])
  }

  function Outcome(s: Intake): Result<Report, Failure> {
    if s.refused then Err(ErrDuration)
    else
      var m := Measure(s.accepted);
      if |s.accepted| % 2 == 1 || m.samples == 0 then Err(ErrInvalid)
      else Ok(Report(s.accepted, (m.samples * 1000 + 8000) / 16000,
                     Min(Square(m.peak), Mean(m.squares, m.samples)), m.peak))
  }

  /** One more byte either waits for its partner or completes a sample. */
  lemma MeasureAppend(s: seq<Byte>, b: Byte)
    ensures |s| % 2 == 0 ==> Measure(s + [b]) == Measure(s)
    ensures |s| % 2 == 1 ==> var m, a := Measure(s), Amplitude(s[|s| - 1], b);
                             Measure(s + [b]) == Stats(m.samples + 1, m.squares + Square(a), Max(m.peak, a))
  {
    hide Measure, Amplitude, Square;
    var next := s + [b];
    Parity(|s|);
    if |s| % 2 == 0 {
      MeasureOdd(next);
      assert next[..|s|] == s;
    } else {
      MeasureOdd(s);
      MeasurePair(next);
      assert next[..|next| - 2] == s[..|s| - 1];
    }
  }

  lemma Parity(n: nat)
    ensures (n + 1) % 2 == 1 - n % 2
  {
  }

  lemma MeasureShort(s: seq<Byte>)
    requires |s| < 2
    ensures Measure(s) == Stats(0, 0.0, 0.0)
  {
  }

  lemma MeasureOdd(s: seq<Byte>)
    requires |s| % 2 == 1
    ensures Measure(s) == Measure(s[..|s| - 1])
  {
    hide Square, Amplitude;
  }

  lemma MeasurePair(s: seq<Byte>)
    requires |s| % 2 == 0 && |s| > 0
    ensures var m, a := Measure(s[..|s| - 2]), Amplitude(s[|s| - 2], s[|s| - 1]);
            Measure(s) == Stats(m.samples + 1, m.squares + Square(a), Max(m.peak, a))
  {
    hide Square, Amplitude;
  }

  class PcmStats {
    const limit: int
    var hashed: seq<Byte>
    var bytes: int
    var samples: nat
    var squares: real
    var peak: real
    var low: Byte
    var half: bool
    var err: Option<Failure>

    ghost predicate Valid()
      reads this
    {
      && bytes == |hashed|
      && Measure(hashed) == Stats(samples, squares, peak)
      && half == (|hashed| % 2 == 1)
      && (half ==> low == hashed[|hashed| - 1])
      && err in {None, Some(ErrDuration)}
    }

    ghost function Contents(): Intake
      reads this
    {
      Intake(hashed, err.Some?)
    }

    constructor (maxDuration: Time)
      requires maxDuration >= 0
      ensures Valid() && Contents() == Intake([], false) && limit == ByteLimit(maxDuration)
    {
      limit := ByteLimit(maxDuration);
      hashed, bytes, samples, squares, peak := [], 0, 0, 0.0, 0.0;
      low, half, err := 0, false, None;
    }

    method Write(data: seq<Byte>) returns (n: int, failure: Option<Failure>)
      requires Valid()
      modifies this
      ensures Valid() && Contents() == Accept(limit, old(Contents()), data)
      ensures old(bytes) + |data| > limit ==> n == 0 && failure == Some(ErrDuration)
      ensures old(bytes) + |data| <= limit ==> n == |data| && failure == None
    {
      hide Square, Amplitude, Measure;
      if bytes + |data| > limit {
        err := Some(ErrDuration);
        return 0, err;
      }
      ghost var seen := hashed;
      hashed := hashed + data;
      bytes := bytes + |data|;
      for i := 0 to |data|
        invariant hashed == old(hashed) + data && bytes == |hashed| && err == old(err)
        invariant seen == hashed[..|old(hashed)| + i]
        invariant Measure(seen) == Stats(samples, squares, peak)
        invariant half == (|seen| % 2 == 1) && (half ==> low == seen[|seen| - 1])
      {
        var b := data[i];
        MeasureAppend(seen, b);
        seen := seen + [b];
        if !half {
          low := b;
          half := true;
          continue;
        }
        var amplitude := Amplitude(low, b);
        squares := squares + Square(amplitude);
        peak := Max(peak, amplitude);
        samples := samples + 1;
        half := false;
      }
      assert seen == hashed;
      return |data|, None;
    }

    method Result() returns (r: Result<Report, Failure>)
      requires Valid()
      ensures r == Outcome(Contents())
    {
      if err.Some? {
        return Err(err.value);
      }
      if half || samples == 0 {
        return Err(ErrInvalid);
      }
      return Ok(Report(hashed, (samples * 1000 + 8000) / 16000, Min(Square(peak), Mean(squares, samples)), peak));
    }
  }

  function Flatten(chunks: seq<seq<Byte>>): seq<Byte> {
    if chunks == [] then [] else Flatten(chunks[..|chunks| - 1]) + chunks[|chunks| - 1]
  }

  /** Some write is refused exactly when the whole stream is over the limit; otherwise every byte arrives in order. */
  lemma {:induction false} AcceptAllMeaning(limit: int, chunks: seq<seq<Byte>>)
    requires 0 <= limit || chunks != []
    ensures AcceptAll(limit, chunks).refused <==> |Flatten(chunks)| > limit
    ensures !AcceptAll(limit, chunks).refused ==> AcceptAll(limit, chunks).accepted == Flatten(chunks)
    ensures |AcceptAll(limit, chunks).accepted| <= |Flatten(chunks)|
  {
    if |chunks| > 1 || (|chunks| == 1 && 0 <= limit) {
      AcceptAllMeaning(limit, chunks[..|chunks| - 1]);
    } else if |chunks| == 1 {
      assert AcceptAll(limit, chunks[..0]) == Intake([], false) && Flatten(chunks[..0]) == [];
    }
  }

  /** However the same bytes are cut into writes, the outcome is that of a single write. */
  lemma ChunkIndependent(limit: int, chunks: seq<seq<Byte>>)
    requires 0 <= limit || chunks != []
    ensures Outcome(AcceptAll(limit, chunks)) == Outcome(AcceptAll(limit, [Flatten(chunks)]))
  {
    AcceptAllMeaning(limit, chunks);
    AcceptAllMeaning(limit, [Flatten(chunks)]);
    assert Flatten([Flatten(chunks)]) == Flatten(chunks);
  }

  /** Which outcome a stream gets depends only on its length. */
  lemma OutcomeByLength(limit: int, chunks: seq<seq<Byte>>)
    requires 0 <= limit || chunks != []
    ensures var total := |Flatten(chunks)|; var r := Outcome(AcceptAll(limit, chunks));
            && (r == Err(ErrDuration) <==> total > limit)
            && (r == Err(ErrInvalid) <==> total <= limit && (total % 2 == 1 || total == 0))
            && (r.Ok? ==> r.value.fingerprinted == Flatten(chunks))
  {
    AcceptAllMeaning(limit, chunks);
    MeasureMeaning(Flatten(chunks));
  }

  lemma SquareMonotone(p: real, q: real)
    requires 0.0 <= p <= q
    ensures 0.0 <= Square(p) <= Square(q)
  {
  }

  lemma EnergyStep(n: nat, squares: real, bound: real, raised: real, a: real)
    requires 0.0 <= squares <= n as real * bound && 0.0 <= bound <= raised && 0.0 <= a <= raised
    ensures squares + a <= (n + 1) as real * raised
  {
    assert n as real * bound <= n as real * raised;
  }

  lemma MeanBelow(total: real, n: nat, bound: real)
    requires n > 0 && 0.0 <= total <= n as real * bound
    ensures 0.0 <= Mean(total, n) <= bound
  {
    assert n as real * Mean(total, n) == total;
  }

  lemma AmplitudeRange(low: Byte, high: Byte)
    ensures 0.0 <= Amplitude(low, high) <= 1.0
  {
  }

  /** One sample per two bytes, and the peak is the largest amplitude. */
  lemma {:induction false} MeasureMeaning(b: seq<Byte>)
    ensures var m := Measure(b);
            && m.samples == |b| / 2
            && 0.0 <= m.peak <= 1.0
            && (forall k :: 0 <= k < m.samples ==> Amplitude(b[2 * k], b[2 * k + 1]) <= m.peak)
            && (m.samples > 0 ==> exists k :: 0 <= k < m.samples && m.peak == Amplitude(b[2 * k], b[2 * k + 1]))
  {
    hide Amplitude, Square;
    if |b| < 2 {
    } else if |b| % 2 == 1 {
      MeasureMeaning(b[..|b| - 1]);
    } else {
      var front := b[..|b| - 2];
      MeasureMeaning(front);
      var m, before := Measure(b), Measure(front);
      var last := before.samples;
      AmplitudeRange(b[|b| - 2], b[|b| - 1]);
      assert 2 * last == |b| - 2;
      forall k | 0 <= k < last
        ensures Amplitude(b[2 * k], b[2 * k + 1]) == Amplitude(front[2 * k], front[2 * k + 1])
      {
      }
      if m.peak == Amplitude(b[2 * last], b[2 * last + 1]) {
      } else {
        var k :| 0 <= k < last && before.peak == Amplitude(front[2 * k], front[2 * k + 1]);
        assert m.peak == Amplitude(b[2 * k], b[2 * k + 1]);
      }
    }
  }

  /** The peak bounds the energy. */
  lemma {:induction false} EnergyBound(b: seq<Byte>)
    ensures var m := Measure(b); 0.0 <= m.squares <= m.samples as real * Square(m.peak)
  {
    hide Measure, Amplitude, Square;
    if |b| < 2 {
      MeasureShort(b);
      SquareMonotone(0.0, 0.0);
    } else if |b| % 2 == 1 {
      MeasureOdd(b);
      EnergyBound(b[..|b| - 1]);
    } else {
      MeasurePair(b);
      var m, before := Measure(b), Measure(b[..|b| - 2]);
      var a := Amplitude(b[|b| - 2], b[|b| - 1]);
      EnergyBound(b[..|b| - 2]);
      MeasureMeaning(b[..|b| - 2]);
      AmplitudeRange(b[|b| - 2], b[|b| - 1]);
      SquareMonotone(before.peak, m.peak);
      SquareMonotone(a, m.peak);
      EnergyStep(before.samples, before.squares, Square(before.peak), Square(m.peak), Square(a));
    }
  }

  /**
   A successful report: the root of the mean square, whichever real that is, never exceeds the peak, so taking the
   lesser of the two changes nothing but rounding; and the milliseconds are the samples rounded to the nearest
   sixteenth.
   */
  lemma ReportBounds(s: Intake)
    requires Outcome(s).Ok?
    ensures var r := Outcome(s).value; var m := Measure(s.accepted);
            && m.samples == |s.accepted| / 2 > 0
            && 0.0 <= r.meanSquare <= Square(r.peak) && 0.0 <= r.peak <= 1.0
            && r.meanSquare == Mean(m.squares, m.samples) && r.peak == m.peak
            && (forall rms :: rms >= 0.0 && Square(rms) == r.meanSquare ==> rms <= r.peak)
            && -8 < 16 * r.durationMs - m.samples <= 8
  {
    hide Square, Mean, Measure, Amplitude;
    var m := Measure(s.accepted);
    MeasureMeaning(s.accepted);
    EnergyBound(s.accepted);
    MeanBelow(m.squares, m.samples, Square(m.peak));
    forall rms | rms >= 0.0 && Square(rms) <= Square(m.peak) ensures rms <= m.peak {
      if rms > m.peak {
        SquareGrows(m.peak, rms);
      }
    }
  }

  lemma SquareGrows(q: real, p: real)
    requires 0.0 <= q < p
    ensures Square(q) < Square(p)
  {
    var d := p - q;
    assert p * p == q * q + d * (p + q);
    assert d * (p + q) > 0.0;
  }

  // What the bytes mean

  /** A signed 16-bit number written low byte first, in two's complement, is the sample read back. */
  lemma SampleReads(v: int)
    requires -32768 <= v < 32768
    ensures var u := if v < 0 then v + 65536 else v;
            && Sample(u % 256, u / 256) == v
            && Amplitude(u % 256, u / 256) * 32768.0 == (if v < 0 then -v else v) as real
  {
  }

  function SamplesOf(b: seq<Byte>): seq<int> {
    seq(|b| / 2, k requires 0 <= k < |b| / 2 => Sample(b[2 * k], b[2 * k + 1]))
  }

  function Power(samples: seq<int>): real {
    if samples == [] then 0.0 else samples[0] as real * samples[0] as real + Power(samples[1..])
  }

  lemma {:induction false} PowerAppend(samples: seq<int>, v: int)
    ensures Power(samples + [v]) == Power(samples) + v as real * v as real
  {
    if samples == [] {
      assert Power([v]) == v as real * v as real;
      assert samples + [v] == [v];
    } else {
      PowerAppend(samples[1..], v);
      assert (samples + [v])[1..] == samples[1..] + [v];
    }
  }

  lemma AmplitudeSquared(low: Byte, high: Byte)
    ensures Square(Amplitude(low, high)) * 1_073_741_824.0 == Sample(low, high) as real * Sample(low, high) as real
  {
    hide Sample;
    var s := Sample(low, high);
    var m := (if s < 0 then -s else s) as real;
    assert m == s as real || m == -(s as real);
    SameSquare(s as real, m);
    ScaledSquare(Amplitude(low, high), m);
  }

  lemma SameSquare(x: real, y: real)
    requires y == x || y == -x
    ensures y * y == x * x
  {
  }

  lemma ScaledSquare(a: real, m: real)
    requires a * 32768.0 == m
    ensures a * a * 1_073_741_824.0 == m * m
  {
    assert m * m == (a * 32768.0) * (a * 32768.0);
    assert (a * 32768.0) * (a * 32768.0) == a * a * (32768.0 * 32768.0);
  }

  /** The squares are those of the samples the bytes encode, on the scale on which the largest amplitude is 1. */
  lemma {:induction false} SquaresExactly(b: seq<Byte>)
    ensures Measure(b).squares * 1_073_741_824.0 == Power(SamplesOf(b))
  {
    hide Measure, Amplitude, Square, Sample;
    if |b| < 2 {
      MeasureShort(b);
    } else if |b| % 2 == 1 {
      MeasureOdd(b);
      SquaresExactly(b[..|b| - 1]);
      assert SamplesOf(b) == SamplesOf(b[..|b| - 1]);
    } else {
      var front, low, high := b[..|b| - 2], b[|b| - 2], b[|b| - 1];
      MeasurePair(b);
      SquaresExactly(front);
      AmplitudeSquared(low, high);
      LastSample(b);
      PowerAppend(SamplesOf(front), Sample(low, high));
    }
  }

  lemma LastSample(b: seq<Byte>)
    requires |b| >= 2 && |b| % 2 == 0
    ensures SamplesOf(b) == SamplesOf(b[..|b| - 2]) + [Sample(b[|b| - 2], b[|b| - 1])]
  {
    hide Sample;
    var front, n := b[..|b| - 2], |b| / 2 - 1;
    assert |front| / 2 == n && 2 * n == |b| - 2;
    forall k | 0 <= k < n ensures SamplesOf(b)[k] == SamplesOf(front)[k] {
      assert front[2 * k] == b[2 * k] && front[2 * k + 1] == b[2 * k + 1];
    }
  }

  /** A stream fits exactly when its samples last no longer than the limit. */
  lemma ByteLimitExactly(maxDuration: Time, samples: nat)
    requires maxDuration >= 0
    ensures 2 * samples <= ByteLimit(maxDuration) <==> samples * 1_000_000_000 <= maxDuration * 16000
  {
  }
}
