/** Resampling kernels over 16-bit samples, with source positions as exact rationals, and the
    byte carry between chunks. */
module Resample {
  import opened Basics

  predicate IsPcm16(x: int) {
    -32768 <= x <= 32767
  }

  ghost predicate AllPcm16(s: seq<int>) {
    forall i :: 0 <= i < |s| ==> IsPcm16(s[i])
  }

  // Conversion of a quotient to an integer drops the fraction.
  function TruncDiv(a: int, b: int): int
    requires b > 0
  {
    if a >= 0 then a / b else -((-a) / b)
  }

  // ---------- source positions ----------

  // Output i of T reads position i * (n - 1) / (T - 1) of n inputs: its whole part and the
  // numerator of its fraction over T - 1.
  function SourceIndex(i: nat, n: nat, target: nat): nat
    requires n > 0
  {
    if target > 1 then i * (n - 1) / (target - 1) else 0
  }

  function Fraction(i: nat, n: nat, target: nat): nat
    requires n > 0
  {
    if target > 1 then i * (n - 1) % (target - 1) else 0
  }

  // A sample between two neighbours, `rem` parts of `den` of the way.
  function Interpolate(a: int, b: int, rem: nat, den: nat): int
    requires den > 0
  {
    a + TruncDiv(rem * (b - a), den)
  }

  function Den(target: nat): nat
    ensures Den(target) > 0
  {
    if target > 1 then target - 1 else 1
  }

  function MonoSample(samples: seq<int>, target: nat, i: nat): int
    requires |samples| > 0 && i < target
  {
    IndexInRange(i, |samples|, target);
    var idx, rem := SourceIndex(i, |samples|, target), Fraction(i, |samples|, target);
    if idx + 1 < |samples| && rem > 0 then Interpolate(samples[idx], samples[idx + 1], rem, Den(target))
    else samples[idx]
  }

  // ---------- arithmetic ----------

  lemma {:induction false} DivisionFacts(a: nat, b: nat)
    requires b > 0
    ensures a == a / b * b + a % b && a % b < b
  {
  }

  lemma {:induction false} MulMono(a: int, b: int, c: int)
    requires a <= b && c >= 0
    ensures a * c <= b * c
  {
    assert b * c - a * c == (b - a) * c;
    assert (b - a) * c >= 0;
  }

  lemma {:induction false} DivMono(a: nat, b: nat, c: nat)
    requires a <= b && c > 0
    ensures a / c <= b / c
  {
    DivisionFacts(a, c);
    DivisionFacts(b, c);
    if a / c > b / c {
      MulMono(b / c + 1, a / c, c);
    }
  }

  lemma {:induction false} DivExact(q: nat, c: nat)
    requires c > 0
    ensures q * c / c == q && q * c % c == 0
  {
    DivisionFacts(q * c, c);
    var d := q * c / c;
    assert (q - d) * c == q * c % c;
    if q > d {
      MulMono(1, q - d, c);
    } else if q < d {
      MulMono(q + 1, d, c);
    }
  }

  // Every position is inside the input; the last position is its last sample.
  lemma {:induction false} IndexInRange(i: nat, n: nat, target: nat)
    requires n > 0 && i < target
    ensures SourceIndex(i, n, target) < n
    ensures Fraction(i, n, target) < Den(target)
    ensures Fraction(i, n, target) > 0 ==> SourceIndex(i, n, target) + 1 < n
  {
    if target > 1 {
      var c := target - 1;
      MulMono(i, c, n - 1);
      assert c * (n - 1) == (n - 1) * c;
      DivMono(i * (n - 1), (n - 1) * c, c);
      DivExact(n - 1, c);
      DivisionFacts(i * (n - 1), c);
    }
  }

  lemma {:induction false} QuotientBelow(rem: nat, d: nat, den: nat)
    requires rem <= den && den > 0
    ensures rem * d >= 0 && rem * d / den <= d
  {
    MulMono(rem, den, d);
    assert den * d == d * den;
    MulMono(0, rem, d);
    DivMono(rem * d, d * den, den);
    DivExact(d, den);
  }

  lemma {:induction false} TruncNegated(a: int, b: int)
    requires a >= 0 && b > 0
    ensures TruncDiv(a, b) == a / b && TruncDiv(-a, b) == -(a / b)
  {
  }

  lemma {:induction false} TruncDown(rem: int, e: int, den: int, product: int)
    requires 0 <= rem <= den && den > 0 && e >= 0 && product == -(rem * e)
    ensures -e <= TruncDiv(product, den) <= 0
  {
    QuotientBelow(rem, e, den);
    TruncNegated(rem * e, den);
  }

  lemma {:induction false} TruncBetween(rem: nat, d: int, den: nat)
    requires rem <= den && den > 0
    ensures d >= 0 ==> 0 <= TruncDiv(rem * d, den) <= d
    ensures d <= 0 ==> d <= TruncDiv(rem * d, den) <= 0
  {
    if d >= 0 {
      QuotientBelow(rem, d, den);
      TruncNegated(rem * d, den);
    }
    if d <= 0 {
      TruncDown(rem, -d, den, rem * d);
    }
  }

  // ---------- what the kernels promise ----------

  lemma {:induction false} InterpolateBetween(a: int, b: int, rem: nat, den: nat)
    requires rem <= den && den > 0
    ensures a <= b ==> a <= Interpolate(a, b, rem, den) <= b
    ensures b <= a ==> b <= Interpolate(a, b, rem, den) <= a
  {
    TruncBetween(rem, b - a, den);
  }

  // Every output lies between two neighbouring inputs.
  lemma {:induction false} MonoSampleBetweenNeighbours(samples: seq<int>, target: nat, i: nat)
    requires |samples| > 0 && i < target
    ensures
      var idx := SourceIndex(i, |samples|, target);
      var next := if idx + 1 < |samples| then idx + 1 else idx;
      && idx < |samples|
      && (samples[idx] <= samples[next] ==> samples[idx] <= MonoSample(samples, target, i) <= samples[next])
      && (samples[next] <= samples[idx] ==> samples[next] <= MonoSample(samples, target, i) <= samples[idx])
  {
    IndexInRange(i, |samples|, target);
    var idx, rem := SourceIndex(i, |samples|, target), Fraction(i, |samples|, target);
    if idx + 1 < |samples| && rem > 0 {
      InterpolateBetween(samples[idx], samples[idx + 1], rem, Den(target));
    }
  }

  lemma {:induction false} TruncIsClose(a: int, b: int)
    requires b > 0
    ensures -b < b * TruncDiv(a, b) - a < b
  {
    if a >= 0 {
      DivisionFacts(a, b);
    } else {
      DivisionFacts(-a, b);
      assert b * TruncDiv(a, b) == -(-a / b * b);
    }
  }

  // Within one unit of the point that lies `past` parts of `den` of the way from a to b.
  ghost predicate IsClose(value: int, a: int, b: int, past: int, den: int) {
    -den < den * value - (den * a + past * (b - a)) < den
  }

  lemma {:induction false} InterpolateIsClose(a: int, b: int, rem: nat, den: nat)
    requires den > 0
    ensures IsClose(Interpolate(a, b, rem, den), a, b, rem, den)
  {
    var slope := rem * (b - a);
    TruncIsClose(slope, den);
    assert den * (a + TruncDiv(slope, den)) == den * a + den * TruncDiv(slope, den);
  }

  // Every output is within one unit of the straight line between its neighbours at its exact position i * (n - 1).
  lemma {:induction false} MonoSampleIsAccurate(samples: seq<int>, target: nat, i: nat)
    requires |samples| > 0 && i < target
    ensures
      var n, den, idx := |samples|, Den(target), SourceIndex(i, |samples|, target);
      var past := i * (n - 1) - den * idx;
      var next := if idx + 1 < n then idx + 1 else idx;
      && 0 <= idx < n && 0 <= past < den
      && IsClose(MonoSample(samples, target, i), samples[idx], samples[next], past, den)
  {
    var n, den := |samples|, Den(target);
    IndexInRange(i, n, target);
    var idx, rem := SourceIndex(i, n, target), Fraction(i, n, target);
    PositionSplits(i, n, target);
    if idx + 1 < n && rem > 0 {
      InterpolateIsClose(samples[idx], samples[idx + 1], rem, den);
    } else if idx + 1 < n {
      AtSample(samples[idx], samples[idx + 1], den);
    } else {
      AtSample(samples[idx], samples[idx], den);
    }
  }

  lemma {:induction false} AtSample(a: int, b: int, den: nat)
    requires den > 0
    ensures IsClose(a, a, b, 0, den)
  {
  }

  lemma {:induction false} PositionSplits(i: nat, n: nat, target: nat)
    requires n > 0 && i < target
    ensures i * (n - 1) == Den(target) * SourceIndex(i, n, target) + Fraction(i, n, target)
  {
    if target > 1 {
      DivisionFacts(i * (n - 1), target - 1);
    }
  }

  // Stretching by a whole factor keeps every input sample in its place; by one, it changes nothing.
  lemma {:induction false} InputsReappear(samples: seq<int>, factor: nat, j: nat)
    requires j < |samples| && factor > 0
    ensures
      var target := factor * (|samples| - 1) + 1;
      factor * j < target && MonoSample(samples, target, factor * j) == samples[j]
  {
    var n := |samples|;
    var c := factor * (n - 1);
    MulMono(j, n - 1, factor);
    assert factor * j <= c;
    if n > 1 {
      MulMono(1, n - 1, factor);
      assert factor * j * (n - 1) == j * c;
      DivExact(j, c);
    }
  }

  function Negated(samples: seq<int>): (n: seq<int>)
    ensures |n| == |samples|
  {
    seq(|samples|, i requires 0 <= i < |samples| => -samples[i])
  }

  // Rounding does not favour a direction: the output of a negated signal is the negated output.
  lemma {:induction false} NegationCommutes(samples: seq<int>, target: nat, i: nat)
    requires |samples| > 0 && i < target
    ensures MonoSample(Negated(samples), target, i) == -MonoSample(samples, target, i)
  {
    IndexInRange(i, |samples|, target);
    var idx, rem, den := SourceIndex(i, |samples|, target), Fraction(i, |samples|, target), Den(target);
    if idx + 1 < |samples| && rem > 0 {
      var d := samples[idx + 1] - samples[idx];
      assert rem * -d == -(rem * d);
      if rem * d >= 0 {
        TruncNegated(rem * d, den);
      } else {
        TruncNegated(-(rem * d), den);
      }
    }
  }

  // So the cast to 16 bits never wraps.
  lemma {:induction false} MonoSampleIsPcm16(samples: seq<int>, target: nat, i: nat)
    requires |samples| > 0 && i < target && AllPcm16(samples)
    ensures IsPcm16(MonoSample(samples, target, i))
  {
    MonoSampleBetweenNeighbours(samples, target, i);
    var idx := SourceIndex(i, |samples|, target);
    assert IsPcm16(samples[idx]);
    if idx + 1 < |samples| {
      assert IsPcm16(samples[idx + 1]);
    }
  }

  // The first and the last output are the first and the last input.
  lemma {:induction false} EndsPreserved(samples: seq<int>, target: nat)
    requires |samples| > 0 && target > 1
    ensures MonoSample(samples, target, 0) == samples[0]
    ensures MonoSample(samples, target, target - 1) == samples[|samples| - 1]
  {
    var n, c := |samples|, target - 1;
    DivExact(0, c);
    assert 0 * (n - 1) == 0 * c;
    assert c * (n - 1) == (n - 1) * c;
    DivExact(n - 1, c);
  }

  ghost predicate NonDecreasing(s: seq<int>) {
    forall i, j :: 0 <= i <= j < |s| ==> s[i] <= s[j]
  }

  lemma {:induction false} PositionsMonotone(i: nat, j: nat, n: nat, target: nat)
    requires n > 0 && i <= j < target
    ensures SourceIndex(i, n, target) <= SourceIndex(j, n, target)
    ensures SourceIndex(i, n, target) == SourceIndex(j, n, target) ==> Fraction(i, n, target) <= Fraction(j, n, target)
  {
    if target > 1 {
      var c := target - 1;
      MulMono(i, j, n - 1);
      DivMono(i * (n - 1), j * (n - 1), c);
      DivisionFacts(i * (n - 1), c);
      DivisionFacts(j * (n - 1), c);
    }
  }

  lemma {:induction false} InterpolateMonotone(a: int, b: int, r: nat, s: nat, den: nat)
    requires a <= b && r <= s && den > 0
    ensures Interpolate(a, b, r, den) <= Interpolate(a, b, s, den)
  {
    MulMono(r, s, b - a);
    assert r * (b - a) >= 0;
    DivMono(r * (b - a), s * (b - a), den);
  }

  // The mono kernel maps a non-decreasing input to a non-decreasing output, whatever the lengths.
  lemma {:induction false} MonoSampleMonotone(samples: seq<int>, target: nat, i: nat, j: nat)
    requires |samples| > 0 && NonDecreasing(samples) && i <= j < target
    ensures MonoSample(samples, target, i) <= MonoSample(samples, target, j)
  {
    var n := |samples|;
    PositionsMonotone(i, j, n, target);
    IndexInRange(i, n, target);
    IndexInRange(j, n, target);
    MonoSampleBetweenNeighbours(samples, target, i);
    MonoSampleBetweenNeighbours(samples, target, j);
    var p, q := SourceIndex(i, n, target), SourceIndex(j, n, target);
    if p < q {
      assert samples[p + 1] <= samples[q];
    } else if Fraction(i, n, target) > 0 {
      InterpolateMonotone(samples[p], samples[p + 1], Fraction(i, n, target), Fraction(j, n, target), Den(target));
    }
  }

  // Fills an array sample by sample; the caller passes a target length of 0 for an empty input.
  method MonoResample(samples: array<int>, target: nat) returns (output: array<int>)
    requires target > 0 ==> samples.Length > 0
    ensures fresh(output) && output.Length == target
    ensures forall i :: 0 <= i < target ==> output[i] == MonoSample(samples[..], target, i)
  {
    output := new int[target];
    var n := samples.Length;
    for i := 0 to target
      invariant forall k :: 0 <= k < i ==> output[k] == MonoSample(samples[..], target, k)
    {
      IndexInRange(i, n, target);

      var idx, rem := SourceIndex(i, n, target), Fraction(i, n, target);
      if idx + 1 < n && rem > 0 {
        var sample1, sample2 := samples[idx], samples[idx + 1];
        output[i] := sample1 + TruncDiv(rem * (sample2 - sample1), Den(target));
      } else {
        output[i] := samples[idx];
      }
    }
  }

  // ---------- stereo ----------

  // The mono mix of each complete stereo pair, rounded down.
  function Mix(samples: seq<int>): (mono: seq<int>)
    ensures |mono| == |samples| / 2
  {
    seq(|samples| / 2, k requires 0 <= k < |samples| / 2 => (samples[2 * k] + samples[2 * k + 1]) / 2)
  }

  lemma {:induction false} MixIsPcm16(samples: seq<int>)
    requires AllPcm16(samples)
    ensures AllPcm16(Mix(samples))
  {
    forall k | 0 <= k < |Mix(samples)| ensures IsPcm16(Mix(samples)[k]) {
      assert IsPcm16(samples[2 * k]) && IsPcm16(samples[2 * k + 1]);
    }
  }

  // Each mixed sample is the mean of its pair, at most half a unit below.
  lemma {:induction false} MixIsMean(samples: seq<int>, k: nat)
    requires k < |samples| / 2
    ensures 0 <= samples[2 * k] + samples[2 * k + 1] - 2 * Mix(samples)[k] <= 1
  {
  }

  function Interleaved(left: seq<int>, right: seq<int>): (samples: seq<int>)
    requires |left| == |right|
    ensures |samples| == 2 * |left|
  {
    seq(2 * |left|, i requires 0 <= i < 2 * |left| => if i % 2 == 0 then left[i / 2] else right[i / 2])
  }

  // Both channels count alike: exchanging them changes no output of the stereo kernels.
  lemma {:induction false} ChannelsAreEqual(left: seq<int>, right: seq<int>)
    requires |left| == |right|
    ensures Mix(Interleaved(left, right)) == Mix(Interleaved(right, left))
    ensures forall target, i :: 0 <= i < target && |left| > 0 ==>
              MonoSample(Mix(Interleaved(left, right)), target, i) == MonoSample(Mix(Interleaved(right, left)), target,
                  i)
    ensures forall factor :: factor > 0 ==>
              Decimated(Mix(Interleaved(left, right)), factor) == Decimated(Mix(Interleaved(right, left)), factor)
  {
    var a, b := Interleaved(left, right), Interleaved(right, left);
    forall k | 0 <= k < |left| ensures Mix(a)[k] == Mix(b)[k] {
      assert a[2 * k] == left[k] && a[2 * k + 1] == right[k] && b[2 * k] == right[k] && b[2 * k + 1] == left[k];
    }
    assert Mix(a) == Mix(b);
  }

  // A signal that is the same on both channels goes through the stereo kernels as through the mono ones.
  lemma {:induction false} SameChannelsAreMono(mono: seq<int>)
    ensures Mix(Interleaved(mono, mono)) == mono
  {
    var both := Interleaved(mono, mono);
    forall k | 0 <= k < |mono| ensures Mix(both)[k] == mono[k] {
      assert both[2 * k] == mono[k] && both[2 * k + 1] == mono[k];
    }
  }

  // Resampling stereo is mixing down first and resampling the mix: every mono result carries over.
  method StereoResample(samples: array<int>, target: nat) returns (output: array<int>)
    requires target > 0 ==> samples.Length >= 2
    ensures fresh(output) && output.Length == target
    ensures forall i :: 0 <= i < target ==> output[i] == MonoSample(Mix(samples[..]), target, i)
  {
    output := new int[target];
    var n := samples.Length / 2;
    for i := 0 to target
      invariant forall k :: 0 <= k < i ==> output[k] == MonoSample(Mix(samples[..]), target, k)
    {
      IndexInRange(i, n, target);
      var idx, rem := SourceIndex(i, n, target), Fraction(i, n, target);
      var mono1 := (samples[idx * 2] + samples[idx * 2 + 1]) / 2;
      assert mono1 == Mix(samples[..])[idx];
      if idx + 1 < n && rem > 0 {
        var next := (idx + 1) * 2;
        var mono2 := (samples[next] + samples[next + 1]) / 2;
        assert mono2 == Mix(samples[..])[idx + 1];
        output[i] := mono1 + TruncDiv(rem * (mono2 - mono1), Den(target));
      } else {
        output[i] := mono1;
      }
    }
  }

  // ---------- decimation ----------

  lemma {:induction false} DecimateInRange(i: nat, n: nat, factor: nat)
    requires factor > 0 && i < n / factor
    ensures i * factor < n
  {
    DivisionFacts(n, factor);
    MulMono(i + 1, n / factor, factor);
    assert (i + 1) * factor == i * factor + factor;
  }

  // Every factor-th sample.
  function Decimated(samples: seq<int>, factor: nat): (output: seq<int>)
    requires factor > 0
    ensures |output| == |samples| / factor
  {
    seq(|samples| / factor, i requires 0 <= i < |samples| / factor =>
      DecimateInRange(i, |samples|, factor); samples[i * factor])
  }

  lemma {:induction false} LessOfProducts(a: int, b: int, c: int)
    requires c > 0 && a * c < b * c
    ensures a < b
  {
    if a >= b {
      MulMono(b, a, c);
    }
  }

  // Decimation takes back what stretching by the same whole factor added.
  lemma {:induction false} DecimationUndoesStretching(samples: seq<int>, factor: nat, stretched: seq<int>, j: nat)
    requires factor > 0 && |samples| > 0 && |stretched| == factor * (|samples| - 1) + 1
    requires forall i :: 0 <= i < |stretched| ==> stretched[i] == MonoSample(samples, |stretched|, i)
    requires j < |stretched| / factor
    ensures j < |samples| && Decimated(stretched, factor)[j] == samples[j]
  {
    DecimateInRange(j, |stretched|, factor);
    assert |samples| * factor == factor * (|samples| - 1) + factor;
    LessOfProducts(j, |samples|, factor);
    InputsReappear(samples, factor, j);
    assert j * factor == factor * j;
  }

  // Decimating twice is decimating by the product.
  lemma {:induction false} DecimationComposes(samples: seq<int>, a: nat, b: nat, i: nat)
    requires a > 0 && b > 0 && i < |samples| / a / b
    ensures a * b > 0 && i < |samples| / (a * b)
    ensures Decimated(Decimated(samples, a), b)[i] == Decimated(samples, a * b)[i]
  {
    MulMono(1, b, a);
    var n := |samples|;
    DivisionFacts(n, a);
    DivisionFacts(n / a, b);
    DecimateInRange(i, n / a, b);
    MulMono(i + 1, n / a / b, b);
    MulMono((i + 1) * b, n / a, a);
    assert (i + 1) * b * a == (i + 1) * (a * b);
    DivMono((i + 1) * (a * b), n, a * b);
    DivExact(i + 1, a * b);
    assert i * b * a == i * (a * b);
  }

  method MonoDecimate(samples: array<int>, factor: nat) returns (output: array<int>)
    requires factor > 0
    ensures fresh(output) && output[..] == Decimated(samples[..], factor)
  {
    output := new int[samples.Length / factor];
    for i := 0 to output.Length
      invariant forall k :: 0 <= k < i ==> output[k] == Decimated(samples[..], factor)[k]
    {
      DecimateInRange(i, samples.Length, factor);
      output[i] := samples[i * factor];
    }
  }

  lemma {:induction false} PairInRange(i: nat, n: nat, factor: nat)
    requires factor > 0 && i < n / 2 / factor
    ensures i * factor * 2 == 2 * (i * factor) && i * factor < n / 2 && i * factor * 2 + 1 < n
  {
    DecimateInRange(i, n / 2, factor);
  }

  method StereoDecimate(samples: array<int>, factor: nat) returns (output: array<int>)
    requires factor > 0
    ensures fresh(output) && output[..] == Decimated(Mix(samples[..]), factor)
  {
    output := new int[samples.Length / 2 / factor];
    for i := 0 to output.Length
      invariant forall k :: 0 <= k < i ==> output[k] == Decimated(Mix(samples[..]), factor)[k]
    {
      PairInRange(i, samples.Length, factor);
      var base := i * factor * 2;
      output[i] := (samples[base] + samples[base + 1]) / 2;
    }
  }

  // ---------- the byte carry ----------

  // Little-endian two's complement.
  function DecodeSample(low: Byte, high: Byte): int {
    var unsigned := low + 256 * high;
    if unsigned < 32768 then unsigned else unsigned - 65536
  }

  // The sample is the one 16-bit number whose residue modulo 2^16 the two bytes spell, the low one first.
  lemma {:induction false} SampleOfBytes(low: Byte, high: Byte, x: int)
    ensures x == DecodeSample(low, high) <==> IsPcm16(x) && x % 256 == low && x / 256 % 256 == high
  {
    BytesOfSample(low, high);
    if IsPcm16(x) && x % 256 == low && x / 256 % 256 == high {
      assert x == 256 * (x / 256) + low && -128 <= x / 256 < 128;
    }
  }

  lemma {:induction false} BytesOfSample(low: Byte, high: Byte)
    ensures
      var x := DecodeSample(low, high);
      IsPcm16(x) && x % 256 == low && x / 256 % 256 == high
  {
    var x := DecodeSample(low, high);
    var top := if high < 128 then high else high - 256;
    assert x == 256 * top + low;
    assert x / 256 == top && x % 256 == low;
  }

  function Decode(bytes: seq<Byte>): (samples: seq<int>)
    ensures |samples| == |bytes| / 2
  {
    seq(|bytes| / 2, k requires 0 <= k < |bytes| / 2 => DecodeSample(bytes[2 * k], bytes[2 * k + 1]))
  }

  class SampleReader {
    var byteBuffer: seq<Byte>

    constructor ()
      ensures byteBuffer == []
    {
      byteBuffer := [];
    }

    // Complete samples now; an odd byte is carried to the next call.
    method Take(data: seq<Byte>) returns (samples: seq<int>)
      modifies this
      ensures (byteBuffer, samples) == Carry(old(byteBuffer), data)
    {
      byteBuffer := byteBuffer + data;
      var available := |byteBuffer| / 2;
      if available == 0 {
        assert byteBuffer[0..] == byteBuffer;
        return [];
      }
      var used := available * 2;
      samples := Decode(byteBuffer[..used]);
      byteBuffer := byteBuffer[used..];
    }
  }

  function Carry(carried: seq<Byte>, data: seq<Byte>): (seq<Byte>, seq<int>) {
    var all := carried + data;
    var used := |all| / 2 * 2;
    (all[used..], Decode(all[..used]))
  }

  // Feeds the chunks one by one: the bytes carried at the end, and all samples handed out.
  function Feed(chunks: seq<seq<Byte>>): (seq<Byte>, seq<int>) {
    if chunks == [] then ([], [])
    else
      var (carried, samples) := Feed(chunks[..|chunks| - 1]);
      var (carried', more) := Carry(carried, chunks[|chunks| - 1]);
      (carried', samples + more)
  }

  function Joined(chunks: seq<seq<Byte>>): seq<Byte> {
    if chunks == [] then [] else Joined(chunks[..|chunks| - 1]) + chunks[|chunks| - 1]
  }

  lemma {:induction false} DecodeConcat(a: seq<Byte>, b: seq<Byte>)
    requires |a| % 2 == 0
    ensures Decode(a + b) == Decode(a) + Decode(b)
  {
    forall k | 0 <= k < |a + b| / 2 ensures Decode(a + b)[k] == (Decode(a) + Decode(b))[k] {
      if k >= |a| / 2 {
        assert (a + b)[2 * k] == b[2 * (k - |a| / 2)];
      }
    }
  }

  function Whole(bytes: seq<Byte>): (seq<Byte>, seq<int>) {
    var used := |bytes| / 2 * 2;
    (bytes[used..], Decode(bytes[..used]))
  }

  lemma {:induction false} CarryExtends(before: seq<Byte>, data: seq<Byte>)
    ensures
      var (carried, samples) := Whole(before);
      var (carried', more) := Carry(carried, data);
      Whole(before + data) == (carried', samples + more)
  {
    var used := |before| / 2 * 2;
    var rest := before[used..] + data;
    var more := |rest| / 2 * 2;
    var all := before + data;
    assert all == before[..used] + rest;
    assert |all| / 2 * 2 == used + more;
    assert all[..used + more] == before[..used] + rest[..more];
    assert all[used + more..] == rest[more..];
    DecodeConcat(before[..used], rest[..more]);
  }

  // However the stream is cut into chunks, the samples are those of the whole stream, and at most one byte is
  // held back.
  lemma {:induction false} ChunkingDoesNotMatter(chunks: seq<seq<Byte>>)
    ensures Feed(chunks) == Whole(Joined(chunks))
    ensures |Feed(chunks).0| <= 1
  {
    if chunks != [] {
      ChunkingDoesNotMatter(chunks[..|chunks| - 1]);
      CarryExtends(Joined(chunks[..|chunks| - 1]), chunks[|chunks| - 1]);
    }
  }
}
