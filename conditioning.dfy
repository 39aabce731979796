/**
 * Conditioning of one captured frame in TranscriptionViewModel: the stereo
 * downmix, the resampler (its length law and loop; the float value of each
 * sample is a parameter), and the frame pipeline that chains them.
 */
module Conditioning {
  import opened Pcm
  import opened Outcomes

  // ---- DownmixToMono ----

  /** Mono sample `i` of an interleaved stereo frame: `(short)((left + right) / 2)`. */
  function MonoSample(input: seq<Byte>, i: nat): (m: Int16)
    requires 4 * i + 3 < |input|
    ensures m == TruncDiv(ReadInt16LE(input, 4 * i, true) + ReadInt16LE(input, 4 * i + 2, true), 2)
  {
    var left := ReadInt16LE(input, 4 * i, true);
    var right := ReadInt16LE(input, 4 * i + 2, true);
    ShortCast(TruncDiv(left as int + right as int, 2))
  }

  /** The mono samples of a stereo frame; trailing bytes short of a full pair are ignored. */
  function MonoSamples(input: seq<Byte>): (mono: seq<Int16>)
    ensures |mono| == |input| / 4
  {
    seq(|input| / 4, i requires 0 <= i < |input| / 4 => MonoSample(input, i))
  }

  /** DownmixToMono: averages each left/right pair into one 16-bit sample. */
  method DownmixToMono(inputBuffer: seq<Byte>) returns (monoBuffer: seq<Byte>)
    ensures monoBuffer == EncodeSamples(MonoSamples(inputBuffer))
  {
    var bytesPerSample := 2;
    var numSamples := |inputBuffer| / bytesPerSample / 2;
    assert numSamples == |inputBuffer| / 4;
    var monoSamples := new Int16[numSamples];
    for i := 0 to numSamples
      invariant forall k :: 0 <= k < i ==> monoSamples[k] == MonoSample(inputBuffer, k)
    {
      var left := ReadInt16LE(inputBuffer, i * 4, true);
      var right := ReadInt16LE(inputBuffer, i * 4 + 2, true);
      monoSamples[i] := ShortCast(TruncDiv(left as int + right as int, 2));
    }
    monoBuffer := EncodeSamples(monoSamples[..]);
    assert monoSamples[..] == MonoSamples(inputBuffer);
  }

  /**
   * The downmixed frame has one 2-byte sample per 4 input bytes, and sample
   * `i` is the truncating average of the samples at byte offsets 4i and 4i+2.
   */
  lemma {:induction false} DownmixLaw(input: seq<Byte>, i: nat)
    requires i < |input| / 4
    ensures |EncodeSamples(MonoSamples(input))| == 2 * (|input| / 4)
    ensures DecodeSamples(EncodeSamples(MonoSamples(input)))[i]
         == TruncDiv(ReadInt16LE(input, 4 * i, true) + ReadInt16LE(input, 4 * i + 2, true), 2)
  {
    DecodeEncodeSamples(MonoSamples(input));
  }

  // ---- ResampleTo16kHz ----

  /**
   * The float linear interpolation that yields output sample `i` from the
   * input samples and the two rates; it is not modelled.
   */
  type Interpolator = (seq<Int16>, int, int, nat) -> Int16

  /** `(long)inputSamples * outputSampleRate / inputSampleRate`, truncating. */
  function OutputSampleCount(inputSamples: nat, inputSampleRate: int, outputSampleRate: int): int
    requires inputSampleRate != 0
  {
    TruncDiv(inputSamples * outputSampleRate, inputSampleRate)
  }

  /**
   * With a positive input rate the count is the exact quotient rounded
   * toward zero: the floor of a non-negative product, the ceiling of a
   * negative one. So it is negative, and `new float[n]` throws, exactly
   * when the product is at most minus the input rate.
   */
  lemma {:induction false} OutputSampleCountBounds(inputSamples: nat, inputSampleRate: int, outputSampleRate: int)
    requires inputSampleRate > 0
    ensures var p, n := inputSamples * outputSampleRate, OutputSampleCount(inputSamples, inputSampleRate, outputSampleRate);
      && (p >= 0 ==> n >= 0 && n * inputSampleRate <= p < (n + 1) * inputSampleRate)
      && (p < 0 ==> n <= 0 && (n - 1) * inputSampleRate < p <= n * inputSampleRate)
      && (n < 0 <==> p <= -inputSampleRate)
  {
    QuotientBounds(inputSamples * outputSampleRate, OutputSampleCount(inputSamples, inputSampleRate, outputSampleRate),
                   inputSampleRate);
  }

  /** A quotient rounded toward zero, as TruncDiv's contract gives it, bracketed by the divisor's multiples. */
  lemma {:induction false} QuotientBounds(p: int, n: int, d: int)
    requires d > 0 && Abs(p - n * d) < d
    requires (p >= 0 ==> p - n * d >= 0) && (p <= 0 ==> p - n * d <= 0)
    ensures p >= 0 ==> n >= 0 && n * d <= p < (n + 1) * d
    ensures p < 0 ==> n <= 0 && (n - 1) * d < p <= n * d
    ensures n < 0 <==> p <= -d
  {
    ScaledSign(n, d);
    assert (n + 1) * d == n * d + d && (n - 1) * d == n * d - d;
  }

  /** A non-zero multiple of a positive divisor is at least the divisor in magnitude, with the multiplier's sign. */
  lemma {:induction false} ScaledSign(n: int, d: int)
    requires d > 0
    ensures n < 0 ==> n * d <= -d
    ensures n > 0 ==> n * d >= d
    ensures n == 0 ==> n * d == 0
  {
    if n < 0 {
      assert n * d == -((-n - 1) * d) - d;
    } else if n > 0 {
      assert n * d == (n - 1) * d + d;
    }
  }

  /** What ResampleTo16kHz returns, or the exception it throws. */
  function Resampled(input: seq<Byte>, inputSampleRate: int, outputSampleRate: int,
                     interpolate: Interpolator): Result<seq<Byte>>
  {
    if |input| % 2 != 0 then Err(ArgumentInvalid)        // BlockCopy overruns the short[]
    else if inputSampleRate == 0 then Err(DivideByZero)
    else
      var n := OutputSampleCount(|input| / 2, inputSampleRate, outputSampleRate);
      if n < 0 then Err(Overflow)                          // new float[n] with n < 0
      else
        var samples := DecodeSamples(input);
        Ok(EncodeSamples(seq(n, i requires 0 <= i < n => interpolate(samples, inputSampleRate, outputSampleRate, i))))
  }

  /** ResampleTo16kHz: one interpolated 16-bit sample per output index. */
  method ResampleTo16kHz(inputBuffer: seq<Byte>, inputSampleRate: int, outputSampleRate: int,
                         interpolate: Interpolator) returns (r: Result<seq<Byte>>)
    ensures r == Resampled(inputBuffer, inputSampleRate, outputSampleRate, interpolate)
    ensures r.Ok? ==> |r.value| == 2 * OutputSampleCount(|inputBuffer| / 2, inputSampleRate, outputSampleRate)
  {
    var bytesPerSample := 2;
    var inputSamples := |inputBuffer| / bytesPerSample;
    if inputSamples * bytesPerSample != |inputBuffer| {
      return Err(ArgumentInvalid);
    }
    var input := DecodeSamples(inputBuffer);
    if inputSampleRate == 0 {
      return Err(DivideByZero);
    }
    var outputSamples := TruncDiv(inputSamples * outputSampleRate, inputSampleRate);
    if outputSamples < 0 {
      return Err(Overflow);
    }
    var output := new Int16[outputSamples];
    for i := 0 to outputSamples
      invariant forall k :: 0 <= k < i ==> output[k] == interpolate(input, inputSampleRate, outputSampleRate, k)
    {
      output[i] := interpolate(input, inputSampleRate, outputSampleRate, i);
    }
    assert output[..] == seq(outputSamples, i requires 0 <= i < outputSamples =>
      interpolate(input, inputSampleRate, outputSampleRate, i));
    r := Ok(EncodeSamples(output[..]));
  }

  /** Integer form of the 48 kHz to 16 kHz count: one output sample per three input samples. */
  lemma {:induction false} ThirdOfSamples(n: nat)
    ensures OutputSampleCount(n, 48000, 16000) == n / 3
  {
    var q, r := n / 3, n % 3;
    assert n * 16000 == q * 48000 + r * 16000;
    assert 0 <= r * 16000 < 48000;
  }

  // ---- OnAudioBufferAvailable's conditioning ----

  /** The frame handed to the resampler: downmixed iff its length is a multiple of 4. */
  function MonoFrame(buffer: seq<Byte>): (mono: seq<Byte>)
    ensures |buffer| % 4 != 0 ==> mono == buffer
    ensures |buffer| % 4 == 0 ==> |mono| == |buffer| / 2
  {
    if |buffer| % 4 == 0 then EncodeSamples(MonoSamples(buffer)) else buffer
  }

  /** A captured frame conditioned to 16 kHz, or the exception that aborts the handler. */
  function ConditionFrame(buffer: seq<Byte>, interpolate: Interpolator): Result<seq<Byte>>
  {
    Resampled(MonoFrame(buffer), 48000, 16000, interpolate)
  }

  /** At 48 kHz to 16 kHz, an even-length input yields one sample per three input samples. */
  lemma {:induction false} ResampleLengthLaw(input: seq<Byte>, interpolate: Interpolator)
    ensures Resampled(input, 48000, 16000, interpolate).Ok? <==> |input| % 2 == 0
    ensures Resampled(input, 48000, 16000, interpolate).Ok? ==>
      |Resampled(input, 48000, 16000, interpolate).value| == 2 * ((|input| / 2) / 3)
  {
    ThirdOfSamples(|input| / 2);
  }

  /**
   * A frame is conditioned iff its length is even. The result then holds
   * one sample per three samples of the mono frame, whose length is half the
   * frame's when the frame is a whole number of stereo pairs and the frame's
   * own otherwise.
   */
  lemma {:induction false} ConditionFrameLaw(buffer: seq<Byte>, interpolate: Interpolator)
    ensures ConditionFrame(buffer, interpolate).Ok? <==> |buffer| % 2 == 0
    ensures ConditionFrame(buffer, interpolate).Ok? ==>
      |ConditionFrame(buffer, interpolate).value| == 2 * ((|MonoFrame(buffer)| / 2) / 3)
    ensures |buffer| % 4 == 0 ==> |MonoFrame(buffer)| == 2 * (|buffer| / 4)
  {
    var mono := MonoFrame(buffer);
    assert |mono| % 2 == 0 <==> |buffer| % 2 == 0 by {
      if |buffer| % 4 == 0 {
        assert |mono| == 2 * (|buffer| / 4);
      }
    }
    ResampleLengthLaw(mono, interpolate);
  }
}
