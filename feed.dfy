/**
 * DefaultWhisperService: the gate between captured 16 kHz frames and the
 * recogniser. Frames that are not mostly silent join a FIFO window of at
 * most thirty one-second chunks, and each accepted frame feeds the whole
 * window, oldest chunk first, to the processor.
 */
module WhisperFeed {
  import opened Outcomes
  import opened Pcm
  import opened Languages
  import opened Window

  /** The window's capacity in chunks: thirty seconds of one-second chunks (30 / AudioSampleLengthS). */
  const TotalBufferLength := 30

  /** A chunk of float samples, each `short / 32768f`; that quotient is exact, so it is a real here. */
  type Chunk = seq<real>

  /** The per-sample silence test (a decibel threshold on the amplitude, computed in floating point). */
  type SilenceTest = real -> bool

  // ---- the gate and the window, as values ----

  /** A 16-bit sample scaled into [-1, 1). */
  function Scale(x: Int16): (a: real)
    ensures -1.0 <= a < 1.0
  {
    x as real / 32768.0
  }

  /** The float samples ProcessBytes derives from an even-length byte frame. */
  function SampleValues(e: seq<Byte>): (samples: Chunk)
    ensures |samples| == |e| / 2
    ensures forall i | 0 <= i < |samples| :: -1.0 <= samples[i] < 1.0
  {
    var values := DecodeSamples(e);
    seq(|values|, i requires 0 <= i < |values| => Scale(values[i]))
  }

  /** How many samples the silence test flags. */
  function SilenceCount(samples: Chunk, isSilence: SilenceTest): (count: nat)
    ensures count <= |samples|
    ensures count == 0 <==> forall i | 0 <= i < |samples| :: !isSilence(samples[i])
    ensures count == |samples| <==> forall i | 0 <= i < |samples| :: isSilence(samples[i])
  {
    if samples == [] then 0
    else
      var rest := SilenceCount(samples[1..], isSilence);
      assert forall i | 1 <= i < |samples| :: samples[i] == samples[1..][i - 1];
      (if isSilence(samples[0]) then 1 else 0) + rest
  }

  /** The acceptance test on a frame of `sampleCount` samples of which `silenceCount` are silent. */
  predicate Accepts(sampleCount: nat, silenceCount: nat)
  {
    silenceCount < sampleCount - sampleCount / 12
  }

  /**
   * A frame is accepted exactly when more than a twelfth of its samples are
   * not silent. So an empty or an entirely silent frame is never accepted,
   * and a frame without silence is accepted whenever it is not empty.
   */
  lemma {:induction false} AcceptsIff(sampleCount: nat, silenceCount: nat)
    requires silenceCount <= sampleCount
    ensures Accepts(sampleCount, silenceCount) <==> 12 * (sampleCount - silenceCount) > sampleCount
    ensures silenceCount == sampleCount ==> !Accepts(sampleCount, silenceCount)
    ensures silenceCount == 0 ==> (Accepts(sampleCount, silenceCount) <==> sampleCount > 0)
  {
    var q, r := sampleCount / 12, sampleCount % 12;
    assert sampleCount == 12 * q + r;
  }

  /** ProcessBytes lets an even-length frame through its gate. */
  predicate Admits(e: seq<Byte>, isSilence: SilenceTest)
  {
    |e| % 2 == 0 && Accepts(|e| / 2, SilenceCount(SampleValues(e), isSilence))
  }

  /**
   * ProcessBytes' gate on a whole frame: the frame must have an even length
   * (an odd one throws in BlockCopy first) and more than a twelfth of its
   * samples must not be silent. An empty frame never passes.
   */
  lemma {:induction false} AdmitsIff(e: seq<Byte>, isSilence: SilenceTest)
    ensures Admits(e, isSilence) <==>
      |e| % 2 == 0 && 12 * (|e| / 2 - SilenceCount(SampleValues(e), isSilence)) > |e| / 2
    ensures |e| == 0 ==> !Admits(e, isSilence)
  {
    AcceptsIff(|e| / 2, SilenceCount(SampleValues(e), isSilence));
  }

  /** The window's chunks laid end to end, oldest first. */
  function Flatten(window: seq<Chunk>): (samples: seq<real>)
  {
    if window == [] then [] else window[0] + Flatten(window[1..])
  }

  /** Flattening respects concatenation, so the relative order of the chunks is kept. */
  lemma {:induction false} FlattenAppend(a: seq<Chunk>, b: seq<Chunk>)
    ensures Flatten(a + b) == Flatten(a) + Flatten(b)
    decreases |a|
  {
    if a == [] {
      assert a + b == b;
    } else {
      FlattenAppend(a[1..], b);
      assert (a + b)[1..] == a[1..] + b;
    }
  }

  /** What the processor is built for: "auto" for the automatic entry, the language's code otherwise. */
  function ProcessorLanguage(language: WhisperLanguage): (code: string)
    ensures language.isAutomatic ==> code == "auto"
    ensures !language.isAutomatic ==> code == language.languageCode
  {
    if language.isAutomatic then "auto" else language.languageCode
  }

  /**
   * The processor languages the picker offers: "auto" for its first entry,
   * and for every other entry the IETF tag of the culture of some member's
   * code.
   */
  lemma {:induction false} GeneratedProcessorLanguages(getCultureInfo: string -> Culture, currentCulture: Culture,
                                                       order: Order<string>, i: nat)
    requires IsTotal(order)
    requires i < |Generated(getCultureInfo, currentCulture, order)|
    ensures i == 0 ==> ProcessorLanguage(Generated(getCultureInfo, currentCulture, order)[i]) == "auto"
    ensures i > 0 ==> exists j | 0 <= j < |EnumValues| ::
      ProcessorLanguage(Generated(getCultureInfo, currentCulture, order)[i])
        == getCultureInfo(GetCode(EnumValues[j])).ietfLanguageTag
  {
    GeneratedShape(getCultureInfo, currentCulture, order);
    if i > 0 {
      GeneratedEntriesAreMembers(getCultureInfo, currentCulture, order, i);
      var j :| 0 <= j < |EnumValues| &&
        IsMemberEntry(Generated(getCultureInfo, currentCulture, order)[i], EnumValues[j], getCultureInfo);
      assert ProcessorLanguage(Generated(getCultureInfo, currentCulture, order)[i])
        == getCultureInfo(GetCode(EnumValues[j])).ietfLanguageTag;
    }
  }

    // ---- the service ----

  class DefaultWhisperService {
    /** The language the processor was set up with; None while there is no processor. */
    var processor: Option<string>
    var slidingBuffer: seq<Chunk>
    var isLiveTranscriptionActive: bool
    /** Every sample array handed to the processor's Process, in order. */
    var fedSamples: seq<seq<real>>
    /** Every audio stream handed to the processor's Process, in order. */
    var fedStreams: seq<seq<Byte>>
    /** Every chunk that has passed the silence gate, in order of arrival. */
    ghost var admitted: seq<Chunk>

    /** The window holds the latest thirty admitted chunks (all of them while there are fewer), oldest first. */
    ghost predicate Valid()
      reads this
    {
      slidingBuffer == Latest(admitted, TotalBufferLength)
    }

    /** IsInitialized: there is a processor. */
    predicate IsInitialized()
      reads this
    {
      processor.Some?
    }

    constructor ()
      ensures Valid() && !IsInitialized()
      ensures slidingBuffer == [] && !isLiveTranscriptionActive
      ensures fedSamples == [] && fedStreams == [] && admitted == []
    {
      processor := None;
      slidingBuffer := [];
      isLiveTranscriptionActive := false;
      fedSamples := [];
      fedStreams := [];
      admitted := [];
    }

    /** InitModel: a new processor for the language replaces the old one; the window is kept. */
    method InitModel(language: WhisperLanguage)
      modifies this
      ensures IsInitialized() && processor == Some(ProcessorLanguage(language))
      ensures slidingBuffer == old(slidingBuffer)
      ensures isLiveTranscriptionActive == old(isLiveTranscriptionActive)
      ensures fedSamples == old(fedSamples) && fedStreams == old(fedStreams) && admitted == old(admitted)
    {
      if language.isAutomatic {
        processor := Some("auto");
      } else {
        processor := Some(language.languageCode);
      }
    }

    /** ProcessAsync: throws without a processor; otherwise the processor reads the whole stream. */
    method ProcessAsync(stream: seq<Byte>) returns (r: Outcome)
      modifies this
      ensures !old(IsInitialized()) ==> r == Fail(ArgumentNull) && fedStreams == old(fedStreams)
      ensures old(IsInitialized()) ==> r == Pass && fedStreams == old(fedStreams) + [stream]
      ensures processor == old(processor) && slidingBuffer == old(slidingBuffer)
      ensures isLiveTranscriptionActive == old(isLiveTranscriptionActive) && fedSamples == old(fedSamples)
      ensures admitted == old(admitted)
    {
      if processor.None? {
        return Fail(ArgumentNull);
      }
      fedStreams := fedStreams + [stream];
      return Pass;
    }

    /**
     * ProcessBytes: without a processor it throws; an odd-length frame makes
     * the copy into the `short[]` throw; otherwise a frame that passes the
     * silence gate slides into the window and the whole window is fed to the
     * processor, while a rejected frame changes nothing.
     */
    method ProcessBytes(e: seq<Byte>, isSilence: SilenceTest) returns (r: Outcome)
      requires Valid()
      modifies this
      ensures Valid()
      ensures !old(IsInitialized()) ==> r == Fail(ArgumentNull)
      ensures old(IsInitialized()) && |e| % 2 != 0 ==> r == Fail(ArgumentInvalid)
      ensures r.Pass? <==> old(IsInitialized()) && |e| % 2 == 0
      ensures
        if r.Pass? && Admits(e, isSilence) then
          slidingBuffer == Slide(old(slidingBuffer), SampleValues(e), TotalBufferLength)
          && fedSamples == old(fedSamples) + [Flatten(slidingBuffer)]
          && admitted == old(admitted) + [SampleValues(e)]
        else
          slidingBuffer == old(slidingBuffer) && fedSamples == old(fedSamples) && admitted == old(admitted)
      ensures processor == old(processor) && isLiveTranscriptionActive == old(isLiveTranscriptionActive)
      ensures fedStreams == old(fedStreams)
    {
      if processor.None? {
        return Fail(ArgumentNull);
      }
      var valueCount := |e| / 2;
      if 2 * valueCount != |e| {
        return Fail(ArgumentInvalid);
      }
      var samples := SampleValues(e);
      var silenceCount := SilenceCount(samples, isSilence);
      if silenceCount < valueCount - valueCount / 12 {
        var grown := slidingBuffer + [samples];
        if |grown| > TotalBufferLength {
          grown := grown[1..];
        }
        slidingBuffer := grown;
        fedSamples := fedSamples + [Flatten(slidingBuffer)];
        SlideKeepsLatest(admitted, samples, TotalBufferLength);
        admitted := admitted + [samples];
      }
      return Pass;
    }

    /** StartLiveTranscriptionAsync: turns the live flag on and nothing else. */
    method StartLiveTranscriptionAsync(language: WhisperLanguage)
      modifies this
      ensures isLiveTranscriptionActive
      ensures processor == old(processor) && slidingBuffer == old(slidingBuffer)
      ensures fedSamples == old(fedSamples) && fedStreams == old(fedStreams) && admitted == old(admitted)
    {
      isLiveTranscriptionActive := true;
    }

    /** ProcessAudioBufferAsync: ProcessBytes while live transcription is on, nothing otherwise. */
    method ProcessAudioBufferAsync(buffer: seq<Byte>, isSilence: SilenceTest) returns (r: Outcome)
      requires Valid()
      modifies this
      ensures Valid()
      ensures !old(isLiveTranscriptionActive) ==>
        r == Pass && slidingBuffer == old(slidingBuffer) && fedSamples == old(fedSamples) && admitted == old(admitted)
      ensures old(isLiveTranscriptionActive) ==>
        (r.Pass? <==> old(IsInitialized()) && |buffer| % 2 == 0)
        && (!old(IsInitialized()) ==> r == Fail(ArgumentNull))
        && (old(IsInitialized()) && |buffer| % 2 != 0 ==> r == Fail(ArgumentInvalid))
        && if r.Pass? && Admits(buffer, isSilence) then
             slidingBuffer == Slide(old(slidingBuffer), SampleValues(buffer), TotalBufferLength)
             && fedSamples == old(fedSamples) + [Flatten(slidingBuffer)]
             && admitted == old(admitted) + [SampleValues(buffer)]
           else
             slidingBuffer == old(slidingBuffer) && fedSamples == old(fedSamples) && admitted == old(admitted)
      ensures processor == old(processor) && isLiveTranscriptionActive == old(isLiveTranscriptionActive)
      ensures fedStreams == old(fedStreams)
    {
      if !isLiveTranscriptionActive {
        return Pass;
      }
      r := ProcessBytes(buffer, isSilence);
    }

    /** StopLiveTranscriptionAsync: turns the live flag off and nothing else. */
    method StopLiveTranscriptionAsync()
      modifies this
      ensures !isLiveTranscriptionActive
      ensures processor == old(processor) && slidingBuffer == old(slidingBuffer)
      ensures fedSamples == old(fedSamples) && fedStreams == old(fedStreams) && admitted == old(admitted)
    {
      isLiveTranscriptionActive := false;
    }
  }
}
