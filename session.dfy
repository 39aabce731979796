/**
 * TranscriptionViewModel's live-capture side: the recording state machine
 * over the microphone and the whisper service, the raw and processed
 * capture buffers, the debug WAV files written on stop, and the live text.
 */
module Session {
  import opened Outcomes
  import opened Pcm
  import opened Conditioning
  import opened Wav
  import opened LiveText
  import opened WhisperFeed
  import opened Window
  import opened Languages

  /**
   * How an awaited start finishes: it returns with an outcome, or it is
   * still suspended at its await when the caller's next step could run.
   */
  datatype Completion = Done(outcome: Outcome) | Suspended

  /**
   * IMicrophoneService as the view model uses it: a recording flag that
   * StartCaptureAsync raises (unless the platform capture throws first) and
   * StopCaptureAsync lowers, both doing nothing when the flag already says
   * so. The iOS service returns from StartCaptureAsync once the audio engine
   * runs; the Android service raises its flag and then awaits its read loop,
   * which only ends when StopCaptureAsync cancels it.
   */
  class Microphone {
    /** The start awaits the capture loop (Android) rather than returning once capture runs (iOS). */
    const blocksWhileRecording: bool
    var isRecording: bool

    constructor (blocksWhileRecording: bool)
      ensures this.blocksWhileRecording == blocksWhileRecording && !isRecording
    {
      this.blocksWhileRecording := blocksWhileRecording;
      isRecording := false;
    }

    method StartCaptureAsync(succeeds: bool) returns (c: Completion)
      modifies this
      ensures old(isRecording) ==> c == Done(Pass) && isRecording
      ensures !old(isRecording) && !succeeds ==> c == Done(Fail(CaptureFailed)) && !isRecording
      ensures !old(isRecording) && succeeds ==>
        isRecording && c == (if blocksWhileRecording then Suspended else Done(Pass))
    {
      if isRecording {
        return Done(Pass);
      }
      if !succeeds {
        return Done(Fail(CaptureFailed));
      }
      isRecording := true;
      if blocksWhileRecording {
        c := Suspended;
      } else {
        c := Done(Pass);
      }
    }

    method StopCaptureAsync()
      modifies this
      ensures !isRecording
    {
      if isRecording {
        isRecording := false;
      }
    }
  }

  /** The debug files StopRecordingAsync writes, by name, in the documents folder. */
  const RawWavName := "debug_microphone.wav"
  const ProcessedWavName := "debug_microphone_processed.wav"

  class TranscriptionViewModel {
    const whisper: DefaultWhisperService
    const microphoneService: Microphone?
    const whisperLanguages: seq<WhisperLanguage>
    var selectedLanguage: WhisperLanguage
    var isRecording: bool
    var rawAudioBuffer: seq<Byte>
    var processedAudioBuffer: seq<Byte>
    var liveTranscriptionText: string
    /** The text of each subtitle line. */
    var subtitles: seq<string>
    /** The files written to the documents folder, by name. */
    var documents: map<string, seq<Byte>>

    /**
     * The view model's IsRecording mirrors a microphone whose start returns;
     * it stays false without a microphone and while a start is suspended
     * in a microphone's capture loop. The whisper window keeps its bound.
     */
    ghost predicate Valid()
      reads this, whisper, microphoneService
    {
      && whisper.Valid()
      && (microphoneService == null ==> !isRecording)
      && (microphoneService != null ==>
            isRecording == (microphoneService.isRecording && !microphoneService.blocksWhileRecording))
    }

    constructor (whisper: DefaultWhisperService, microphoneService: Microphone?,
                 getCultureInfo: string -> Culture, currentCulture: Culture, order: Order<string>)
      requires whisper.Valid()
      requires microphoneService != null ==> !microphoneService.isRecording
      ensures Valid()
      ensures this.whisper == whisper && this.microphoneService == microphoneService
      ensures whisperLanguages == Generated(getCultureInfo, currentCulture, order)
      ensures selectedLanguage == whisperLanguages[0] && selectedLanguage.isAutomatic
      ensures !isRecording && rawAudioBuffer == [] && processedAudioBuffer == []
      ensures liveTranscriptionText == [] && subtitles == [] && documents == map[]
    {
      this.whisper := whisper;
      this.microphoneService := microphoneService;
      var languages := GenerateWhisperLanguages(getCultureInfo, currentCulture, order);
      whisperLanguages := languages;
      selectedLanguage := languages[0];
      isRecording := false;
      rawAudioBuffer := [];
      processedAudioBuffer := [];
      liveTranscriptionText := [];
      subtitles := [];
      documents := map[];
    }

    /** StartAsync's reset, before it looks at the URL field: no subtitles and no live text. */
    method StartAsync()
      modifies this
      ensures subtitles == [] && liveTranscriptionText == []
      ensures isRecording == old(isRecording) && documents == old(documents)
      ensures rawAudioBuffer == old(rawAudioBuffer) && processedAudioBuffer == old(processedAudioBuffer)
      ensures selectedLanguage == old(selectedLanguage)
    {
      subtitles := [];
      liveTranscriptionText := [];
    }

    /** OnNewWhisperSegment: a segment's text, trimmed, joins the live text after one space. */
    method OnNewWhisperSegment(text: Option<string>)
      modifies this
      ensures liveTranscriptionText == Accumulate(old(liveTranscriptionText), text)
      ensures subtitles == old(subtitles) && isRecording == old(isRecording) && documents == old(documents)
      ensures rawAudioBuffer == old(rawAudioBuffer) && processedAudioBuffer == old(processedAudioBuffer)
      ensures selectedLanguage == old(selectedLanguage)
    {
      if !IsNullOrWhiteSpace(text) {
        if liveTranscriptionText != [] {
          liveTranscriptionText := liveTranscriptionText + " ";
        }
        liveTranscriptionText := liveTranscriptionText + Trim(text.value);
      }
    }

    /**
     * OnAudioBufferAvailable: the frame joins the raw buffer as it came; it
     * is downmixed when it is a whole number of stereo pairs, resampled from
     * 48 kHz to 16 kHz, appended to the processed buffer and handed to the
     * whisper service. An exception while conditioning or feeding is caught,
     * which leaves the steps already taken in place.
     */
    method OnAudioBufferAvailable(buffer: seq<Byte>, interpolate: Interpolator, isSilence: SilenceTest)
      requires Valid()
      modifies this, whisper
      ensures Valid()
      ensures rawAudioBuffer == old(rawAudioBuffer) + buffer
      ensures var c := ConditionFrame(buffer, interpolate);
        processedAudioBuffer == old(processedAudioBuffer) + (if c.Ok? then c.value else [])
      ensures var c := ConditionFrame(buffer, interpolate);
        if c.Ok? && old(whisper.isLiveTranscriptionActive) && old(whisper.IsInitialized()) && Admits(c.value, isSilence) then
          whisper.slidingBuffer == Slide(old(whisper.slidingBuffer), SampleValues(c.value), TotalBufferLength)
          && whisper.fedSamples == old(whisper.fedSamples) + [Flatten(whisper.slidingBuffer)]
          && whisper.admitted == old(whisper.admitted) + [SampleValues(c.value)]
        else
          whisper.slidingBuffer == old(whisper.slidingBuffer) && whisper.fedSamples == old(whisper.fedSamples)
          && whisper.admitted == old(whisper.admitted)
      ensures whisper.processor == old(whisper.processor) && whisper.fedStreams == old(whisper.fedStreams)
      ensures whisper.isLiveTranscriptionActive == old(whisper.isLiveTranscriptionActive)
      ensures isRecording == old(isRecording) && liveTranscriptionText == old(liveTranscriptionText)
      ensures subtitles == old(subtitles) && documents == old(documents) && selectedLanguage == old(selectedLanguage)
    {
      rawAudioBuffer := rawAudioBuffer + buffer;
      var monoBuffer := buffer;
      if |buffer| % 4 == 0 {
        monoBuffer := DownmixToMono(buffer);
      }
      var resampled := ResampleTo16kHz(monoBuffer, 48000, 16000, interpolate);
      if resampled.Err? {
        return;
      }
      processedAudioBuffer := processedAudioBuffer + resampled.value;
      var _ := whisper.ProcessAudioBufferAsync(resampled.value, isSilence);
    }

    /**
     * StartRecordingAsync: with a microphone that is not recording, sets up
     * the processor when there is none (which throws without a selected
     * model), turns live transcription on, awaits the capture start and only
     * then raises IsRecording; a start still suspended in the capture loop
     * has not raised it. Otherwise it does nothing.
     */
    method StartRecordingAsync(selectedModel: Option<string>, captureSucceeds: bool) returns (r: Completion)
      requires Valid()
      modifies this, whisper, microphoneService
      ensures Valid()
      ensures old(microphoneService == null || microphoneService.isRecording) ==>
        && r == Done(Pass) && isRecording == old(isRecording)
        && (microphoneService != null ==> microphoneService.isRecording)
        && whisper.processor == old(whisper.processor)
        && whisper.isLiveTranscriptionActive == old(whisper.isLiveTranscriptionActive)
      ensures old(microphoneService != null && !microphoneService.isRecording) ==>
        if !old(whisper.IsInitialized()) && selectedModel.None? then
          && r == Done(Fail(NullReference)) && !isRecording && !microphoneService.isRecording
          && whisper.processor == old(whisper.processor)
          && whisper.isLiveTranscriptionActive == old(whisper.isLiveTranscriptionActive)
        else
          && whisper.isLiveTranscriptionActive && whisper.IsInitialized()
          && whisper.processor == (if old(whisper.IsInitialized()) then old(whisper.processor)
                                   else Some(ProcessorLanguage(selectedLanguage)))
          && (microphoneService.isRecording <==> captureSucceeds)
          && (!captureSucceeds ==> r == Done(Fail(CaptureFailed)) && !isRecording)
          && (captureSucceeds && microphoneService.blocksWhileRecording ==> r == Suspended && !isRecording)
          && (captureSucceeds && !microphoneService.blocksWhileRecording ==> r == Done(Pass) && isRecording)
      ensures whisper.slidingBuffer == old(whisper.slidingBuffer) && whisper.fedSamples == old(whisper.fedSamples)
      ensures whisper.fedStreams == old(whisper.fedStreams)
      ensures rawAudioBuffer == old(rawAudioBuffer) && processedAudioBuffer == old(processedAudioBuffer)
      ensures liveTranscriptionText == old(liveTranscriptionText) && subtitles == old(subtitles)
      ensures documents == old(documents) && selectedLanguage == old(selectedLanguage)
    {
      if microphoneService != null && !microphoneService.isRecording {
        if !whisper.IsInitialized() {
          if selectedModel.None? {
            return Done(Fail(NullReference));
          }
          whisper.InitModel(selectedLanguage);
        }
        whisper.StartLiveTranscriptionAsync(selectedLanguage);
        r := microphoneService.StartCaptureAsync(captureSucceeds);
        if r != Done(Pass) {
          return;
        }
        isRecording := true;
      } else {
        r := Done(Pass);
      }
    }

    /**
     * StopRecordingAsync: with a microphone that is recording, stops the
     * capture and live transcription, lowers IsRecording, writes the raw
     * buffer as a 48 kHz stereo file and the processed buffer as a 16 kHz
     * mono file, and empties both buffers. Otherwise it does nothing.
     */
    method StopRecordingAsync()
      requires Valid()
      modifies this, whisper, microphoneService
      ensures Valid()
      ensures old(microphoneService != null && microphoneService.isRecording) ==>
        && !isRecording && !whisper.isLiveTranscriptionActive
        && rawAudioBuffer == [] && processedAudioBuffer == []
        && documents == old(documents)[RawWavName := WavFile(old(rawAudioBuffer), 48000, 2)]
                                      [ProcessedWavName := WavFile(old(processedAudioBuffer), 16000, 1)]
      ensures old(microphoneService == null || !microphoneService.isRecording) ==>
        && isRecording == old(isRecording)
        && whisper.isLiveTranscriptionActive == old(whisper.isLiveTranscriptionActive)
        && rawAudioBuffer == old(rawAudioBuffer) && processedAudioBuffer == old(processedAudioBuffer)
        && documents == old(documents)
      ensures whisper.slidingBuffer == old(whisper.slidingBuffer) && whisper.fedSamples == old(whisper.fedSamples)
      ensures whisper.processor == old(whisper.processor) && whisper.fedStreams == old(whisper.fedStreams)
      ensures liveTranscriptionText == old(liveTranscriptionText) && subtitles == old(subtitles)
      ensures selectedLanguage == old(selectedLanguage)
    {
      if microphoneService != null && microphoneService.isRecording {
        microphoneService.StopCaptureAsync();
        whisper.StopLiveTranscriptionAsync();
        isRecording := false;
        SaveWavFile(RawWavName, rawAudioBuffer, 48000, 2);
        SaveWavFile(ProcessedWavName, processedAudioBuffer, 16000, 1);
        rawAudioBuffer := [];
        processedAudioBuffer := [];
      }
    }

    /** SaveWavFile: writes the canonical 44-byte header and the samples under the name, replacing any earlier file. */
    method SaveWavFile(name: string, audioData: seq<Byte>, sampleRate: nat, channels: nat)
      modifies this
      ensures documents == old(documents)[name := WavFile(audioData, sampleRate, channels)]
      ensures isRecording == old(isRecording) && selectedLanguage == old(selectedLanguage)
      ensures rawAudioBuffer == old(rawAudioBuffer) && processedAudioBuffer == old(processedAudioBuffer)
      ensures liveTranscriptionText == old(liveTranscriptionText) && subtitles == old(subtitles)
    {
      documents := documents[name := WavFile(audioData, sampleRate, channels)];
    }

    /**
     * ToggleRecordingAsync: stops when the view model's IsRecording is set,
     * starts otherwise. The stop ends the capture, writes both debug files
     * and empties the buffers. A start finds a microphone that is already
     * recording (a start suspended in its capture loop) and does nothing.
     */
    method ToggleRecordingAsync(selectedModel: Option<string>, captureSucceeds: bool) returns (r: Completion)
      requires Valid()
      modifies this, whisper, microphoneService
      ensures Valid()
      ensures old(isRecording) ==>
        && r == Done(Pass) && !isRecording && !microphoneService.isRecording
        && !whisper.isLiveTranscriptionActive && whisper.processor == old(whisper.processor)
        && rawAudioBuffer == [] && processedAudioBuffer == []
        && documents == old(documents)[RawWavName := WavFile(old(rawAudioBuffer), 48000, 2)]
                                      [ProcessedWavName := WavFile(old(processedAudioBuffer), 16000, 1)]
      ensures !old(isRecording) ==>
        && documents == old(documents)
        && rawAudioBuffer == old(rawAudioBuffer) && processedAudioBuffer == old(processedAudioBuffer)
      ensures !old(isRecording) && (microphoneService == null || old(microphoneService.isRecording)) ==>
        && r == Done(Pass) && !isRecording
        && (microphoneService != null ==> microphoneService.isRecording)
        && whisper.processor == old(whisper.processor)
        && whisper.isLiveTranscriptionActive == old(whisper.isLiveTranscriptionActive)
      ensures !old(isRecording) && microphoneService != null && !old(microphoneService.isRecording) ==>
        && (microphoneService.isRecording <==>
              (old(whisper.IsInitialized()) || selectedModel.Some?) && captureSucceeds)
        && (isRecording <==> microphoneService.isRecording && !microphoneService.blocksWhileRecording)
        && (r == Suspended <==> microphoneService.isRecording && microphoneService.blocksWhileRecording)
        && (r == Done(Pass) <==> isRecording)
        && ((old(whisper.IsInitialized()) || selectedModel.Some?) ==> whisper.isLiveTranscriptionActive)
      ensures selectedLanguage == old(selectedLanguage)
      ensures whisper.slidingBuffer == old(whisper.slidingBuffer) && whisper.fedSamples == old(whisper.fedSamples)
      ensures liveTranscriptionText == old(liveTranscriptionText) && subtitles == old(subtitles)
    {
      if isRecording {
        StopRecordingAsync();
        r := Done(Pass);
      } else {
        r := StartRecordingAsync(selectedModel, captureSucceeds);
      }
    }
  }

  /**
   * Two taps of the recording button on a fresh view model with the
   * Android microphone and a selected model: the first start stays
   * suspended in the capture loop, so IsRecording is never raised and the
   * second tap starts again instead of stopping. The microphone keeps
   * recording and no debug file is written.
   */
  method AndroidSecondTapKeepsRecording() returns (stillRecording: bool, filesWritten: bool)
    ensures stillRecording && !filesWritten
  {
    var whisper := new DefaultWhisperService();
    var microphone := new Microphone(true);
    var viewModel := new TranscriptionViewModel(whisper, microphone, AnyCulture, AnyCulture(""), AnyOrder);
    var first := viewModel.ToggleRecordingAsync(Some("ggml-base.bin"), true);
    assert first == Suspended;
    var second := viewModel.ToggleRecordingAsync(Some("ggml-base.bin"), true);
    stillRecording := microphone.isRecording;
    filesWritten := RawWavName in viewModel.documents;
  }

  /**
   * The same two taps with a microphone whose start returns once capture
   * runs, as the iOS service's does: the second tap stops the capture and
   * writes both debug files.
   */
  method BackgroundCaptureSecondTapStops() returns (stillRecording: bool, filesWritten: bool)
    ensures !stillRecording && filesWritten
  {
    var whisper := new DefaultWhisperService();
    var microphone := new Microphone(false);
    var viewModel := new TranscriptionViewModel(whisper, microphone, AnyCulture, AnyCulture(""), AnyOrder);
    var first := viewModel.ToggleRecordingAsync(Some("ggml-base.bin"), true);
    assert first == Done(Pass);
    var second := viewModel.ToggleRecordingAsync(Some("ggml-base.bin"), true);
    stillRecording := microphone.isRecording;
    filesWritten := RawWavName in viewModel.documents && ProcessedWavName in viewModel.documents;
  }

  /** A stand-in for .NET's culture table in the two scenarios; any table gives the same recording behaviour. */
  function AnyCulture(name: string): Culture
  {
    Culture(name, name, name, name)
  }

  function AnyOrder(a: string, b: string): bool
  {
    a <= b
  }
}
