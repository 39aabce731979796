# transcribe.io live audio core, modelled in Dafny

transcribe.io is a .NET MAUI app that transcribes speech with Whisper. This
project models the part of it that handles captured microphone audio and the
live transcript:

- **Pcm**: the 16-bit sample primitives. These are C#'s truncating `/`, the `(short)` cast, `BitConverter`'s two's-complement
  reading and writing on a little-endian host, and `Buffer.BlockCopy` between `byte[]` and `short[]`.
- **Conditioning**: `DownmixToMono`, from stereo to mono by the truncated average of each left/right pair. Also
  `ResampleTo16kHz`, with its length law and error cases, and the frame conditioning done in `OnAudioBufferAvailable`.
- **Wav**: the byte layout `SaveWavFile` writes. It is the canonical 44-byte RIFF/WAVE header followed by the samples. A
  reader shows that the header gives the fields back.
- **Window**: the FIFO window of `DefaultWhisperService`, proved always to hold the latest accepted chunks.
- **WhisperFeed**: `DefaultWhisperService` as a class. It covers the silence gate and sliding window of `ProcessBytes`,
  the live-transcription flag, the processor guard (`IsInitialized`, and `ArgumentNullException` without a processor)
  and the order in which audio reaches the processor.
- **Languages**: the `WhisperLanguages` enumeration, as its 99 packed `uint` values. It covers `GetCode` (the
  NUL-terminated ASCII code packed in the value), the three `WhisperLanguage` constructors and
  `GenerateWhisperLangauages`. That list is the "Auto" entry followed by the members sorted by display name.
- **BoolToText**: `BoolToTextConverter.Convert`, which picks half of a `"a|b"` parameter, and `ConvertBack`, which throws.
- **LiveText**: `string.Trim` and the way `OnNewWhisperSegment` accumulates the live transcript.
- **Session**: `TranscriptionViewModel`'s recording state machine. It covers the microphone, the raw and processed
  capture buffers, starting and stopping, the two debug WAV files and the start-up reset.

Files are written to a `documents` map from file name to bytes. Exceptions are `Outcome`/`Result` values that name the
.NET exception (`Fault`). The model does not cover where the source computes in floating point or calls the platform,
so those parts are parameters: the resampler's interpolation (`Interpolator`), the decibel silence test (`SilenceTest`),
culture lookup and comparison, and whether the platform capture starts.

## Model

| member | source | states |
|---|---|---|
| Pcm.TruncDiv | transcribe.io/transcribe.io/ViewModels/TranscriptionViewModel.cs:413 | C# integer division rounds toward zero: the remainder is smaller than the divisor in magnitude and never has the opposite sign to the dividend |
| Pcm.ShortCast | transcribe.io/transcribe.io/ViewModels/TranscriptionViewModel.cs:413 | the `(short)` cast keeps the value modulo 2^16, is the identity on the int16 range, and on 0..65535 reads the value as two's complement |
| Pcm.FromTwosComplement16 | transcribe.io/transcribe.io/ViewModels/TranscriptionViewModel.cs:398-401 | reading a 16-bit pattern as a short gives the int16 congruent to it modulo 2^16 |
| Pcm.OrDisjoint | transcribe.io/transcribe.io/ViewModels/TranscriptionViewModel.cs:401 | or-ing a value below 2^k with another shifted left by k is their sum: the bits do not overlap |
| Pcm.ShiftOrIsWord16 | transcribe.io/transcribe.io/ViewModels/TranscriptionViewModel.cs:401 | or-ing the low byte with the high byte shifted left by 8 gives the 16-bit word lo + 256·hi |
| Pcm.ShiftOrInt16 | transcribe.io/transcribe.io/ViewModels/TranscriptionViewModel.cs:401 | the big-endian-host branch gives the two's-complement value of the same little-endian word |
| Pcm.ReadInt16LE | transcribe.io/transcribe.io/ViewModels/TranscriptionViewModel.cs:396-402 | both branches read the two bytes at the offset as a little-endian signed 16-bit sample, so host byte order does not matter |
| Pcm.EncodeSamples | transcribe.io/transcribe.io/ViewModels/TranscriptionViewModel.cs:415-416 | copying a `short[]` into bytes gives two bytes per sample |
| Pcm.DecodeSamples | transcribe.io/transcribe.io/ViewModels/TranscriptionViewModel.cs:364-365 | copying bytes into a `short[]` gives one sample per two bytes |
| Pcm.SampleBytesRoundTrip | transcribe.io/transcribe.io/ViewModels/TranscriptionViewModel.cs:416 | a sample's two little-endian bytes read back as that sample |
| Pcm.WordBytes | transcribe.io/transcribe.io/ViewModels/TranscriptionViewModel.cs:365 | a byte pair read as a sample writes back as the same byte pair |
| Pcm.DecodeEncodeSamples | transcribe.io/transcribe.io/ViewModels/TranscriptionViewModel.cs:386-387 | samples written to bytes and read back are the same samples |
| Pcm.EncodeDecodeSamples | transcribe.io/transcribe.io/ViewModels/TranscriptionViewModel.cs:364-365 | an even-length byte buffer read as samples and written back is the same buffer |
| Pcm.LEBytes | transcribe.io/transcribe.io/ViewModels/TranscriptionViewModel.cs:341 | the first n little-endian bytes of a value, n of them |
| Pcm.LE32 | transcribe.io/transcribe.io/ViewModels/TranscriptionViewModel.cs:341 | `BitConverter.GetBytes(int)` writes four bytes |
| Pcm.LE16 | transcribe.io/transcribe.io/ViewModels/TranscriptionViewModel.cs:347 | `BitConverter.GetBytes((short)x)` writes two bytes |
| Pcm.LEBytesDecode | transcribe.io/transcribe.io/ViewModels/TranscriptionViewModel.cs:341-356 | n little-endian bytes encode the value modulo 256^n, which is the wrap-around of a 32- or 16-bit field |
| Pcm.DecodeLEBytes | transcribe.io/transcribe.io/ViewModels/TranscriptionViewModel.cs:341-356 | any n bytes are the encoding of the value they decode to, which is below 256^n |
| Conditioning.MonoSample | transcribe.io/transcribe.io/ViewModels/TranscriptionViewModel.cs:409-414 | each mono sample is the truncated average of the left and right samples: the cast back to short never wraps |
| Conditioning.MonoSamples | transcribe.io/transcribe.io/ViewModels/TranscriptionViewModel.cs:407-408 | one mono sample for each whole 4-byte stereo pair |
| Conditioning.DownmixToMono | transcribe.io/transcribe.io/ViewModels/TranscriptionViewModel.cs:404-422 | the loop's output is the encoding of the mono samples of the input |
| Conditioning.DownmixLaw | transcribe.io/transcribe.io/ViewModels/TranscriptionViewModel.cs:407-416 | the mono buffer holds 2·(len/4) bytes, and its i-th sample is (left_i + right_i)/2 truncated |
| Conditioning.ResampleTo16kHz | transcribe.io/transcribe.io/ViewModels/TranscriptionViewModel.cs:360-393 | an odd-length input throws in the copy, a zero input rate divides by zero and a negative output count overflows. Otherwise the output holds 2·(samples·outRate/inRate) bytes, computed by the loop over every output sample |
| Conditioning.ThirdOfSamples | transcribe.io/transcribe.io/ViewModels/TranscriptionViewModel.cs:369 | from 48 kHz to 16 kHz the output count is exactly a third, rounded down, of the input count |
| Conditioning.QuotientBounds | transcribe.io/transcribe.io/ViewModels/TranscriptionViewModel.cs:369 | a quotient rounded toward zero by a positive divisor is the floor of a non-negative dividend and the ceiling of a negative one, and is negative exactly when the dividend is at most minus the divisor |
| Conditioning.OutputSampleCountBounds | transcribe.io/transcribe.io/ViewModels/TranscriptionViewModel.cs:369-370 | `(long)inputSamples * outputSampleRate / inputSampleRate` lies within one input rate of the product, below it when the product is non-negative. It is negative, so that `new float[n]` throws, exactly when the product is at most minus the input rate |
| Conditioning.ResampleLengthLaw | transcribe.io/transcribe.io/ViewModels/TranscriptionViewModel.cs:363-387 | resampling from 48 kHz to 16 kHz succeeds exactly when the input length is even, and then returns 2·((len/2)/3) bytes |
| Conditioning.MonoFrame | transcribe.io/transcribe.io/ViewModels/TranscriptionViewModel.cs:441-445 | a frame is downmixed to half its length when it is a multiple of 4 bytes, and otherwise passed through unchanged |
| Conditioning.ConditionFrameLaw | transcribe.io/transcribe.io/ViewModels/TranscriptionViewModel.cs:441-447 | conditioning a frame succeeds exactly when its length is even. The result then holds one sample for every three whole samples of the mono frame, and that frame is half as long as the input when the input is a whole number of stereo pairs |
| Wav.WavFile | transcribe.io/transcribe.io/ViewModels/TranscriptionViewModel.cs:330-358 | the file is 44 header bytes followed by the audio data, unchanged |
| Wav.PartsLayout | transcribe.io/transcribe.io/ViewModels/TranscriptionViewModel.cs:338-357 | the header fields written one after another sit at the canonical offsets 0, 4, 8, … 40, and the data starts at 44 |
| Wav.Layout | transcribe.io/transcribe.io/ViewModels/TranscriptionViewModel.cs:338-357 | each chunk identifier and each little-endian field is found at its canonical offset |
| Wav.WavLayout | transcribe.io/transcribe.io/ViewModels/TranscriptionViewModel.cs:333-357 | the written header holds "RIFF", the chunk size 36+len, "WAVE", "fmt ", 16, format 1, the channels, the rate, the byte rate rate·ch·2, the block align ch·2, 16 bits, "data" and the data length |
| Wav.FieldAt | transcribe.io/transcribe.io/ViewModels/TranscriptionViewModel.cs:338-357 | in a run of fields, each field sits right after the ones before it |
| Wav.FieldDecodes | transcribe.io/transcribe.io/ViewModels/TranscriptionViewModel.cs:341-356 | a field written as n little-endian bytes reads back as its value modulo 256^n |
| Wav.Field32At | transcribe.io/transcribe.io/ViewModels/TranscriptionViewModel.cs:341 | a 32-bit field reads back as the written int modulo 2^32 |
| Wav.Field16At | transcribe.io/transcribe.io/ViewModels/TranscriptionViewModel.cs:347-352 | a 16-bit field reads back as the written short modulo 2^16 |
| Wav.FieldsDecode | transcribe.io/transcribe.io/ViewModels/TranscriptionViewModel.cs:338-357 | every header field read at its offset gives the written value, wrapped to its width |
| Wav.ParseDecoded | transcribe.io/transcribe.io/ViewModels/TranscriptionViewModel.cs:333-357 | a header whose fields read back as written parses to exactly those fields and the data |
| Wav.WavRoundTrip | transcribe.io/transcribe.io/ViewModels/TranscriptionViewModel.cs:330-358 | a WAV file written for rates and channel counts that fit their fields parses back to chunk size 36+len, PCM format 1, the channels, the rate, byte rate rate·ch·2 (mod 2^32), block align ch·2, 16 bits per sample and the same data |
| Window.Slide | transcribe.io/transcribe.io/Services/DefaultWhisperService.cs:94-99 | adding a chunk keeps at most the capacity: the chunk becomes last, the rest keep their order, and only the oldest chunk is dropped, and only when the window was full |
| Window.WindowAfter | transcribe.io/transcribe.io/Services/DefaultWhisperService.cs:13 | the window built by sliding in a run of chunks never exceeds its capacity |
| Window.SlideKeepsLatest | transcribe.io/transcribe.io/Services/DefaultWhisperService.cs:94-99 | sliding a chunk into the latest `capacity` chunks of a history gives the latest `capacity` chunks of the history with that chunk added |
| Window.WindowKeepsLatest | transcribe.io/transcribe.io/Services/DefaultWhisperService.cs:94-99 | after any run of chunks the window is exactly the last `capacity` of them (all of them while there are fewer), oldest first |
| WhisperFeed.Scale | transcribe.io/transcribe.io/Services/DefaultWhisperService.cs:88 | `x / (short.MaxValue + 1f)` maps a sample into [-1, 1) |
| WhisperFeed.SampleValues | transcribe.io/transcribe.io/Services/DefaultWhisperService.cs:86-88 | a byte frame becomes one float sample per two bytes, each in [-1, 1) |
| WhisperFeed.SilenceCount | transcribe.io/transcribe.io/Services/DefaultWhisperService.cs:90 | the count of silent samples is at most the sample count. It is zero exactly when no sample is silent, and all of them exactly when every sample is |
| WhisperFeed.AcceptsIff | transcribe.io/transcribe.io/Services/DefaultWhisperService.cs:92 | the gate `silenceCount < n - n/12` holds exactly when more than a twelfth of the samples are not silent. So an empty or all-silent frame is rejected, and a frame without silence is accepted when it is not empty |
| WhisperFeed.AdmitsIff | transcribe.io/transcribe.io/Services/DefaultWhisperService.cs:86-92 | a frame reaches the window exactly when its length is even and more than a twelfth of its samples are not silent. An empty frame never does |
| WhisperFeed.FlattenAppend | transcribe.io/transcribe.io/Services/DefaultWhisperService.cs:101 | `SelectMany` over the window lays the chunks end to end and keeps their order under concatenation |
| WhisperFeed.GeneratedProcessorLanguages | transcribe.io/transcribe.io/Services/DefaultWhisperService.cs:149-160 | a processor built for the picker's first entry uses "auto". For any other entry it uses the IETF tag of the culture of some member's code |
| WhisperFeed.DefaultWhisperService.constructor | transcribe.io/transcribe.io/Services/DefaultWhisperService.cs:12-15 | a new service has no processor, an empty window and live transcription off |
| WhisperFeed.DefaultWhisperService.InitModel | transcribe.io/transcribe.io/Services/DefaultWhisperService.cs:37-42 | afterwards there is a processor built for the language, replacing any earlier one; the window, the live flag and what was fed are unchanged |
| WhisperFeed.DefaultWhisperService.ProcessAsync | transcribe.io/transcribe.io/Services/DefaultWhisperService.cs:72-79 | without a processor it throws `ArgumentNullException` and feeds nothing. Otherwise the stream is handed to the processor once |
| WhisperFeed.DefaultWhisperService.ProcessBytes | transcribe.io/transcribe.io/Services/DefaultWhisperService.cs:82-105 | without a processor it throws `ArgumentNullException`, and for an odd-length frame the copy throws. A frame that passes the silence gate slides into the window, the whole window is fed to the processor oldest first, and the invariant "window = latest 30 accepted chunks" is kept. A rejected frame changes nothing |
| WhisperFeed.DefaultWhisperService.StartLiveTranscriptionAsync | transcribe.io/transcribe.io/Services/DefaultWhisperService.cs:109-115 | turns the live flag on and changes nothing else |
| WhisperFeed.DefaultWhisperService.ProcessAudioBufferAsync | transcribe.io/transcribe.io/Services/DefaultWhisperService.cs:117-124 | while live transcription is off it does nothing and succeeds; while it is on it behaves exactly as ProcessBytes |
| WhisperFeed.DefaultWhisperService.StopLiveTranscriptionAsync | transcribe.io/transcribe.io/Services/DefaultWhisperService.cs:126-130 | turns the live flag off and changes nothing else |
| Languages.UntilZero | transcribe.io/transcribe.io/Models/WhisperLanguage.cs:365 | `new string(sbyte*)` reads the bytes up to the first NUL: a prefix free of NUL, ended by a NUL or the buffer end |
| Languages.GetCode | transcribe.io/transcribe.io/Models/WhisperLanguage.cs:358-367 | the code is the value's little-endian bytes up to the first zero byte (at most four), as characters |
| Languages.PackCode | transcribe.io/transcribe.io/Models/WhisperLanguage.cs:363 | the value whose little-endian bytes are the code's bytes padded with zeros: how each member of the enumeration is formed |
| Languages.UntilZeroStops | transcribe.io/transcribe.io/Models/WhisperLanguage.cs:364-365 | reading up to the first NUL stops at the NUL that follows a NUL-free prefix |
| Languages.GetCodePack | transcribe.io/transcribe.io/Models/WhisperLanguage.cs:358-367 | GetCode recovers any code of at most four non-NUL byte-sized characters from its packed value |
| Languages.BytesDetermineValue | transcribe.io/transcribe.io/Models/WhisperLanguage.cs:363 | two `uint` values with the same four bytes are equal |
| Languages.SameBytes | transcribe.io/transcribe.io/Models/WhisperLanguage.cs:363 | two values below 256^n with the same n bytes are equal |
| Languages.RowDecodes | transcribe.io/transcribe.io/Models/WhisperLanguage.cs:358-367 | a member packed from a two- or three-letter code decodes back to that code |
| Languages.ThreeBytes | transcribe.io/transcribe.io/Models/WhisperLanguage.cs:363 | a value built from three bytes has those bytes followed by a zero byte |
| Languages.TwoLetterRow | transcribe.io/transcribe.io/Models/WhisperLanguage.cs:358-367 | a member packed from two lower-case letters decodes to those letters |
| Languages.ThreeLetterRow | transcribe.io/transcribe.io/Models/WhisperLanguage.cs:358-367 | a member packed from three lower-case letters decodes to those letters |
| Languages.TableRows0 | transcribe.io/transcribe.io/Models/WhisperLanguage.cs:10-307 | GetCode of each of the first 33 members is its ISO code ("ba", "ca", …, "mk") |
| Languages.TableRows1 | transcribe.io/transcribe.io/Models/WhisperLanguage.cs:10-307 | GetCode of each of the next 33 members is its ISO code ("sk", …, "en", …, "mr") |
| Languages.TableRows2 | transcribe.io/transcribe.io/Models/WhisperLanguage.cs:10-307 | GetCode of each of the remaining members is its code ("sr", …, "haw", …, "cy"), the three-letter ones included |
| Languages.CanonicalInjective | transcribe.io/transcribe.io/Models/WhisperLanguage.cs:358-367 | two canonical members (a code packed with zero padding) with the same code are the same member |
| Languages.DistinctCodes | transcribe.io/transcribe.io/Models/WhisperLanguage.cs:358-367 | distinct canonical members have distinct codes |
| Languages.InsertBy | transcribe.io/transcribe.io/Models/WhisperLanguage.cs:351 | inserting adds exactly the one element, at the front or after the head |
| Languages.SortBy | transcribe.io/transcribe.io/Models/WhisperLanguage.cs:351 | `OrderBy` returns a permutation of the list |
| Languages.InsertKeepsSorted | transcribe.io/transcribe.io/Models/WhisperLanguage.cs:351 | under a total order, inserting into a sorted list keeps it sorted |
| Languages.SortSorts | transcribe.io/transcribe.io/Models/WhisperLanguage.cs:351 | under a total order, `OrderBy`'s result is sorted |
| Languages.GenerateWhisperLanguages | transcribe.io/transcribe.io/Models/WhisperLanguage.cs:342-355 | the loop over the enumeration, the sort and the insertion at index 0 build the automatic entry followed by the members' entries sorted by display name, whose shape GeneratedShape states |
| Languages.GeneratedShape | transcribe.io/transcribe.io/Models/WhisperLanguage.cs:342-355 | under a total comparison the list has 1 + 99 entries. The first is the automatic "Auto" entry on the current culture with its two-letter code, and the rest are a permutation of the members' entries sorted by display name, none automatic |
| Languages.GeneratedEntriesAreMembers | transcribe.io/transcribe.io/Models/WhisperLanguage.cs:318-324 | every entry after the first is the entry of some member: not automatic, with the culture `GetCultureInfo` gives for the member's code, its display name as the name and its IETF tag as the code |
| Languages.GeneratedMembersAreEntries | transcribe.io/transcribe.io/Models/WhisperLanguage.cs:346-349 | every member of the enumeration has its entry somewhere after the first, so none is lost by the sort |
| BoolToText.Split | transcribe.io/transcribe.io/Converters/BoolToTextConverter.cs:11 | splitting at the bar character yields one more part than separators, none containing a separator |
| BoolToText.JoinSplit | transcribe.io/transcribe.io/Converters/BoolToTextConverter.cs:11 | joining the parts with the separator recovers the string |
| BoolToText.SplitHalves | transcribe.io/transcribe.io/Converters/BoolToTextConverter.cs:11-12 | a, a bar and b, with bar-free halves, split into exactly [a, b] |
| BoolToText.SplitNone | transcribe.io/transcribe.io/Converters/BoolToTextConverter.cs:11 | a string without the separator splits into itself alone |
| BoolToText.Convert | transcribe.io/transcribe.io/Converters/BoolToTextConverter.cs:9-15 | without a string parameter holding exactly one bar character, the result is the value's text (`value?.ToString() ?? ""`): empty for null, "True" or "False" for a boolean, the string itself for a string. Otherwise it is one of the parameter's two parts |
| BoolToText.ConvertSelects | transcribe.io/transcribe.io/Converters/BoolToTextConverter.cs:11-14 | for the parameter a, bar, b, boolean true selects a, and false, null and every other value select b |
| BoolToText.ConvertBack | transcribe.io/transcribe.io/Converters/BoolToTextConverter.cs:17-18 | always throws `NotImplementedException` |
| LiveText.TrimStart | transcribe.io/transcribe.io/ViewModels/TranscriptionViewModel.cs:231 | removes exactly a blank prefix and leaves a result that is a suffix not starting with white space |
| LiveText.TrimEnd | transcribe.io/transcribe.io/ViewModels/TranscriptionViewModel.cs:231 | removes exactly a blank suffix and leaves a result that is a prefix not ending with white space |
| LiveText.BlankConcat | transcribe.io/transcribe.io/ViewModels/TranscriptionViewModel.cs:231 | blank strings stay blank when joined |
| LiveText.TrimSlice | transcribe.io/transcribe.io/ViewModels/TranscriptionViewModel.cs:231 | `Trim` returns a contiguous slice with only white space cut on either side |
| LiveText.TrimEmptyIff | transcribe.io/transcribe.io/ViewModels/TranscriptionViewModel.cs:227-231 | `Trim` is empty exactly when the text is white space only, which `IsNullOrWhiteSpace` already excludes |
| LiveText.TrimEndsAndIdempotent | transcribe.io/transcribe.io/ViewModels/TranscriptionViewModel.cs:231 | a trimmed text neither starts nor ends with white space, and trimming twice is trimming once |
| LiveText.AccumulateLaw | transcribe.io/transcribe.io/ViewModels/TranscriptionViewModel.cs:225-232 | a null or blank segment leaves the text as it was. Otherwise the trimmed segment is appended, after one space when the text was not empty |
| LiveText.SpokenParts | transcribe.io/transcribe.io/ViewModels/TranscriptionViewModel.cs:227-231 | the trimmed non-blank segments, none empty |
| LiveText.JoinEmptyIff | transcribe.io/transcribe.io/ViewModels/TranscriptionViewModel.cs:227-231 | joining non-empty parts with spaces is empty exactly when there are none |
| LiveText.TranscriptJoinsSegments | transcribe.io/transcribe.io/ViewModels/TranscriptionViewModel.cs:220-233 | after any run of segments from an empty start, the live text is the trimmed non-blank segments joined by single spaces, in arrival order |
| Session.Microphone.constructor | transcribe.io/transcribe.io/Platforms/Android/Services/Microphone_Android.cs:14-21 | a new microphone is not recording, and it is fixed whether its start awaits the capture loop |
| Session.Microphone.StartCaptureAsync | transcribe.io/transcribe.io/Platforms/Android/Services/Microphone_Android.cs:26-76 | a start while recording does nothing. A failing start throws before the flag is raised. A successful one raises IsRecording and then, on Android, stays suspended in the read loop, while on iOS (Platforms/iOS/Services/Microphone_iOS.cs:28-115) it returns |
| Session.Microphone.StopCaptureAsync | transcribe.io/transcribe.io/Platforms/Android/Services/Microphone_Android.cs:78-95 | stopping lowers IsRecording, and does nothing when it is already low |
| Session.TranscriptionViewModel.constructor | transcribe.io/transcribe.io/ViewModels/TranscriptionViewModel.cs:40-65 | the language list is the generated list and the selected language its automatic first entry. It starts with no recording, empty buffers, empty live text and no subtitles |
| Session.TranscriptionViewModel.StartAsync | transcribe.io/transcribe.io/ViewModels/TranscriptionViewModel.cs:155-160 | clears the subtitles and the live text and leaves the recording state alone |
| Session.TranscriptionViewModel.OnNewWhisperSegment | transcribe.io/transcribe.io/ViewModels/TranscriptionViewModel.cs:220-233 | the live text becomes the accumulation of the segment's text (see LiveText.AccumulateLaw), and nothing else changes |
| Session.TranscriptionViewModel.OnAudioBufferAvailable | transcribe.io/transcribe.io/ViewModels/TranscriptionViewModel.cs:424-459 | the raw buffer grows by the frame as captured. The processed buffer grows by the conditioned frame, or by nothing when conditioning throws. The whisper window and feed change exactly as ProcessAudioBufferAsync says for that frame. The recording state is unchanged and both class invariants are kept |
| Session.TranscriptionViewModel.StartRecordingAsync | transcribe.io/transcribe.io/ViewModels/TranscriptionViewModel.cs:285-299 | it does nothing without a microphone or while the microphone records. Otherwise it throws `NullReferenceException` when there is no processor and no selected model. Else it sets up the processor for the selected language if there was none and turns live transcription on. A failed capture leaves IsRecording low. A capture start that returns raises it, and one suspended in its capture loop has not raised it |
| Session.TranscriptionViewModel.StopRecordingAsync | transcribe.io/transcribe.io/ViewModels/TranscriptionViewModel.cs:301-328 | while recording, it stops the capture and live transcription and lowers IsRecording. It writes the raw buffer as a 48 kHz stereo WAV and the processed buffer as a 16 kHz mono WAV, then empties both buffers. Otherwise it does nothing |
| Session.TranscriptionViewModel.SaveWavFile | transcribe.io/transcribe.io/ViewModels/TranscriptionViewModel.cs:330-358 | the named file now holds the WAV encoding of the data and the other files are untouched |
| Session.TranscriptionViewModel.ToggleRecordingAsync | transcribe.io/transcribe.io/ViewModels/TranscriptionViewModel.cs:273-283 | when IsRecording is set, the toggle stops the microphone and live transcription, writes the raw buffer as a 48 kHz stereo file and the processed buffer as a 16 kHz mono file, and empties both buffers. Otherwise it writes nothing and keeps the buffers. While the microphone already records it changes nothing. Else the microphone records exactly when a model is available and the capture starts, IsRecording is raised exactly when it records and its start returns, and live transcription is on whenever a model is available |
| Session.AndroidSecondTapKeepsRecording | transcribe.io/transcribe.io/ViewModels/TranscriptionViewModel.cs:273-297 | with the Android microphone, a model and a capture that starts, two taps of the toggle leave the microphone recording and write no debug file |
| Session.BackgroundCaptureSecondTapStops | transcribe.io/transcribe.io/ViewModels/TranscriptionViewModel.cs:273-328 | with a microphone whose start returns once capture runs, the same two taps stop the microphone and write both debug files |

The invariant of `DefaultWhisperService` (`Valid`) is that the window equals the
latest thirty chunks of the ghost history `admitted` of every accepted chunk.
`ProcessBytes` keeps it, and `Window.WindowKeepsLatest` shows that sliding
builds exactly that window. The invariant of `TranscriptionViewModel` adds
that its IsRecording mirrors the microphone's when the microphone's start
returns (iOS), and stays low while a start is suspended in the Android read
loop.

### Definitions

The contracts above are stated over these definitions, which model the
source directly and carry no contract of their own beyond their body:

- `WhisperFeed.DefaultWhisperService.IsInitialized`: `IsInitialized`, DefaultWhisperService.cs:21. The service's
  constructor and `InitModel` rows state it.
- `WhisperFeed.Accepts` and `WhisperFeed.Admits`: the gate at DefaultWhisperService.cs:86-92, stated by
  `AcceptsIff` and `AdmitsIff`.
- `WhisperFeed.Flatten`: the `SelectMany` at DefaultWhisperService.cs:101, stated by `FlattenAppend`.
- `WhisperFeed.ProcessorLanguage`: `SetupProcessor` at DefaultWhisperService.cs:149-160, stated by
  `GeneratedProcessorLanguages`.
- `LiveText.IsWhiteSpace`, `LiveText.IsNullOrWhiteSpace`, `LiveText.Trim` and `LiveText.Accumulate`: the handler at
  TranscriptionViewModel.cs:227-231, stated by `TrimSlice`, `TrimEmptyIff`, `TrimEndsAndIdempotent` and
  `AccumulateLaw`.
- `Conditioning.OutputSampleCount` and `Conditioning.Resampled`: TranscriptionViewModel.cs:360-393, stated by
  `OutputSampleCountBounds`, `ResampleTo16kHz` and `ResampleLengthLaw`.
- `Conditioning.ConditionFrame`: the steps at TranscriptionViewModel.cs:441-447, stated by `ConditionFrameLaw`.
- `Pcm.BitConverterToInt16`: `BitConverter.ToInt16` at TranscriptionViewModel.cs:399, stated by `ReadInt16LE`.
- `Languages.Zeros`, `Languages.Chars` and `Languages.CodeBytes`: the byte buffer of `GetCode`
  (WhisperLanguage.cs:363-365), stated by `GetCode`, `GetCodePack` and the table rows.
- `Languages.EnumValues`: `Enum.GetValues` at WhisperLanguage.cs:346, the 99 members of lines 10-307 by ascending
  value, stated by the table rows.
- `Languages.FromCulture`, `Languages.FromMember`, `Languages.Automatic`, `Languages.Enumerated` and
  `Languages.Generated`: the constructors and `GenerateWhisperLangauages` at WhisperLanguage.cs:311-355, stated by
  `GeneratedShape`, `GeneratedEntriesAreMembers`, `GeneratedMembersAreEntries` and `GenerateWhisperLanguages`.
- `BoolToText.ToText`: `value?.ToString() ?? ""` at BoolToTextConverter.cs:13, stated by `Convert`.

### Code and documentation

Where the code and the documentation of the system describe different
behaviour, the model follows the code:

- A frame that is not a whole number of stereo pairs is not dropped. It is passed unchanged to the resampler (which
  throws only when its length is odd), is kept in the raw buffer and, when its length is even, is appended to the
  processed buffer (`Conditioning.MonoFrame`).
- The sliding window holds at most 30 chunks, not 31. The chunk is added first and the oldest removed as soon as the
  count exceeds 30.
- A frame whose silent samples are exactly `n - n/12` is rejected. The test is a strict `<` on integer counts, not a
  comparison of a fraction with 11/12.
- `StopRecordingAsync` submits no batch of the processed buffer to the recogniser. It only writes the two debug files.
- No lock guards the capture buffers. The enumeration has 99 members, so the language list has 100 entries.
- `ThrowIfNull(nameof(...))` in `StartAsync` is given a non-null string and never throws, so the reset always happens.

## Left out

- Whisper.net (the factory, the processor and its segment events) is not part of this model. The processor is the
  language it was built for. The audio it is given is recorded in `fedSamples` and `fedStreams`.
- Model loading: `InitModel(path)` and `InitModel(byte[])` are modelled as one `InitModel(language)`. The model file is
  the `selectedModel` option passed to `StartRecordingAsync`, whose `None` is the `NullReferenceException` path.
  `ProcessAsync(string)` and `ProcessAsync(byte[])` open the file or a stream and are left out. `ProcessAsync(Stream)` is
  modelled.
- File I/O: `FileStream`, `Path.Combine` and the documents folder become the `documents` map from file name to bytes.
  Console and logger output, including the loop in `OnAudioBufferAvailable` that logs the first samples through
  `ReadInt16LE`, is left out because it changes no state.
- Concurrency: `async`/`await`, the fire-and-forget `async void` handler, the `Dispatcher` and
  `CancellationTokenSource` are left out. Each call is modelled as running to completion, in order. The one exception
  is a capture start that awaits the Android read loop. It is modelled as `Suspended`, the state in which the
  button's next tap finds the view model.
- Floating point: the linear interpolation of `ResampleTo16kHz` is the `Interpolator` parameter. Its count, its error
  cases and the length of its output are modelled. The per-sample decibel test `20·log10(|x|) < -40` is the
  `SilenceTest` parameter. The gate over its count is modelled.
- Conditioning.OutputSampleCount: the `(int)` cast of the `long` product is not modelled. For buffers that fit in
  memory the count fits in an `int`.
- Languages.FromMember: `CultureInfo.GetCultureInfo` is a total function parameter from code to culture, so the
  `CultureNotFoundException` it throws for a code .NET does not know (WhisperLanguage.cs:321) is not modelled. Display
  names and their comparison (`OrderBy` with the current culture's string comparer) are an `Order` parameter.
- Languages.SortBy: the stability of `OrderBy` for equal display names is not proved. Only the result being sorted and
  a permutation is.
- Languages.Enumerated: the order of `Enum.GetValues` (ascending unsigned value) is how `EnumValues` is written out, not
  something proved.
- Languages.GetCode: bytes from 0x80 are read by `new string(sbyte*)` through the system code page. The model maps each
  byte to the character of the same code. Every member of the enumeration is lower-case ASCII.
- WhisperFeed.DefaultWhisperService.ProcessBytes: a null frame, which throws `NullReferenceException` at `e.Length`
  (DefaultWhisperService.cs:86), is not modelled, because frames are sequences. `TotalBufferLength` is the literal 30
  (`30 / AudioSampleLengthS` with `AudioSampleLengthS = 1`).
- Host byte order: `BitConverter` and `Buffer.BlockCopy` use the byte order of the machine. The model assumes a
  little-endian host throughout, and only `Pcm.ReadInt16LE` keeps the branch for a big-endian one.
- Session.Microphone: the platform capture (`AudioRecord`, `AVAudioEngine`, the tap, the read loop and the float to
  16-bit conversion) is left out. Whether a capture starts is the `captureSucceeds` parameter, whether its start awaits
  the read loop is `blocksWhileRecording`, and the `AudioBufferAvailable` event is a call of `OnAudioBufferAvailable`.
  The cancellation token of `StartCaptureAsync` is left out.
- Session.Microphone.StartCaptureAsync: the Android read loop also ends when a read throws, since the exception is
  caught (Microphone_Android.cs:71-74). The suspended `StartRecordingAsync` would then resume and raise IsRecording.
  That resumption is not modelled: a suspended start stays suspended.
- Session.TranscriptionViewModel.OnAudioBufferAvailable: the Android service captures mono (Microphone_Android.cs:34),
  yet the handler downmixes every frame whose length is a multiple of 4 as if it were stereo. The model follows the
  handler for every frame and does not tie the frame format to the platform.
- Session.TranscriptionViewModel.StartAsync: only its reset is modelled. Opening the URL or local file
  (`LocalFileParseAsync`, `ParseAsync`, `GenerateCaptionsAsync`, the YouTube and transcoding services) is I/O and is
  left out, as are `ExportAsync` and the model-service events.
- Session.TranscriptionViewModel.constructor: the second constructor, `TranscriptionViewModel(string srtText, …)`
  (TranscriptionViewModel.cs:70-76), fills the subtitles from an SRT text. It is left out because SRT parsing belongs
  to a subtitle library that is not part of this model.
- Session.TranscriptionViewModel.subtitles: a subtitle line is its text only. Its timing and line number are left out.
- `Dispose` and the other view-model properties (progress, URL field, the `CanStart` flag) are left out because they do
  not touch the audio path.

## Findings

| source | as written | input that shows it | evidently intended | confidence | as-written member | corrected member |
|---|---|---|---|---|---|---|
| transcribe.io/transcribe.io/ViewModels/TranscriptionViewModel.cs:273-297 | the toggle tests the view model's IsRecording, which `StartRecordingAsync` raises only after `StartCaptureAsync` returns. The Android `StartCaptureAsync` (Platforms/Android/Services/Microphone_Android.cs:50-75) raises its own flag and then awaits the read loop until the capture is stopped, so IsRecording stays low. The second tap starts again, `StartRecordingAsync` sees the microphone recording and does nothing, and so the recording cannot be stopped from the button | Android microphone, a selected model, a capture that starts. Tap the recording button, then tap it again | the second tap stops the capture and writes the two debug files, as it does with a start that returns once capture runs (the iOS service) | not executed | Session.AndroidSecondTapKeepsRecording | Session.BackgroundCaptureSecondTapStops |
