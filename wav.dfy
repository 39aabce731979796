/** The debug WAV file SaveWavFile writes: a canonical 44-byte RIFF/WAVE PCM header, then the data. */
module Wav {
  import opened Pcm
  import opened Outcomes

  const RiffId: seq<Byte> := [0x52, 0x49, 0x46, 0x46]   // "RIFF"
  const WaveId: seq<Byte> := [0x57, 0x41, 0x56, 0x45]   // "WAVE"
  const FmtId: seq<Byte> := [0x66, 0x6D, 0x74, 0x20]    // "fmt "
  const DataId: seq<Byte> := [0x64, 0x61, 0x74, 0x61]   // "data"

  const HeaderLength := 44

  /**
   * The bytes SaveWavFile writes for `audioData`. The `int` products and
   * sums wrap as C# `int` arithmetic does and the `(short)` casts keep the
   * low 16 bits: LE32 and LE16 encode exactly those wrapped values.
   */
  function WavFile(audioData: seq<Byte>, sampleRate: int, channels: int): (file: seq<Byte>)
    ensures |file| == HeaderLength + |audioData|
    ensures file[HeaderLength..] == audioData
  {
    var byteRate := sampleRate * channels * 2;
    var blockAlign := channels * 2;
    var subChunk2Size := |audioData|;
    var chunkSize := 36 + subChunk2Size;
    var file := Fields([RiffId, LE32(chunkSize), WaveId,
                        FmtId, LE32(16), LE16(1), LE16(channels), LE32(sampleRate),
                        LE32(byteRate), LE16(blockAlign), LE16(16),
                        DataId, LE32(subChunk2Size), audioData]);
    Layout(file, audioData, chunkSize, 16, 1, channels, sampleRate, byteRate, blockAlign, 16, subChunk2Size);
    file
  }

  /** The parts written one after the other. */
  function Fields(parts: seq<seq<Byte>>): seq<Byte>
  {
    if parts == [] then [] else parts[0] + Fields(parts[1..])
  }

  /** The fields a WAV reader recovers from a canonical PCM header. */
  datatype WavInfo = WavInfo(
    chunkSize: int,
    audioFormat: int,
    channels: int,
    sampleRate: int,
    byteRate: int,
    blockAlign: int,
    bitsPerSample: int,
    data: seq<Byte>)

  /** The unsigned 16-bit little-endian field at `offset`. */
  function UInt16At(file: seq<Byte>, offset: nat): nat
    requires offset + 2 <= |file|
  {
    file[offset] as int + 0x100 * file[offset + 1] as int
  }

  /** The unsigned 32-bit little-endian field at `offset`. */
  function UInt32At(file: seq<Byte>, offset: nat): nat
    requires offset + 4 <= |file|
  {
    UInt16At(file, offset) + 0x1_0000 * UInt16At(file, offset + 2)
  }

  /**
   * Reads a canonical WAV file: checks the four chunk ids and the 16-byte
   * fmt chunk, and takes as many data bytes as the data chunk declares.
   */
  function ParseWav(file: seq<Byte>): Option<WavInfo>
  {
    if |file| < HeaderLength then None
    else if file[0..4] != RiffId || file[8..12] != WaveId || file[12..16] != FmtId || file[36..40] != DataId then None
    else if UInt32At(file, 16) != 16 then None
    else
      var dataLength := UInt32At(file, 40);
      if HeaderLength + dataLength > |file| then None
      else Some(WavInfo(UInt32At(file, 4), UInt16At(file, 20), UInt16At(file, 22),
                        UInt32At(file, 24), UInt32At(file, 28), UInt16At(file, 32),
                        UInt16At(file, 34), file[HeaderLength..HeaderLength + dataLength]))
  }

  /** Whether `file` holds a header of these field values, laid out as SaveWavFile lays it out, then `audioData`. */
  ghost predicate FieldsAt(file: seq<Byte>, audioData: seq<Byte>, chunkSize: int, fmtSize: int, format: int,
                           channels: int, sampleRate: int, byteRate: int, blockAlign: int, bits: int, dataSize: int)
  {
    && |file| == HeaderLength + |audioData| && file[HeaderLength..] == audioData
    && file[0..4] == RiffId && file[4..8] == LE32(chunkSize) && file[8..12] == WaveId
    && file[12..16] == FmtId && file[16..20] == LE32(fmtSize) && file[20..22] == LE16(format)
    && file[22..24] == LE16(channels) && file[24..28] == LE32(sampleRate)
    && file[28..32] == LE32(byteRate) && file[32..34] == LE16(blockAlign)
    && file[34..36] == LE16(bits) && file[36..40] == DataId && file[40..44] == LE32(dataSize)
  }

  /** Where each header field of WavFile sits. */
  lemma {:induction false} WavLayout(audioData: seq<Byte>, sampleRate: int, channels: int)
    ensures FieldsAt(WavFile(audioData, sampleRate, channels), audioData, 36 + |audioData|, 16, 1, channels,
                     sampleRate, sampleRate * channels * 2, channels * 2, 16, |audioData|)
  {
    var file := WavFile(audioData, sampleRate, channels);
    Layout(file, audioData, 36 + |audioData|, 16, 1, channels, sampleRate,
           sampleRate * channels * 2, channels * 2, 16, |audioData|);
  }

  /** Where each field of a header laid out as SaveWavFile lays it out sits, whatever the field values. */
  lemma {:induction false} Layout(file: seq<Byte>, audioData: seq<Byte>, chunkSize: int, fmtSize: int, format: int,
                                  channels: int, sampleRate: int, byteRate: int, blockAlign: int, bits: int,
                                  dataSize: int)
    requires file == Fields([RiffId, LE32(chunkSize), WaveId,
                             FmtId, LE32(fmtSize), LE16(format), LE16(channels), LE32(sampleRate),
                             LE32(byteRate), LE16(blockAlign), LE16(bits),
                             DataId, LE32(dataSize), audioData])
    ensures FieldsAt(file, audioData, chunkSize, fmtSize, format, channels, sampleRate, byteRate, blockAlign,
                     bits, dataSize)
  {
    var parts := [RiffId, LE32(chunkSize), WaveId,
                  FmtId, LE32(fmtSize), LE16(format), LE16(channels), LE32(sampleRate),
                  LE32(byteRate), LE16(blockAlign), LE16(bits),
                  DataId, LE32(dataSize), audioData];
    PartsLayout(file, parts);
  }

  /** The fourteen parts of a header and its data, each at its offset in the file. */
  lemma {:induction false} PartsLayout(file: seq<Byte>, parts: seq<seq<Byte>>)
    requires |parts| == 14 && file == Fields(parts)
    requires |parts[0]| == |parts[1]| == |parts[2]| == |parts[3]| == |parts[4]| == 4
    requires |parts[5]| == |parts[6]| == 2 && |parts[7]| == |parts[8]| == 4
    requires |parts[9]| == |parts[10]| == 2 && |parts[11]| == |parts[12]| == 4
    ensures |file| == HeaderLength + |parts[13]| && file[HeaderLength..] == parts[13]
    ensures file[0..4] == parts[0] && file[4..8] == parts[1] && file[8..12] == parts[2]
    ensures file[12..16] == parts[3] && file[16..20] == parts[4] && file[20..22] == parts[5]
    ensures file[22..24] == parts[6] && file[24..28] == parts[7]
    ensures file[28..32] == parts[8] && file[32..34] == parts[9]
    ensures file[34..36] == parts[10] && file[36..40] == parts[11] && file[40..44] == parts[12]
  {
    assert parts[0..] == parts;
    FieldAt(file, parts, 0, 0);
    FieldAt(file, parts, 1, 4);
    FieldAt(file, parts, 2, 8);
    FieldAt(file, parts, 3, 12);
    FieldAt(file, parts, 4, 16);
    FieldAt(file, parts, 5, 20);
    FieldAt(file, parts, 6, 22);
    FieldAt(file, parts, 7, 24);
    FieldAt(file, parts, 8, 28);
    FieldAt(file, parts, 9, 32);
    FieldAt(file, parts, 10, 34);
    FieldAt(file, parts, 11, 36);
    FieldAt(file, parts, 12, 40);
    FieldAt(file, parts, 13, 44);
    assert parts[14..] == [];
  }

  /** Where the rest of the parts start, the next part comes first and the others follow it. */
  lemma {:induction false} FieldAt(file: seq<Byte>, parts: seq<seq<Byte>>, i: nat, k: nat)
    requires i < |parts| && k <= |file| && file[k..] == Fields(parts[i..])
    ensures k + |parts[i]| <= |file|
    ensures file[k..k + |parts[i]|] == parts[i] && file[k + |parts[i]|..] == Fields(parts[i + 1..])
  {
    assert parts[i..][1..] == parts[i + 1..];
    assert file[k..] == parts[i] + Fields(parts[i + 1..]);
    assert file[k..k + |parts[i]|] == file[k..][..|parts[i]|];
    assert file[k + |parts[i]|..] == file[k..][|parts[i]|..];
  }

  /** A field that holds the `width` bytes of `x` decodes to `x` wrapped to that width. */
  lemma {:induction false} FieldDecodes(file: seq<Byte>, offset: nat, width: nat, x: int)
    requires offset + width <= |file|
    requires file[offset..offset + width] == LEBytes(x, width)
    ensures DecodeLE(file[offset..offset + width]) == x % Pow256(width)
  {
    LEBytesDecode(x, width);
  }

  /** A four-byte field decodes as its bytes weighted low byte first. */
  lemma {:induction false} DecodeLE4(s: seq<Byte>)
    requires |s| == 4
    ensures DecodeLE(s) == s[0] as int + 0x100 * (s[1] as int) + 0x1_0000 * (s[2] as int) + 0x100_0000 * (s[3] as int)
  {
    assert DecodeLE(s[3..]) == s[3] by {
      assert s[3..][1..] == [];
    }
    assert DecodeLE(s[2..]) == s[2] as int + 0x100 * DecodeLE(s[3..]) by {
      assert s[2..][1..] == s[3..];
    }
    assert DecodeLE(s[1..]) == s[1] as int + 0x100 * DecodeLE(s[2..]) by {
      assert s[1..][1..] == s[2..];
    }
  }

  /** A two-byte field decodes as its bytes weighted low byte first. */
  lemma {:induction false} DecodeLE2(s: seq<Byte>)
    requires |s| == 2
    ensures DecodeLE(s) == s[0] as int + 0x100 * (s[1] as int)
  {
    assert DecodeLE(s[1..]) == s[1] by {
      assert s[1..][1..] == [];
    }
  }

  /** The four bytes of `x`, read back as an unsigned 32-bit field, give `x` wrapped to 32 bits. */
  lemma {:induction false} Field32At(file: seq<Byte>, offset: nat, x: int)
    requires offset + 4 <= |file| && file[offset..offset + 4] == LE32(x)
    ensures UInt32At(file, offset) == x % 0x1_0000_0000
  {
    FieldDecodes(file, offset, 4, x);
    assert Pow256(4) == 0x1_0000_0000;
    DecodeLE4(file[offset..offset + 4]);
  }

  /** The two bytes of `x`, read back as an unsigned 16-bit field, give `x` wrapped to 16 bits. */
  lemma {:induction false} Field16At(file: seq<Byte>, offset: nat, x: int)
    requires offset + 2 <= |file| && file[offset..offset + 2] == LE16(x)
    ensures UInt16At(file, offset) == x % 0x10000
  {
    FieldDecodes(file, offset, 2, x);
    assert Pow256(2) == 0x10000;
    DecodeLE2(file[offset..offset + 2]);
  }

  /** Whether the header fields of `file` read back as these values, each wrapped to its width. */
  ghost predicate FieldsRead(file: seq<Byte>, audioData: seq<Byte>, chunkSize: int, fmtSize: int, format: int,
                             channels: int, sampleRate: int, byteRate: int, blockAlign: int, bits: int,
                             dataSize: int)
  {
    && |file| == HeaderLength + |audioData| && file[HeaderLength..] == audioData
    && file[0..4] == RiffId && file[8..12] == WaveId && file[12..16] == FmtId && file[36..40] == DataId
    && UInt32At(file, 4) == chunkSize % 0x1_0000_0000 && UInt32At(file, 16) == fmtSize % 0x1_0000_0000
    && UInt16At(file, 20) == format % 0x10000 && UInt16At(file, 22) == channels % 0x10000
    && UInt32At(file, 24) == sampleRate % 0x1_0000_0000 && UInt32At(file, 28) == byteRate % 0x1_0000_0000
    && UInt16At(file, 32) == blockAlign % 0x10000 && UInt16At(file, 34) == bits % 0x10000
    && UInt32At(file, 40) == dataSize % 0x1_0000_0000
  }

  /** Every field laid out in the header reads back as the value written there, wrapped to its width. */
  lemma {:induction false} FieldsDecode(file: seq<Byte>, audioData: seq<Byte>, chunkSize: int, fmtSize: int,
                                        format: int, channels: int, sampleRate: int, byteRate: int,
                                        blockAlign: int, bits: int, dataSize: int)
    requires FieldsAt(file, audioData, chunkSize, fmtSize, format, channels, sampleRate, byteRate, blockAlign,
                      bits, dataSize)
    ensures FieldsRead(file, audioData, chunkSize, fmtSize, format, channels, sampleRate, byteRate, blockAlign,
                       bits, dataSize)
  {
    Field32At(file, 4, chunkSize);
    Field32At(file, 16, fmtSize);
    Field16At(file, 20, format);
    Field16At(file, 22, channels);
    Field32At(file, 24, sampleRate);
    Field32At(file, 28, byteRate);
    Field16At(file, 32, blockAlign);
    Field16At(file, 34, bits);
    Field32At(file, 40, dataSize);
  }

  lemma ModSmall(x: int, p: int)
    requires 0 <= x < p
    ensures x % p == x
  {
  }

  /** A reader recovers every field of a file whose header reads back as SaveWavFile's values. */
  lemma {:induction false} ParseDecoded(file: seq<Byte>, audioData: seq<Byte>, sampleRate: int, channels: int)
    requires FieldsRead(file, audioData, 36 + |audioData|, 16, 1, channels, sampleRate,
                        sampleRate * channels * 2, channels * 2, 16, |audioData|)
    requires 0 <= sampleRate < 0x8000_0000
    requires 0 <= channels < 0x8000
    requires 36 + |audioData| < 0x8000_0000
    ensures ParseWav(file) == Some(WavInfo(
      36 + |audioData|, 1, channels, sampleRate,
      (sampleRate * channels * 2) % 0x1_0000_0000, channels * 2, 16, audioData))
  {
    ModSmall(36 + |audioData|, 0x1_0000_0000);
    ModSmall(|audioData|, 0x1_0000_0000);
    ModSmall(channels, 0x10000);
    ModSmall(channels * 2, 0x10000);
    ModSmall(sampleRate, 0x1_0000_0000);
    assert file[HeaderLength..HeaderLength + |audioData|] == audioData;
  }

  /**
   * Reading back the file SaveWavFile writes recovers the sample rate, the
   * channel count, 16 bits per sample, the derived rate and alignment, and
   * the data byte for byte, whenever the sizes fit their fields.
   */
  lemma {:induction false} WavRoundTrip(audioData: seq<Byte>, sampleRate: int, channels: int)
    requires 0 <= sampleRate < 0x8000_0000
    requires 0 <= channels < 0x8000
    requires 36 + |audioData| < 0x8000_0000
    ensures ParseWav(WavFile(audioData, sampleRate, channels)) == Some(WavInfo(
      36 + |audioData|, 1, channels, sampleRate,
      (sampleRate * channels * 2) % 0x1_0000_0000, channels * 2, 16, audioData))
  {
    var file := WavFile(audioData, sampleRate, channels);
    WavLayout(audioData, sampleRate, channels);
    FieldsDecode(file, audioData, 36 + |audioData|, 16, 1, channels, sampleRate,
                 sampleRate * channels * 2, channels * 2, 16, |audioData|);
    ParseDecoded(file, audioData, sampleRate, channels);
  }
}
