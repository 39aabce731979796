/**
 * WhisperLanguage.cs: the WhisperLanguages enumeration, whose `uint` values
 * pack each Whisper language code little-endian into four bytes, the GetCode
 * decoder, and the language list the picker shows.
 */
module Languages {
  import opened Pcm
  import opened Outcomes

  type UInt32 = v: int | 0 <= v < 0x1_0000_0000

  // ---- the WhisperLanguages enumeration (an enum over `uint`) ----

  const Afrikaans: UInt32 := 0x6661
  const Albanian: UInt32 := 0x7173
  const Amharic: UInt32 := 0x6D61
  const Arabic: UInt32 := 0x7261
  const Armenian: UInt32 := 0x7968
  const Assamese: UInt32 := 0x7361
  const Azerbaijani: UInt32 := 0x7A61
  const Bashkir: UInt32 := 0x6162
  const Basque: UInt32 := 0x7565
  const Belarusian: UInt32 := 0x6562
  const Bengali: UInt32 := 0x6E62
  const Bosnian: UInt32 := 0x7362
  const Breton: UInt32 := 0x7262
  const Bulgarian: UInt32 := 0x6762
  const Catalan: UInt32 := 0x6163
  const Chinese: UInt32 := 0x687A
  const Croatian: UInt32 := 0x7268
  const Czech: UInt32 := 0x7363
  const Danish: UInt32 := 0x6164
  const Dutch: UInt32 := 0x6C6E
  const English: UInt32 := 0x6E65
  const Estonian: UInt32 := 0x7465
  const Faroese: UInt32 := 0x6F66
  const Finnish: UInt32 := 0x6966
  const French: UInt32 := 0x7266
  const Galician: UInt32 := 0x6C67
  const Georgian: UInt32 := 0x616B
  const German: UInt32 := 0x6564
  const Greek: UInt32 := 0x6C65
  const Gujarati: UInt32 := 0x7567
  const HaitianCreole: UInt32 := 0x7468
  const Hausa: UInt32 := 0x6168
  const Hawaiian: UInt32 := 0x776168
  const Hebrew: UInt32 := 0x7769
  const Hindi: UInt32 := 0x6968
  const Hungarian: UInt32 := 0x7568
  const Icelandic: UInt32 := 0x7369
  const Indonesian: UInt32 := 0x6469
  const Italian: UInt32 := 0x7469
  const Japanese: UInt32 := 0x616A
  const Javanese: UInt32 := 0x776A
  const Kannada: UInt32 := 0x6E6B
  const Kazakh: UInt32 := 0x6B6B
  const Khmer: UInt32 := 0x6D6B
  const Korean: UInt32 := 0x6F6B
  const Lao: UInt32 := 0x6F6C
  const Latin: UInt32 := 0x616C
  const Latvian: UInt32 := 0x766C
  const Lingala: UInt32 := 0x6E6C
  const Lithuanian: UInt32 := 0x746C
  const Luxembourgish: UInt32 := 0x626C
  const Macedonian: UInt32 := 0x6B6D
  const Malagasy: UInt32 := 0x676D
  const Malay: UInt32 := 0x736D
  const Malayalam: UInt32 := 0x6C6D
  const Maltese: UInt32 := 0x746D
  const Maori: UInt32 := 0x696D
  const Marathi: UInt32 := 0x726D
  const Mongolian: UInt32 := 0x6E6D
  const Myanmar: UInt32 := 0x796D
  const Nepali: UInt32 := 0x656E
  const Norwegian: UInt32 := 0x6F6E
  const Nynorsk: UInt32 := 0x6E6E
  const Occitan: UInt32 := 0x636F
  const Pashto: UInt32 := 0x7370
  const Persian: UInt32 := 0x6166
  const Polish: UInt32 := 0x6C70
  const Portuguese: UInt32 := 0x7470
  const Punjabi: UInt32 := 0x6170
  const Romanian: UInt32 := 0x6F72
  const Russian: UInt32 := 0x7572
  const Sanskrit: UInt32 := 0x6173
  const Serbian: UInt32 := 0x7273
  const Shona: UInt32 := 0x6E73
  const Sindhi: UInt32 := 0x6473
  const Sinhala: UInt32 := 0x6973
  const Slovak: UInt32 := 0x6B73
  const Slovenian: UInt32 := 0x6C73
  const Somali: UInt32 := 0x6F73
  const Spanish: UInt32 := 0x7365
  const Sundanese: UInt32 := 0x7573
  const Swahili: UInt32 := 0x7773
  const Swedish: UInt32 := 0x7673
  const Tagalog: UInt32 := 0x6C74
  const Tajik: UInt32 := 0x6774
  const Tamil: UInt32 := 0x6174
  const Tatar: UInt32 := 0x7474
  const Telugu: UInt32 := 0x6574
  const Thai: UInt32 := 0x6874
  const Tibetan: UInt32 := 0x6F62
  const Turkish: UInt32 := 0x7274
  const Turkmen: UInt32 := 0x6B74
  const Ukrainian: UInt32 := 0x6B75
  const Urdu: UInt32 := 0x7275
  const Uzbek: UInt32 := 0x7A75
  const Vietnamese: UInt32 := 0x6976
  const Welsh: UInt32 := 0x7963
  const Yiddish: UInt32 := 0x6979
  const Yoruba: UInt32 := 0x6F79

  /** Enum.GetValues: the members by ascending unsigned value. */
  const EnumValues: seq<UInt32> := [
    Bashkir, Catalan, Danish, Persian, Hausa, Japanese,
    Georgian, Latin, Punjabi, Sanskrit, Tamil, Luxembourgish,
    Occitan, Indonesian, Sindhi, Belarusian, German, Nepali,
    Telugu, Afrikaans, Bulgarian, Malagasy, Tajik, Thai,
    Chinese, Finnish, Hindi, Maori, Sinhala, Vietnamese,
    Yiddish, Kazakh, Macedonian, Slovak, Turkmen, Ukrainian,
    Greek, Galician, Malayalam, Dutch, Polish, Slovenian,
    Tagalog, Amharic, Khmer, Bengali, English, Kannada,
    Lingala, Mongolian, Nynorsk, Shona, Tibetan, Faroese,
    Korean, Lao, Norwegian, Romanian, Somali, Yoruba,
    Albanian, Arabic, Breton, French, Croatian, Marathi,
    Serbian, Turkish, Urdu, Assamese, Bosnian, Czech,
    Spanish, Icelandic, Malay, Pashto, Estonian, HaitianCreole,
    Italian, Lithuanian, Maltese, Portuguese, Tatar, Basque,
    Gujarati, Hungarian, Russian, Sundanese, Latvian, Swedish,
    Hebrew, Javanese, Swahili, Welsh, Armenian, Myanmar,
    Azerbaijani, Uzbek, Hawaiian
  ]

  // ---- GetCode and its encoder ----

  /** `n` zero bytes. */
  function Zeros(n: nat): (z: seq<Byte>)
    ensures |z| == n && forall i | 0 <= i < n :: z[i] == 0
  {
    seq(n, i => 0)
  }

  /** The bytes of `text` before its first zero byte (a NUL-terminated read). */
  function UntilZero(b: seq<Byte>): (p: seq<Byte>)
    ensures p <= b
    ensures forall i | 0 <= i < |p| :: p[i] != 0
    ensures |p| < |b| ==> b[|p|] == 0
  {
    if b == [] || b[0] == 0 then [] else [b[0]] + UntilZero(b[1..])
  }

  /** Each byte read as the character with the same code. */
  function Chars(b: seq<Byte>): (s: string)
    ensures |s| == |b| && forall i | 0 <= i < |b| :: s[i] as int == b[i]
  {
    seq(|b|, i requires 0 <= i < |b| => b[i] as char)
  }

  /**
   * GetCode: the value's four bytes, low byte first, then the zero written
   * at `ptr[4]`, read as a NUL-terminated string. The code is at most four
   * characters, holds no NUL, and is the value's bytes up to the first zero.
   */
  function GetCode(v: UInt32): (code: string)
    ensures |code| <= 4
    ensures forall i | 0 <= i < |code| :: code[i] != '\0' && code[i] as int == LEBytes(v, 4)[i]
    ensures |code| < 4 ==> LEBytes(v, 4)[|code|] == 0
  {
    var b := LEBytes(v, 4) + [0];
    var p := UntilZero(b);
    assert b[4] == 0;
    Chars(p)
  }

  /** The codes an enumeration value can carry: one to four characters, each a nonzero byte. */
  predicate IsPackable(code: string)
  {
    1 <= |code| <= 4 && forall i | 0 <= i < |code| :: 0 < code[i] as int < 0x100
  }

  /** The byte of each character of a packable code. */
  function CodeBytes(code: string): (b: seq<Byte>)
    requires forall i | 0 <= i < |code| :: code[i] as int < 0x100
    ensures |b| == |code| && forall i | 0 <= i < |code| :: b[i] == code[i] as int
  {
    seq(|code|, i requires 0 <= i < |code| => code[i] as int)
  }

  /** The encoder GetCode inverts: the code's bytes, low byte first, packed into a `uint`. */
  function PackCode(code: string): (v: UInt32)
    requires IsPackable(code)
    ensures LEBytes(v, 4) == CodeBytes(code) + Zeros(4 - |code|)
  {
    var b := CodeBytes(code) + Zeros(4 - |code|);
    DecodeLEBytes(b);
    DecodeLE(b)
  }

  lemma {:induction false} UntilZeroStops(p: seq<Byte>, rest: seq<Byte>)
    requires forall i | 0 <= i < |p| :: p[i] != 0
    requires rest != [] && rest[0] == 0
    ensures UntilZero(p + rest) == p
    decreases |p|
  {
    if p != [] {
      assert (p + rest)[1..] == p[1..] + rest;
      UntilZeroStops(p[1..], rest);
    }
  }

  /** GetCode decodes every packed code back to the code. */
  lemma {:induction false} GetCodePack(code: string)
    requires IsPackable(code)
    ensures GetCode(PackCode(code)) == code
  {
    var b := CodeBytes(code);
    assert LEBytes(PackCode(code), 4) + [0] == b + (Zeros(4 - |code|) + [0]);
    UntilZeroStops(b, Zeros(4 - |code|) + [0]);
  }

  /** Two values with the same four bytes are the same value. */
  lemma {:induction false} BytesDetermineValue(v: UInt32, w: UInt32)
    requires LEBytes(v, 4) == LEBytes(w, 4)
    ensures v == w
  {
    assert Pow256(4) == 0x1_0000_0000;
    SameBytes(v, w, 4);
  }

  /** `n` little-endian bytes determine a value below 256^n. */
  lemma {:induction false} SameBytes(v: nat, w: nat, n: nat)
    requires v < Pow256(n) && w < Pow256(n)
    requires LEBytes(v, n) == LEBytes(w, n)
    ensures v == w
  {
    LEBytesDecode(v, n);
    LEBytesDecode(w, n);
    EuclideanUnique(v, Pow256(n), 0, v);
    EuclideanUnique(w, Pow256(n), 0, w);
  }

  /** A Whisper language code: two or three lower-case ASCII letters. */
  predicate IsLanguageCode(code: string)
  {
    2 <= |code| <= 3 && forall i | 0 <= i < |code| :: 'a' <= code[i] <= 'z'
  }

  /** `v` is the packing of the code GetCode reads from it: every byte after the code is zero. */
  ghost predicate Canonical(v: UInt32)
  {
    LEBytes(v, 4) == CodeBytes(GetCode(v)) + Zeros(4 - |GetCode(v)|)
  }

  /** `v` decodes to the language code `code`, and is its packing. */
  ghost predicate DecodesTo(v: UInt32, code: string)
  {
    IsLanguageCode(code) && GetCode(v) == code && Canonical(v)
  }

  /** A value laid out as a code's bytes and zero padding decodes to that code. */
  lemma {:induction false} RowDecodes(v: UInt32, code: string)
    requires IsLanguageCode(code)
    requires LEBytes(v, 4) == CodeBytes(code) + Zeros(4 - |code|)
    ensures DecodesTo(v, code)
  {
    BytesDetermineValue(PackCode(code), v);
    GetCodePack(code);
  }

  predicate IsLowerLetter(c: char)
  {
    'a' <= c <= 'z'
  }

  /** The four bytes of a value below 2^24, low byte first. */
  lemma {:induction false} ThreeBytes(v: int, b0: Byte, b1: Byte, b2: Byte)
    requires v == b0 + 0x100 * b1 + 0x1_0000 * b2
    ensures LEBytes(v, 4) == [b0, b1, b2, 0]
  {
    EuclideanUnique(v, 0x100, b1 + 0x100 * b2, b0);
    EuclideanUnique(b1 + 0x100 * b2, 0x100, b2, b1);
    EuclideanUnique(b2, 0x100, 0, b2);
    assert LEBytes(0, 1) == [0];
  }

  /** A two-letter code packed as `a + 256 b`. */
  lemma {:induction false} TwoLetterRow(v: UInt32, a: char, b: char)
    requires IsLowerLetter(a) && IsLowerLetter(b)
    requires v == a as int + 0x100 * b as int
    ensures DecodesTo(v, [a, b])
  {
    ThreeBytes(v, a as int, b as int, 0);
    assert CodeBytes([a, b]) + Zeros(2) == [a as int, b as int, 0, 0];
    RowDecodes(v, [a, b]);
  }

  /** A three-letter code packed as `a + 256 b + 65536 c`. */
  lemma {:induction false} ThreeLetterRow(v: UInt32, a: char, b: char, c: char)
    requires IsLowerLetter(a) && IsLowerLetter(b) && IsLowerLetter(c)
    requires v == a as int + 0x100 * b as int + 0x1_0000 * c as int
    ensures DecodesTo(v, [a, b, c])
  {
    ThreeBytes(v, a as int, b as int, c as int);
    assert CodeBytes([a, b, c]) + Zeros(1) == [a as int, b as int, c as int, 0];
    RowDecodes(v, [a, b, c]);
  }


  lemma {:induction false} TableRows0()
    ensures DecodesTo(Bashkir, "ba")
    ensures DecodesTo(Catalan, "ca")
    ensures DecodesTo(Danish, "da")
    ensures DecodesTo(Persian, "fa")
    ensures DecodesTo(Hausa, "ha")
    ensures DecodesTo(Japanese, "ja")
    ensures DecodesTo(Georgian, "ka")
    ensures DecodesTo(Latin, "la")
    ensures DecodesTo(Punjabi, "pa")
    ensures DecodesTo(Sanskrit, "sa")
    ensures DecodesTo(Tamil, "ta")
    ensures DecodesTo(Luxembourgish, "lb")
    ensures DecodesTo(Occitan, "oc")
    ensures DecodesTo(Indonesian, "id")
    ensures DecodesTo(Sindhi, "sd")
    ensures DecodesTo(Belarusian, "be")
    ensures DecodesTo(German, "de")
    ensures DecodesTo(Nepali, "ne")
    ensures DecodesTo(Telugu, "te")
    ensures DecodesTo(Afrikaans, "af")
    ensures DecodesTo(Bulgarian, "bg")
    ensures DecodesTo(Malagasy, "mg")
    ensures DecodesTo(Tajik, "tg")
    ensures DecodesTo(Thai, "th")
    ensures DecodesTo(Chinese, "zh")
    ensures DecodesTo(Finnish, "fi")
    ensures DecodesTo(Hindi, "hi")
    ensures DecodesTo(Maori, "mi")
    ensures DecodesTo(Sinhala, "si")
    ensures DecodesTo(Vietnamese, "vi")
    ensures DecodesTo(Yiddish, "yi")
    ensures DecodesTo(Kazakh, "kk")
    ensures DecodesTo(Macedonian, "mk")
  {
    TwoLetterRow(Bashkir, 'b', 'a');
    TwoLetterRow(Catalan, 'c', 'a');
    TwoLetterRow(Danish, 'd', 'a');
    TwoLetterRow(Persian, 'f', 'a');
    TwoLetterRow(Hausa, 'h', 'a');
    TwoLetterRow(Japanese, 'j', 'a');
    TwoLetterRow(Georgian, 'k', 'a');
    TwoLetterRow(Latin, 'l', 'a');
    TwoLetterRow(Punjabi, 'p', 'a');
    TwoLetterRow(Sanskrit, 's', 'a');
    TwoLetterRow(Tamil, 't', 'a');
    TwoLetterRow(Luxembourgish, 'l', 'b');
    TwoLetterRow(Occitan, 'o', 'c');
    TwoLetterRow(Indonesian, 'i', 'd');
    TwoLetterRow(Sindhi, 's', 'd');
    TwoLetterRow(Belarusian, 'b', 'e');
    TwoLetterRow(German, 'd', 'e');
    TwoLetterRow(Nepali, 'n', 'e');
    TwoLetterRow(Telugu, 't', 'e');
    TwoLetterRow(Afrikaans, 'a', 'f');
    TwoLetterRow(Bulgarian, 'b', 'g');
    TwoLetterRow(Malagasy, 'm', 'g');
    TwoLetterRow(Tajik, 't', 'g');
    TwoLetterRow(Thai, 't', 'h');
    TwoLetterRow(Chinese, 'z', 'h');
    TwoLetterRow(Finnish, 'f', 'i');
    TwoLetterRow(Hindi, 'h', 'i');
    TwoLetterRow(Maori, 'm', 'i');
    TwoLetterRow(Sinhala, 's', 'i');
    TwoLetterRow(Vietnamese, 'v', 'i');
    TwoLetterRow(Yiddish, 'y', 'i');
    TwoLetterRow(Kazakh, 'k', 'k');
    TwoLetterRow(Macedonian, 'm', 'k');
  }

  lemma {:induction false} TableRows1()
    ensures DecodesTo(Slovak, "sk")
    ensures DecodesTo(Turkmen, "tk")
    ensures DecodesTo(Ukrainian, "uk")
    ensures DecodesTo(Greek, "el")
    ensures DecodesTo(Galician, "gl")
    ensures DecodesTo(Malayalam, "ml")
    ensures DecodesTo(Dutch, "nl")
    ensures DecodesTo(Polish, "pl")
    ensures DecodesTo(Slovenian, "sl")
    ensures DecodesTo(Tagalog, "tl")
    ensures DecodesTo(Amharic, "am")
    ensures DecodesTo(Khmer, "km")
    ensures DecodesTo(Bengali, "bn")
    ensures DecodesTo(English, "en")
    ensures DecodesTo(Kannada, "kn")
    ensures DecodesTo(Lingala, "ln")
    ensures DecodesTo(Mongolian, "mn")
    ensures DecodesTo(Nynorsk, "nn")
    ensures DecodesTo(Shona, "sn")
    ensures DecodesTo(Tibetan, "bo")
    ensures DecodesTo(Faroese, "fo")
    ensures DecodesTo(Korean, "ko")
    ensures DecodesTo(Lao, "lo")
    ensures DecodesTo(Norwegian, "no")
    ensures DecodesTo(Romanian, "ro")
    ensures DecodesTo(Somali, "so")
    ensures DecodesTo(Yoruba, "yo")
    ensures DecodesTo(Albanian, "sq")
    ensures DecodesTo(Arabic, "ar")
    ensures DecodesTo(Breton, "br")
    ensures DecodesTo(French, "fr")
    ensures DecodesTo(Croatian, "hr")
    ensures DecodesTo(Marathi, "mr")
  {
    TwoLetterRow(Slovak, 's', 'k');
    TwoLetterRow(Turkmen, 't', 'k');
    TwoLetterRow(Ukrainian, 'u', 'k');
    TwoLetterRow(Greek, 'e', 'l');
    TwoLetterRow(Galician, 'g', 'l');
    TwoLetterRow(Malayalam, 'm', 'l');
    TwoLetterRow(Dutch, 'n', 'l');
    TwoLetterRow(Polish, 'p', 'l');
    TwoLetterRow(Slovenian, 's', 'l');
    TwoLetterRow(Tagalog, 't', 'l');
    TwoLetterRow(Amharic, 'a', 'm');
    TwoLetterRow(Khmer, 'k', 'm');
    TwoLetterRow(Bengali, 'b', 'n');
    TwoLetterRow(English, 'e', 'n');
    TwoLetterRow(Kannada, 'k', 'n');
    TwoLetterRow(Lingala, 'l', 'n');
    TwoLetterRow(Mongolian, 'm', 'n');
    TwoLetterRow(Nynorsk, 'n', 'n');
    TwoLetterRow(Shona, 's', 'n');
    TwoLetterRow(Tibetan, 'b', 'o');
    TwoLetterRow(Faroese, 'f', 'o');
    TwoLetterRow(Korean, 'k', 'o');
    TwoLetterRow(Lao, 'l', 'o');
    TwoLetterRow(Norwegian, 'n', 'o');
    TwoLetterRow(Romanian, 'r', 'o');
    TwoLetterRow(Somali, 's', 'o');
    TwoLetterRow(Yoruba, 'y', 'o');
    TwoLetterRow(Albanian, 's', 'q');
    TwoLetterRow(Arabic, 'a', 'r');
    TwoLetterRow(Breton, 'b', 'r');
    TwoLetterRow(French, 'f', 'r');
    TwoLetterRow(Croatian, 'h', 'r');
    TwoLetterRow(Marathi, 'm', 'r');
  }

  lemma {:induction false} TableRows2()
    ensures DecodesTo(Serbian, "sr")
    ensures DecodesTo(Turkish, "tr")
    ensures DecodesTo(Urdu, "ur")
    ensures DecodesTo(Assamese, "as")
    ensures DecodesTo(Bosnian, "bs")
    ensures DecodesTo(Czech, "cs")
    ensures DecodesTo(Spanish, "es")
    ensures DecodesTo(Icelandic, "is")
    ensures DecodesTo(Malay, "ms")
    ensures DecodesTo(Pashto, "ps")
    ensures DecodesTo(Estonian, "et")
    ensures DecodesTo(HaitianCreole, "ht")
    ensures DecodesTo(Italian, "it")
    ensures DecodesTo(Lithuanian, "lt")
    ensures DecodesTo(Maltese, "mt")
    ensures DecodesTo(Portuguese, "pt")
    ensures DecodesTo(Tatar, "tt")
    ensures DecodesTo(Basque, "eu")
    ensures DecodesTo(Gujarati, "gu")
    ensures DecodesTo(Hungarian, "hu")
    ensures DecodesTo(Russian, "ru")
    ensures DecodesTo(Sundanese, "su")
    ensures DecodesTo(Latvian, "lv")
    ensures DecodesTo(Swedish, "sv")
    ensures DecodesTo(Hebrew, "iw")
    ensures DecodesTo(Javanese, "jw")
    ensures DecodesTo(Swahili, "sw")
    ensures DecodesTo(Welsh, "cy")
    ensures DecodesTo(Armenian, "hy")
    ensures DecodesTo(Myanmar, "my")
    ensures DecodesTo(Azerbaijani, "az")
    ensures DecodesTo(Uzbek, "uz")
    ensures DecodesTo(Hawaiian, "haw")
  {
    TwoLetterRow(Serbian, 's', 'r');
    TwoLetterRow(Turkish, 't', 'r');
    TwoLetterRow(Urdu, 'u', 'r');
    TwoLetterRow(Assamese, 'a', 's');
    TwoLetterRow(Bosnian, 'b', 's');
    TwoLetterRow(Czech, 'c', 's');
    TwoLetterRow(Spanish, 'e', 's');
    TwoLetterRow(Icelandic, 'i', 's');
    TwoLetterRow(Malay, 'm', 's');
    TwoLetterRow(Pashto, 'p', 's');
    TwoLetterRow(Estonian, 'e', 't');
    TwoLetterRow(HaitianCreole, 'h', 't');
    TwoLetterRow(Italian, 'i', 't');
    TwoLetterRow(Lithuanian, 'l', 't');
    TwoLetterRow(Maltese, 'm', 't');
    TwoLetterRow(Portuguese, 'p', 't');
    TwoLetterRow(Tatar, 't', 't');
    TwoLetterRow(Basque, 'e', 'u');
    TwoLetterRow(Gujarati, 'g', 'u');
    TwoLetterRow(Hungarian, 'h', 'u');
    TwoLetterRow(Russian, 'r', 'u');
    TwoLetterRow(Sundanese, 's', 'u');
    TwoLetterRow(Latvian, 'l', 'v');
    TwoLetterRow(Swedish, 's', 'v');
    TwoLetterRow(Hebrew, 'i', 'w');
    TwoLetterRow(Javanese, 'j', 'w');
    TwoLetterRow(Swahili, 's', 'w');
    TwoLetterRow(Welsh, 'c', 'y');
    TwoLetterRow(Armenian, 'h', 'y');
    TwoLetterRow(Myanmar, 'm', 'y');
    TwoLetterRow(Azerbaijani, 'a', 'z');
    TwoLetterRow(Uzbek, 'u', 'z');
    ThreeLetterRow(Hawaiian, 'h', 'a', 'w');
  }


  /** Two canonical values that decode to the same code are the same value. */
  lemma {:induction false} CanonicalInjective(v: UInt32, w: UInt32)
    requires Canonical(v) && Canonical(w) && GetCode(v) == GetCode(w)
    ensures v == w
  {
    BytesDetermineValue(v, w);
  }

  /** Values that are the packings of their codes decode to distinct codes if they are distinct. */
  lemma {:induction false} DistinctCodes(v: UInt32, w: UInt32)
    requires Canonical(v) && Canonical(w) && v != w
    ensures GetCode(v) != GetCode(w)
  {
    if GetCode(v) == GetCode(w) {
      CanonicalInjective(v, w);
    }
  }

  // ---- sorting (OrderBy) ----

  /** "Sorts no later than". */
  type Order<!T> = (T, T) -> bool

  ghost predicate IsTotal<T(!new)>(before: Order<T>)
  {
    forall a: T, b: T :: before(a, b) || before(b, a)
  }

  /** Each element sorts no later than the next. */
  ghost predicate SortedBy<T>(s: seq<T>, before: Order<T>)
  {
    forall i | 0 <= i < |s| - 1 :: before(s[i], s[i + 1])
  }

  /** Inserts `x` after the leading elements that sort no later than it. */
  function InsertBy<T>(x: T, s: seq<T>, before: Order<T>): (r: seq<T>)
    ensures multiset(r) == multiset(s) + multiset{x}
    ensures r != [] && (r[0] == x || (s != [] && r[0] == s[0]))
  {
    if s == [] then [x]
    else if before(s[0], x) then
      assert s == [s[0]] + s[1..];
      [s[0]] + InsertBy(x, s[1..], before)
    else [x] + s
  }

  /** A stable insertion sort. */
  function SortBy<T>(s: seq<T>, before: Order<T>): (r: seq<T>)
    ensures multiset(r) == multiset(s)
    ensures |r| == |s|
  {
    if s == [] then []
    else
      assert s == s[..|s| - 1] + [s[|s| - 1]];
      var r := InsertBy(s[|s| - 1], SortBy(s[..|s| - 1], before), before);
      assert |r| == |multiset(r)|;
      r
  }

  lemma {:induction false} InsertKeepsSorted<T(!new)>(x: T, s: seq<T>, before: Order<T>)
    requires IsTotal(before) && SortedBy(s, before)
    ensures SortedBy(InsertBy(x, s, before), before)
    decreases |s|
  {
    if s != [] && before(s[0], x) {
      InsertKeepsSorted(x, s[1..], before);
    }
  }

  /** Under a total order, SortBy sorts. */
  lemma {:induction false} SortSorts<T(!new)>(s: seq<T>, before: Order<T>)
    requires IsTotal(before)
    ensures SortedBy(SortBy(s, before), before)
    decreases |s|
  {
    if s != [] {
      SortSorts(s[..|s| - 1], before);
      InsertKeepsSorted(s[|s| - 1], SortBy(s[..|s| - 1], before), before);
    }
  }

  // ---- WhisperLanguage and GenerateWhisperLangauages ----

  /** The CultureInfo properties the model reads. */
  datatype Culture = Culture(name: string, displayName: string, ietfLanguageTag: string,
                             twoLetterIsoLanguageName: string)

  /** A picker entry. */
  datatype WhisperLanguage = WhisperLanguage(language: string, isAutomatic: bool, cultureInfo: Culture,
                                             languageCode: string)

  /** WhisperLanguage(CultureInfo): named and coded by the culture. */
  function FromCulture(info: Culture): (w: WhisperLanguage)
    ensures w.cultureInfo == info && !w.isAutomatic
    ensures w.language == info.displayName && w.languageCode == info.ietfLanguageTag
  {
    WhisperLanguage(info.displayName, false, info, info.ietfLanguageTag)
  }

  /** WhisperLanguage(WhisperLanguages): the culture GetCultureInfo returns for the decoded code. */
  function FromMember(language: UInt32, getCultureInfo: string -> Culture): (w: WhisperLanguage)
    ensures !w.isAutomatic && w.cultureInfo == getCultureInfo(GetCode(language))
  {
    var code := GetCode(language);
    FromCulture(getCultureInfo(code))
  }

  /** WhisperLanguage(): the automatic entry, on the current culture. */
  function Automatic(currentCulture: Culture): (w: WhisperLanguage)
    ensures w.isAutomatic && w.language == "Auto"
    ensures w.cultureInfo == currentCulture && w.languageCode == currentCulture.twoLetterIsoLanguageName
  {
    WhisperLanguage("Auto", true, currentCulture, currentCulture.twoLetterIsoLanguageName)
  }

  /**
   * OrderBy(n => n.Language) under `order`, the culture-sensitive string
   * comparison as "sorts no later than"; display names and their collation
   * come from .NET globalization.
   */
  function ByLanguage(order: Order<string>): Order<WhisperLanguage>
  {
    (a: WhisperLanguage, b: WhisperLanguage) => order(a.language, b.language)
  }

  /** One entry per member, in Enum.GetValues order. */
  function Enumerated(getCultureInfo: string -> Culture): (list: seq<WhisperLanguage>)
    ensures |list| == |EnumValues|
    ensures forall i | 0 <= i < |list| :: list[i] == FromMember(EnumValues[i], getCultureInfo)
  {
    var values := EnumValues;
    seq(|values|, i requires 0 <= i < |values| => FromMember(values[i], getCultureInfo))
  }

  /** GenerateWhisperLangauages' list: the automatic entry, then the members by display name. */
  function Generated(getCultureInfo: string -> Culture, currentCulture: Culture, order: Order<string>)
    : seq<WhisperLanguage>
  {
    [Automatic(currentCulture)] + SortBy(Enumerated(getCultureInfo), ByLanguage(order))
  }

  /** GenerateWhisperLangauages: one Add per enumeration value, a sort, then the automatic entry at 0. */
  method GenerateWhisperLanguages(getCultureInfo: string -> Culture, currentCulture: Culture, order: Order<string>)
    returns (languages: seq<WhisperLanguage>)
    ensures languages == Generated(getCultureInfo, currentCulture, order)
  {
    var values := EnumValues;
    var list: seq<WhisperLanguage> := [];
    for i := 0 to |values|
      invariant list == Enumerated(getCultureInfo)[..i]
    {
      list := list + [FromMember(values[i], getCultureInfo)];
    }
    assert list == Enumerated(getCultureInfo);
    var orderedList := SortBy(list, ByLanguage(order));
    languages := [Automatic(currentCulture)] + orderedList;
  }

  /**
   * Under a total comparison the list holds 1 + 99 entries: the automatic
   * "Auto" entry on the current culture first, then one entry per member,
   * sorted by display name, none of them automatic.
   */
  lemma {:induction false} GeneratedShape(getCultureInfo: string -> Culture, currentCulture: Culture,
                                          order: Order<string>)
    requires IsTotal(order)
    ensures var r := Generated(getCultureInfo, currentCulture, order);
      && |r| == 1 + 99
      && r[0] == WhisperLanguage("Auto", true, currentCulture, currentCulture.twoLetterIsoLanguageName)
      && SortedBy(r[1..], ByLanguage(order))
      && multiset(r[1..]) == multiset(Enumerated(getCultureInfo))
      && forall i | 1 <= i < |r| :: !r[i].isAutomatic
  {
    var r := Generated(getCultureInfo, currentCulture, order);
    var sorted := SortBy(Enumerated(getCultureInfo), ByLanguage(order));
    assert IsTotal(ByLanguage(order)) by {
      forall a: WhisperLanguage, b: WhisperLanguage
        ensures ByLanguage(order)(a, b) || ByLanguage(order)(b, a)
      {
        assert order(a.language, b.language) || order(b.language, a.language);
      }
    }
    SortSorts(Enumerated(getCultureInfo), ByLanguage(order));
    assert r[1..] == sorted;
    forall i | 1 <= i < |r|
      ensures !r[i].isAutomatic
    {
      assert r[i] in multiset(Enumerated(getCultureInfo));
    }
  }

  /** The entry WhisperLanguage(WhisperLanguages) builds for a member, spelled out field by field. */
  ghost predicate IsMemberEntry(w: WhisperLanguage, v: UInt32, getCultureInfo: string -> Culture)
  {
    var info := getCultureInfo(GetCode(v));
    w == WhisperLanguage(info.displayName, false, info, info.ietfLanguageTag)
  }

  /** Every entry after the automatic one is the entry of some member. */
  lemma {:induction false} GeneratedEntriesAreMembers(getCultureInfo: string -> Culture, currentCulture: Culture,
                                                      order: Order<string>, i: nat)
    requires IsTotal(order)
    requires 1 <= i < |Generated(getCultureInfo, currentCulture, order)|
    ensures exists j | 0 <= j < |EnumValues| ::
      IsMemberEntry(Generated(getCultureInfo, currentCulture, order)[i], EnumValues[j], getCultureInfo)
  {
    var r := Generated(getCultureInfo, currentCulture, order);
    var list := Enumerated(getCultureInfo);
    GeneratedShape(getCultureInfo, currentCulture, order);
    assert r[i] == r[1..][i - 1];
    assert r[i] in multiset(list);
    var j :| 0 <= j < |list| && list[j] == r[i];
    assert IsMemberEntry(list[j], EnumValues[j], getCultureInfo);
  }

  /** Every member's entry appears after the automatic one. */
  lemma {:induction false} GeneratedMembersAreEntries(getCultureInfo: string -> Culture, currentCulture: Culture,
                                                      order: Order<string>, j: nat)
    requires IsTotal(order)
    requires j < |EnumValues|
    ensures exists i | 1 <= i < |Generated(getCultureInfo, currentCulture, order)| ::
      IsMemberEntry(Generated(getCultureInfo, currentCulture, order)[i], EnumValues[j], getCultureInfo)
  {
    var r := Generated(getCultureInfo, currentCulture, order);
    var list := Enumerated(getCultureInfo);
    GeneratedShape(getCultureInfo, currentCulture, order);
    assert list[j] in multiset(r[1..]);
    var k :| 0 <= k < |r[1..]| && r[1..][k] == list[j];
    assert r[k + 1] == list[j];
    assert IsMemberEntry(r[k + 1], EnumValues[j], getCultureInfo);
  }

}
