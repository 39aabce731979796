/**
 * The live transcript TranscriptionViewModel shows while recording: each
 * recognised segment's text, trimmed, appended after a single space.
 */
module LiveText {
  import opened Outcomes

  /** char.IsWhiteSpace: the Unicode space, line and paragraph separators, U+0009 to U+000D and U+0085. */
  predicate IsWhiteSpace(c: char)
  {
    || c == ' ' || '\t' <= c <= '\r' || c == '\U{85}' || c == '\U{A0}' || c == '\U{1680}'
    || '\U{2000}' <= c <= '\U{200A}' || c == '\U{2028}' || c == '\U{2029}' || c == '\U{202F}'
    || c == '\U{205F}' || c == '\U{3000}'
  }

  /** Every character is white space (the empty string included). */
  predicate IsBlank(s: string)
  {
    forall i | 0 <= i < |s| :: IsWhiteSpace(s[i])
  }

  /** string.IsNullOrWhiteSpace. */
  predicate IsNullOrWhiteSpace(text: Option<string>)
  {
    text.None? || IsBlank(text.value)
  }

  /** What is left after removing the leading white space: the longest suffix that does not start with it. */
  function TrimStart(s: string): (r: string)
    ensures |r| <= |s| && r == s[|s| - |r|..]
    ensures IsBlank(s[..|s| - |r|])
    ensures r != [] ==> !IsWhiteSpace(r[0])
  {
    if s != [] && IsWhiteSpace(s[0]) then
      var r := TrimStart(s[1..]);
      assert s[..|s| - |r|] == [s[0]] + s[1..][..|s| - 1 - |r|];
      r
    else s
  }

  /** What is left after removing the trailing white space: the longest prefix that does not end with it. */
  function TrimEnd(s: string): (r: string)
    ensures |r| <= |s| && r == s[..|r|]
    ensures IsBlank(s[|r|..])
    ensures r != [] ==> !IsWhiteSpace(r[|r| - 1])
  {
    if s != [] && IsWhiteSpace(s[|s| - 1]) then
      var r := TrimEnd(s[..|s| - 1]);
      assert s[|r|..] == s[..|s| - 1][|r|..] + [s[|s| - 1]];
      r
    else s
  }

  /** string.Trim. */
  function Trim(s: string): (r: string)
  {
    TrimEnd(TrimStart(s))
  }

  /** Concatenations of blank strings are blank. */
  lemma BlankConcat(a: string, b: string)
    requires IsBlank(a) && IsBlank(b)
    ensures IsBlank(a + b)
  {
    forall k | 0 <= k < |a + b|
      ensures IsWhiteSpace((a + b)[k])
    {
      if k < |a| {
        assert (a + b)[k] == a[k];
      } else {
        assert (a + b)[k] == b[k - |a|];
      }
    }
  }

  /** Trim keeps a contiguous run of its input with only white space on either side. */
  lemma TrimSlice(s: string)
    ensures exists i, j | 0 <= i <= j <= |s| :: Trim(s) == s[i..j] && IsBlank(s[..i]) && IsBlank(s[j..])
  {
    var t := TrimStart(s);
    var r := TrimEnd(t);
    var i := |s| - |t|;
    var j := i + |r|;
    assert r == s[i..j];
    assert s[j..] == t[|r|..];
  }

  /** Trim gives the empty string exactly for blank input. */
  lemma TrimEmptyIff(s: string)
    ensures Trim(s) == [] <==> IsBlank(s)
  {
    var t := TrimStart(s);
    var i := |s| - |t|;
    if Trim(s) == [] {
      assert s == s[..i] + t;
      BlankConcat(s[..i], t);
    } else {
      assert s[i] == t[0];
    }
  }

  /** A non-empty trimmed string neither starts nor ends with white space, so trimming it again changes nothing. */
  lemma TrimEndsAndIdempotent(s: string)
    ensures Trim(s) != [] ==> !IsWhiteSpace(Trim(s)[0]) && !IsWhiteSpace(Trim(s)[|Trim(s)| - 1])
    ensures Trim(Trim(s)) == Trim(s)
  {
    var r := Trim(s);
    if r != [] {
      assert r[0] == TrimStart(s)[0];
      assert TrimStart(r) == r;
    }
  }

  /** OnNewWhisperSegment: the live text after one segment's text arrives. */
  function Accumulate(liveText: string, text: Option<string>): (r: string)
  {
    if IsNullOrWhiteSpace(text) then liveText
    else
      var separated := if liveText != [] then liveText + " " else liveText;
      separated + Trim(text.value)
  }

  /**
   * A null or blank segment leaves the live text alone. Any other segment
   * keeps the old text as a prefix and ends it with the segment's trimmed,
   * non-empty text, with exactly one space between the two when the old
   * text was not empty.
   */
  lemma AccumulateLaw(liveText: string, text: Option<string>)
    ensures IsNullOrWhiteSpace(text) ==> Accumulate(liveText, text) == liveText
    ensures !IsNullOrWhiteSpace(text) ==>
      var t := Trim(text.value);
      var r := Accumulate(liveText, text);
      && t != []
      && |r| == |liveText| + (if liveText == [] then 0 else 1) + |t|
      && r[..|liveText|] == liveText && r[|r| - |t|..] == t
      && (liveText != [] ==> r[|liveText|] == ' ')
  {
    if !IsNullOrWhiteSpace(text) {
      TrimEmptyIff(text.value);
    }
  }

  /** Each segment's text trimmed, with the segments whose text is null or blank left out. */
  function SpokenParts(texts: seq<Option<string>>): (parts: seq<string>)
    ensures forall i | 0 <= i < |parts| :: parts[i] != []
  {
    if texts == [] then []
    else
      var last := texts[|texts| - 1];
      var front := SpokenParts(texts[..|texts| - 1]);
      if IsNullOrWhiteSpace(last) then front
      else
        TrimEmptyIff(last.value);
        front + [Trim(last.value)]
  }

  /** The parts separated by single spaces. */
  function JoinWithSpaces(parts: seq<string>): string
  {
    if parts == [] then []
    else if |parts| == 1 then parts[0]
    else JoinWithSpaces(parts[..|parts| - 1]) + " " + parts[|parts| - 1]
  }

  /** The live text after a run of segments, starting from empty. */
  function Transcript(texts: seq<Option<string>>): string
  {
    if texts == [] then []
    else Accumulate(Transcript(texts[..|texts| - 1]), texts[|texts| - 1])
  }

  lemma {:induction false} JoinEmptyIff(parts: seq<string>)
    requires forall i | 0 <= i < |parts| :: parts[i] != []
    ensures JoinWithSpaces(parts) == [] <==> parts == []
  {
    if |parts| == 1 {
    } else if |parts| > 1 {
      assert |JoinWithSpaces(parts)| >= 1 + |parts[|parts| - 1]|;
    }
  }

  /**
   * Starting from the empty text that StartAsync sets, the live text is the
   * trimmed text of every segment that is not null or blank, in arrival
   * order, separated by single spaces.
   */
  lemma {:induction false} TranscriptJoinsSegments(texts: seq<Option<string>>)
    ensures Transcript(texts) == JoinWithSpaces(SpokenParts(texts))
    decreases |texts|
  {
    if texts != [] {
      var front := texts[..|texts| - 1];
      TranscriptJoinsSegments(front);
      JoinEmptyIff(SpokenParts(front));
      var parts := SpokenParts(texts);
      if !IsNullOrWhiteSpace(texts[|texts| - 1]) && SpokenParts(front) != [] {
        assert parts[..|parts| - 1] == SpokenParts(front);
      }
    }
  }
}
