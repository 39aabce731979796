/**
 * BoolToTextConverter: a binding converter that picks one half of a
 * "whenTrue|whenFalse" parameter according to a boolean value.
 */
module BoolToText {
  import opened Outcomes

  /** The objects a binding hands the converter. */
  datatype Object =
    | Null
    | Bool(b: bool)
    | Str(s: string)
    | Other(text: string)   // any other object, by what its ToString() returns

  /** `value?.ToString() ?? string.Empty`. */
  function ToText(value: Object): (text: string)
    ensures value.Null? ==> text == ""
    ensures value.Bool? ==> text == (if value.b then "True" else "False")
    ensures value.Str? ==> text == value.s
  {
    match value
    case Null => ""
    case Bool(b) => if b then "True" else "False"
    case Str(s) => s
    case Other(text) => text
  }

  /** How many times `c` occurs in `s`. */
  function Occurrences(s: string, c: char): nat
  {
    if s == [] then 0 else (if s[0] == c then 1 else 0) + Occurrences(s[1..], c)
  }

  /**
   * string.Split(separator): the pieces between separators, empty pieces
   * kept. There is one more piece than separators, and no piece holds one.
   */
  function Split(s: string, separator: char): (parts: seq<string>)
    ensures |parts| == Occurrences(s, separator) + 1
    ensures forall i | 0 <= i < |parts| :: separator !in parts[i]
  {
    if s == [] then [""]
    else
      var rest := Split(s[1..], separator);
      if s[0] == separator then [""] + rest
      else [[s[0]] + rest[0]] + rest[1..]
  }

  /** string.Join(separator, parts). */
  function Join(parts: seq<string>, separator: char): string
    requires parts != []
  {
    if |parts| == 1 then parts[0] else parts[0] + [separator] + Join(parts[1..], separator)
  }

  /** Joining the pieces with the separator gives the string back. */
  lemma {:induction false} JoinSplit(s: string, separator: char)
    ensures Join(Split(s, separator), separator) == s
    decreases |s|
  {
    if s != [] {
      JoinSplit(s[1..], separator);
      var rest := Split(s[1..], separator);
      if s[0] != separator {
        if |rest| == 1 {
          assert Split(s, separator) == [[s[0]] + rest[0]];
        } else {
          assert Split(s, separator) == [[s[0]] + rest[0]] + rest[1..];
          assert Split(s, separator)[1..] == rest[1..];
        }
      } else {
        assert Split(s, separator)[1..] == rest;
      }
      assert s == [s[0]] + s[1..];
    }
  }

  /** Splitting two separator-free strings joined by one separator gives the two back. */
  lemma {:induction false} SplitHalves(a: string, b: string, separator: char)
    requires separator !in a && separator !in b
    ensures Split(a + [separator] + b, separator) == [a, b]
    decreases |a|
  {
    if a == [] {
      assert ([separator] + b)[1..] == b;
      SplitNone(b, separator);
    } else {
      SplitHalves(a[1..], b, separator);
      assert (a + [separator] + b)[1..] == a[1..] + [separator] + b;
      assert [a[0]] + a[1..] == a;
    }
  }

  /** A string without the separator splits into itself alone. */
  lemma {:induction false} SplitNone(s: string, separator: char)
    requires separator !in s
    ensures Split(s, separator) == [s]
    decreases |s|
  {
    if s != [] {
      SplitNone(s[1..], separator);
      assert [s[0]] + s[1..] == s;
    }
  }

  const Separator := '|'

  /**
   * Convert: when the parameter is a string of exactly two '|'-separated
   * parts, the first part for boolean true and the second for anything
   * else; otherwise the value's own text.
   */
  function Convert(value: Object, parameter: Object): (text: string)
    ensures !parameter.Str? || Occurrences(parameter.s, Separator) != 1 ==> text == ToText(value)
    ensures !parameter.Str? || Occurrences(parameter.s, Separator) != 1 ==>
      && (value.Null? ==> text == "")
      && (value.Bool? ==> text == (if value.b then "True" else "False"))
      && (value.Str? ==> text == value.s)
    ensures parameter.Str? && Occurrences(parameter.s, Separator) == 1 ==>
      text in Split(parameter.s, Separator)
  {
    var texts := if parameter.Str? then Some(Split(parameter.s, Separator)) else None;
    if texts.None? || |texts.value| != 2 then ToText(value)
    else if value.Bool? && value.b then texts.value[0]
    else texts.value[1]
  }

  /**
   * For a parameter "a|b" with no other '|', boolean true selects `a`;
   * false, null and every non-boolean value select `b`.
   */
  lemma {:induction false} ConvertSelects(value: Object, a: string, b: string)
    requires Separator !in a && Separator !in b
    ensures Convert(value, Str(a + [Separator] + b)) == if value == Bool(true) then a else b
  {
    SplitHalves(a, b, Separator);
  }

  /** ConvertBack always throws NotImplementedException. */
  function ConvertBack(value: Object, parameter: Object): (r: Result<Object>)
    ensures r.Err? && r.fault == NotImplemented
  {
    Err(NotImplemented)
  }
}
