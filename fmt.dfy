/** `fmt.Sprintf` for format strings whose only directives are `%s` verbs. */
module Fmt {
  import opened Bytes

  const Percent: byte := 37
  const LowerS: byte := 115

  /** The `%s` verb. */
  const StringVerb: seq<byte> := [Percent, LowerS]

  /** What `fmt` writes for a `%s` verb that has no argument left. */
  const Missing: seq<byte> := Ascii("%!s(MISSING)")

  /** The format with each `%s` replaced by the next argument, and every other byte
      copied. */
  function Sprintf(format: seq<byte>, args: seq<seq<byte>>): seq<byte>
    decreases |format|
  {
    if |format| >= 2 && format[0] == Percent && format[1] == LowerS then
      (if args == [] then Missing else args[0]) + Sprintf(format[2..], if args == [] then [] else args[1..])
    else if format == [] then []
    else [format[0]] + Sprintf(format[1..], args)
  }

  /** Text without a `%` is written as it is. */
  lemma {:induction false} SprintfVerbatim(text: seq<byte>, args: seq<seq<byte>>)
    requires Percent !in text
    ensures Sprintf(text, args) == text
    decreases |text|
  {
    if text != [] {
      SprintfVerbatim(text[1..], args);
      assert text == [text[0]] + text[1..];
    }
  }

  /** Text without a `%` up to the first verb is copied; the verb takes the first
      argument and the rest of the format the remaining ones. */
  lemma {:induction false} SprintfVerb(text: seq<byte>, rest: seq<byte>, args: seq<seq<byte>>)
    requires Percent !in text && args != []
    ensures Sprintf(text + StringVerb + rest, args) == text + args[0] + Sprintf(rest, args[1..])
    decreases |text|
  {
    var format := text + StringVerb + rest;
    if text == [] {
      assert format == StringVerb + rest && format[2..] == rest;
    } else {
      assert format[0] == text[0];
      assert format[1..] == text[1..] + StringVerb + rest;
      SprintfVerb(text[1..], rest, args);
      assert text == [text[0]] + text[1..];
    }
  }

  /** A verb with no argument left is written as "%!s(MISSING)". */
  lemma {:induction false} SprintfMissing(rest: seq<byte>)
    ensures Sprintf(StringVerb + rest, []) == Missing + Sprintf(rest, [])
  {
    assert (StringVerb + rest)[2..] == rest;
  }
}
