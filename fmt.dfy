/**
 The part of Go's `fmt.Sprintf` that gqrss relies on: formatting strings
 with `%s` verbs. Every format string in the program is a literal whose only
 verbs are `%s`, so the model renders `%s`, the `%%` escape, a trailing `%`,
 and Go's markers for a missing or a surplus argument. It then proves that
 filling such a template is plain concatenation.
 */
module Fmt {

  /** Go's `fmt.Sprintf(format, args...)` where every argument is a string. */
  function Sprintf(format: string, args: seq<string>): string
    decreases |format| + |args|
  {
    if format == [] then Extra(args)
    else if format[0] != '%' then [format[0]] + Sprintf(format[1..], args)
    else if |format| == 1 then "%!(NOVERB)" + Extra(args)
    else if format[1] == '%' then "%" + Sprintf(format[2..], args)
    else if format[1] == 's' then
      if args == [] then "%!s(MISSING)" + Sprintf(format[2..], args)
      else args[0] + Sprintf(format[2..], args[1..])
    else format[..2] + Sprintf(format[2..], args)
  }

  /** What Go appends when arguments are left over after the last verb. */
  function Extra(args: seq<string>): (r: string)
    ensures args == [] <==> r == ""
  {
    if args == [] then "" else "%!(EXTRA " + ExtraList(args) + ")"
  }

  function ExtraList(args: seq<string>): string
    requires args != []
    decreases |args|
  {
    "string=" + args[0] + (if |args| == 1 then "" else ", " + ExtraList(args[1..]))
  }

  /** Text without a `%` is copied through unchanged and consumes no argument. */
  lemma {:induction false} LiteralPrefix(text: string, rest: string, args: seq<string>)
    requires '%' !in text
    ensures Sprintf(text + rest, args) == text + Sprintf(rest, args)
    decreases |text|
  {
    if text != [] {
      var format := text + rest;
      assert text[0] in text;
      assert format[0] == text[0] != '%';
      assert format[1..] == text[1..] + rest;
      assert Sprintf(format, args) == [text[0]] + Sprintf(format[1..], args);
      assert forall c :: c in text[1..] ==> c in text;
      LiteralPrefix(text[1..], rest, args);
      assert text == [text[0]] + text[1..];
    } else {
      assert text + rest == rest;
    }
  }

  /** A format with no verb and no argument renders as itself. */
  lemma LiteralOnly(text: string)
    requires '%' !in text
    ensures Sprintf(text, []) == text
  {
    LiteralPrefix(text, [], []);
    assert text + [] == text;
  }

  /** A leading `%s` consumes the first argument and renders it verbatim. */
  lemma FillFirst(rest: string, a: string, args: seq<string>)
    ensures Sprintf("%s" + rest, [a] + args) == a + Sprintf(rest, args)
  {
    var format := "%s" + rest;
    assert format[0] == '%' && format[1] == 's' && format[2..] == rest;
    assert ([a] + args)[0] == a && ([a] + args)[1..] == args;
  }

  /** Filling the one `%s` of `head + "%s" + tail` inserts the argument verbatim. */
  lemma FillOne(head: string, tail: string, a: string)
    requires '%' !in head && '%' !in tail
    ensures Sprintf(head + "%s" + tail, [a]) == head + a + tail
  {
    assert head + "%s" + tail == head + ("%s" + tail);
    LiteralPrefix(head, "%s" + tail, [a]);
    assert [a] == [a] + [];
    FillFirst(tail, a, []);
    LiteralOnly(tail);
  }

  /** Filling the two `%s` of `head + "%s" + mid + "%s" + tail` inserts both arguments in order. */
  lemma FillTwo(head: string, mid: string, tail: string, a: string, b: string)
    requires '%' !in head && '%' !in mid && '%' !in tail
    ensures Sprintf(head + "%s" + mid + "%s" + tail, [a, b]) == head + a + mid + b + tail
  {
    var second := mid + "%s" + tail;
    var args := [a] + [b];
    assert args == [a, b];
    assert head + "%s" + mid + "%s" + tail == head + ("%s" + second);
    LiteralPrefix(head, "%s" + second, args);
    FillFirst(second, a, [b]);
    FillOne(mid, tail, b);
    assert head + (a + (mid + b + tail)) == head + a + mid + b + tail;
  }
}
