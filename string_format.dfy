/** A model of the part of Java's String.format that the query templates use:
    every `%s` in the template is replaced, left to right, by the next argument,
    inserted verbatim; every other character of the template is copied, and
    surplus arguments are ignored. A `%s` with no argument left makes Java throw
    MissingFormatArgumentException, here `None`. */
module StringFormat {
  import opened Wrappers

  /** Does the template start with a `%s` conversion? */
  predicate StartsWithConversion(template: string)
  {
    |template| >= 2 && template[0] == '%' && template[1] == 's'
  }

  /** Puts `text` in front of a formatted string; a failed format stays failed. */
  function Prepend(text: string, formatted: Option<string>): Option<string>
  {
    match formatted
    case None => None
    case Some(rest) => Some(text + rest)
  }

  function Format(template: string, args: seq<string>): (r: Option<string>)
    ensures '%' !in template ==> r == Some(template)
    decreases |template|
  {
    if |template| == 0 then Some("")
    else if StartsWithConversion(template) then
      if |args| == 0 then None
      else Prepend(args[0], Format(template[2..], args[1..]))
    else
      assert template == [template[0]] + template[1..];
      assert forall c :: c in template[1..] ==> c in template;
      Prepend([template[0]], Format(template[1..], args))
  }

  /** A template that does not start with `%` copies its first character. */
  lemma FormatLiteralStep(template: string, args: seq<string>)
    requires |template| > 0 && template[0] != '%'
    ensures Format(template, args) == Prepend([template[0]], Format(template[1..], args))
  {
  }

  lemma PrependTwice(a: string, b: string, formatted: Option<string>)
    ensures Prepend(a, Prepend(b, formatted)) == Prepend(a + b, formatted)
  {
    if formatted.Some? {
      assert a + (b + formatted.value) == a + b + formatted.value;
    }
  }

  /** A template made of percent-free text, one `%s` and a tail formats to that
      text, the first argument verbatim, and the formatted tail. */
  lemma {:induction false} FormatSplit(prefix: string, suffix: string, args: seq<string>)
    requires '%' !in prefix
    requires |args| >= 1
    ensures Format(prefix + "%s" + suffix, args) == Prepend(prefix + args[0], Format(suffix, args[1..]))
    decreases |prefix|
  {
    var t := prefix + "%s" + suffix;
    if |prefix| == 0 {
      assert t == "%s" + suffix;
      assert t[2..] == suffix;
      assert StartsWithConversion(t);
      assert prefix + args[0] == args[0];
    } else {
      assert t[0] == prefix[0] && prefix[0] != '%';
      FormatLiteralStep(t, args);
      assert '%' !in prefix[1..] by {
        assert forall c :: c in prefix[1..] ==> c in prefix;
      }
      assert t[1..] == prefix[1..] + "%s" + suffix;
      FormatSplit(prefix[1..], suffix, args);
      PrependTwice([prefix[0]], prefix[1..] + args[0], Format(suffix, args[1..]));
      assert [prefix[0]] + (prefix[1..] + args[0]) == prefix + args[0];
    }
  }

  /** A template with one `%s` between percent-free texts. */
  lemma FormatOne(head: string, tail: string, a: string)
    requires '%' !in head && '%' !in tail
    ensures Format(head + "%s" + tail, [a]) == Some(head + a + tail)
  {
    FormatSplit(head, tail, [a]);
  }

  /** A template with two `%s` between percent-free texts takes the two
      arguments in order. */
  lemma FormatTwo(head: string, middle: string, tail: string, a: string, b: string)
    requires '%' !in head && '%' !in middle && '%' !in tail
    ensures Format(head + "%s" + middle + "%s" + tail, [a, b]) == Some(head + a + middle + b + tail)
  {
    var rest := middle + "%s" + tail;
    FormatOne(middle, tail, b);
    assert [a, b][1..] == [b];
    FormatSplit(head, rest, [a, b]);
    calc {
      Format(head + "%s" + middle + "%s" + tail, [a, b]);
      { assert head + "%s" + middle + "%s" + tail == head + "%s" + rest; }
      Format(head + "%s" + rest, [a, b]);
      Prepend(head + a, Some(middle + b + tail));
      Some(head + a + (middle + b + tail));
      { assert head + a + (middle + b + tail) == head + a + middle + b + tail; }
      Some(head + a + middle + b + tail);
    }
  }
}
