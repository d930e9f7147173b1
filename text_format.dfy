/**
 * `Text.format`: a template formatted with its arguments, or null as soon as one argument is null. The
 * formatting itself is `String.format` restricted to the `%s` and `%%` conversions; an argument is given by the
 * text `String.valueOf` makes of it, and null by `None`.
 */
module TextFormat {
  import opened Wrappers

  /** No argument is null. */
  predicate AllPresent(arguments: seq<Option<string>>) {
    forall i :: 0 <= i < |arguments| ==> arguments[i].Some?
  }

  /** The texts of arguments none of which is null. */
  function Values(arguments: seq<Option<string>>): (r: seq<string>)
    requires AllPresent(arguments)
    ensures |r| == |arguments|
    ensures forall i :: 0 <= i < |arguments| ==> arguments[i] == Some(r[i])
  {
    seq(|arguments|, i requires 0 <= i < |arguments| => arguments[i].value)
  }

  /**
   * `String.format(template, values)` for templates using only `%s` and `%%`: each `%s` is replaced by the next
   * value, `%%` by '%'. A `%s` without a value left, a '%' at the end, or any other conversion throws; values left
   * over are ignored.
   */
  function FormatFrom(template: string, values: seq<string>): (r: Result<string>)
  {
    if template == [] then Ok("")
    else if template[0] != '%' then
      var rest :- FormatFrom(template[1..], values);
      Ok([template[0]] + rest)
    else if |template| < 2 then Failure
    else if template[1] == 's' then
      if values == [] then Failure
      else
        var rest :- FormatFrom(template[2..], values[1..]);
        Ok(values[0] + rest)
    else if template[1] == '%' then
      var rest :- FormatFrom(template[2..], values);
      Ok("%" + rest)
    else Failure
  }

  /** `Text.format`: the loop looks for a null argument and stops at the first one; only if there is none is the
      template formatted. */
  method Format(template: string, arguments: seq<Option<string>>) returns (result: Result<Option<string>>)
    ensures result == Ok(None) <==> !AllPresent(arguments)
    ensures AllPresent(arguments) ==> result.Ok? == FormatFrom(template, Values(arguments)).Ok?
    ensures AllPresent(arguments) && result.Ok? ==> result.value == Some(FormatFrom(template, Values(arguments)).value)
  {
    var valid := true;
    var i := 0;
    while i < |arguments|
      invariant 0 <= i <= |arguments|
      invariant forall j :: 0 <= j < i ==> arguments[j].Some?
    {
      if arguments[i].None? {
        valid := false;
        break;
      }
      i := i + 1;
    }
    if valid {
      var formatted := FormatFrom(template, Values(arguments));
      if formatted.Failure? {
        return Failure;
      }
      result := Ok(Some(formatted.value));
    } else {
      result := Ok(None);
    }
  }

  // ---------------------------------------------------------------------------------------------------------
  // Properties

  /** A template without '%' formats to itself, whatever the values. */
  lemma {:induction false} PlainTemplate(template: string, values: seq<string>)
    requires forall i :: 0 <= i < |template| ==> template[i] != '%'
    ensures FormatFrom(template, values) == Ok(template)
  {
    if template != [] {
      PlainTemplate(template[1..], values);
      assert [template[0]] + template[1..] == template;
    }
  }

  /** Each `%s` takes the next value: a template of literal text around one `%s` becomes the text around the first
      value. */
  lemma OneConversion(before: string, after: string, values: seq<string>)
    requires forall i :: 0 <= i < |before| ==> before[i] != '%'
    requires forall i :: 0 <= i < |after| ==> after[i] != '%'
    requires |values| >= 1
    ensures FormatFrom(before + "%s" + after, values) == Ok(before + values[0] + after)
  {
    assert FormatFrom("%s" + after, values) == Ok(values[0] + after) by {
      PlainTemplate(after, values[1..]);
      StringConversion(after, values);
    }
    LiteralPrefix(before, "%s" + after, values);
    assert before + "%s" + after == before + ("%s" + after);
    assert before + (values[0] + after) == before + values[0] + after;
  }

  /** A leading `%s` is the first value followed by the rest of the template formatted with the other values. */
  lemma StringConversion(rest: string, values: seq<string>)
    requires |values| >= 1
    ensures FormatFrom("%s" + rest, values).Ok? == FormatFrom(rest, values[1..]).Ok?
    ensures FormatFrom(rest, values[1..]).Ok? ==> FormatFrom("%s" + rest, values).value == values[0] + FormatFrom(rest, values[1..]).value
  {
    var t := "%s" + rest;
    assert t[0] == '%' && t[1] == 's' && t[2..] == rest;
  }

  /** Literal text before the rest of a template is copied, and the rest is formatted with the same values. */
  lemma {:induction false} LiteralPrefix(literal: string, rest: string, values: seq<string>)
    requires forall i :: 0 <= i < |literal| ==> literal[i] != '%'
    ensures FormatFrom(literal + rest, values).Ok? == FormatFrom(rest, values).Ok?
    ensures FormatFrom(rest, values).Ok? ==> FormatFrom(literal + rest, values).value == literal + FormatFrom(rest, values).value
  {
    if literal != [] {
      assert (literal + rest)[1..] == literal[1..] + rest;
      LiteralPrefix(literal[1..], rest, values);
      if FormatFrom(rest, values).Ok? {
        assert [literal[0]] + (literal[1..] + FormatFrom(rest, values).value) == literal + FormatFrom(rest, values).value;
      }
    } else {
      assert literal + rest == rest;
    }
  }

  /** A `%s` without a value left throws. */
  lemma MissingArgument(before: string, after: string)
    requires forall i :: 0 <= i < |before| ==> before[i] != '%'
    ensures FormatFrom(before + "%s" + after, []).Failure?
  {
    LiteralPrefix(before, "%s" + after, []);
    assert before + "%s" + after == before + ("%s" + after);
  }

  /** The SCM connection of the POM: `format("scm:%s:%s", "git", c)` is "scm:git:" followed by `c`. */
  lemma ScmConnection(connection: string)
    ensures FormatFrom("scm:%s:%s", ["git", connection]) == Ok("scm:git:" + connection)
  {
    var values := ["git", connection];
    assert FormatFrom(":%s", [connection]) == Ok(":" + connection) by {
      OneConversion(":", "", [connection]);
      assert ":" + "%s" + "" == ":%s";
      assert ":" + connection + "" == ":" + connection;
    }
    assert FormatFrom("%s:%s", values) == Ok("git" + (":" + connection)) by {
      StringConversion(":%s", values);
      assert values[1..] == [connection];
    }
    assert FormatFrom("scm:%s:%s", values) == Ok("scm:" + ("git" + (":" + connection))) by {
      LiteralPrefix("scm:", "%s:%s", values);
      assert "scm:" + "%s:%s" == "scm:%s:%s";
    }
    assert "scm:" + ("git" + (":" + connection)) == "scm:git:" + connection;
  }
}
