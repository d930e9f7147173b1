/**
 * `Tasks`: Gradle task names assembled from name parts. A name part drops the separators '-', '_' and ' ', writes
 * the character after a separator in upper case, and writes its first character in the requested case.
 */
module TaskNames {
  import opened Strings

  /** `Tasks.AdjustCase`: how the next kept character is converted. */
  datatype AdjustCase = Same | Lower | Upper {
    /** `convert`, with the case mapping restricted to ASCII letters. */
    function Convert(c: char): char {
      match this
      case Same => c
      case Lower => ToLowerAscii(c)
      case Upper => ToUpperAscii(c)
    }
  }

  /** Converting twice is converting once, and a separator is never produced from anything else. */
  lemma ConvertLaws(a: AdjustCase, c: char)
    ensures a.Convert(a.Convert(c)) == a.Convert(c)
    ensures IsSeparator(a.Convert(c)) <==> IsSeparator(c)
    ensures a != Lower ==> Upper.Convert(c) == a.Convert(Upper.Convert(c))
  {
  }

  /** The characters `namePart` drops. */
  predicate IsSeparator(c: char) {
    c == '-' || c == '_' || c == ' '
  }

  /** The number of separators in `s`. */
  function SeparatorCount(s: string): (n: nat)
    ensures n <= |s|
  {
    if s == [] then 0 else SeparatorCount(s[..|s| - 1]) + (if IsSeparator(s[|s| - 1]) then 1 else 0)
  }

  /** The case the loop applies to the character at position `i`: UPPER right after a separator, the requested
      case at the start, and no change after a kept character. */
  function CaseAt(name: string, i: nat, requested: AdjustCase): AdjustCase
    requires i < |name|
  {
    if i > 0 && IsSeparator(name[i - 1]) then Upper else if i == 0 then requested else Same
  }

  /** Reference definition of `namePart`: the non-separator characters in order, each converted with the case at
      its position. */
  function NamePartSpec(name: string, requested: AdjustCase): string {
    if name == [] then ""
    else
      var n := |name| - 1;
      NamePartSpec(name[..n], requested) + (if IsSeparator(name[n]) then "" else [CaseAt(name, n, requested).Convert(name[n])])
  }

  /** `namePart`: the loop over the characters, switching the case to apply as it goes. */
  method NamePart(name: string, adjustCase: AdjustCase) returns (result: string)
    ensures result == NamePartSpec(name, adjustCase)
  {
    var adjust := adjustCase;
    result := "";
    for i := 0 to |name|
      invariant result == NamePartSpec(name[..i], adjustCase)
      invariant i < |name| ==> adjust == CaseAt(name, i, adjustCase)
    {
      assert name[..i + 1][..i] == name[..i];
      assert CaseAt(name[..i + 1], i, adjustCase) == CaseAt(name, i, adjustCase);
      var ch := name[i];
      if IsSeparator(ch) {
        adjust := Upper;
      } else {
        result := result + [adjust.Convert(ch)];
        adjust := Same;
      }
    }
    assert name[..|name|] == name;
  }

  /** `taskName`: the prefix in lower case, then infix and suffix each starting in upper case. */
  function TaskName(prefix: string, infix: string, suffix: string): string {
    NamePartSpec(prefix, Lower) + NamePartSpec(infix, Upper) + NamePartSpec(suffix, Upper)
  }

  /** `cleanName`: "clean" followed by the given name starting in upper case. */
  function CleanName(taskName: string): string {
    "clean" + NamePartSpec(taskName, Upper)
  }

  // ---------------------------------------------------------------------------------------------------------
  // Properties

  /** Every separator is dropped and every other character kept: the length shrinks by the separator count. */
  lemma {:induction false} NamePartLength(name: string, c: AdjustCase)
    ensures |NamePartSpec(name, c)| == |name| - SeparatorCount(name)
  {
    if name != [] {
      NamePartLength(name[..|name| - 1], c);
    }
  }

  /** A name part never contains a separator. */
  lemma {:induction false} NamePartHasNoSeparator(name: string, c: AdjustCase)
    ensures forall j :: 0 <= j < |NamePartSpec(name, c)| ==> !IsSeparator(NamePartSpec(name, c)[j])
  {
    if name != [] {
      var n := |name| - 1;
      NamePartHasNoSeparator(name[..n], c);
      if !IsSeparator(name[n]) {
        ConvertLaws(CaseAt(name, n, c), name[n]);
      }
    }
  }

  /** The name part of a prefix of `name` is a prefix of the name part of `name`. */
  lemma {:induction false} NamePartPrefix(name: string, c: AdjustCase, k: nat)
    requires k <= |name|
    ensures NamePartSpec(name[..k], c) <= NamePartSpec(name, c)
    decreases |name| - k
  {
    if k < |name| {
      NamePartPrefix(name, c, k + 1);
      assert name[..k + 1][..k] == name[..k];
    } else {
      assert name[..k] == name;
    }
  }

  /**
   * Where each kept character goes and how it is written: the character at position `i` lands after the kept
   * characters before it, in upper case right after a separator, in the requested case at the start, and
   * unchanged otherwise.
   */
  lemma NamePartAt(name: string, c: AdjustCase, i: nat)
    requires i < |name| && !IsSeparator(name[i])
    ensures i - SeparatorCount(name[..i]) < |NamePartSpec(name, c)|
    ensures NamePartSpec(name, c)[i - SeparatorCount(name[..i])] == CaseAt(name, i, c).Convert(name[i])
  {
    var prefix := name[..i + 1];
    assert prefix[..i] == name[..i];
    NamePartPrefix(name, c, i + 1);
    NamePartLength(name[..i], c);
    assert NamePartSpec(prefix, c) == NamePartSpec(name[..i], c) + [CaseAt(prefix, i, c).Convert(name[i])];
  }

  /** A name without separators keeps every character, and only its first one is converted. */
  lemma {:induction false} NamePartOfPlain(y: string, c: AdjustCase)
    requires y != [] && forall j :: 0 <= j < |y| ==> !IsSeparator(y[j])
    ensures NamePartSpec(y, c) == [c.Convert(y[0])] + y[1..]
  {
    var n := |y| - 1;
    if n > 0 {
      NamePartOfPlain(y[..n], c);
      assert y[..n][1..] + [y[n]] == y[1..];
    } else {
      assert y[..n] == [];
    }
  }

  /** Idempotence: a name part is its own name part for UPPER and SAME, and for LOWER when the name does not start
      with a separator. */
  lemma NamePartIdempotent(name: string, c: AdjustCase)
    requires c == Lower ==> name == [] || !IsSeparator(name[0])
    ensures NamePartSpec(NamePartSpec(name, c), c) == NamePartSpec(name, c)
  {
    var r := NamePartSpec(name, c);
    if r != [] {
      NamePartHasNoSeparator(name, c);
      NamePartOfPlain(r, c);
      var i := FirstKept(name, c);
      NamePartAt(name, c, i);
      ConvertLaws(c, name[i]);
      assert c.Convert(r[0]) == r[0];
      assert [r[0]] + r[1..] == r;
    }
  }

  /** The position of the first kept character of a name whose name part is not empty; only separators come
      before it. */
  lemma FirstKept(name: string, c: AdjustCase) returns (i: nat)
    requires NamePartSpec(name, c) != []
    ensures i < |name| && !IsSeparator(name[i]) && SeparatorCount(name[..i]) == i
    ensures forall j :: 0 <= j < i ==> IsSeparator(name[j])
  {
    NamePartLength(name, c);
    i := 0;
    while IsSeparator(name[i])
      invariant i < |name| && SeparatorCount(name[..i]) == i
      invariant forall j :: 0 <= j < i ==> IsSeparator(name[j])
      decreases |name| - i
    {
      assert name[..i + 1][..i] == name[..i];
      i := i + 1;
    }
  }

  /** LOWER is not idempotent on a name that starts with a separator: "-a" gives "A", whose name part is "a". */
  lemma LowerNotIdempotent()
    ensures NamePartSpec("-a", Lower) == "A"
    ensures NamePartSpec(NamePartSpec("-a", Lower), Lower) == "a"
  {
    assert "-a"[..1] == "-";
    assert NamePartSpec("-", Lower) == "";
    assert NamePartSpec("-a", Lower) == "" + [Upper.Convert('a')];
    assert NamePartSpec("A", Lower) == "" + [Lower.Convert('A')];
  }

  /** Gradle task names built by the checkstyle and eclipse plugins. */
  lemma TaskNameExamples()
    ensures TaskName("checkstyle", "main", "") == "checkstyleMain"
    ensures CleanName("eclipse") == "cleanEclipse"
  {
    NamePartOfPlain("checkstyle", Lower);
    NamePartOfPlain("main", Upper);
    NamePartOfPlain("eclipse", Upper);
    assert NamePartSpec("checkstyle", Lower) == "checkstyle";
    assert NamePartSpec("main", Upper) == "Main";
    assert NamePartSpec("eclipse", Upper) == "Eclipse";
  }
}
