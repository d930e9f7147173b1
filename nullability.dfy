/**
 * Nullability providers: strategies that give the nullness of a method parameter and of a method's return
 * value. The Java interface `Nullability` with its implementations is modelled as one closed datatype:
 * the constant provider behind `Nullability.omit()`, `AnnotationNullability` and `CombinedNullability`.
 */
module Nullability {
  import opened NullnessValue
  import opened TypeModel

  datatype Provider =
    | /** Fixed answers for every parameter and every return value (`Nullability.omit()` answers OMIT twice). */
      Constant(parameterNullness: Nullness, returnNullness: Nullness)
    | /** `AnnotationNullability`: the names of the nullable and non-null annotation types and of the package
          annotation that makes parameters non-null by default. */
      Annotations(nullableAnnotation: string, nonnullAnnotation: string, nonnullParameterDefaultAnnotation: string)
    | /** `CombinedNullability`: the providers to combine, folded left to right. */
      Combined(providers: seq<Provider>)

  /** The provider used for plain signatures (`Nullability.omit()`). */
  const OmitProvider: Provider := Constant(Omit, Omit)

  /** `AnnotationNullability.jsr305()`: the JSR-305 annotation names. */
  const Jsr305: Provider :=
    Annotations("javax.annotation.Nullable", "javax.annotation.Nonnull", "javax.annotation.ParametersAreNonnullByDefault")

  /** A parameter is addressed by its method and its position, so that its declaring method is known. */
  predicate IsParameterOf(m: MethodDescription, i: nat) {
    i < |m.parameters|
  }

  // ---------------------------------------------------------------------------------------------------------
  // Specification

  /** Left fold of `override` over a provider chain's answers, starting from UNDEFINED. */
  function Fold(answers: seq<Nullness>): Nullness {
    if answers == [] then Undefined else Fold(answers[..|answers| - 1]).Override(answers[|answers| - 1])
  }

  /** The nullness an annotation list declares: the last nullable or non-null annotation wins. */
  function AnnotationNullness(nullableAnnotation: string, nonnullAnnotation: string, annotations: seq<string>): Nullness {
    if annotations == [] then Undefined
    else
      var last := annotations[|annotations| - 1];
      if last == nullableAnnotation then Nullable
      else if last == nonnullAnnotation then Nonnull
      else AnnotationNullness(nullableAnnotation, nonnullAnnotation, annotations[..|annotations| - 1])
  }

  /** The nullness the package default annotation gives a parameter before its own annotations are read. */
  function PackageDefault(p: Provider, pkg: PackageDescription): Nullness
    requires p.Annotations?
  {
    if p.nonnullParameterDefaultAnnotation in pkg.annotations then Nonnull else Undefined
  }

  /** `getParameterNullability` of parameter `i` of method `m`. */
  function ParameterNullness(p: Provider, m: MethodDescription, i: nat): Nullness
    requires IsParameterOf(m, i)
    decreases p, 1
  {
    match p
    case Constant(pn, _) => pn
    case Annotations(nullable, nonnull, _) =>
      PackageDefault(p, m.declaringPackage).Override(AnnotationNullness(nullable, nonnull, m.parameters[i].annotations))
    case Combined(ps) => Fold(ParameterAnswers(ps, m, i))
  }

  /** The answers of a provider list for one parameter, in list order. */
  function ParameterAnswers(ps: seq<Provider>, m: MethodDescription, i: nat): (r: seq<Nullness>)
    requires IsParameterOf(m, i)
    decreases ps, 0
    ensures |r| == |ps|
    ensures forall k :: 0 <= k < |ps| ==> r[k] == ParameterNullness(ps[k], m, i)
  {
    if ps == [] then [] else ParameterAnswers(ps[..|ps| - 1], m, i) + [ParameterNullness(ps[|ps| - 1], m, i)]
  }

  /** `getReturnValueNullability` of method `m`. */
  function ReturnNullness(p: Provider, m: MethodDescription): Nullness
    decreases p, 1
  {
    match p
    case Constant(_, rn) => rn
    case Annotations(nullable, nonnull, _) => AnnotationNullness(nullable, nonnull, m.annotations)
    case Combined(ps) => Fold(ReturnAnswers(ps, m))
  }

  /** The answers of a provider list for one return value, in list order. */
  function ReturnAnswers(ps: seq<Provider>, m: MethodDescription): (r: seq<Nullness>)
    decreases ps, 0
    ensures |r| == |ps|
    ensures forall k :: 0 <= k < |ps| ==> r[k] == ReturnNullness(ps[k], m)
  {
    if ps == [] then [] else ReturnAnswers(ps[..|ps| - 1], m) + [ReturnNullness(ps[|ps| - 1], m)]
  }

  /**
   * `override(other)`: a new combination whose list is this provider's list with `other` appended
   * (`CombinedNullability.override`); any other provider `p` becomes the combination `[p, other]`.
   */
  function OverrideProvider(p: Provider, other: Provider): (r: Provider)
    ensures r.Combined?
    ensures p.Combined? ==> r.providers == p.providers + [other]
    ensures !p.Combined? ==> r.providers == [p, other]
  {
    match p
    case Combined(ps) => Combined(ps + [other])
    case _ => Combined([p, other])
  }

  // ---------------------------------------------------------------------------------------------------------
  // Implementation: the query loops of the source

  /** `AnnotationNullability.getNullability`: scan the annotations in order, remembering the last match. */
  method GetNullability(nullableAnnotation: string, nonnullAnnotation: string, annotations: seq<string>)
    returns (nullability: Nullness)
    ensures nullability == AnnotationNullness(nullableAnnotation, nonnullAnnotation, annotations)
  {
    nullability := Undefined;
    var k := 0;
    while k < |annotations|
      invariant 0 <= k <= |annotations|
      invariant nullability == AnnotationNullness(nullableAnnotation, nonnullAnnotation, annotations[..k])
    {
      assert annotations[..k + 1][..k] == annotations[..k];
      if annotations[k] == nullableAnnotation {
        nullability := Nullable;
      } else if annotations[k] == nonnullAnnotation {
        nullability := Nonnull;
      }
      k := k + 1;
    }
    assert annotations[..k] == annotations;
  }

  /** `getParameterNullability` of every provider kind; a combination loops over its providers. */
  method GetParameterNullability(p: Provider, m: MethodDescription, i: nat) returns (nullability: Nullness)
    requires IsParameterOf(m, i)
    ensures nullability == ParameterNullness(p, m, i)
    decreases p
  {
    match p
    case Constant(pn, _) =>
      nullability := pn;
    case Annotations(nullable, nonnull, defaultAnnotation) =>
      var defaultNullness := if defaultAnnotation in m.declaringPackage.annotations then Nonnull else Undefined;
      var own := GetNullability(nullable, nonnull, m.parameters[i].annotations);
      nullability := defaultNullness.Override(own);
    case Combined(ps) =>
      nullability := Undefined;
      var k := 0;
      while k < |ps|
        invariant 0 <= k <= |ps|
        invariant nullability == Fold(ParameterAnswers(ps, m, i)[..k])
      {
        var answer := GetParameterNullability(ps[k], m, i);
        assert ParameterAnswers(ps, m, i)[..k + 1][..k] == ParameterAnswers(ps, m, i)[..k];
        nullability := nullability.Override(answer);
        k := k + 1;
      }
      assert ParameterAnswers(ps, m, i)[..k] == ParameterAnswers(ps, m, i);
  }

  /** `getReturnValueNullability` of every provider kind; a combination loops over its providers. */
  method GetReturnValueNullability(p: Provider, m: MethodDescription) returns (nullability: Nullness)
    ensures nullability == ReturnNullness(p, m)
    decreases p
  {
    match p
    case Constant(_, rn) =>
      nullability := rn;
    case Annotations(nullable, nonnull, _) =>
      nullability := GetNullability(nullable, nonnull, m.annotations);
    case Combined(ps) =>
      nullability := Undefined;
      var k := 0;
      while k < |ps|
        invariant 0 <= k <= |ps|
        invariant nullability == Fold(ReturnAnswers(ps, m)[..k])
      {
        var answer := GetReturnValueNullability(ps[k], m);
        assert ReturnAnswers(ps, m)[..k + 1][..k] == ReturnAnswers(ps, m)[..k];
        nullability := nullability.Override(answer);
        k := k + 1;
      }
      assert ReturnAnswers(ps, m)[..k] == ReturnAnswers(ps, m);
  }
}
