/** What the nullability providers answer: the fold of a combination and the annotation scan. */
module NullabilityLaws {
  import opened NullnessValue
  import opened TypeModel
  import opened Nullability

  /** A fold of overrides is OMIT exactly when one of the answers is OMIT. */
  lemma {:induction false} FoldOmitIff(answers: seq<Nullness>)
    ensures Fold(answers) == Omit <==> exists k :: 0 <= k < |answers| && answers[k] == Omit
  {
    if answers != [] {
      var init := answers[..|answers| - 1];
      FoldOmitIff(init);
      if exists k :: 0 <= k < |init| && init[k] == Omit {
        var k :| 0 <= k < |init| && init[k] == Omit;
        assert answers[k] == Omit;
      }
      if exists k :: 0 <= k < |answers| && answers[k] == Omit {
        var k :| 0 <= k < |answers| && answers[k] == Omit;
        if k < |init| {
          assert init[k] == Omit;
        }
      }
    }
  }

  /** Without an OMIT answer the fold is the last answer (UNDEFINED for no answers), so a later UNDEFINED erases
      an earlier NONNULL. */
  lemma {:induction false} FoldWithoutOmit(answers: seq<Nullness>)
    requires forall k :: 0 <= k < |answers| ==> answers[k] != Omit
    ensures Fold(answers) == if answers == [] then Undefined else answers[|answers| - 1]
  {
    if answers != [] {
      FoldWithoutOmit(answers[..|answers| - 1]);
    }
  }

  /** A combination of providers answers for a parameter: UNDEFINED when empty, OMIT exactly when some provider
      answers OMIT, and otherwise the last provider's answer. */
  lemma CombinedParameterNullness(ps: seq<Provider>, m: MethodDescription, i: nat)
    requires IsParameterOf(m, i)
    ensures ps == [] ==> ParameterNullness(Combined(ps), m, i) == Undefined
    ensures ParameterNullness(Combined(ps), m, i) == Omit
        <==> exists k :: 0 <= k < |ps| && ParameterNullness(ps[k], m, i) == Omit
    ensures (forall k :: 0 <= k < |ps| ==> ParameterNullness(ps[k], m, i) != Omit) && ps != []
        ==> ParameterNullness(Combined(ps), m, i) == ParameterNullness(ps[|ps| - 1], m, i)
  {
    var answers := ParameterAnswers(ps, m, i);
    FoldOmitIff(answers);
    if forall k :: 0 <= k < |ps| ==> ParameterNullness(ps[k], m, i) != Omit {
      FoldWithoutOmit(answers);
    }
  }

  /** A combination of providers answers for a return value: UNDEFINED when empty, OMIT exactly when some provider
      answers OMIT, and otherwise the last provider's answer. */
  lemma CombinedReturnNullness(ps: seq<Provider>, m: MethodDescription)
    ensures ps == [] ==> ReturnNullness(Combined(ps), m) == Undefined
    ensures ReturnNullness(Combined(ps), m) == Omit <==> exists k :: 0 <= k < |ps| && ReturnNullness(ps[k], m) == Omit
    ensures (forall k :: 0 <= k < |ps| ==> ReturnNullness(ps[k], m) != Omit) && ps != []
        ==> ReturnNullness(Combined(ps), m) == ReturnNullness(ps[|ps| - 1], m)
  {
    var answers := ReturnAnswers(ps, m);
    FoldOmitIff(answers);
    if forall k :: 0 <= k < |ps| ==> ReturnNullness(ps[k], m) != Omit {
      FoldWithoutOmit(answers);
    }
  }

  lemma FoldSnoc(answers: seq<Nullness>, last: Nullness)
    ensures Fold(answers + [last]) == Fold(answers).Override(last)
  {
    assert (answers + [last])[..|answers|] == answers;
  }

  lemma ParameterAnswersSnoc(ps: seq<Provider>, q: Provider, m: MethodDescription, i: nat)
    requires IsParameterOf(m, i)
    ensures ParameterAnswers(ps + [q], m, i) == ParameterAnswers(ps, m, i) + [ParameterNullness(q, m, i)]
  {
    assert (ps + [q])[..|ps|] == ps;
  }

  lemma ReturnAnswersSnoc(ps: seq<Provider>, q: Provider, m: MethodDescription)
    ensures ReturnAnswers(ps + [q], m) == ReturnAnswers(ps, m) + [ReturnNullness(q, m)]
  {
    assert (ps + [q])[..|ps|] == ps;
  }

  /** `p.override(q)` answers, for a parameter, `p`'s answer overridden by `q`'s answer, for every kind of `p`. */
  lemma OverrideProviderParameter(p: Provider, q: Provider, m: MethodDescription, i: nat)
    requires IsParameterOf(m, i)
    ensures ParameterNullness(OverrideProvider(p, q), m, i) == ParameterNullness(p, m, i).Override(ParameterNullness(q, m, i))
  {
    var b := ParameterNullness(q, m, i);
    if p.Combined? {
      ParameterAnswersSnoc(p.providers, q, m, i);
      FoldSnoc(ParameterAnswers(p.providers, m, i), b);
    } else {
      var a := ParameterNullness(p, m, i);
      assert ParameterAnswers([p, q], m, i) == [a, b] by {
        assert [p, q][..1] == [p];
        assert [p, q][..1][..0] == [];
      }
      FoldPair(a, b);
    }
  }

  /** The fold of two answers is the first overridden by the second. */
  lemma FoldPair(a: Nullness, b: Nullness)
    ensures Fold([a, b]) == a.Override(b)
  {
    assert [a, b][..1] == [a];
    assert [a][..0] == [];
    assert Fold([a]) == Undefined.Override(a) == a;
  }

  /** `p.override(q)` answers, for a return value, `p`'s answer overridden by `q`'s answer, for every kind of `p`. */
  lemma OverrideProviderReturn(p: Provider, q: Provider, m: MethodDescription)
    ensures ReturnNullness(OverrideProvider(p, q), m) == ReturnNullness(p, m).Override(ReturnNullness(q, m))
  {
    var b := ReturnNullness(q, m);
    if p.Combined? {
      ReturnAnswersSnoc(p.providers, q, m);
      FoldSnoc(ReturnAnswers(p.providers, m), b);
    } else {
      var a := ReturnNullness(p, m);
      assert ReturnAnswers([p, q], m) == [a, b] by {
        assert [p, q][..1] == [p];
        assert [p, q][..1][..0] == [];
      }
      FoldPair(a, b);
    }
  }

  /** The annotation scan answers NULLABLE exactly when the last annotation naming either type is the nullable
      one, NONNULL exactly when it is the non-null one, UNDEFINED when there is none, and never OMIT. */
  lemma {:induction false} AnnotationNullnessIff(nullable: string, nonnull: string, annotations: seq<string>)
    ensures AnnotationNullness(nullable, nonnull, annotations) != Omit
    ensures AnnotationNullness(nullable, nonnull, annotations) == Undefined
        <==> forall k :: 0 <= k < |annotations| ==> annotations[k] != nullable && annotations[k] != nonnull
    ensures AnnotationNullness(nullable, nonnull, annotations) == Nullable
        <==> exists k :: 0 <= k < |annotations| && annotations[k] == nullable && LastMatch(nullable, nonnull, annotations, k)
    ensures AnnotationNullness(nullable, nonnull, annotations) == Nonnull
        <==> exists k :: 0 <= k < |annotations| && annotations[k] == nonnull && annotations[k] != nullable
                         && LastMatch(nullable, nonnull, annotations, k)
  {
    if annotations != [] {
      var n := |annotations| - 1;
      var init := annotations[..n];
      AnnotationNullnessIff(nullable, nonnull, init);
      if annotations[n] == nullable || annotations[n] == nonnull {
        assert LastMatch(nullable, nonnull, annotations, n);
        forall k | 0 <= k < n
          ensures !LastMatch(nullable, nonnull, annotations, k)
        {
          assert k < n < |annotations|;
        }
      } else {
        forall k | 0 <= k < n
          ensures LastMatch(nullable, nonnull, annotations, k) <==> LastMatch(nullable, nonnull, init, k)
        {
        }
        forall k | 0 <= k < n
          ensures annotations[k] == init[k]
        {
        }
      }
    }
  }

  /** No annotation after position `k` names the nullable or the non-null type. */
  ghost predicate LastMatch(nullable: string, nonnull: string, annotations: seq<string>, k: nat) {
    forall j :: k < j < |annotations| ==> annotations[j] != nullable && annotations[j] != nonnull
  }

  /** An annotation provider never answers OMIT; its return answer reads only the method's own annotations, and
      its parameter answer is the parameter's own annotation result: the package default is overridden even by
      UNDEFINED, so it never changes the answer. */
  lemma AnnotationProviderAnswers(p: Provider, m: MethodDescription, i: nat)
    requires p.Annotations? && IsParameterOf(m, i)
    ensures ParameterNullness(p, m, i)
        == AnnotationNullness(p.nullableAnnotation, p.nonnullAnnotation, m.parameters[i].annotations)
    ensures ReturnNullness(p, m) == AnnotationNullness(p.nullableAnnotation, p.nonnullAnnotation, m.annotations)
    ensures ParameterNullness(p, m, i) != Omit && ReturnNullness(p, m) != Omit
  {
    AnnotationNullnessIff(p.nullableAnnotation, p.nonnullAnnotation, m.parameters[i].annotations);
    AnnotationNullnessIff(p.nullableAnnotation, p.nonnullAnnotation, m.annotations);
  }

  /** With JSR-305, an unannotated parameter in a `@ParametersAreNonnullByDefault` package stays UNDEFINED, and
      `@Nonnull` after `@Nullable` makes a parameter NONNULL. */
  lemma Jsr305Examples(m: MethodDescription)
    requires |m.parameters| == 2
    requires m.declaringPackage.annotations == ["javax.annotation.ParametersAreNonnullByDefault"]
    requires m.parameters[0].annotations == []
    requires m.parameters[1].annotations == ["javax.annotation.Nullable", "java.lang.Deprecated", "javax.annotation.Nonnull"]
    ensures ParameterNullness(Jsr305, m, 0) == Undefined
    ensures ParameterNullness(Jsr305, m, 1) == Nonnull
  {
  }

  /** The plain provider answers OMIT everywhere, and so does every combination that contains it. */
  lemma OmitProviderAbsorbs(ps: seq<Provider>, m: MethodDescription, i: nat)
    requires IsParameterOf(m, i) && OmitProvider in ps
    ensures ParameterNullness(Combined(ps), m, i) == Omit
    ensures ReturnNullness(Combined(ps), m) == Omit
  {
    var k :| 0 <= k < |ps| && ps[k] == OmitProvider;
    CombinedParameterNullness(ps, m, i);
    CombinedReturnNullness(ps, m);
  }
}
