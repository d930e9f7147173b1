/** The nullness values written into signatures (`MethodSignatureWriter.Nullness`). */
module NullnessValue {

  datatype Nullness = Nullable | Nonnull | Undefined | Omit {

    /** The marker written right after the `L`, `T` or `[` that opens an element. */
    function Marker(): (m: string)
      ensures |m| <= 1
      ensures m == "0" <==> this == Nullable
      ensures m == "1" <==> this == Nonnull
      ensures m == "" <==> (this == Undefined || this == Omit)
    {
      match this
      case Nullable => "0"
      case Nonnull => "1"
      case Undefined => ""
      case Omit => ""
    }

    /** This nullness overridden by `other`: `OMIT` keeps itself, every other value yields to `other`. */
    function Override(other: Nullness): (r: Nullness)
      ensures r == Omit <==> (this == Omit || other == Omit)
      ensures this != Omit ==> r == other
    {
      if this == Omit then Omit else other
    }
  }

  /** `OMIT` absorbs every override, and `UNDEFINED` is the neutral starting value of an override chain. */
  lemma OverrideLaws(n: Nullness, m: Nullness)
    ensures Omit.Override(m) == Omit
    ensures Undefined.Override(m) == m
    ensures n.Override(Undefined) == (if n == Omit then Omit else Undefined)
  {
  }

  /** Overriding is associative, so an override chain may be grouped either way. */
  lemma OverrideAssociative(a: Nullness, b: Nullness, c: Nullness)
    ensures a.Override(b).Override(c) == a.Override(b.Override(c))
  {
  }
}
