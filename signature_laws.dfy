/** Properties of the signature grammar: where markers go, and when a method's two renderings differ. */
module SignatureLaws {
  import opened Wrappers
  import opened TypeModel
  import opened NullnessValue
  import opened Nullability
  import opened Signatures

  /** A type written with nullness `n` carries a marker: only non-primitive types with NULLABLE or NONNULL do. */
  predicate Marked(t: Generic, n: Nullness) {
    !t.Primitive? && n.Marker() != ""
  }

  /**
   * A type renders under any nullness exactly when it renders under UNDEFINED, and the text is the UNDEFINED
   * text with the marker inserted right after its first character (the `L`, `T` or `[`); a primitive never
   * gets a marker.
   */
  lemma MarkerPlacement(t: Generic, n: Nullness)
    ensures JavaTypeSignature(t, n).Ok? == JavaTypeSignature(t, Undefined).Ok?
    ensures JavaTypeSignature(t, n).Ok? ==>
      var s := JavaTypeSignature(t, Undefined).value;
      JavaTypeSignature(t, n).value == if t.Primitive? then s else s[..1] + n.Marker() + s[1..]
  {
    match t
    case Primitive(_) =>
    case Array(_) => ArrayMarkerPlacement(t, n);
    case Variable(_, _) => VariableMarkerPlacement(t, n);
    case Wildcard(_, _) =>
    case ClassType(_, _, _, _, _, _) => ClassMarkerPlacement(t, n);
  }

  lemma ArrayMarkerPlacement(t: Generic, n: Nullness)
    requires t.Array?
    ensures ArrayTypeSignature(t, n).Ok? == ArrayTypeSignature(t, Undefined).Ok?
    ensures ArrayTypeSignature(t, n).Ok? ==>
      var s := ArrayTypeSignature(t, Undefined).value;
      ArrayTypeSignature(t, n).value == s[..1] + n.Marker() + s[1..]
  {
    var r := JavaTypeSignature(t.component, Undefined);
    if r.Ok? {
      var s := "[" + r.value;
      assert ArrayTypeSignature(t, Undefined).value == s;
      assert s[..1] == "[" && s[1..] == r.value;
    }
  }

  lemma VariableMarkerPlacement(t: Generic, n: Nullness)
    requires t.Variable?
    ensures var s := TypeVariableSignature(t, Undefined).value;
      TypeVariableSignature(t, n).value == s[..1] + n.Marker() + s[1..]
  {
    var s := "T" + t.symbol + ";";
    assert TypeVariableSignature(t, Undefined).value == s;
    assert s[..1] == "T" && s[1..] == t.symbol + ";";
  }

  lemma ClassMarkerPlacement(t: Generic, n: Nullness)
    requires t.ClassType?
    ensures ClassTypeSignature(t, n).Ok? == ClassTypeSignature(t, Undefined).Ok?
    ensures ClassTypeSignature(t, n).Ok? ==>
      var s := ClassTypeSignature(t, Undefined).value;
      ClassTypeSignature(t, n).value == s[..1] + n.Marker() + s[1..]
  {
    var body := ClassTypeBody(t);
    if body.Ok? {
      var s := "L" + body.value;
      assert ClassTypeSignature(t, Undefined).value == s;
      assert s[..1] == "L" && s[1..] == body.value;
    }
  }

  /** Rendering under OMIT gives exactly the text of rendering under UNDEFINED. */
  lemma OmitRendersAsUndefined(t: Generic)
    ensures JavaTypeSignature(t, Omit) == JavaTypeSignature(t, Undefined)
  {
    MarkerPlacement(t, Omit);
    if JavaTypeSignature(t, Omit).Ok? && !t.Primitive? {
      var s := JavaTypeSignature(t, Undefined).value;
      assert s[..1] + "" + s[1..] == s;
    }
  }

  /** Against the plain (OMIT) rendering, a type's rendering is one character longer when marked, else equal. */
  lemma MarkedAgainstPlain(t: Generic, n: Nullness)
    ensures JavaTypeSignature(t, n).Ok? == JavaTypeSignature(t, Omit).Ok?
    ensures JavaTypeSignature(t, n).Ok? ==>
      |JavaTypeSignature(t, n).value| == |JavaTypeSignature(t, Omit).value| + (if Marked(t, n) then 1 else 0)
    ensures !Marked(t, n) ==> JavaTypeSignature(t, n) == JavaTypeSignature(t, Omit)
  {
    MarkerPlacement(t, n);
    OmitRendersAsUndefined(t);
    if JavaTypeSignature(t, n).Ok? && !t.Primitive? {
      var s := JavaTypeSignature(t, Undefined).value;
      assert |s[..1] + n.Marker() + s[1..]| == |s| + |n.Marker()|;
      if n.Marker() == "" {
        assert s[..1] + "" + s[1..] == s;
      }
    }
  }

  /** Some parameter among the first `k` of `m` carries a marker under provider `p`. */
  ghost predicate HasMarkedParameter(m: MethodDescription, p: Provider, k: nat)
    requires k <= |m.parameters|
  {
    exists i :: 0 <= i < k && Marked(m.parameters[i].parameterType, ParameterNullness(p, m, i))
  }

  /** Some parameter or the return type of `m` carries a marker under provider `p`. */
  ghost predicate HasMarkedPosition(m: MethodDescription, p: Provider) {
    HasMarkedParameter(m, p, |m.parameters|) || Marked(m.returnType, ReturnNullness(p, m))
  }

  /** The first `k` parameters under `p` render exactly when they render plain; the text is longer than the plain
      text exactly when one of them is marked, and equal to it otherwise. */
  lemma {:induction false} ParameterListAgainstPlain(m: MethodDescription, p: Provider, k: nat)
    requires k <= |m.parameters|
    ensures ParameterList(m, p, k).Ok? == ParameterList(m, OmitProvider, k).Ok?
    ensures ParameterList(m, p, k).Ok? ==>
      (HasMarkedParameter(m, p, k) <==> |ParameterList(m, p, k).value| > |ParameterList(m, OmitProvider, k).value|)
    ensures !HasMarkedParameter(m, p, k) ==> ParameterList(m, p, k) == ParameterList(m, OmitProvider, k)
  {
    if k > 0 {
      ParameterListAgainstPlain(m, p, k - 1);
      var t := m.parameters[k - 1].parameterType;
      var n := ParameterNullness(p, m, k - 1);
      MarkedAgainstPlain(t, n);
      assert ParameterNullness(OmitProvider, m, k - 1) == Omit;
      HasMarkedParameterStep(m, p, k);
      var a, x := ParameterList(m, p, k - 1), JavaTypeSignature(t, n);
      var b, y := ParameterList(m, OmitProvider, k - 1), JavaTypeSignature(t, Omit);
      assert ParameterList(m, p, k) == if a.Failure? || x.Failure? then Failure else Ok(a.value + x.value);
      assert ParameterList(m, OmitProvider, k) == if b.Failure? || y.Failure? then Failure else Ok(b.value + y.value);
    }
  }

  /** A parameter among the first `k` is marked exactly when one among the first `k - 1` is, or the `k`-th is. */
  lemma HasMarkedParameterStep(m: MethodDescription, p: Provider, k: nat)
    requires 0 < k <= |m.parameters|
    ensures HasMarkedParameter(m, p, k) <==>
      HasMarkedParameter(m, p, k - 1) || Marked(m.parameters[k - 1].parameterType, ParameterNullness(p, m, k - 1))
  {
    if HasMarkedParameter(m, p, k) && !Marked(m.parameters[k - 1].parameterType, ParameterNullness(p, m, k - 1)) {
      var i :| 0 <= i < k && Marked(m.parameters[i].parameterType, ParameterNullness(p, m, i));
      assert i < k - 1;
    }
  }

  /**
   * A method renders under any provider exactly when it renders plain, and its annotated signature differs from
   * its plain signature exactly when some parameter or its return type carries a marker.
   */
  lemma MethodSignatureAgainstPlain(m: MethodDescription, p: Provider)
    ensures MethodSignature(m, p).Ok? == MethodSignature(m, OmitProvider).Ok?
    ensures MethodSignature(m, p).Ok? ==>
      (MethodSignature(m, p).value != MethodSignature(m, OmitProvider).value <==> HasMarkedPosition(m, p))
  {
    var k := |m.parameters|;
    ParameterListAgainstPlain(m, p, k);
    MarkedAgainstPlain(m.returnType, ReturnNullness(p, m));
    assert ReturnNullness(OmitProvider, m) == Omit;
    var tp := if |m.typeVariables| > 0 then TypeParametersSignature(m.typeVariables) else Ok("");
    var a := ParameterList(m, p, k);
    var b := ParameterList(m, OmitProvider, k);
    var ra := JavaTypeSignature(m.returnType, ReturnNullness(p, m));
    var rb := JavaTypeSignature(m.returnType, Omit);
    if tp.Ok? && a.Ok? && ra.Ok? {
      var x := tp.value + "(" + a.value + ")" + ra.value;
      var y := tp.value + "(" + b.value + ")" + rb.value;
      assert MethodSignature(m, p).value == x && MethodSignature(m, OmitProvider).value == y;
      assert |x| == |tp.value| + |a.value| + |ra.value| + 2;
      assert |y| == |tp.value| + |b.value| + |rb.value| + 2;
    }
  }

  /** Minimality: a provider that answers only UNDEFINED or OMIT for a method renders it exactly as the plain
      writer does. */
  lemma UnmarkedProviderRendersPlain(m: MethodDescription, p: Provider)
    requires forall i :: 0 <= i < |m.parameters| ==> ParameterNullness(p, m, i).Marker() == ""
    requires ReturnNullness(p, m).Marker() == ""
    ensures MethodSignature(m, p) == MethodSignature(m, OmitProvider)
  {
    ParameterListAgainstPlain(m, p, |m.parameters|);
    MarkedAgainstPlain(m.returnType, ReturnNullness(p, m));
  }

  /** The wildcard rules of `appendTypeArgument`. */
  lemma WildcardRules(upper: seq<Generic>, lower: seq<Generic>)
    ensures lower == [] && upper == [JavaLangObject] ==> TypeArgumentSignature(Wildcard(upper, lower)) == Ok("*")
    ensures lower == [] && |upper| == 1 && upper[0] != JavaLangObject ==>
      TypeArgumentSignature(Wildcard(upper, lower)).Ok? == ReferenceTypeSignature(upper[0], Undefined).Ok? &&
      (TypeArgumentSignature(Wildcard(upper, lower)).Ok? ==>
        TypeArgumentSignature(Wildcard(upper, lower)).value == "+" + ReferenceTypeSignature(upper[0], Undefined).value)
    ensures lower != [] && upper == [JavaLangObject] ==>
      TypeArgumentSignature(Wildcard(upper, lower)).Ok? == ReferenceTypeSignature(lower[0], Undefined).Ok? &&
      (TypeArgumentSignature(Wildcard(upper, lower)).Ok? ==>
        TypeArgumentSignature(Wildcard(upper, lower)).value == "-" + ReferenceTypeSignature(lower[0], Undefined).value)
    ensures (lower != [] && upper != [JavaLangObject]) || |upper| > 1 ==> TypeArgumentSignature(Wildcard(upper, lower)).Failure?
  {
  }
}
