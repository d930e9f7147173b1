/** Signatures of methods declared by the fixture classes `Test`, `NonnullTest` and `NullableGenericTest`. */
module SignatureExamples {
  import opened Wrappers
  import opened Strings
  import opened TypeModel
  import opened NullnessValue
  import opened Nullability
  import opened Signatures

  const FixturePackage := PackageDescription("me.seeber.gradle.ide.eclipse.test.jar", [])
  /** Two interfaces and a class of a one-letter package `p`, to keep the literal texts short. */
  const InterfaceI := ClassType("p", [], "I", false, [], true)
  const InterfaceJ := ClassType("p", [], "J", false, [], true)
  const ClassC := ClassType("p", [], "C", false, [], false)

  /** A method with one unannotated parameter of type `t` that returns `t`. */
  function Echo(name: string, typeVariables: seq<TypeParameter>, t: Generic): MethodDescription {
    MethodDescription(name, name, FixturePackage, typeVariables, [ParameterDescription([], t)], t, [])
  }

  /** `void method()` renders as `()V` under every provider. */
  lemma VoidMethod(p: Provider)
    ensures MethodSignature(MethodDescription("method", "method()", FixturePackage, [], [], Primitive('V'), []), p)
      == Ok("()V")
  {
    var m := MethodDescription("method", "method()", FixturePackage, [], [], Primitive('V'), []);
    assert ParameterList(m, p, 0) == Ok("");
    assert JavaTypeSignature(Primitive('V'), ReturnNullness(p, m)) == Ok("V");
    assert "" + "(" + "" + ")" + "V" == "()V";
  }

  /** A non-generic top-level class in a named package: 'L', marker, package path, simple name, ';'. */
  lemma TopLevelClass(packageName: string, simpleName: string, isInterface: bool, n: Nullness)
    requires packageName != ""
    ensures JavaTypeSignature(ClassType(packageName, [], simpleName, false, [], isInterface), n)
      == Ok("L" + n.Marker() + PackageSpecifier(packageName) + simpleName + ";")
  {
    var t := ClassType(packageName, [], simpleName, false, [], isInterface);
    assert OwnersSignature([]) == Ok("");
    assert SimpleClassTypeSignature(simpleName, false, []) == Ok(simpleName);
    var ps := PackageSpecifier(packageName);
    assert ClassTypeBody(t) == Ok(ps + "" + simpleName + ";");
    assert ClassTypeSignature(t, n) == Ok("L" + n.Marker() + (ps + "" + simpleName + ";"));
    assert JavaTypeSignature(t, n) == ReferenceTypeSignature(t, n) == ClassTypeSignature(t, n);
    assert ps + "" == ps;
    ConcatAssoc("L" + n.Marker(), ps, simpleName);
    ConcatAssoc("L" + n.Marker(), ps + simpleName, ";");
  }

  /** An array of a type variable: '[', the marker, then the variable without a marker. */
  lemma ArrayOfVariable(symbol: string, n: Nullness)
    ensures JavaTypeSignature(Array(Variable(symbol, false)), n) == Ok("[" + n.Marker() + ("T" + symbol + ";"))
  {
    var t := Array(Variable(symbol, false));
    assert JavaTypeSignature(Variable(symbol, false), Undefined) == Ok("T" + "" + symbol + ";");
    assert "T" + "" + symbol + ";" == "T" + symbol + ";";
    assert ArrayTypeSignature(t, n) == Ok("[" + n.Marker() + ("T" + symbol + ";"));
    assert JavaTypeSignature(t, n) == ReferenceTypeSignature(t, n) == ArrayTypeSignature(t, n);
  }

  /** A single type parameter with a single bound, between '<' and '>'. */
  lemma SingleBoundParameter(symbol: string, bound: Generic)
    requires ReferenceTypeSignature(bound, Undefined).Ok?
    ensures TypeParametersSignature([TypeParameter(symbol, [bound])])
      == Ok("<" + (symbol + (if IsInterface(bound) then ":" else "") + (":" + ReferenceTypeSignature(bound, Undefined).value)) + ">")
  {
    var b := ReferenceTypeSignature(bound, Undefined).value;
    assert [bound][..0] == [];
    assert BoundList([bound]) == Ok("" + ":" + b);
    assert "" + ":" + b == ":" + b;
    var tp := TypeParameter(symbol, [bound]);
    assert [tp][..0] == [];
    assert TypeParameterList([tp]) == Ok("" + TypeParameterSignature(tp).value);
    assert "" + TypeParameterSignature(tp).value == TypeParameterSignature(tp).value;
  }

  /** A single type argument between '<' and '>'. */
  lemma OneTypeArgument(argument: Generic)
    requires TypeArgumentSignature(argument).Ok?
    ensures TypeArgumentsSignature([argument]) == Ok("<" + TypeArgumentSignature(argument).value + ">")
  {
    assert [argument][..0] == [];
    assert TypeArgumentList([argument]) == Ok("" + TypeArgumentSignature(argument).value);
    assert "" + TypeArgumentSignature(argument).value == TypeArgumentSignature(argument).value;
  }

  /** A method with one parameter: '(' parameter ')' return type, after the type parameters if any. */
  lemma OneParameterMethod(m: MethodDescription, p: Provider)
    requires |m.parameters| == 1
    requires |m.typeVariables| == 0 || TypeParametersSignature(m.typeVariables).Ok?
    requires JavaTypeSignature(m.parameters[0].parameterType, ParameterNullness(p, m, 0)).Ok?
    requires JavaTypeSignature(m.returnType, ReturnNullness(p, m)).Ok?
    ensures MethodSignature(m, p) == Ok(
      (if |m.typeVariables| > 0 then TypeParametersSignature(m.typeVariables).value else "")
      + "(" + JavaTypeSignature(m.parameters[0].parameterType, ParameterNullness(p, m, 0)).value + ")"
      + JavaTypeSignature(m.returnType, ReturnNullness(p, m)).value)
  {
    var param := JavaTypeSignature(m.parameters[0].parameterType, ParameterNullness(p, m, 0)).value;
    assert ParameterList(m, p, 1) == Ok("" + param);
    assert "" + param == param;
  }

  lemma ObjectSignature()
    ensures ReferenceTypeSignature(JavaLangObject, Undefined) == Ok("Ljava/lang/Object;")
  {
    assert ReferenceTypeSignature(JavaLangObject, Undefined)
      == Ok("L" + "" + PackageSpecifier("java.lang") + "Object" + ";") by {
      TopLevelClass("java.lang", "Object", false, Undefined);
    }
    ObjectText();
  }

  lemma ObjectText()
    ensures "L" + "" + PackageSpecifier("java.lang") + "Object" + ";" == "Ljava/lang/Object;"
  {
    JavaLangPath();
    ObjectLiteral();
  }

  lemma ObjectLiteral()
    ensures "L" + "" + "java/lang/" + "Object" + ";" == "Ljava/lang/Object;"
  {
  }

  /** The package `java.lang` is written as the path "java/lang/". */
  lemma JavaLangPath()
    ensures PackageSpecifier("java.lang") == "java/lang/"
  {
    var r := ReplaceChar("java.lang", '.', '/');
    assert r[4] == '/';
    assert r == "java/lang";
  }

  /** `<A> A[] genericArrayMethod(A[])` with both positions NONNULL, and plain. */
  lemma GenericArrayMethod()
    ensures MethodSignature(Echo("genericArrayMethod", [TypeParameter("A", [JavaLangObject])], Array(Variable("A", false))),
                            Constant(Nonnull, Nonnull))
      == Ok("<A:Ljava/lang/Object;>([1TA;)[1TA;")
    ensures MethodSignature(Echo("genericArrayMethod", [TypeParameter("A", [JavaLangObject])], Array(Variable("A", false))),
                            OmitProvider)
      == Ok("<A:Ljava/lang/Object;>([TA;)[TA;")
  {
    var m := Echo("genericArrayMethod", [TypeParameter("A", [JavaLangObject])], Array(Variable("A", false)));
    assert TypeParametersSignature(m.typeVariables) == Ok("<A:Ljava/lang/Object;>") by {
      ObjectSignature();
      SingleBoundParameter("A", JavaLangObject);
      GenericArrayText();
    }
    assert JavaTypeSignature(Array(Variable("A", false)), Nonnull) == Ok("[1TA;") by {
      ArrayOfVariable("A", Nonnull);
      GenericArrayText();
    }
    assert JavaTypeSignature(Array(Variable("A", false)), Omit) == Ok("[TA;") by {
      ArrayOfVariable("A", Omit);
      GenericArrayText();
    }
    assert MethodSignature(m, Constant(Nonnull, Nonnull)) == Ok("<A:Ljava/lang/Object;>" + "(" + "[1TA;" + ")" + "[1TA;") by {
      OneParameterMethod(m, Constant(Nonnull, Nonnull));
    }
    assert MethodSignature(m, OmitProvider) == Ok("<A:Ljava/lang/Object;>" + "(" + "[TA;" + ")" + "[TA;") by {
      OneParameterMethod(m, OmitProvider);
    }
    GenericArrayText();
  }

  lemma GenericArrayText()
    ensures "<" + ("A" + "" + (":" + "Ljava/lang/Object;")) + ">" == "<A:Ljava/lang/Object;>"
    ensures "[" + "1" + ("T" + "A" + ";") == "[1TA;"
    ensures "[" + "" + ("T" + "A" + ";") == "[TA;"
    ensures "<A:Ljava/lang/Object;>" + "(" + "[1TA;" + ")" + "[1TA;" == "<A:Ljava/lang/Object;>([1TA;)[1TA;"
    ensures "<A:Ljava/lang/Object;>" + "(" + "[TA;" + ")" + "[TA;" == "<A:Ljava/lang/Object;>([TA;)[TA;"
  {
  }

  /** A generic class with one type argument and the given owners: 'L', marker, package path, owners, simple
      name, the argument between '<' and '>', then ';'. */
  lemma GenericClass(packageName: string, owners: seq<Owner>, simpleName: string, argument: Generic, isInterface: bool, n: Nullness)
    requires packageName != ""
    requires OwnersSignature(owners).Ok? && TypeArgumentSignature(argument).Ok?
    ensures JavaTypeSignature(ClassType(packageName, owners, simpleName, true, [argument], isInterface), n)
      == Ok("L" + n.Marker() + (PackageSpecifier(packageName) + OwnersSignature(owners).value
             + (simpleName + ("<" + TypeArgumentSignature(argument).value + ">")) + ";"))
  {
    var t := ClassType(packageName, owners, simpleName, true, [argument], isInterface);
    var a := TypeArgumentSignature(argument).value;
    var o := OwnersSignature(owners).value;
    OneTypeArgument(argument);
    assert SimpleClassTypeSignature(simpleName, true, [argument]) == Ok(simpleName + ("<" + a + ">"));
    assert ClassTypeBody(t) == Ok(PackageSpecifier(packageName) + o + (simpleName + ("<" + a + ">")) + ";");
    assert ClassTypeSignature(t, n) == Ok("L" + n.Marker() + (PackageSpecifier(packageName) + o + (simpleName + ("<" + a + ">")) + ";"));
    assert JavaTypeSignature(t, n) == ReferenceTypeSignature(t, n) == ClassTypeSignature(t, n);
  }

  /** A single owner is its simple signature followed by '.'. */
  lemma OneOwner(owner: Owner)
    requires SimpleClassTypeSignature(owner.simpleName, owner.parameterized, owner.arguments).Ok?
    ensures OwnersSignature([owner])
      == Ok(SimpleClassTypeSignature(owner.simpleName, owner.parameterized, owner.arguments).value + ".")
  {
    assert [owner][..0] == [];
    var simple := SimpleClassTypeSignature(owner.simpleName, owner.parameterized, owner.arguments).value;
    assert OwnersSignature([owner]) == Ok("" + simple + ".");
    assert "" + simple + "." == simple + ".";
  }

  /** `<S extends I & J>` with interfaces `I` and `J`: the first bound is an interface, so the symbol is followed
      by "::", and each bound by its own ':'. */
  lemma TwoInterfaceBounds()
    ensures TypeParameterSignature(TypeParameter("S", [InterfaceI, InterfaceJ])) == Ok("S::Lp/I;:Lp/J;")
  {
    var bounds := [InterfaceI, InterfaceJ];
    assert PackageSpecifier("p") == "p/";
    assert ReferenceTypeSignature(InterfaceI, Undefined) == Ok("L" + "" + "p/" + "I" + ";") by {
      TopLevelClass("p", "I", true, Undefined);
    }
    assert ReferenceTypeSignature(InterfaceJ, Undefined) == Ok("L" + "" + "p/" + "J" + ";") by {
      TopLevelClass("p", "J", true, Undefined);
    }
    assert bounds[..1] == [InterfaceI];
    assert bounds[..1][..0] == [];
    assert BoundList(bounds[..1]) == Ok("" + ":" + ("L" + "" + "p/" + "I" + ";"));
    assert BoundList(bounds) == Ok("" + ":" + ("L" + "" + "p/" + "I" + ";") + ":" + ("L" + "" + "p/" + "J" + ";"));
    assert TypeParameterSignature(TypeParameter("S", bounds))
      == Ok("S" + ":" + ("" + ":" + ("L" + "" + "p/" + "I" + ";") + ":" + ("L" + "" + "p/" + "J" + ";")));
    BoundsText();
  }

  /**
   * `<T extends Comparable<T>, S extends T>`: the bound of S is the type variable T, whose erasure is the
   * interface `Comparable`, so S gets the extra ':' just as an interface class-type bound does.
   */
  lemma InterfaceVariableBound()
    ensures TypeParameterSignature(TypeParameter("S", [Variable("T", true)])) == Ok("S::TT;")
    ensures TypeParameterSignature(TypeParameter("S", [Variable("T", false)])) == Ok("S:TT;")
  {
    var viaInterface, viaClass := Variable("T", true), Variable("T", false);
    assert ReferenceTypeSignature(viaInterface, Undefined) == Ok("T" + "" + "T" + ";");
    assert ReferenceTypeSignature(viaClass, Undefined) == Ok("T" + "" + "T" + ";");
    assert [viaInterface][..0] == [] && [viaClass][..0] == [];
    assert BoundList([viaInterface]) == Ok("" + ":" + ("T" + "" + "T" + ";"));
    assert BoundList([viaClass]) == Ok("" + ":" + ("T" + "" + "T" + ";"));
    VariableBoundText();
  }

  lemma VariableBoundText()
    ensures "S" + ":" + ("" + ":" + ("T" + "" + "T" + ";")) == "S::TT;"
    ensures "S" + "" + ("" + ":" + ("T" + "" + "T" + ";")) == "S:TT;"
  {
  }

  lemma BoundsText()
    ensures "S" + ":" + ("" + ":" + ("L" + "" + "p/" + "I" + ";") + ":" + ("L" + "" + "p/" + "J" + ";")) == "S::Lp/I;:Lp/J;"
  {
  }

  /** `List<? extends I>` as a NULLABLE type: only the outer 'L' is marked, the bound is written with '+'. */
  lemma UpperBoundedWildcard()
    ensures JavaTypeSignature(ClassType("p", [], "L", true, [Wildcard([InterfaceI], [])], true), Nullable)
      == Ok("L0p/L<+Lp/I;>;")
  {
    var w := Wildcard([InterfaceI], []);
    assert PackageSpecifier("p") == "p/";
    assert ReferenceTypeSignature(InterfaceI, Undefined) == Ok("L" + "" + "p/" + "I" + ";") by {
      TopLevelClass("p", "I", true, Undefined);
    }
    assert TypeArgumentSignature(w) == Ok("+" + ("L" + "" + "p/" + "I" + ";"));
    assert OwnersSignature([]) == Ok("");
    assert JavaTypeSignature(ClassType("p", [], "L", true, [w], true), Nullable)
      == Ok("L" + "0" + ("p/" + "" + ("L" + ("<" + ("+" + ("L" + "" + "p/" + "I" + ";")) + ">")) + ";")) by {
      GenericClass("p", [], "L", w, true, Nullable);
    }
    WildcardText();
  }

  lemma WildcardText()
    ensures "L" + "0" + ("p/" + "" + ("L" + ("<" + ("+" + ("L" + "" + "p/" + "I" + ";")) + ">")) + ";") == "L0p/L<+Lp/I;>;"
  {
  }

  /** An inner class type `Outer<T>.Inner<U>`: the owner with its own arguments comes first, followed by '.'. */
  lemma NestedGenericType()
    ensures JavaTypeSignature(ClassType("p", [Owner("Outer", true, [Variable("T", false)])], "Inner", true, [Variable("U", false)], false),
                              Nullable)
      == Ok("L0p/Outer<TT;>.Inner<TU;>;")
  {
    var owner := Owner("Outer", true, [Variable("T", false)]);
    assert TypeArgumentSignature(Variable("T", false)) == Ok("T" + "" + "T" + ";");
    assert TypeArgumentSignature(Variable("U", false)) == Ok("T" + "" + "U" + ";");
    assert OwnersSignature([owner]) == Ok("Outer" + ("<" + ("T" + "" + "T" + ";") + ">") + ".") by {
      OneTypeArgument(Variable("T", false));
      OneOwner(owner);
    }
    assert PackageSpecifier("p") == "p/";
    assert JavaTypeSignature(ClassType("p", [owner], "Inner", true, [Variable("U", false)], false), Nullable)
      == Ok("L" + "0" + ("p/" + ("Outer" + ("<" + ("T" + "" + "T" + ";") + ">") + ".")
             + ("Inner" + ("<" + ("T" + "" + "U" + ";") + ">")) + ";")) by {
      GenericClass("p", [owner], "Inner", Variable("U", false), false, Nullable);
    }
    NestedText();
  }

  lemma NestedText()
    ensures "L" + "0" + ("p/" + ("Outer" + ("<" + ("T" + "" + "T" + ";") + ">") + ".")
             + ("Inner" + ("<" + ("T" + "" + "U" + ";") + ">")) + ";") == "L0p/Outer<TT;>.Inner<TU;>;"
  {
  }

  /** A wildcard with a lower bound and an upper bound other than Object cannot be written. */
  lemma LowerBoundNeedsObject()
    ensures TypeArgumentSignature(Wildcard([InterfaceI], [ClassC])).Failure?
  {
  }
}
