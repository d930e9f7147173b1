/**
 * `MethodSignatureWriter` as the source writes it: every `append*` method appends to a shared output step by step,
 * looping over owners, type arguments, parameters and bounds. Each method is proved to append exactly the text
 * of the matching function of `Signatures`, and to fail exactly when that function fails. After a failure the
 * output holds whatever was appended before the exception; only that it grew is promised.
 */
module SignatureWriter {
  import opened Wrappers
  import opened Strings
  import opened TypeModel
  import opened NullnessValue
  import opened Nullability
  import opened Signatures

  /** The `Appendable` a writer appends to (a `StringBuilder` in every caller). */
  class TextBuffer {
    var text: string

    constructor()
      ensures text == ""
    {
      text := "";
    }

    method Append(s: string)
      modifies this
      ensures text == old(text) + s
    {
      text := text + s;
    }
  }

  class MethodSignatureWriter {
    /** The provider asked for the nullness of each parameter and return value. */
    const nullability: Provider

    constructor(nullability: Provider)
      ensures this.nullability == nullability
    {
      this.nullability := nullability;
    }

    method AppendJavaTypeSignature(t: Generic, n: Nullness, output: TextBuffer) returns (ok: bool)
      modifies output
      decreases t, 3
      ensures old(output.text) <= output.text
      ensures ok == JavaTypeSignature(t, n).Ok?
      ensures ok ==> output.text == old(output.text) + JavaTypeSignature(t, n).value
    {
      if t.Primitive? {
        AppendBaseType(t, output);
        ok := true;
      } else {
        ok := AppendReferenceTypeSignature(t, n, output);
      }
    }

    method AppendBaseType(t: Generic, output: TextBuffer)
      requires t.Primitive?
      modifies output
      ensures output.text == old(output.text) + JavaTypeSignature(t, Undefined).value
    {
      output.Append([t.descriptor]);
    }

    method AppendReferenceTypeSignature(t: Generic, n: Nullness, output: TextBuffer) returns (ok: bool)
      modifies output
      decreases t, 2
      ensures old(output.text) <= output.text
      ensures ok == ReferenceTypeSignature(t, n).Ok?
      ensures ok ==> output.text == old(output.text) + ReferenceTypeSignature(t, n).value
    {
      if t.Array? {
        ok := AppendArrayTypeSignature(t, n, output);
      } else if t.Variable? {
        AppendTypeVariableSignature(t, n, output);
        ok := true;
      } else {
        ok := AppendClassTypeSignature(t, n, output);
      }
    }

    method AppendClassTypeSignature(t: Generic, n: Nullness, output: TextBuffer) returns (ok: bool)
      modifies output
      decreases t, 1
      ensures old(output.text) <= output.text
      ensures ok == ClassTypeSignature(t, n).Ok?
      ensures ok ==> output.text == old(output.text) + ClassTypeSignature(t, n).value
    {
      output.Append("L" + n.Marker());
      if !t.ClassType? {
        return false;
      }
      ClassTypeSignatureParts(t, n);
      ok := AppendClassTypeBody(t, output);
      if ok {
        ConcatAssoc(old(output.text), "L" + n.Marker(), ClassTypeBody(t).value);
      }
    }

    /** The rest of `appendClassTypeSignature`: package specifier, owners, the type's own simple signature, ';'. */
    method AppendClassTypeBody(t: Generic, output: TextBuffer) returns (ok: bool)
      requires t.ClassType?
      modifies output
      decreases t, 0
      ensures old(output.text) <= output.text
      ensures ok == ClassTypeBody(t).Ok?
      ensures ok ==> output.text == old(output.text) + ClassTypeBody(t).value
    {
      ClassTypeSignatureParts(t, Undefined);
      var package := if t.packageName == "" then "" else PackageSpecifier(t.packageName);
      if t.packageName != "" {
        AppendPackageSpecifier(t.packageName, output);
      }
      ok := AppendOwners(t.owners, output);
      if !ok {
        return;
      }
      var owners := OwnersSignature(t.owners).value;
      ok := AppendSimpleClassTypeSignature(t.simpleName, t.parameterized, t.arguments, output);
      if ok {
        var simple := SimpleClassTypeSignature(t.simpleName, t.parameterized, t.arguments).value;
        output.Append(";");
        ConcatAssoc4(old(output.text), package, owners, simple, ";");
      }
    }

    /** The owner loop of `appendClassTypeSignature`: each owner, outermost first, followed by '.'. */
    method AppendOwners(owners: seq<Owner>, output: TextBuffer) returns (ok: bool)
      modifies output
      decreases owners, 3
      ensures old(output.text) <= output.text
      ensures ok == OwnersSignature(owners).Ok?
      ensures ok ==> output.text == old(output.text) + OwnersSignature(owners).value
    {
      var k := 0;
      while k < |owners|
        invariant 0 <= k <= |owners|
        invariant OwnersSignature(owners[..k]).Ok?
        invariant output.text == old(output.text) + OwnersSignature(owners[..k]).value
      {
        var owner := owners[k];
        assert owners[..k + 1][..k] == owners[..k];
        ok := AppendSimpleClassTypeSignature(owner.simpleName, owner.parameterized, owner.arguments, output);
        if !ok {
          OwnersFailurePropagates(owners, k + 1);
          return;
        }
        output.Append(".");
        ConcatAssoc(old(output.text), OwnersSignature(owners[..k]).value,
          SimpleClassTypeSignature(owner.simpleName, owner.parameterized, owner.arguments).value);
        ConcatAssoc(old(output.text), OwnersSignature(owners[..k]).value
          + SimpleClassTypeSignature(owner.simpleName, owner.parameterized, owner.arguments).value, ".");
        k := k + 1;
      }
      assert owners[..k] == owners;
      ok := true;
    }

    method AppendSimpleClassTypeSignature(simpleName: string, parameterized: bool, arguments: seq<Generic>, output: TextBuffer)
      returns (ok: bool)
      modifies output
      decreases arguments, 2
      ensures old(output.text) <= output.text
      ensures ok == SimpleClassTypeSignature(simpleName, parameterized, arguments).Ok?
      ensures ok ==> output.text == old(output.text) + SimpleClassTypeSignature(simpleName, parameterized, arguments).value
    {
      output.Append(simpleName);
      ok := true;
      if parameterized {
        ok := AppendTypeArguments(arguments, output);
      }
    }

    method AppendTypeArguments(arguments: seq<Generic>, output: TextBuffer) returns (ok: bool)
      modifies output
      decreases arguments, 1
      ensures old(output.text) <= output.text
      ensures ok == TypeArgumentsSignature(arguments).Ok?
      ensures ok ==> output.text == old(output.text) + TypeArgumentsSignature(arguments).value
    {
      output.Append("<");
      var start := output.text;
      var k := 0;
      while k < |arguments|
        invariant 0 <= k <= |arguments|
        invariant start <= output.text
        invariant TypeArgumentList(arguments[..k]).Ok?
        invariant output.text == start + TypeArgumentList(arguments[..k]).value
      {
        assert arguments[..k + 1][..k] == arguments[..k];
        ok := AppendTypeArgument(arguments[k], output);
        if !ok {
          ArgumentsFailurePropagates(arguments, k + 1);
          return;
        }
        k := k + 1;
      }
      assert arguments[..k] == arguments;
      output.Append(">");
      ok := true;
    }

    method AppendTypeArgument(argument: Generic, output: TextBuffer) returns (ok: bool)
      modifies output
      decreases argument, 4
      ensures old(output.text) <= output.text
      ensures ok == TypeArgumentSignature(argument).Ok?
      ensures ok ==> output.text == old(output.text) + TypeArgumentSignature(argument).value
    {
      if argument.Wildcard? {
        var lower, upper := argument.lowerBounds, argument.upperBounds;
        if |lower| > 0 {
          if |upper| != 1 || upper[0] != JavaLangObject {
            return false;
          }
          output.Append("-");
          ok := AppendReferenceTypeSignature(lower[0], Undefined, output);
        } else if |upper| > 0 {
          if |upper| > 1 {
            return false;
          }
          if upper[0] == JavaLangObject {
            output.Append("*");
            ok := true;
          } else {
            output.Append("+");
            ok := AppendReferenceTypeSignature(upper[0], Undefined, output);
          }
        } else {
          ok := true;
        }
      } else {
        ok := AppendReferenceTypeSignature(argument, Undefined, output);
      }
    }

    method AppendPackageSpecifier(packageName: string, output: TextBuffer)
      modifies output
      ensures output.text == old(output.text) + PackageSpecifier(packageName)
    {
      output.Append(ReplaceChar(packageName, '.', '/'));
      output.Append("/");
    }

    method AppendTypeVariableSignature(t: Generic, n: Nullness, output: TextBuffer)
      requires t.Variable?
      modifies output
      ensures output.text == old(output.text) + TypeVariableSignature(t, n).value
    {
      output.Append("T" + n.Marker());
      output.Append(t.symbol);
      output.Append(";");
    }

    method AppendArrayTypeSignature(t: Generic, n: Nullness, output: TextBuffer) returns (ok: bool)
      requires t.Array?
      modifies output
      decreases t, 1
      ensures old(output.text) <= output.text
      ensures ok == ArrayTypeSignature(t, n).Ok?
      ensures ok ==> output.text == old(output.text) + ArrayTypeSignature(t, n).value
    {
      output.Append("[" + n.Marker());
      ok := AppendJavaTypeSignature(t.component, Undefined, output);
    }

    /** `appendMethodSignature`: asks this writer's provider for each position's nullness. */
    method AppendMethodSignature(m: MethodDescription, output: TextBuffer) returns (ok: bool)
      modifies output
      ensures old(output.text) <= output.text
      ensures ok == MethodSignature(m, nullability).Ok?
      ensures ok ==> output.text == old(output.text) + MethodSignature(m, nullability).value
    {
      var typeParameters := if |m.typeVariables| > 0 then TypeParametersSignature(m.typeVariables) else Ok("");
      if |m.typeVariables| > 0 {
        ok := AppendTypeParameters(m.typeVariables, output);
        if !ok {
          return;
        }
      }
      output.Append("(");
      var start := output.text;
      ok := AppendParameters(m, output);
      if !ok {
        return;
      }
      output.Append(")");
      var n := GetReturnValueNullability(nullability, m);
      ok := AppendJavaTypeSignature(m.returnType, n, output);
      if ok {
        var parameters := ParameterList(m, nullability, |m.parameters|).value;
        var returnType := JavaTypeSignature(m.returnType, n).value;
        assert output.text == old(output.text) + typeParameters.value + "(" + parameters + ")" + returnType;
        ConcatAssoc4(old(output.text) + typeParameters.value, "(", parameters, ")", returnType);
        ConcatAssoc(old(output.text), typeParameters.value, "(" + parameters + ")" + returnType);
        ConcatAssoc4(typeParameters.value, "(", parameters, ")", returnType);
      }
    }

    /** The parameter loop of `appendMethodSignature`: each parameter marked with the provider's answer for it. */
    method AppendParameters(m: MethodDescription, output: TextBuffer) returns (ok: bool)
      modifies output
      ensures old(output.text) <= output.text
      ensures ok == ParameterList(m, nullability, |m.parameters|).Ok?
      ensures ok ==> output.text == old(output.text) + ParameterList(m, nullability, |m.parameters|).value
    {
      var k := 0;
      while k < |m.parameters|
        invariant 0 <= k <= |m.parameters|
        invariant ParameterList(m, nullability, k).Ok?
        invariant output.text == old(output.text) + ParameterList(m, nullability, k).value
      {
        var n := GetParameterNullability(nullability, m, k);
        ok := AppendJavaTypeSignature(m.parameters[k].parameterType, n, output);
        if !ok {
          ParametersFailurePropagates(m, nullability, k + 1);
          return;
        }
        ConcatAssoc(old(output.text), ParameterList(m, nullability, k).value,
          JavaTypeSignature(m.parameters[k].parameterType, n).value);
        k := k + 1;
      }
      ok := true;
    }

    method AppendTypeParameters(parameters: seq<TypeParameter>, output: TextBuffer) returns (ok: bool)
      modifies output
      ensures old(output.text) <= output.text
      ensures ok == TypeParametersSignature(parameters).Ok?
      ensures ok ==> output.text == old(output.text) + TypeParametersSignature(parameters).value
    {
      output.Append("<");
      var start := output.text;
      var k := 0;
      while k < |parameters|
        invariant 0 <= k <= |parameters|
        invariant TypeParameterList(parameters[..k]).Ok?
        invariant output.text == start + TypeParameterList(parameters[..k]).value
      {
        assert parameters[..k + 1][..k] == parameters[..k];
        ok := AppendTypeParameter(parameters[k], output);
        if !ok {
          assert !TypeParameterSignature(parameters[k]).Ok?;
          return;
        }
        ConcatAssoc(start, TypeParameterList(parameters[..k]).value, TypeParameterSignature(parameters[k]).value);
        k := k + 1;
      }
      assert parameters[..k] == parameters;
      output.Append(">");
      ConcatAssoc(old(output.text), "<", TypeParameterList(parameters).value);
      ok := true;
    }

    method AppendTypeParameter(parameter: TypeParameter, output: TextBuffer) returns (ok: bool)
      modifies output
      ensures old(output.text) <= output.text
      ensures ok == TypeParameterSignature(parameter).Ok?
      ensures ok ==> output.text == old(output.text) + TypeParameterSignature(parameter).value
    {
      output.Append(parameter.symbol);
      var bounds := parameter.upperBounds;
      if |bounds| == 0 {
        return false;
      }
      var colon := if IsInterface(bounds[0]) then ":" else "";
      if IsInterface(bounds[0]) {
        output.Append(":");
      }
      TypeParameterSignatureParts(parameter);
      ok := AppendBounds(bounds, output);
      if ok {
        ConcatAssoc(old(output.text), parameter.symbol + colon, BoundList(bounds).value);
        ConcatAssoc(parameter.symbol, colon, BoundList(bounds).value);
      }
    }

    /** The bound loop of `appendTypeParameter`: ':' and each bound. */
    method AppendBounds(bounds: seq<Generic>, output: TextBuffer) returns (ok: bool)
      modifies output
      ensures old(output.text) <= output.text
      ensures ok == BoundList(bounds).Ok?
      ensures ok ==> output.text == old(output.text) + BoundList(bounds).value
    {
      var k := 0;
      while k < |bounds|
        invariant 0 <= k <= |bounds|
        invariant BoundList(bounds[..k]).Ok?
        invariant output.text == old(output.text) + BoundList(bounds[..k]).value
      {
        assert bounds[..k + 1][..k] == bounds[..k];
        ok := AppendClassOrInterfaceBound(bounds[k], output);
        if !ok {
          BoundsFailurePropagates(bounds, k + 1);
          return;
        }
        ConcatAssoc(old(output.text), BoundList(bounds[..k]).value, ":");
        ConcatAssoc(old(output.text), BoundList(bounds[..k]).value + ":", ReferenceTypeSignature(bounds[k], Undefined).value);
        k := k + 1;
      }
      assert bounds[..k] == bounds;
      ok := true;
    }

    method AppendClassOrInterfaceBound(bound: Generic, output: TextBuffer) returns (ok: bool)
      modifies output
      ensures old(output.text) <= output.text
      ensures ok == ReferenceTypeSignature(bound, Undefined).Ok?
      ensures ok ==> output.text == old(output.text) + ":" + ReferenceTypeSignature(bound, Undefined).value
    {
      output.Append(":");
      ok := AppendReferenceTypeSignature(bound, Undefined, output);
    }
  }

  /** A class type signature is 'L', the marker, then its body: package, owners, simple signature and ';'. */
  lemma ClassTypeSignatureParts(t: Generic, n: Nullness)
    requires t.ClassType?
    ensures ClassTypeSignature(t, n).Ok? <==> ClassTypeBody(t).Ok?
    ensures ClassTypeBody(t).Ok?
        <==> OwnersSignature(t.owners).Ok? && SimpleClassTypeSignature(t.simpleName, t.parameterized, t.arguments).Ok?
    ensures ClassTypeSignature(t, n).Ok? ==> ClassTypeSignature(t, n).value == "L" + n.Marker() + ClassTypeBody(t).value
    ensures ClassTypeBody(t).Ok? ==>
      ClassTypeBody(t).value
        == (if t.packageName == "" then "" else PackageSpecifier(t.packageName))
           + OwnersSignature(t.owners).value + SimpleClassTypeSignature(t.simpleName, t.parameterized, t.arguments).value + ";"
  {
  }

  /** A type parameter signature is its symbol, the interface ':' if any, then its bound list. */
  lemma TypeParameterSignatureParts(parameter: TypeParameter)
    ensures TypeParameterSignature(parameter).Ok? <==> |parameter.upperBounds| > 0 && BoundList(parameter.upperBounds).Ok?
    ensures TypeParameterSignature(parameter).Ok? ==>
      TypeParameterSignature(parameter).value
        == parameter.symbol + (if IsInterface(parameter.upperBounds[0]) then ":" else "") + BoundList(parameter.upperBounds).value
  {
  }

  /** Once an owner fails, every longer owner list fails. */
  lemma {:induction false} OwnersFailurePropagates(owners: seq<Owner>, k: nat)
    requires 0 < k <= |owners|
    requires !OwnersSignature(owners[..k]).Ok?
    ensures !OwnersSignature(owners).Ok?
    decreases |owners| - k
  {
    if k < |owners| {
      assert owners[..k + 1][..k] == owners[..k];
      if k + 1 < |owners| {
        OwnersFailurePropagates(owners, k + 1);
      } else {
        assert owners[..k + 1] == owners;
      }
    } else {
      assert owners[..k] == owners;
    }
  }

  /** Once a type argument fails, every longer argument list fails. */
  lemma {:induction false} ArgumentsFailurePropagates(arguments: seq<Generic>, k: nat)
    requires 0 < k <= |arguments|
    requires !TypeArgumentList(arguments[..k]).Ok?
    ensures !TypeArgumentList(arguments).Ok?
    decreases |arguments| - k
  {
    if k < |arguments| {
      assert arguments[..k + 1][..k] == arguments[..k];
      if k + 1 < |arguments| {
        ArgumentsFailurePropagates(arguments, k + 1);
      } else {
        assert arguments[..k + 1] == arguments;
      }
    } else {
      assert arguments[..k] == arguments;
    }
  }

  /** Once a bound fails, every longer bound list fails. */
  lemma {:induction false} BoundsFailurePropagates(bounds: seq<Generic>, k: nat)
    requires 0 < k <= |bounds|
    requires !BoundList(bounds[..k]).Ok?
    ensures !BoundList(bounds).Ok?
    decreases |bounds| - k
  {
    if k < |bounds| {
      assert bounds[..k + 1][..k] == bounds[..k];
      if k + 1 < |bounds| {
        BoundsFailurePropagates(bounds, k + 1);
      } else {
        assert bounds[..k + 1] == bounds;
      }
    } else {
      assert bounds[..k] == bounds;
    }
  }

  /** Once a parameter fails, the whole parameter list fails. */
  lemma {:induction false} ParametersFailurePropagates(m: MethodDescription, p: Provider, k: nat)
    requires 0 < k <= |m.parameters|
    requires !ParameterList(m, p, k).Ok?
    ensures !ParameterList(m, p, |m.parameters|).Ok?
    decreases |m.parameters| - k
  {
    if k < |m.parameters| {
      ParametersFailurePropagates(m, p, k + 1);
    }
  }
}
