/**
 * The signature grammar written by `MethodSignatureWriter` (generic signatures as in section 4.7.9.1 of the
 * Java Virtual Machine Specification, Java SE 8, extended with Eclipse's nullness markers), as functions from a
 * type shape to the text the writer appends. `Failure` stands for the exceptions the writer throws.
 */
module Signatures {
  import opened Wrappers
  import opened Strings
  import opened TypeModel
  import opened NullnessValue
  import opened Nullability

  /** `appendPackageSpecifier`: the package name with '.' replaced by '/', then a trailing '/'. */
  function PackageSpecifier(packageName: string): (r: string)
    ensures |r| == |packageName| + 1 && r[|r| - 1] == '/'
    ensures forall i :: 0 <= i < |packageName| ==> r[i] != '.' && (packageName[i] != '.' ==> r[i] == packageName[i])
  {
    ReplaceChar(packageName, '.', '/') + "/"
  }

  /** `appendJavaTypeSignature`: a primitive is its bare descriptor, anything else a reference type signature. */
  function JavaTypeSignature(t: Generic, n: Nullness): (r: Result<string>)
    decreases t, 3
    ensures t.Primitive? ==> r == Ok([t.descriptor])
    ensures r.Ok? ==> |r.value| >= 1
  {
    if t.Primitive? then Ok([t.descriptor]) else ReferenceTypeSignature(t, n)
  }

  /** `appendReferenceTypeSignature`: arrays, type variables, and everything else as a class type. */
  function ReferenceTypeSignature(t: Generic, n: Nullness): (r: Result<string>)
    decreases t, 2
    ensures r.Ok? ==> |r.value| >= 2 && r.value[0] == LeadCharacter(t)
  {
    match t
    case Array(_) => ArrayTypeSignature(t, n)
    case Variable(_, _) => TypeVariableSignature(t, n)
    case _ => ClassTypeSignature(t, n)
  }

  /** The character that opens a reference type signature, after which the marker goes. */
  function LeadCharacter(t: Generic): char {
    match t
    case Array(_) => '['
    case Variable(_, _) => 'T'
    case _ => 'L'
  }

  /** `appendArrayTypeSignature`: '[', the marker, then the component rendered without a marker. */
  function ArrayTypeSignature(t: Generic, n: Nullness): (r: Result<string>)
    requires t.Array?
    decreases t, 1
    ensures r.Ok? <==> JavaTypeSignature(t.component, Undefined).Ok?
    ensures r.Ok? ==> |r.value| >= 2 && r.value[0] == '['
  {
    var component :- JavaTypeSignature(t.component, Undefined);
    Ok("[" + n.Marker() + component)
  }

  /** `appendTypeVariableSignature`: 'T', the marker, the variable's name and ';'. It cannot fail. */
  function TypeVariableSignature(t: Generic, n: Nullness): (r: Result<string>)
    requires t.Variable?
    ensures r.Ok? && |r.value| == 2 + |n.Marker()| + |t.symbol|
    ensures r.value[0] == 'T' && r.value[|r.value| - 1] == ';'
  {
    Ok("T" + n.Marker() + t.symbol + ";")
  }

  /**
   * `appendClassTypeSignature`: 'L', the marker, the package specifier (left out for the unnamed package), each
   * owner outermost first followed by '.', the type's own simple signature, then ';'. A primitive or a wildcard
   * has no class erasure to read a package from, which the source reports as an exception.
   */
  function ClassTypeSignature(t: Generic, n: Nullness): (r: Result<string>)
    decreases t, 1
    ensures r.Ok? ==> t.ClassType? && |r.value| >= 2 && r.value[0] == 'L' && r.value[|r.value| - 1] == ';'
  {
    if !t.ClassType? then Failure
    else
      var body :- ClassTypeBody(t);
      Ok("L" + n.Marker() + body)
  }

  /** What follows the marker in a class type signature: package specifier, owners, simple signature, ';'. */
  function ClassTypeBody(t: Generic): (r: Result<string>)
    requires t.ClassType?
    decreases t, 0
    ensures r.Ok? ==> |r.value| >= 1 && r.value[|r.value| - 1] == ';'
  {
    var owners :- OwnersSignature(t.owners);
    var simple :- SimpleClassTypeSignature(t.simpleName, t.parameterized, t.arguments);
    Ok((if t.packageName == "" then "" else PackageSpecifier(t.packageName)) + owners + simple + ";")
  }

  /** The owners part of a class type signature: each owner's simple signature followed by '.'. */
  function OwnersSignature(owners: seq<Owner>): (r: Result<string>)
    decreases owners, 0
  {
    if owners == [] then Ok("")
    else
      var last := owners[|owners| - 1];
      var init :- OwnersSignature(owners[..|owners| - 1]);
      var simple :- SimpleClassTypeSignature(last.simpleName, last.parameterized, last.arguments);
      Ok(init + simple + ".")
  }

  /** `appendSimpleClassTypeSignature`: the simple name, then the type arguments only if parameterized. */
  function SimpleClassTypeSignature(simpleName: string, parameterized: bool, arguments: seq<Generic>): (r: Result<string>)
    decreases arguments, 2
    ensures !parameterized ==> r == Ok(simpleName)
  {
    if parameterized then
      var args :- TypeArgumentsSignature(arguments);
      Ok(simpleName + args)
    else Ok(simpleName)
  }

  /** `appendTypeArguments`: '<', each argument, '>'. */
  function TypeArgumentsSignature(arguments: seq<Generic>): (r: Result<string>)
    decreases arguments, 1
    ensures r.Ok? ==> |r.value| >= 2 && r.value[0] == '<' && r.value[|r.value| - 1] == '>'
  {
    var body :- TypeArgumentList(arguments);
    Ok("<" + body + ">")
  }

  /** The arguments between '<' and '>', one after the other. */
  function TypeArgumentList(arguments: seq<Generic>): (r: Result<string>)
    decreases arguments, 0
  {
    if arguments == [] then Ok("")
    else
      var init :- TypeArgumentList(arguments[..|arguments| - 1]);
      var last :- TypeArgumentSignature(arguments[|arguments| - 1]);
      Ok(init + last)
  }

  /**
   * `appendTypeArgument`: a wildcard with a lower bound is '-' and its first lower bound (its upper bound must be
   * exactly Object); otherwise a wildcard with one upper bound is '*' for Object and '+' and the bound for any
   * other; a wildcard with several upper bounds fails; a wildcard with no bounds writes nothing. Any other
   * argument is a reference type signature. Bounds and arguments never carry a marker.
   */
  function TypeArgumentSignature(argument: Generic): (r: Result<string>)
    decreases argument, 4
  {
    match argument
    case Wildcard(upper, lower) =>
      if |lower| > 0 then
        if |upper| != 1 || upper[0] != JavaLangObject then Failure
        else
          var bound :- ReferenceTypeSignature(lower[0], Undefined);
          Ok("-" + bound)
      else if |upper| > 0 then
        if |upper| > 1 then Failure
        else if upper[0] == JavaLangObject then Ok("*")
        else
          var bound :- ReferenceTypeSignature(upper[0], Undefined);
          Ok("+" + bound)
      else Ok("")
    case _ => ReferenceTypeSignature(argument, Undefined)
  }

  /** `appendTypeParameters`: '<', each type parameter, '>'. */
  function TypeParametersSignature(parameters: seq<TypeParameter>): (r: Result<string>)
    ensures r.Ok? ==> |r.value| >= 2 && r.value[0] == '<' && r.value[|r.value| - 1] == '>'
    ensures r.Ok? <==> forall k :: 0 <= k < |parameters| ==> TypeParameterSignature(parameters[k]).Ok?
  {
    var body :- TypeParameterList(parameters);
    Ok("<" + body + ">")
  }

  /** The type parameters between '<' and '>', one after the other. */
  function TypeParameterList(parameters: seq<TypeParameter>): (r: Result<string>)
    ensures r.Ok? <==> forall k :: 0 <= k < |parameters| ==> TypeParameterSignature(parameters[k]).Ok?
  {
    if parameters == [] then Ok("")
    else
      var init :- TypeParameterList(parameters[..|parameters| - 1]);
      var last :- TypeParameterSignature(parameters[|parameters| - 1]);
      Ok(init + last)
  }

  /**
   * `appendTypeParameter`: the symbol, an extra ':' when the first bound is an interface, then ':' and the
   * bound for each bound. A type parameter without bounds fails.
   */
  function TypeParameterSignature(parameter: TypeParameter): (r: Result<string>)
    ensures |parameter.upperBounds| == 0 ==> r.Failure?
  {
    var bounds := parameter.upperBounds;
    if |bounds| == 0 then Failure
    else
      var list :- BoundList(bounds);
      Ok(parameter.symbol + (if IsInterface(bounds[0]) then ":" else "") + list)
  }

  /** `appendClassOrInterfaceBound` for each bound: ':' and the bound, without a marker. */
  function BoundList(bounds: seq<Generic>): (r: Result<string>)
    ensures r.Ok? ==> |r.value| >= 3 * |bounds|
  {
    if bounds == [] then Ok("")
    else
      var init :- BoundList(bounds[..|bounds| - 1]);
      var last :- ReferenceTypeSignature(bounds[|bounds| - 1], Undefined);
      Ok(init + ":" + last)
  }

  /**
   * `appendMethodSignature` of a writer holding provider `p`: the type parameters only when the method declares
   * type variables, then '(' and each parameter marked with `p`'s parameter answer, ')', and the return type
   * marked with `p`'s return answer.
   */
  function MethodSignature(m: MethodDescription, p: Provider): (r: Result<string>)
  {
    var typeParameters :- if |m.typeVariables| > 0 then TypeParametersSignature(m.typeVariables) else Ok("");
    var parameters :- ParameterList(m, p, |m.parameters|);
    var returnType :- JavaTypeSignature(m.returnType, ReturnNullness(p, m));
    Ok(typeParameters + "(" + parameters + ")" + returnType)
  }

  /** The first `k` parameters of `m`, each marked with `p`'s answer for it. */
  function ParameterList(m: MethodDescription, p: Provider, k: nat): (r: Result<string>)
    requires k <= |m.parameters|
  {
    if k == 0 then Ok("")
    else
      var init :- ParameterList(m, p, k - 1);
      var last :- JavaTypeSignature(m.parameters[k - 1].parameterType, ParameterNullness(p, m, k - 1));
      Ok(init + last)
  }

  /** `getMangledName`: the canonical name with '.' replaced by '/'. */
  function MangledName(canonicalName: string): (r: string)
    ensures |r| == |canonicalName|
    ensures forall i :: 0 <= i < |r| ==> r[i] != '.'
  {
    ReplaceChar(canonicalName, '.', '/')
  }
}
