/**
 * The type metadata the external-annotation generator reads: the parts of ByteBuddy's type, method and
 * parameter descriptions that the signature writer, the nullability providers and the jar writer consult.
 * Scanning class files into these values is done by a reader that is not part of this model.
 */
module TypeModel {
  import opened Wrappers

  /** A generic type shape (`TypeDescription.Generic`). */
  datatype Generic =
    | /** A primitive type or `void`, with its one-letter descriptor (`I`, `Z`, `V`, ...). */
      Primitive(descriptor: char)
    | /** An array type and its component type. */
      Array(component: Generic)
    | /** A (possibly parameterized) class or interface type. `packageName` is dotted and empty for the
          unnamed package; `owners` lists the enclosing types outermost first; `parameterized` is ByteBuddy's
          `Sort.PARAMETERIZED`, the only case in which `arguments` are written. */
      ClassType(packageName: string, owners: seq<Owner>, simpleName: string,
                parameterized: bool, arguments: seq<Generic>, isInterface: bool)
    | /** A type variable used as a type. `erasureIsInterface` is what ByteBuddy's `isInterface()` answers for
          it: whether its erasure, the erasure of its first bound, is an interface. */
      Variable(symbol: string, erasureIsInterface: bool)
    | /** A wildcard type argument with its upper and lower bounds. */
      Wildcard(upperBounds: seq<Generic>, lowerBounds: seq<Generic>)

  /** An enclosing type of a class type: only its simple name and its type arguments are ever written. */
  datatype Owner = Owner(simpleName: string, parameterized: bool, arguments: seq<Generic>)

  /** A declared type variable with its upper bounds (`<S extends A & B>`). */
  datatype TypeParameter = TypeParameter(symbol: string, upperBounds: seq<Generic>)

  /** A package with the names of the annotation types declared on it. */
  datatype PackageDescription = PackageDescription(name: string, annotations: seq<string>)

  /** A method parameter with the names of its declared annotation types, in declaration order. */
  datatype ParameterDescription = ParameterDescription(annotations: seq<string>, parameterType: Generic)

  /**
   * A declared method. `description` is the method's `toString()` text, which the error messages quote;
   * `declaringPackage` is the package of the erasure of the method's declaring type.
   */
  datatype MethodDescription = MethodDescription(
    name: string,
    description: string,
    declaringPackage: PackageDescription,
    typeVariables: seq<TypeParameter>,
    parameters: seq<ParameterDescription>,
    returnType: Generic,
    annotations: seq<string>)

  /** The erasure of a class or of a supertype: its internal name (`a/b/C`) and its declared type variables. */
  datatype Erasure = Erasure(internalName: string, typeVariables: seq<TypeParameter>)

  /**
   * A type read from a JAR. `name` is its binary name (`a.b.C`, also its `getTypeName()`); only the erasures
   * of the superclass and the interfaces are ever written, so that is all that is kept of them.
   */
  datatype TypeDescription = TypeDescription(
    name: string,
    erasure: Erasure,
    superClass: Option<Erasure>,
    interfaces: seq<Erasure>,
    methods: seq<MethodDescription>)

  /** `java.lang.Object` as a generic type; `represents(Object.class)` is equality with it. */
  const JavaLangObject: Generic := ClassType("java.lang", [], "Object", false, [], false)

  const ObjectInternalName: string := "java/lang/Object"

  predicate IsPrimitive(t: Generic) {
    t.Primitive?
  }

  /**
   * `Generic.isInterface()`, which asks the erasure: a class or interface type answers for itself, a type
   * variable for its erasure; primitives and arrays are never interfaces.
   */
  predicate IsInterface(t: Generic) {
    (t.ClassType? && t.isInterface) || (t.Variable? && t.erasureIsInterface)
  }
}
