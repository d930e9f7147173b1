/**
 * `AnnotationsJarWriter`: for each type read from a JAR, the text of an Eclipse external-annotations file
 * (`.eea`). The text is a header line per type and supertype with its type-parameter lines, then a three-line
 * record for every method whose plain signature differs from its annotated one. An archive entry is added only
 * when some pair of lines differs. The archive is modelled as the list of entries added to it.
 */
module JarWriter {
  import opened Wrappers
  import opened Strings
  import opened TypeModel
  import opened NullnessValue
  import opened Nullability
  import opened Signatures
  import opened SignatureLaws
  import opened SignatureWriter

  /** An entry of the annotations archive: its path and its text. */
  datatype Entry = Entry(name: string, text: string)

  /** Text appended by one part of `write`, and whether that part found nullness information. */
  datatype Part = Part(text: string, annotated: bool)

  /** What the method loop appends, whether it found nullness information, and the errors it reported. */
  datatype MethodsPart = MethodsPart(text: string, annotated: bool, errors: seq<string>)

  /** What `write` produces for one type: the flag it returns, the entry text and the reported errors. */
  datatype TypeOutcome = TypeOutcome(annotated: bool, text: string, errors: seq<string>)

  // ---------------------------------------------------------------------------------------------------------
  // Specification

  /**
   * `appendTypeParameters`: the plain writer's line, then the annotated writer's line. Type parameters are
   * rendered without asking the provider, so both writers produce the same text and the lines never differ.
   */
  function TypeParameterLines(typeVariables: seq<TypeParameter>): (r: Result<Part>)
    ensures r.Ok? <==> TypeParametersSignature(typeVariables).Ok?
    ensures r.Ok? ==> !r.value.annotated
    ensures r.Ok? ==> r.value.text == TypeParametersSignature(typeVariables).value + "\n"
                                      + TypeParametersSignature(typeVariables).value + "\n"
  {
    var plain := TypeParametersSignature(typeVariables);
    var annotated := TypeParametersSignature(typeVariables);
    if plain.Failure? || annotated.Failure? then Failure
    else Ok(Part(plain.value + "\n" + annotated.value + "\n", plain.value != annotated.value))
  }

  /** `appendTypeSignature`: the line "role internalName", then the type-parameter lines when the erasure
      declares type variables. */
  function TypeHeader(role: string, e: Erasure): (r: Result<Part>)
    ensures |e.typeVariables| == 0 ==> r.Ok?
    ensures r.Ok? ==> !r.value.annotated
    ensures r.Ok? ==> role + " " + e.internalName + "\n" <= r.value.text
  {
    var line := role + " " + e.internalName + "\n";
    if |e.typeVariables| == 0 then Ok(Part(line, false))
    else
      var lines :- TypeParameterLines(e.typeVariables);
      Ok(Part(line + lines.text, lines.annotated))
  }

  /**
   * `appendTypeArguments` as written: both lines come from the plain writer, and the flag is set when they are
   * equal, so it reports nullness information exactly when there is none to report.
   */
  function TypeArgumentLinesAsWritten(arguments: seq<Generic>): (r: Result<Part>)
    ensures r.Ok? <==> TypeArgumentsSignature(arguments).Ok?
    ensures r.Ok? ==> r.value.annotated
  {
    var plain := TypeArgumentsSignature(arguments);
    var annotated := TypeArgumentsSignature(arguments);
    if plain.Failure? || annotated.Failure? then Failure
    else Ok(Part(plain.value + "\n" + annotated.value + "\n", plain.value == annotated.value))
  }

  /** `appendTypeArguments` as evidently intended, like `appendTypeParameters`: the flag says the lines differ,
      which they never do, because type arguments are written without a marker. */
  function TypeArgumentLines(arguments: seq<Generic>): (r: Result<Part>)
    ensures r.Ok? <==> TypeArgumentsSignature(arguments).Ok?
    ensures r.Ok? ==> !r.value.annotated
  {
    var plain := TypeArgumentsSignature(arguments);
    var annotated := TypeArgumentsSignature(arguments);
    if plain.Failure? || annotated.Failure? then Failure
    else Ok(Part(plain.value + "\n" + annotated.value + "\n", plain.value != annotated.value))
  }

  /** The superclass is written unless it is absent or `java.lang.Object`. */
  predicate WritesSuperClass(t: TypeDescription) {
    t.superClass.Some? && t.superClass.value.internalName != ObjectInternalName
  }

  /** The header of each interface, in declaration order, each with role "super". */
  function InterfaceHeaders(interfaces: seq<Erasure>): (r: Result<Part>)
    ensures r.Ok? ==> !r.value.annotated
    ensures r.Ok? <==> forall k :: 0 <= k < |interfaces| ==> TypeHeader("super", interfaces[k]).Ok?
  {
    if interfaces == [] then Ok(Part("", false))
    else
      var init :- InterfaceHeaders(interfaces[..|interfaces| - 1]);
      var last :- TypeHeader("super", interfaces[|interfaces| - 1]);
      Ok(Part(init.text + last.text, init.annotated || last.annotated))
  }

  /** The supertype block of `write`: the superclass header if written, then the interface headers. */
  function SuperHeaders(t: TypeDescription): (r: Result<Part>)
    ensures r.Ok? ==> !r.value.annotated
  {
    var superClass :- if WritesSuperClass(t) then TypeHeader("super", t.superClass.value) else Ok(Part("", false));
    var interfaces :- InterfaceHeaders(t.interfaces);
    Ok(Part(superClass.text + interfaces.text, superClass.annotated || interfaces.annotated))
  }

  /** The message of the exception `appendMethodSignature` throws for a method it cannot write. */
  function MethodError(m: MethodDescription): string {
    "Could not write method signature " + m.description
  }

  /** The record of a method whose signatures differ: its name, then the plain and the annotated signature, each
      after a space, each line ending in a newline. */
  function MethodRecord(m: MethodDescription, plain: string, annotated: string): string {
    m.name + "\n" + " " + plain + "\n" + " " + annotated + "\n"
  }

  /**
   * The loop over the first `k` declared methods: a method that cannot be written is reported and skipped; a
   * method whose plain and annotated signatures differ gets its record and sets the flag.
   */
  function MethodRecords(methods: seq<MethodDescription>, p: Provider, k: nat): (r: MethodsPart)
    requires k <= |methods|
    ensures |r.errors| <= k
  {
    if k == 0 then MethodsPart("", false, []) else MethodStep(MethodRecords(methods, p, k - 1), methods[k - 1], p)
  }

  /** One turn of the method loop, on what the earlier turns produced. */
  function MethodStep(prev: MethodsPart, m: MethodDescription, p: Provider): (r: MethodsPart)
    ensures |r.errors| <= |prev.errors| + 1
  {
    var plain := MethodSignature(m, OmitProvider);
    var annotated := MethodSignature(m, p);
    if plain.Failure? || annotated.Failure? then MethodsPart(prev.text, prev.annotated, prev.errors + [MethodError(m)])
    else if plain.value != annotated.value then
      MethodsPart(prev.text + MethodRecord(m, plain.value, annotated.value), true, prev.errors)
    else prev
  }

  /** A part of the method loop's output placed after the text `start`. */
  function After(start: string, part: MethodsPart): MethodsPart {
    part.(text := start + part.text)
  }

  /**
   * `write` of a type with provider `p`: the class header, the supertype block and the method records. A failure
   * in the header or the supertype block fails the whole call, before any method is looked at.
   */
  function WriteType(t: TypeDescription, p: Provider): (r: Result<TypeOutcome>)
    ensures r.Ok? <==> TypeHeader("class", t.erasure).Ok? && SuperHeaders(t).Ok?
    ensures r.Ok? ==> r.value.annotated == MethodRecords(t.methods, p, |t.methods|).annotated
    ensures r.Ok? ==> r.value.errors == MethodRecords(t.methods, p, |t.methods|).errors
  {
    var header :- TypeHeader("class", t.erasure);
    var supers :- SuperHeaders(t);
    var methods := MethodRecords(t.methods, p, |t.methods|);
    Ok(TypeOutcome(header.annotated || supers.annotated || methods.annotated,
                   header.text + supers.text + methods.text, methods.errors))
  }

  /** The entry path of a type: its name with '.' replaced by '/', then ".eea". */
  function EntryName(typeName: string): (r: string)
    ensures |r| == |typeName| + 4 && r[|typeName|..] == ".eea"
    ensures forall i :: 0 <= i < |typeName| ==> r[i] != '.' && (typeName[i] != '.' ==> r[i] == typeName[i])
  {
    ReplaceChar(typeName, '.', '/') + ".eea"
  }

  // ---------------------------------------------------------------------------------------------------------
  // Properties

  /** Method `m` renders and carries a marker under `p`. */
  ghost predicate MarkedMethod(m: MethodDescription, p: Provider) {
    MethodSignature(m, p).Ok? && HasMarkedPosition(m, p)
  }

  /** Some method among the first `k` renders and carries a marker under `p`. */
  ghost predicate SomeMethodMarked(methods: seq<MethodDescription>, p: Provider, k: nat)
    requires k <= |methods|
  {
    exists i :: 0 <= i < k && MarkedMethod(methods[i], p)
  }

  /** The method loop sets the flag exactly when some method renders and carries a marker. */
  lemma {:induction false} MethodRecordsAnnotatedIff(methods: seq<MethodDescription>, p: Provider, k: nat)
    requires k <= |methods|
    ensures MethodRecords(methods, p, k).annotated <==> SomeMethodMarked(methods, p, k)
  {
    if k > 0 {
      MethodRecordsAnnotatedIff(methods, p, k - 1);
      MethodSignatureAgainstPlain(methods[k - 1], p);
      SomeMethodMarkedStep(methods, p, k);
    }
  }

  lemma SomeMethodMarkedStep(methods: seq<MethodDescription>, p: Provider, k: nat)
    requires 0 < k <= |methods|
    ensures SomeMethodMarked(methods, p, k) <==> SomeMethodMarked(methods, p, k - 1) || MarkedMethod(methods[k - 1], p)
  {
    if SomeMethodMarked(methods, p, k) && !MarkedMethod(methods[k - 1], p) {
      var i :| 0 <= i < k && MarkedMethod(methods[i], p);
      assert i < k - 1;
    }
  }

  /**
   * `write` returns true exactly when some declared method renders and carries a marker: the header and
   * supertype lines never differ, so only methods can make a type annotated.
   */
  lemma WriteAnnotatedIff(t: TypeDescription, p: Provider)
    requires WriteType(t, p).Ok?
    ensures WriteType(t, p).value.annotated <==> SomeMethodMarked(t.methods, p, |t.methods|)
  {
    MethodRecordsAnnotatedIff(t.methods, p, |t.methods|);
  }

  /** A provider answers only UNDEFINED or OMIT for every parameter and return value of the methods. */
  predicate AnswersOnlyUnmarked(methods: seq<MethodDescription>, p: Provider) {
    forall k :: 0 <= k < |methods| ==>
      (forall i :: 0 <= i < |methods[k].parameters| ==> ParameterNullness(p, methods[k], i).Marker() == "") &&
      ReturnNullness(p, methods[k]).Marker() == ""
  }

  /** With such a provider the method loop appends nothing and never sets the flag. */
  lemma {:induction false} UnmarkedRecordsEmpty(methods: seq<MethodDescription>, p: Provider, k: nat)
    requires k <= |methods| && AnswersOnlyUnmarked(methods, p)
    ensures MethodRecords(methods, p, k).text == "" && !MethodRecords(methods, p, k).annotated
  {
    if k > 0 {
      UnmarkedRecordsEmpty(methods, p, k - 1);
      UnmarkedProviderRendersPlain(methods[k - 1], p);
    }
  }

  /** Minimality: a provider that answers only UNDEFINED or OMIT makes `write` return false, so no entry is added. */
  lemma WriteMinimal(t: TypeDescription, p: Provider)
    requires AnswersOnlyUnmarked(t.methods, p)
    ensures WriteType(t, p).Ok? ==> !WriteType(t, p).value.annotated
  {
    UnmarkedRecordsEmpty(t.methods, p, |t.methods|);
  }

  /** Method `m` cannot be written, and `e` is its message. */
  ghost predicate FailingMethod(m: MethodDescription, e: string) {
    MethodSignature(m, OmitProvider).Failure? && e == MethodError(m)
  }

  /** Some method among the first `k` cannot be written, and `e` is its message. */
  ghost predicate SomeMethodFails(methods: seq<MethodDescription>, k: nat, e: string)
    requires k <= |methods|
  {
    exists i :: 0 <= i < k && FailingMethod(methods[i], e)
  }

  /**
   * A method that cannot be written is reported to the error handler and does not stop the loop: the errors
   * are exactly the messages of the failing methods, whatever the provider.
   */
  lemma {:induction false} MethodErrorsIff(methods: seq<MethodDescription>, p: Provider, k: nat, e: string)
    requires k <= |methods|
    ensures e in MethodRecords(methods, p, k).errors <==> SomeMethodFails(methods, k, e)
  {
    if k > 0 {
      MethodErrorsIff(methods, p, k - 1, e);
      MethodSignatureAgainstPlain(methods[k - 1], p);
      SomeMethodFailsStep(methods, k, e);
    }
  }

  lemma SomeMethodFailsStep(methods: seq<MethodDescription>, k: nat, e: string)
    requires 0 < k <= |methods|
    ensures SomeMethodFails(methods, k, e) <==> SomeMethodFails(methods, k - 1, e) || FailingMethod(methods[k - 1], e)
  {
    if SomeMethodFails(methods, k, e) && !FailingMethod(methods[k - 1], e) {
      var i :| 0 <= i < k && FailingMethod(methods[i], e);
      assert i < k - 1;
    }
  }

  // ---------------------------------------------------------------------------------------------------------
  // Implementation

  class AnnotationsJarWriter {
    /** The entries put into the archive so far, in order. */
    var entries: seq<Entry>
    /** The writer for plain signatures. */
    const signatureWriter: MethodSignatureWriter
    /** The provider of the annotated signatures. */
    const nullability: Provider

    /** The plain writer asks the plain provider. */
    predicate Valid() {
      signatureWriter.nullability == OmitProvider
    }

    constructor(nullability: Provider)
      ensures Valid() && this.nullability == nullability && entries == []
    {
      this.nullability := nullability;
      signatureWriter := new MethodSignatureWriter(OmitProvider);
      entries := [];
    }

    /**
     * `write`: builds the text of the type, and adds it as an entry exactly when the type is annotated. The
     * errors of the methods that could not be written are returned in the order the error handler saw them.
     */
    method Write(t: TypeDescription) returns (r: Result<bool>, errors: seq<string>)
      requires Valid()
      modifies this
      ensures r.Ok? == WriteType(t, nullability).Ok?
      ensures r.Ok? ==> r.value == WriteType(t, nullability).value.annotated
      ensures errors == if r.Ok? then WriteType(t, nullability).value.errors else []
      ensures entries == if r.Ok? && r.value
                         then old(entries) + [Entry(EntryName(t.name), WriteType(t, nullability).value.text)]
                         else old(entries)
    {
      var annotatedSignatureWriter := new MethodSignatureWriter(nullability);
      var buf := new TextBuffer();
      errors := [];
      var ok, annotated := AppendTypeSignature(buf, "class", t.erasure, annotatedSignatureWriter);
      if !ok {
        return Failure, errors;
      }
      assert buf.text == TypeHeader("class", t.erasure).value.text;
      var superAnnotated;
      ok, superAnnotated := AppendSuperTypes(buf, t, annotatedSignatureWriter);
      if !ok {
        return Failure, errors;
      }
      var methodsAnnotated;
      methodsAnnotated, errors := AppendMethods(buf, t.methods, annotatedSignatureWriter);
      annotated := annotated || superAnnotated || methodsAnnotated;
      if annotated {
        entries := entries + [Entry(EntryName(t.name), buf.text)];
      }
      r := Ok(annotated);
    }

    /** `appendTypeSignature`. */
    method AppendTypeSignature(buf: TextBuffer, role: string, e: Erasure, annotatedSignatureWriter: MethodSignatureWriter)
      returns (ok: bool, annotated: bool)
      requires Valid()
      modifies buf
      ensures ok == TypeHeader(role, e).Ok?
      ensures ok ==> buf.text == old(buf.text) + TypeHeader(role, e).value.text && annotated == TypeHeader(role, e).value.annotated
    {
      buf.Append(role + " " + e.internalName + "\n");
      annotated := false;
      ok := true;
      if |e.typeVariables| > 0 {
        ok, annotated := AppendTypeParameters(buf, e.typeVariables, annotatedSignatureWriter);
        if ok {
          ConcatAssoc(old(buf.text), role + " " + e.internalName + "\n", TypeParameterLines(e.typeVariables).value.text);
        }
      }
    }

    /** `appendTypeParameters`: the plain writer's line, then the annotated writer's line, and whether they differ. */
    method AppendTypeParameters(buf: TextBuffer, typeParameters: seq<TypeParameter>,
                                annotatedSignatureWriter: MethodSignatureWriter)
      returns (ok: bool, annotated: bool)
      requires Valid()
      modifies buf
      ensures ok == TypeParameterLines(typeParameters).Ok?
      ensures ok ==> buf.text == old(buf.text) + TypeParameterLines(typeParameters).value.text
                     && annotated == TypeParameterLines(typeParameters).value.annotated
    {
      annotated := false;
      var plainBuf := new TextBuffer();
      ok := signatureWriter.AppendTypeParameters(typeParameters, plainBuf);
      if !ok {
        return;
      }
      var annotatedBuf := new TextBuffer();
      ok := annotatedSignatureWriter.AppendTypeParameters(typeParameters, annotatedBuf);
      if !ok {
        return;
      }
      buf.Append(plainBuf.text + "\n" + annotatedBuf.text + "\n");
      annotated := plainBuf.text != annotatedBuf.text;
    }

    /** `appendTypeArguments` as written; it is never called. */
    method AppendTypeArgumentsAsWritten(buf: TextBuffer, typeArguments: seq<Generic>) returns (ok: bool, annotated: bool)
      requires Valid()
      modifies buf
      ensures ok == TypeArgumentLinesAsWritten(typeArguments).Ok?
      ensures ok ==> buf.text == old(buf.text) + TypeArgumentLinesAsWritten(typeArguments).value.text
                     && annotated == TypeArgumentLinesAsWritten(typeArguments).value.annotated
    {
      annotated := false;
      var plainBuf := new TextBuffer();
      ok := signatureWriter.AppendTypeArguments(typeArguments, plainBuf);
      if !ok {
        return;
      }
      var annotatedBuf := new TextBuffer();
      ok := signatureWriter.AppendTypeArguments(typeArguments, annotatedBuf);
      if !ok {
        return;
      }
      buf.Append(plainBuf.text + "\n" + annotatedBuf.text + "\n");
      annotated := plainBuf.text == annotatedBuf.text;
    }

    /** The supertype block of `write`: the superclass unless absent or Object, then every interface. */
    method AppendSuperTypes(buf: TextBuffer, t: TypeDescription, annotatedSignatureWriter: MethodSignatureWriter)
      returns (ok: bool, annotated: bool)
      requires Valid()
      modifies buf
      ensures ok == SuperHeaders(t).Ok?
      ensures ok ==> buf.text == old(buf.text) + SuperHeaders(t).value.text && annotated == SuperHeaders(t).value.annotated
    {
      annotated := false;
      ok := true;
      if WritesSuperClass(t) {
        ok, annotated := AppendTypeSignature(buf, "super", t.superClass.value, annotatedSignatureWriter);
        if !ok {
          return;
        }
      }
      var afterSuperClass := buf.text;
      var k := 0;
      while k < |t.interfaces|
        invariant 0 <= k <= |t.interfaces|
        invariant InterfaceHeaders(t.interfaces[..k]).Ok?
        invariant buf.text == afterSuperClass + InterfaceHeaders(t.interfaces[..k]).value.text
        invariant !annotated
      {
        assert t.interfaces[..k + 1][..k] == t.interfaces[..k];
        var interfaceAnnotated;
        ok, interfaceAnnotated := AppendTypeSignature(buf, "super", t.interfaces[k], annotatedSignatureWriter);
        if !ok {
          InterfaceFailurePropagates(t.interfaces, k + 1);
          return;
        }
        if interfaceAnnotated {
          annotated := true;
        }
        ConcatAssoc(afterSuperClass, InterfaceHeaders(t.interfaces[..k]).value.text,
                    TypeHeader("super", t.interfaces[k]).value.text);
        k := k + 1;
      }
      assert t.interfaces[..k] == t.interfaces;
      ConcatAssoc(old(buf.text), if WritesSuperClass(t) then TypeHeader("super", t.superClass.value).value.text else "",
                  InterfaceHeaders(t.interfaces).value.text);
    }

    /** The two signatures of a method, plain first; the annotated one is rendered only if the plain one was. */
    method RenderMethod(m: MethodDescription, annotatedSignatureWriter: MethodSignatureWriter)
      returns (ok: bool, plain: string, annotated: string)
      requires Valid()
      ensures ok == (MethodSignature(m, OmitProvider).Ok? && MethodSignature(m, annotatedSignatureWriter.nullability).Ok?)
      ensures ok ==> plain == MethodSignature(m, OmitProvider).value
                     && annotated == MethodSignature(m, annotatedSignatureWriter.nullability).value
    {
      var plainBuf := new TextBuffer();
      ok := signatureWriter.AppendMethodSignature(m, plainBuf);
      plain, annotated := plainBuf.text, "";
      if ok {
        var annotatedBuf := new TextBuffer();
        ok := annotatedSignatureWriter.AppendMethodSignature(m, annotatedBuf);
        annotated := annotatedBuf.text;
      }
    }

    /** One turn of the method loop: the method's record is appended if its signatures differ, its error is added
        if it cannot be written. */
    method AppendMethod(buf: TextBuffer, m: MethodDescription, annotatedSignatureWriter: MethodSignatureWriter,
                        ghost start: string, ghost prev: MethodsPart, annotated: bool, errors: seq<string>)
      returns (annotated': bool, errors': seq<string>)
      requires Valid()
      requires MethodsPart(buf.text, annotated, errors) == After(start, prev)
      modifies buf
      ensures MethodsPart(buf.text, annotated', errors') ==
              After(start, MethodStep(prev, m, annotatedSignatureWriter.nullability))
    {
      annotated', errors' := annotated, errors;
      var ok, plain, annotatedSignature := RenderMethod(m, annotatedSignatureWriter);
      if !ok {
        errors' := errors + [MethodError(m)];
      } else if plain != annotatedSignature {
        ConcatAssoc(start, prev.text, MethodRecord(m, plain, annotatedSignature));
        buf.Append(MethodRecord(m, plain, annotatedSignature));
        annotated' := true;
      }
    }

    /** The method loop of `write`: a failing method is reported and the loop goes on with the next one. */
    method AppendMethods(buf: TextBuffer, methods: seq<MethodDescription>, annotatedSignatureWriter: MethodSignatureWriter)
      returns (annotated: bool, errors: seq<string>)
      requires Valid()
      modifies buf
      ensures MethodsPart(buf.text, annotated, errors) ==
              After(old(buf.text), MethodRecords(methods, annotatedSignatureWriter.nullability, |methods|))
    {
      ghost var start := buf.text;
      annotated := false;
      errors := [];
      for k := 0 to |methods|
        invariant MethodsPart(buf.text, annotated, errors) ==
                  After(start, MethodRecords(methods, annotatedSignatureWriter.nullability, k))
      {
        ghost var prev := MethodRecords(methods, annotatedSignatureWriter.nullability, k);
        annotated, errors := AppendMethod(buf, methods[k], annotatedSignatureWriter, start, prev, annotated, errors);
      }
    }
  }

  /** Once the headers of a prefix of the interfaces fail, the whole block fails. */
  lemma {:induction false} InterfaceFailurePropagates(interfaces: seq<Erasure>, k: nat)
    requires 0 < k <= |interfaces|
    requires !InterfaceHeaders(interfaces[..k]).Ok?
    ensures !InterfaceHeaders(interfaces).Ok?
    decreases |interfaces| - k
  {
    if k < |interfaces| {
      assert interfaces[..k + 1][..k] == interfaces[..k];
      InterfaceFailurePropagates(interfaces, k + 1);
    } else {
      assert interfaces[..k] == interfaces;
    }
  }
}
