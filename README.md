# Eclipse external annotations and project conventions, modelled in Dafny

This project models the core of a set of Gradle plugins. The main part is the generator of Eclipse external
annotation files (`.eea`). It reads the types of a JAR and renders every method signature twice, following
section 4.7.9.1 of the Java Virtual Machine Specification (Java SE 8). The first rendering is plain. The second
carries nullness markers: `0` for nullable and `1` for non-null, placed right after the `L`, `T` or `[` that opens
the outermost type. A method gets a three-line record only when its two renderings differ. A type gets an archive
entry only when some record was written.

The model has these parts.

- `NullnessValue`: the four nullness values, their markers and the override rule, in which OMIT absorbs.
- `Nullability`: the nullness providers. `Nullability.omit()` becomes a constant provider. `AnnotationNullability`
  reads annotation names. `CombinedNullability` folds a list of providers left to right. The spec functions are
  proved equal to the imperative query loops.
- `Signatures`, `SignatureLaws` and `SignatureExamples`: the signature grammar as total-or-failing functions over a
  datatype of generic types, with its laws (marker placement, wildcard rules, plain against annotated) and worked
  examples.
- `SignatureWriter`: `MethodSignatureWriter` as a class. Each `append*` method appends to a text buffer and is
  proved to append exactly what the grammar function gives, or to report failure exactly when the grammar fails.
- `JarWriter`: `AnnotationsJarWriter.write` as a class method over a text buffer and a list of archive entries,
  proved against a specification function. The laws beside it cover "annotated iff some method's renderings differ",
  minimality, and the reported errors.
- `AnnotationsTask`: the per-JAR driver of `EclipseAnnotationsTask`. It covers target naming, the declared outputs,
  the sort by type name, the OR of the per-type results, error de-duplication in the log, and the incremental
  create and delete steps over a map of files.
- `TaskNames`: camel-case task names (`Tasks.namePart`, `taskName`, `cleanName`).
- `TextFormat`: the null-propagating `Text.format`.
- `ProjectConfig`: `License.exclude` and the license rules of `ProjectConfigPlugin`.
- `AnnotationsConfig`: the id and version extraction and the validation of `AnnotationsConfigPlugin`.
- `EclipseUi`: the `store` merge of `EclipseUiPrefs`.

The generic type shapes of the type library (ByteBuddy) are a datatype in `TypeModel`:
`Primitive`, `Array`, `ClassType` with its owners, `Variable` (which records whether its erasure is an interface, as ByteBuddy's `isInterface()` reports it) and `Wildcard`.
A Java exception thrown while rendering becomes the `Failure` case of `Result`. A Java `null` becomes `None`.

## Model

| member | source | states |
|---|---|---|
| NullnessValue.Nullness.Marker | src/main/java/me/seeber/gradle/ide/eclipse/annotations/MethodSignatureWriter.java:60-110 | NULLABLE writes "0", NONNULL "1", UNDEFINED and OMIT nothing; a marker is at most one character |
| NullnessValue.Nullness.Override | src/main/java/me/seeber/gradle/ide/eclipse/annotations/MethodSignatureWriter.java:80-120 | the result is OMIT iff either side is OMIT; any receiver other than OMIT yields to the argument |
| NullnessValue.OverrideLaws | src/main/java/me/seeber/gradle/ide/eclipse/annotations/MethodSignatureWriter.java:80-120 | OMIT absorbs every override, UNDEFINED is a left identity, and overriding by UNDEFINED gives UNDEFINED unless the receiver is OMIT |
| NullnessValue.OverrideAssociative | src/main/java/me/seeber/gradle/ide/eclipse/annotations/MethodSignatureWriter.java:118-120 | override chains may be grouped either way |
| Nullability.ParameterAnswers | src/main/java/me/seeber/gradle/ide/eclipse/annotations/CombinedNullability.java:76-85 | the k-th answer of a combination is the k-th provider's parameter nullness, one answer per provider |
| Nullability.ReturnAnswers | src/main/java/me/seeber/gradle/ide/eclipse/annotations/CombinedNullability.java:91-100 | the k-th answer of a combination is the k-th provider's return nullness, one answer per provider |
| Nullability.OverrideProvider | src/main/java/me/seeber/gradle/ide/eclipse/annotations/CombinedNullability.java:106-111 | a combination gets the new provider appended to its list; any other provider becomes the pair [self, other] |
| Nullability.GetNullability | src/main/java/me/seeber/gradle/ide/eclipse/annotations/AnnotationNullability.java:120-133 | the annotation scan loop returns the nullness of the last nullable or non-null annotation, UNDEFINED when none matches |
| Nullability.GetParameterNullability | src/main/java/me/seeber/gradle/ide/eclipse/annotations/CombinedNullability.java:76-85 | the query loop over every provider kind returns the specified parameter nullness (package default overridden by the own annotations; left fold for a combination) |
| Nullability.GetReturnValueNullability | src/main/java/me/seeber/gradle/ide/eclipse/annotations/CombinedNullability.java:91-100 | the query loop returns the specified return nullness (own annotations only; left fold for a combination) |
| NullabilityLaws.FoldOmitIff | src/main/java/me/seeber/gradle/ide/eclipse/annotations/CombinedNullability.java:80-83 | the fold is OMIT iff some answer is OMIT |
| NullabilityLaws.FoldWithoutOmit | src/main/java/me/seeber/gradle/ide/eclipse/annotations/CombinedNullability.java:80-83 | without OMIT the fold is the last answer (UNDEFINED for none), so a later UNDEFINED erases an earlier NONNULL |
| NullabilityLaws.CombinedParameterNullness | src/main/java/me/seeber/gradle/ide/eclipse/annotations/CombinedNullability.java:76-85 | an empty combination answers UNDEFINED; OMIT iff some provider answers OMIT; otherwise the last provider's answer |
| NullabilityLaws.CombinedReturnNullness | src/main/java/me/seeber/gradle/ide/eclipse/annotations/CombinedNullability.java:91-100 | the same three facts for return values |
| NullabilityLaws.OverrideProviderParameter | src/main/java/me/seeber/gradle/ide/eclipse/annotations/CombinedNullability.java:106-111 | the parameter answer of `p.override(q)` is p's answer overridden by q's |
| NullabilityLaws.OverrideProviderReturn | src/main/java/me/seeber/gradle/ide/eclipse/annotations/CombinedNullability.java:106-111 | the return answer of `p.override(q)` is p's answer overridden by q's |
| NullabilityLaws.AnnotationNullnessIff | src/main/java/me/seeber/gradle/ide/eclipse/annotations/AnnotationNullability.java:120-133 | the scan never gives OMIT; UNDEFINED iff no annotation matches; NULLABLE or NONNULL iff the last matching annotation is that one |
| NullabilityLaws.AnnotationProviderAnswers | src/main/java/me/seeber/gradle/ide/eclipse/annotations/AnnotationNullability.java:94-112 | an annotation provider's parameter answer equals the parameter's own annotation result whatever the package default; its return answer reads only the method's annotations; it never answers OMIT |
| NullabilityLaws.Jsr305Examples | src/main/java/me/seeber/gradle/ide/eclipse/annotations/AnnotationNullability.java:48-58 | with the JSR-305 names, an unannotated parameter in a non-null-by-default package is UNDEFINED, and the last of Nullable, Deprecated, Nonnull wins |
| NullabilityLaws.OmitProviderAbsorbs | src/main/java/me/seeber/gradle/ide/eclipse/annotations/CombinedNullability.java:76-100 | a combination that contains the omit provider answers OMIT for parameters and return values |
| Signatures.PackageSpecifier | src/main/java/me/seeber/gradle/ide/eclipse/annotations/MethodSignatureWriter.java:355-364 | the package name with every '.' written as '/', followed by one '/' |
| Signatures.JavaTypeSignature | src/main/java/me/seeber/gradle/ide/eclipse/annotations/MethodSignatureWriter.java:146-160 | a primitive is its bare descriptor; every rendering is non-empty |
| Signatures.ReferenceTypeSignature | src/main/java/me/seeber/gradle/ide/eclipse/annotations/MethodSignatureWriter.java:189-206 | a rendered reference type starts with its lead character ('L', 'T' or '[') |
| Signatures.ArrayTypeSignature | src/main/java/me/seeber/gradle/ide/eclipse/annotations/MethodSignatureWriter.java:394-403 | an array renders iff its component renders under UNDEFINED, and starts with '[' |
| Signatures.TypeVariableSignature | src/main/java/me/seeber/gradle/ide/eclipse/annotations/MethodSignatureWriter.java:375-383 | a type variable always renders, as 'T', the marker, the name and ';' |
| Signatures.ClassTypeSignature | src/main/java/me/seeber/gradle/ide/eclipse/annotations/MethodSignatureWriter.java:217-247 | a rendered class type starts with 'L' and ends with ';' |
| Signatures.SimpleClassTypeSignature | src/main/java/me/seeber/gradle/ide/eclipse/annotations/MethodSignatureWriter.java:257-270 | a type that is not parameterized renders as its bare simple name |
| Signatures.TypeArgumentsSignature | src/main/java/me/seeber/gradle/ide/eclipse/annotations/MethodSignatureWriter.java:280-295 | type arguments render inside '<' and '>' |
| Signatures.TypeParametersSignature | src/main/java/me/seeber/gradle/ide/eclipse/annotations/MethodSignatureWriter.java:446-460 | type parameters render inside '<' and '>', and render iff every parameter does |
| Signatures.TypeParameterSignature | src/main/java/me/seeber/gradle/ide/eclipse/annotations/MethodSignatureWriter.java:470-494 | a type parameter without bounds fails; the extra ':' follows the symbol when the first bound is an interface, for a type variable when its erasure is |
| Signatures.MangledName | src/main/java/me/seeber/gradle/ide/eclipse/annotations/MethodSignatureWriter.java:523-525 | same length, no '.' left |
| SignatureLaws.MarkerPlacement | src/main/java/me/seeber/gradle/ide/eclipse/annotations/MethodSignatureWriter.java:146-160 | a type renders under any nullness iff it renders under UNDEFINED, and the text is the UNDEFINED text with the marker after its first character; primitives never get one |
| SignatureLaws.ArrayMarkerPlacement | src/main/java/me/seeber/gradle/ide/eclipse/annotations/MethodSignatureWriter.java:394-403 | only the '[' of an array carries the marker; the component is rendered unmarked |
| SignatureLaws.VariableMarkerPlacement | src/main/java/me/seeber/gradle/ide/eclipse/annotations/MethodSignatureWriter.java:375-383 | the marker of a type variable goes right after 'T' |
| SignatureLaws.ClassMarkerPlacement | src/main/java/me/seeber/gradle/ide/eclipse/annotations/MethodSignatureWriter.java:217-247 | the marker of a class type goes right after 'L'; owners and arguments are unmarked |
| SignatureLaws.OmitRendersAsUndefined | src/main/java/me/seeber/gradle/ide/eclipse/annotations/MethodSignatureWriter.java:60-110 | rendering under OMIT gives exactly the UNDEFINED text |
| SignatureLaws.MarkedAgainstPlain | src/main/java/me/seeber/gradle/ide/eclipse/annotations/MethodSignatureWriter.java:146-160 | against the plain rendering, a marked type is one character longer and an unmarked one identical |
| SignatureLaws.ParameterListAgainstPlain | src/main/java/me/seeber/gradle/ide/eclipse/annotations/MethodSignatureWriter.java:413-436 | the parameter list renders iff the plain one does; it is longer iff some parameter is marked, and identical when none is |
| SignatureLaws.MethodSignatureAgainstPlain | src/main/java/me/seeber/gradle/ide/eclipse/annotations/MethodSignatureWriter.java:413-436 | a method renders iff it renders plain, and the two renderings differ iff some parameter or the return type is marked |
| SignatureLaws.UnmarkedProviderRendersPlain | src/main/java/me/seeber/gradle/ide/eclipse/annotations/MethodSignatureWriter.java:413-436 | a provider that gives no marker to any position renders the plain signature |
| SignatureLaws.WildcardRules | src/main/java/me/seeber/gradle/ide/eclipse/annotations/MethodSignatureWriter.java:305-345 | `*` for a single Object upper bound; `+sig` for another single upper bound; `-sig` for a lower bound with an Object upper bound; failure otherwise |
| SignatureExamples.VoidMethod | src/main/java/me/seeber/gradle/ide/eclipse/annotations/MethodSignatureWriter.java:413-436 | `void method()` renders as `()V` under every provider |
| SignatureExamples.TopLevelClass | src/main/java/me/seeber/gradle/ide/eclipse/annotations/MethodSignatureWriter.java:217-247 | a non-generic top-level class is 'L', marker, package path, simple name, ';' |
| SignatureExamples.ArrayOfVariable | src/main/java/me/seeber/gradle/ide/eclipse/annotations/MethodSignatureWriter.java:394-403 | an array of a type variable is '[', marker, then the unmarked variable |
| SignatureExamples.SingleBoundParameter | src/main/java/me/seeber/gradle/ide/eclipse/annotations/MethodSignatureWriter.java:470-494 | a type parameter with one class bound renders as `<S:bound>` |
| SignatureExamples.OneTypeArgument | src/main/java/me/seeber/gradle/ide/eclipse/annotations/MethodSignatureWriter.java:280-295 | one type argument renders inside angle brackets |
| SignatureExamples.OneParameterMethod | src/main/java/me/seeber/gradle/ide/eclipse/annotations/MethodSignatureWriter.java:413-436 | a one-parameter method renders as type parameters, '(', the marked parameter, ')', the marked return type |
| SignatureExamples.ObjectSignature | src/main/java/me/seeber/gradle/ide/eclipse/annotations/MethodSignatureWriter.java:189-206 | Object renders as `Ljava/lang/Object;` |
| SignatureExamples.GenericArrayMethod | src/main/java/me/seeber/gradle/ide/eclipse/annotations/MethodSignatureWriter.java:413-436 | `<A> A[] genericArrayMethod(A[])` renders as `<A:Ljava/lang/Object;>([1TA;)[1TA;` when both positions are NONNULL, and without the 1s plain |
| SignatureExamples.GenericClass | src/main/java/me/seeber/gradle/ide/eclipse/annotations/MethodSignatureWriter.java:217-247 | a generic class adds its argument list before ';' |
| SignatureExamples.OneOwner | src/main/java/me/seeber/gradle/ide/eclipse/annotations/MethodSignatureWriter.java:217-247 | an owner type is written before the simple name and followed by '.' |
| SignatureExamples.TwoInterfaceBounds | src/main/java/me/seeber/gradle/ide/eclipse/annotations/MethodSignatureWriter.java:470-515 | `<S extends I & J>` with interface bounds renders as `S::Lp/I;:Lp/J;` |
| SignatureExamples.InterfaceVariableBound | src/main/java/me/seeber/gradle/ide/eclipse/annotations/MethodSignatureWriter.java:470-494 | `<T extends Comparable<T>, S extends T>` renders S as `S::TT;` because the erasure of T is an interface; with a class erasure it is `S:TT;` |
| SignatureExamples.UpperBoundedWildcard | src/main/java/me/seeber/gradle/ide/eclipse/annotations/MethodSignatureWriter.java:305-345 | `? extends I` as an argument renders as `+Lp/I;`, inside a nullable class type `L0p/L<+Lp/I;>;` |
| SignatureExamples.NestedGenericType | src/main/java/me/seeber/gradle/ide/eclipse/annotations/MethodSignatureWriter.java:217-247 | `Outer<T>.Inner<U>` renders with the owner's arguments before '.' |
| SignatureExamples.LowerBoundNeedsObject | src/main/java/me/seeber/gradle/ide/eclipse/annotations/MethodSignatureWriter.java:305-345 | a lower bound beside a non-Object upper bound fails |
| SignatureWriter.MethodSignatureWriter.constructor | src/main/java/me/seeber/gradle/ide/eclipse/annotations/MethodSignatureWriter.java:133-135 | the writer keeps the given provider |
| SignatureWriter.MethodSignatureWriter.AppendJavaTypeSignature | src/main/java/me/seeber/gradle/ide/eclipse/annotations/MethodSignatureWriter.java:146-160 | appends exactly the grammar's rendering, and reports failure exactly when the grammar fails |
| SignatureWriter.MethodSignatureWriter.AppendBaseType | src/main/java/me/seeber/gradle/ide/eclipse/annotations/MethodSignatureWriter.java:170-178 | appends the bare descriptor |
| SignatureWriter.MethodSignatureWriter.AppendReferenceTypeSignature | src/main/java/me/seeber/gradle/ide/eclipse/annotations/MethodSignatureWriter.java:189-206 | appends the reference-type rendering, or reports failure exactly when the grammar fails |
| SignatureWriter.MethodSignatureWriter.AppendClassTypeSignature | src/main/java/me/seeber/gradle/ide/eclipse/annotations/MethodSignatureWriter.java:217-247 | appends the class-type rendering, or reports failure exactly when the grammar fails |
| SignatureWriter.MethodSignatureWriter.AppendClassTypeBody | src/main/java/me/seeber/gradle/ide/eclipse/annotations/MethodSignatureWriter.java:217-247 | appends package, owners, simple name and ';' |
| SignatureWriter.MethodSignatureWriter.AppendOwners | src/main/java/me/seeber/gradle/ide/eclipse/annotations/MethodSignatureWriter.java:217-247 | the owner loop appends every owner followed by '.', stopping at the first failure |
| SignatureWriter.MethodSignatureWriter.AppendSimpleClassTypeSignature | src/main/java/me/seeber/gradle/ide/eclipse/annotations/MethodSignatureWriter.java:257-270 | appends the simple name and, when parameterized, the arguments |
| SignatureWriter.MethodSignatureWriter.AppendTypeArguments | src/main/java/me/seeber/gradle/ide/eclipse/annotations/MethodSignatureWriter.java:280-295 | the argument loop appends `<`, each argument, `>` |
| SignatureWriter.MethodSignatureWriter.AppendTypeArgument | src/main/java/me/seeber/gradle/ide/eclipse/annotations/MethodSignatureWriter.java:305-345 | appends the wildcard or plain argument rendering, or fails as the grammar does |
| SignatureWriter.MethodSignatureWriter.AppendPackageSpecifier | src/main/java/me/seeber/gradle/ide/eclipse/annotations/MethodSignatureWriter.java:355-364 | appends the package path |
| SignatureWriter.MethodSignatureWriter.AppendTypeVariableSignature | src/main/java/me/seeber/gradle/ide/eclipse/annotations/MethodSignatureWriter.java:375-383 | appends the type-variable rendering |
| SignatureWriter.MethodSignatureWriter.AppendArrayTypeSignature | src/main/java/me/seeber/gradle/ide/eclipse/annotations/MethodSignatureWriter.java:394-403 | appends the array rendering, or fails with its component |
| SignatureWriter.MethodSignatureWriter.AppendMethodSignature | src/main/java/me/seeber/gradle/ide/eclipse/annotations/MethodSignatureWriter.java:413-436 | appends the method rendering under the writer's provider, or fails as the grammar does |
| SignatureWriter.MethodSignatureWriter.AppendParameters | src/main/java/me/seeber/gradle/ide/eclipse/annotations/MethodSignatureWriter.java:413-436 | the parameter loop appends each parameter marked with the provider's parameter nullness |
| SignatureWriter.MethodSignatureWriter.AppendTypeParameters | src/main/java/me/seeber/gradle/ide/eclipse/annotations/MethodSignatureWriter.java:446-460 | the type-parameter loop appends `<`, each parameter, `>` |
| SignatureWriter.MethodSignatureWriter.AppendTypeParameter | src/main/java/me/seeber/gradle/ide/eclipse/annotations/MethodSignatureWriter.java:470-494 | appends the symbol, the extra ':' when the first bound (or, for a type variable, its erasure) is an interface, then the bounds |
| SignatureWriter.MethodSignatureWriter.AppendBounds | src/main/java/me/seeber/gradle/ide/eclipse/annotations/MethodSignatureWriter.java:470-494 | the bound loop appends ':' and each bound |
| SignatureWriter.MethodSignatureWriter.AppendClassOrInterfaceBound | src/main/java/me/seeber/gradle/ide/eclipse/annotations/MethodSignatureWriter.java:504-515 | appends ':' and the bound rendered under UNDEFINED |
| SignatureWriter.ClassTypeSignatureParts | src/main/java/me/seeber/gradle/ide/eclipse/annotations/MethodSignatureWriter.java:217-247 | a class type is 'L', marker, then package, owners, simple name and ';' |
| SignatureWriter.TypeParameterSignatureParts | src/main/java/me/seeber/gradle/ide/eclipse/annotations/MethodSignatureWriter.java:470-494 | a type parameter renders iff it has bounds and they render, as symbol, optional ':', bounds |
| JarWriter.TypeParameterLines | src/main/java/me/seeber/gradle/ide/eclipse/annotations/AnnotationsJarWriter.java:188-197 | the plain and the annotated type-parameter lines are the same line twice, so they never differ |
| JarWriter.TypeHeader | src/main/java/me/seeber/gradle/ide/eclipse/annotations/AnnotationsJarWriter.java:162-177 | the role line is always written; a type without type variables always succeeds; a header never makes a type annotated |
| JarWriter.TypeArgumentLinesAsWritten | src/main/java/me/seeber/gradle/ide/eclipse/annotations/AnnotationsJarWriter.java:208-217 | as written: succeeds iff the arguments render, and then always reports a difference |
| JarWriter.TypeArgumentLines | src/main/java/me/seeber/gradle/ide/eclipse/annotations/AnnotationsJarWriter.java:208-217 | corrected: succeeds iff the arguments render, and reports no difference, as the writers agree |
| JarWriter.InterfaceHeaders | src/main/java/me/seeber/gradle/ide/eclipse/annotations/AnnotationsJarWriter.java:113-117 | every interface gets a "super" header; succeeds iff each does; never annotated |
| JarWriter.SuperHeaders | src/main/java/me/seeber/gradle/ide/eclipse/annotations/AnnotationsJarWriter.java:104-121 | the supertype block never makes a type annotated |
| JarWriter.WriteType | src/main/java/me/seeber/gradle/ide/eclipse/annotations/AnnotationsJarWriter.java:98-149 | `write` succeeds iff the class header and supertype block do; then its flag and errors are those of the method records |
| JarWriter.EntryName | src/main/java/me/seeber/gradle/ide/eclipse/annotations/AnnotationsJarWriter.java:143-147 | the type name with '.' written as '/', followed by ".eea" |
| JarWriter.MethodRecordsAnnotatedIff | src/main/java/me/seeber/gradle/ide/eclipse/annotations/AnnotationsJarWriter.java:123-141 | the method records are annotated iff some method renders under both providers with differing signatures |
| JarWriter.WriteAnnotatedIff | src/main/java/me/seeber/gradle/ide/eclipse/annotations/AnnotationsJarWriter.java:98-149 | a type is annotated iff some method's plain and annotated signatures differ; headers never count |
| JarWriter.UnmarkedRecordsEmpty | src/main/java/me/seeber/gradle/ide/eclipse/annotations/AnnotationsJarWriter.java:123-141 | with a provider that marks nothing, no record is written |
| JarWriter.WriteMinimal | src/main/java/me/seeber/gradle/ide/eclipse/annotations/AnnotationsJarWriter.java:98-149 | with a provider that answers only UNDEFINED or OMIT, `write` returns false |
| JarWriter.MethodErrorsIff | src/main/java/me/seeber/gradle/ide/eclipse/annotations/AnnotationsJarWriter.java:123-141 | a method's error is reported iff rendering that method fails; the others are still processed |
| JarWriter.AnnotationsJarWriter.constructor | src/main/java/me/seeber/gradle/ide/eclipse/annotations/AnnotationsJarWriter.java:84-88 | a new writer has the provider and an empty archive |
| JarWriter.AnnotationsJarWriter.Write | src/main/java/me/seeber/gradle/ide/eclipse/annotations/AnnotationsJarWriter.java:98-149 | `write` returns the specified flag and errors, and adds the entry named after the type with the specified text exactly when annotated |
| JarWriter.AnnotationsJarWriter.AppendTypeSignature | src/main/java/me/seeber/gradle/ide/eclipse/annotations/AnnotationsJarWriter.java:162-177 | appends the specified header and type-parameter lines |
| JarWriter.AnnotationsJarWriter.AppendTypeParameters | src/main/java/me/seeber/gradle/ide/eclipse/annotations/AnnotationsJarWriter.java:188-197 | appends the plain then the annotated type-parameter line |
| JarWriter.AnnotationsJarWriter.AppendTypeArgumentsAsWritten | src/main/java/me/seeber/gradle/ide/eclipse/annotations/AnnotationsJarWriter.java:208-217 | appends the as-written lines and returns the as-written flag |
| JarWriter.AnnotationsJarWriter.AppendSuperTypes | src/main/java/me/seeber/gradle/ide/eclipse/annotations/AnnotationsJarWriter.java:104-121 | appends the superclass header unless it is absent or Object, then every interface header |
| JarWriter.AnnotationsJarWriter.RenderMethod | src/main/java/me/seeber/gradle/ide/eclipse/annotations/AnnotationsJarWriter.java:124-128 | renders one method with the omit provider and with the writer's provider |
| JarWriter.AnnotationsJarWriter.AppendMethod | src/main/java/me/seeber/gradle/ide/eclipse/annotations/AnnotationsJarWriter.java:124-140 | one step of the method loop: a record when the renderings differ, an error when one fails |
| JarWriter.AnnotationsJarWriter.AppendMethods | src/main/java/me/seeber/gradle/ide/eclipse/annotations/AnnotationsJarWriter.java:123-141 | the method loop appends the specified records and reports the specified errors in order |
| AnnotationsTask.NameWithoutExtension | src/main/java/me/seeber/gradle/ide/eclipse/annotations/EclipseAnnotationsTask.java:197 | the name up to its last '.', or the whole name when it has none |
| AnnotationsTask.AnnotationJars | src/main/java/me/seeber/gradle/ide/eclipse/annotations/EclipseAnnotationsTask.java:133-136 | the declared outputs are exactly the targets of the input JARs |
| AnnotationsTask.TargetOfJar | src/main/java/me/seeber/gradle/ide/eclipse/annotations/EclipseAnnotationsTask.java:196-200 | the target of `base.ext` is `base-annotations.zip` in the destination directory |
| AnnotationsTask.NameLeTotal | src/main/java/me/seeber/gradle/ide/eclipse/annotations/EclipseAnnotationsTask.java:218-219 | the order by type name is total |
| AnnotationsTask.NameLeTransitive | src/main/java/me/seeber/gradle/ide/eclipse/annotations/EclipseAnnotationsTask.java:218-219 | the order by type name is transitive |
| AnnotationsTask.NameLeAntisymmetric | src/main/java/me/seeber/gradle/ide/eclipse/annotations/EclipseAnnotationsTask.java:218-219 | the order by type name is antisymmetric |
| AnnotationsTask.SortByName | src/main/java/me/seeber/gradle/ide/eclipse/annotations/EclipseAnnotationsTask.java:218-219 | the sorted list is a permutation of the types |
| AnnotationsTask.SortByNameSorted | src/main/java/me/seeber/gradle/ide/eclipse/annotations/EclipseAnnotationsTask.java:218-219 | the types are processed in ascending order of name, and none is lost or added |
| AnnotationsTask.ReportAll | src/main/java/me/seeber/gradle/ide/eclipse/annotations/EclipseAnnotationsTask.java:225-228 | the known errors grow by exactly the reported messages; no error line is added |
| AnnotationsTask.ProcessAnnotatedIff | src/main/java/me/seeber/gradle/ide/eclipse/annotations/EclipseAnnotationsTask.java:214-231 | the JAR is annotated iff some type's `write` returns true, and iff some entry was added |
| AnnotationsTask.KnownErrorsIff | src/main/java/me/seeber/gradle/ide/eclipse/annotations/EclipseAnnotationsTask.java:213-229 | a message is known iff some successfully written type reported it |
| AnnotationsTask.FailuresLoggedIff | src/main/java/me/seeber/gradle/ide/eclipse/annotations/EclipseAnnotationsTask.java:233-237 | an error line is logged for a type iff writing that type failed; the loop goes on |
| AnnotationsTask.ReportAllLoggedOnce | src/main/java/me/seeber/gradle/ide/eclipse/annotations/EclipseAnnotationsTask.java:226-228 | reporting keeps every known message logged exactly once |
| AnnotationsTask.ProcessLoggedOnce | src/main/java/me/seeber/gradle/ide/eclipse/annotations/EclipseAnnotationsTask.java:213-238 | over a whole JAR, each distinct method error is logged once |
| AnnotationsTask.DeleteRemovedInputs | src/main/java/me/seeber/gradle/ide/eclipse/annotations/EclipseAnnotationsTask.java:155-157 | as written: removes the removed input files and nothing else |
| AnnotationsTask.DeleteRemovedTargets | src/main/java/me/seeber/gradle/ide/eclipse/annotations/EclipseAnnotationsTask.java:155-157 | corrected: removes the target of every removed input and leaves the other files as they were |
| AnnotationsTask.RemovedInputLeavesTarget | src/main/java/me/seeber/gradle/ide/eclipse/annotations/EclipseAnnotationsTask.java:155-157 | as written, the target of a removed input stays; corrected, it is gone |
| AnnotationsTask.GuavaTarget | src/main/java/me/seeber/gradle/ide/eclipse/annotations/EclipseAnnotationsTask.java:196-200 | the target of `libs/guava.jar` in `build` is `build/guava-annotations.zip` |
| AnnotationsTask.RemovedGuava | src/main/java/me/seeber/gradle/ide/eclipse/annotations/EclipseAnnotationsTask.java:155-157 | concrete case: removing `libs/guava.jar` leaves `build/guava-annotations.zip` behind as written, and deletes it when corrected |
| AnnotationsTask.CreateAll | src/main/java/me/seeber/gradle/ide/eclipse/annotations/EclipseAnnotationsTask.java:151-153 | every out-of-date JAR has a target afterwards, and no file disappears |
| AnnotationsTask.EclipseAnnotationsTask.WriteAnnotations | src/main/java/me/seeber/gradle/ide/eclipse/annotations/EclipseAnnotationsTask.java:209-245 | the type loop gives the annotated flag, log and entries of the specification over the types sorted by name, with the JSR-305 provider |
| AnnotationsTask.EclipseAnnotationsTask.ProcessType | src/main/java/me/seeber/gradle/ide/eclipse/annotations/EclipseAnnotationsTask.java:224-237 | one turn of the type loop: a written type's errors go to the handler and its flag is or-ed in; a failing type gets an ERROR line |
| AnnotationsTask.EclipseAnnotationsTask.HandleErrors | src/main/java/me/seeber/gradle/ide/eclipse/annotations/EclipseAnnotationsTask.java:225-228 | the error handler adds each new message to the known set and logs it once |
| AnnotationsTask.EclipseAnnotationsTask.CreateAnnotationJar | src/main/java/me/seeber/gradle/ide/eclipse/annotations/EclipseAnnotationsTask.java:166-188 | the target becomes the archive when annotated and an empty file otherwise; no other file changes |
| AnnotationsTask.EclipseAnnotationsTask.CreateAnnotationJars | src/main/java/me/seeber/gradle/ide/eclipse/annotations/EclipseAnnotationsTask.java:144-158 | a full run first deletes every declared output, then creates each out-of-date target, then deletes the targets of removed inputs |
| AnnotationsTask.EclipseAnnotationsTask.CreateOutOfDate | src/main/java/me/seeber/gradle/ide/eclipse/annotations/EclipseAnnotationsTask.java:151-153 | every out-of-date JAR's target is created in order |
| AnnotationsTask.EclipseAnnotationsTask.DeleteRemovedFiles | src/main/java/me/seeber/gradle/ide/eclipse/annotations/EclipseAnnotationsTask.java:155-157 | as written: each removed input file itself is deleted and every other file, its target included, is kept |
| AnnotationsTask.EclipseAnnotationsTask.DeleteTargets | src/main/java/me/seeber/gradle/ide/eclipse/annotations/EclipseAnnotationsTask.java:155-157 | as evidently intended (see Findings): the target of each removed input is deleted and every other file is kept |
| TaskNames.ConvertLaws | src/main/java/me/seeber/gradle/util/Tasks.java:40-79 | each case conversion is idempotent and keeps separators apart from other characters |
| TaskNames.NamePart | src/main/java/me/seeber/gradle/util/Tasks.java:114-137 | the character loop builds exactly the specified name part |
| TaskNames.NamePartLength | src/main/java/me/seeber/gradle/util/Tasks.java:117-133 | the output is as long as the input minus its separators |
| TaskNames.NamePartHasNoSeparator | src/main/java/me/seeber/gradle/util/Tasks.java:120-126 | no '-', '_' or ' ' is kept |
| TaskNames.NamePartAt | src/main/java/me/seeber/gradle/util/Tasks.java:124-130 | each kept character is upper-cased after a separator, converted with the requested case when first, and copied otherwise |
| TaskNames.NamePartOfPlain | src/main/java/me/seeber/gradle/util/Tasks.java:129-130 | on a name without separators only the first character is converted |
| TaskNames.NamePartIdempotent | src/main/java/me/seeber/gradle/util/Tasks.java:114-137 | applying the name part twice is applying it once (for LOWER, when the name does not start with a separator) |
| TaskNames.LowerNotIdempotent | src/main/java/me/seeber/gradle/util/Tasks.java:114-137 | "-a" gives "A" with LOWER, and "A" then gives "a" |
| TaskNames.TaskNameExamples | src/main/java/me/seeber/gradle/util/Tasks.java:91-105 | ("checkstyle", "main", "") gives "checkstyleMain"; "eclipse" gives "cleanEclipse" |
| TextFormat.Format | src/main/java/me/seeber/gradle/util/Text.java:44-60 | the result is null iff some argument is null; otherwise it is the formatted template, and a bad template throws |
| TextFormat.PlainTemplate | src/main/java/me/seeber/gradle/util/Text.java:55-57 | a template without '%' formats to itself |
| TextFormat.OneConversion | src/main/java/me/seeber/gradle/util/Text.java:55-57 | one `%s` in literal text is replaced by the first value |
| TextFormat.StringConversion | src/main/java/me/seeber/gradle/util/Text.java:55-57 | a leading `%s` takes the first value and the rest of the template the others |
| TextFormat.LiteralPrefix | src/main/java/me/seeber/gradle/util/Text.java:55-57 | literal text before the rest of a template is copied unchanged |
| TextFormat.MissingArgument | src/main/java/me/seeber/gradle/util/Text.java:55-57 | a `%s` without a value left throws |
| TextFormat.ScmConnection | src/main/java/me/seeber/gradle/util/Text.java:44-60 | `format("scm:%s:%s", "git", c)` is "scm:git:" followed by c |
| ProjectConfig.License.Exclude | src/main/java/me/seeber/gradle/project/base/License.java:103-107 | the excludes become the old list (empty when null) followed by the pattern; nothing else changes |
| ProjectConfig.Excluded | src/main/java/me/seeber/gradle/project/base/License.java:103-107 | id and URLs are kept, the list grows by one, keeps its old prefix and ends with the pattern |
| ProjectConfig.ExcludeKeepsDuplicates | src/main/java/me/seeber/gradle/project/base/License.java:103-107 | excluding a pattern twice keeps both copies |
| ProjectConfig.LicenseUrl | src/main/java/me/seeber/gradle/project/base/ProjectConfigPlugin.java:138-140 | `https://opensource.org/licenses/` followed by the id, character by character, with each space written as '-' |
| ProjectConfig.LicenseSourceUrl | src/main/java/me/seeber/gradle/project/base/ProjectConfigPlugin.java:142-146 | the choosealicense prefix, then the id character by character in ASCII lower case with each space written as '-', then ".txt" |
| ProjectConfig.Finalized | src/main/java/me/seeber/gradle/project/base/ProjectConfigPlugin.java:133-148 | nothing changes without an id; set URLs are never overwritten; missing ones are derived from the id |
| ProjectConfig.FinalizeIdempotent | src/main/java/me/seeber/gradle/project/base/ProjectConfigPlugin.java:133-148 | finalizing twice is finalizing once |
| ProjectConfig.FinalizedHasUrls | src/main/java/me/seeber/gradle/project/base/ProjectConfigPlugin.java:133-148 | a license with an id ends up with both URLs |
| ProjectConfig.FinalizeMit | src/main/java/me/seeber/gradle/project/base/ProjectConfigPlugin.java:133-148 | "MIT" gets `https://opensource.org/licenses/MIT` and the file `mit.txt` |
| ProjectConfig.InitializeProjectConfig | src/main/java/me/seeber/gradle/project/base/ProjectConfigPlugin.java:105-108 | the excludes are reset to the empty list |
| ProjectConfig.FinalizeProjectConfig | src/main/java/me/seeber/gradle/project/base/ProjectConfigPlugin.java:133-148 | the license becomes its finalized state |
| AnnotationsConfig.IdMatch | src/main/java/me/seeber/gradle/project/annotations/AnnotationsConfigPlugin.java:57 | a match is a non-empty prefix without line terminators followed by "-annotations" in any ASCII case |
| AnnotationsConfig.IdMatchOf | src/main/java/me/seeber/gradle/project/annotations/AnnotationsConfigPlugin.java:57 | every such name matches with its prefix as the id |
| AnnotationsConfig.IdMatchGreedy | src/main/java/me/seeber/gradle/project/annotations/AnnotationsConfigPlugin.java:57 | only the last "-annotations" is stripped; "-annotations" alone does not match |
| AnnotationsConfig.VersionMatch | src/main/java/me/seeber/gradle/project/annotations/AnnotationsConfigPlugin.java:62 | a match is the text before the first '-', non-empty, followed by nothing or by '-' and a non-empty rest |
| AnnotationsConfig.VersionMatchOf | src/main/java/me/seeber/gradle/project/annotations/AnnotationsConfigPlugin.java:62 | a version without '-' matches whole; one with a qualifier matches up to its first '-' |
| AnnotationsConfig.VersionMismatch | src/main/java/me/seeber/gradle/project/annotations/AnnotationsConfigPlugin.java:62 | "", a leading '-' and a trailing '-' do not match |
| AnnotationsConfig.SnapshotVersion | src/main/java/me/seeber/gradle/project/annotations/AnnotationsConfigPlugin.java:62 | "1.0-SNAPSHOT" gives "1.0" |
| AnnotationsConfig.InitializeAnnotationsConfig | src/main/java/me/seeber/gradle/project/annotations/AnnotationsConfigPlugin.java:87-99 | id and version are set from matching name and version, and left untouched otherwise |
| AnnotationsConfig.ValidateAnnotationsConfig | src/main/java/me/seeber/gradle/project/annotations/AnnotationsConfigPlugin.java:107-123 | succeeds iff id, version, name and url are all non-empty, else reports the first missing one with its message |
| AnnotationsConfig.InitializeProjectConfig | src/main/java/me/seeber/gradle/project/annotations/AnnotationsConfigPlugin.java:132-136 | "*.eea" is appended to the license excludes |
| EclipseUi.Stored | src/main/java/me/seeber/gradle/ide/eclipse/EclipseUiPrefs.java:71-85 | the keys are the old ones, the preferences' and the templates key; preferences win over old values and the templates win on their key |
| EclipseUi.StoreIdempotent | src/main/java/me/seeber/gradle/ide/eclipse/EclipseUiPrefs.java:71-85 | storing twice is storing once |
| EclipseUi.EclipseUiPrefs.constructor | src/main/java/me/seeber/gradle/ide/eclipse/EclipseUiPrefs.java:56 | no code templates and an empty preference map |
| EclipseUi.EclipseUiPrefs.Store | src/main/java/me/seeber/gradle/ide/eclipse/EclipseUiPrefs.java:71-85 | the target properties become the specified merge; nothing is removed |
| EclipseUi.EclipseUiPrefs.Load | src/main/java/me/seeber/gradle/ide/eclipse/EclipseUiPrefs.java:91-92 | nothing changes |
| EclipseUi.EclipseUiPrefs.SetCodeTemplates | src/main/java/me/seeber/gradle/ide/eclipse/EclipseUiPrefs.java:116-118 | the templates are set, the preferences kept |
| EclipseUi.EclipseUiPrefs.SetPreferences | src/main/java/me/seeber/gradle/ide/eclipse/EclipseUiPrefs.java:134-136 | the preferences are set to null or to a value copy, the templates kept |

## Left out

- The JAR machinery: reading class files (`JarReader`), the output stream, its encoding, `close`, and temporary files. The types of a JAR are a parameter or a reader function. An archive is a list of named texts. A file is a map entry.
- Log lines other than the per-error INFO line and the per-type ERROR line. The ERROR text is the causal chain of exception messages, which is modelled by the type's name.
- The texts of exception messages, and their wrapping in `RuntimeException` or `GradleException`. Each becomes one failure outcome.
- Unicode case mapping. `Character.toUpperCase`, `toLowerCase` and `String.toLowerCase` are modelled on ASCII letters only.
- `String.format` beyond `%s` and `%%`. Every other conversion is a failure; `%n`, flags, widths and argument indexes are not modelled.
- The Java regular-expression engine. The two patterns of `AnnotationsConfigPlugin` are characterised directly on strings.
- `String.compareTo` compares UTF-16 code units. The model compares characters, which differs only for surrogate pairs.
- The ByteBuddy lookups that can throw while rendering a primitive or wildcard shape as a reference type (its erasure or package). The model treats that case as failure.
- The rest of `initializeProjectConfig` in both plugins: the version-control ignores and everything besides the license excludes.
- The values of `Properties` are `Object` in Java. The model uses `string`.
- Gradle wiring, getters and setters with no logic, and the other plugins.
- A full (non-incremental) run deletes the declared outputs as one map subtraction.
- TaskNames.NamePartIdempotent: for LOWER it requires that the name does not start with a separator. Without that condition the property is false, and TaskNames.LowerNotIdempotent shows the input.
- AnnotationsTask.EclipseAnnotationsTask.CreateAnnotationJars: it deletes the targets of removed inputs (the corrected behaviour under Findings), not the inputs themselves.
- AnnotationsTask.EclipseAnnotationsTask.DeleteTargets: it deletes the target of each removed input, the corrected behaviour under Findings; `DeleteRemovedFiles` is the loop as written, deleting the removed inputs themselves.

## Findings

| source | as written | input that shows it | evidently intended | confidence | as-written member | corrected member |
|---|---|---|---|---|---|---|
| src/main/java/me/seeber/gradle/ide/eclipse/annotations/AnnotationsJarWriter.java:208-217 | `appendTypeArguments` renders the arguments with the plain writer twice, then returns `true` when the two texts are equal | any argument list that renders: the two lines are always equal, so the method always reports a difference | render with the plain and the annotated writer and report whether they differ (never, since arguments are unmarked) | not executed; medium (the method is never called) | JarWriter.TypeArgumentLinesAsWritten | JarWriter.TypeArgumentLines |
| src/main/java/me/seeber/gradle/ide/eclipse/annotations/EclipseAnnotationsTask.java:155-157 | for a removed input, the input file itself is deleted | `libs/guava.jar` removed: `build/guava-annotations.zip` stays behind | delete the target of the removed input | not executed; medium | AnnotationsTask.DeleteRemovedInputs | AnnotationsTask.DeleteRemovedTargets |
