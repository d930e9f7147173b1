/**
 * `EclipseAnnotationsTask`: for every input JAR an annotation archive in the destination directory. The types of
 * a JAR are written in ascending order of name by an `AnnotationsJarWriter` with the JSR-305 provider; an error
 * message reported for a method is logged once per JAR, a type that cannot be written is logged and skipped, and
 * the JAR is annotated when some type is. The file system is a map from files to what they hold.
 */
module AnnotationsTask {
  import opened Wrappers
  import opened Strings
  import opened TypeModel
  import opened Nullability
  import opened JarWriter

  /** A file: the directory it is in and its name. */
  datatype File = File(directory: string, name: string)

  /** What a file written by `EclipseAnnotationsTask` holds: an archive with its entries, or no bytes at all. */
  datatype Content = Archive(entries: seq<Entry>) | Empty

  /** A line `EclipseAnnotationsTask` logs: a method error message (at INFO), or the failure of a whole type (at ERROR). */
  datatype LogLine = Info(message: string) | Error(typeName: string)

  /** The set of error messages already known and the lines logged so far. */
  datatype Log = Log(knownErrors: set<string>, lines: seq<LogLine>)

  /** What the type loop of one JAR has produced: the flag, the log and the entries of the archive. */
  datatype JarRun = JarRun(annotated: bool, log: Log, entries: seq<Entry>)

  // ---------------------------------------------------------------------------------------------------------
  // Target files

  /** Guava `Files.getNameWithoutExtension`: the name up to its last '.', or the whole name when it has none. */
  function NameWithoutExtension(name: string): (r: string)
    ensures r <= name
    ensures (forall i :: 0 <= i < |name| ==> name[i] != '.') <==> r == name
    ensures r != name ==> name[|r|] == '.' && forall i :: |r| < i < |name| ==> name[i] != '.'
  {
    var k := LastIndexOf(name, '.');
    if k == -1 then name else name[..k]
  }

  /** `getTargetFile`: the JAR's name without its extension, followed by "-annotations.zip", in the destination
      directory. */
  function TargetFile(destinationDir: string, jar: File): File {
    File(destinationDir, NameWithoutExtension(jar.name) + "-annotations.zip")
  }

  /** `getAnnotationJars`: the declared outputs are exactly the target files of the input JARs. */
  function AnnotationJars(destinationDir: string, jars: seq<File>): (r: set<File>)
    ensures forall j :: j in jars ==> TargetFile(destinationDir, j) in r
    ensures forall f :: f in r ==> exists j :: j in jars && f == TargetFile(destinationDir, j)
  {
    set j | j in jars :: TargetFile(destinationDir, j)
  }

  /** Only the last extension goes: "name.ext" becomes "name-annotations.zip" whatever dots `name` holds. */
  lemma TargetOfJar(destinationDir: string, directory: string, base: string, extension: string)
    requires forall i :: 0 <= i < |extension| ==> extension[i] != '.'
    ensures TargetFile(destinationDir, File(directory, base + "." + extension)) ==
            File(destinationDir, base + "-annotations.zip")
  {
    var name := base + "." + extension;
    var r := NameWithoutExtension(name);
    assert name[|base|] == '.';
    assert forall i :: |base| < i < |name| ==> name[i] == extension[i - |base| - 1];
    assert r == name[..|base|];
    assert name[..|base|] == base;
  }

  // ---------------------------------------------------------------------------------------------------------
  // Ordering of types

  /** `a.compareTo(b) <= 0`: character by character, and a prefix before its extensions. */
  predicate NameLe(a: string, b: string) {
    a == [] || (b != [] && (a[0] < b[0] || (a[0] == b[0] && NameLe(a[1..], b[1..]))))
  }

  /** Any two names are ordered one way or the other. */
  lemma {:induction false} NameLeTotal(a: string, b: string)
    ensures NameLe(a, b) || NameLe(b, a)
  {
    if a != [] && b != [] && a[0] == b[0] {
      NameLeTotal(a[1..], b[1..]);
    }
  }

  /** The order is transitive. */
  lemma {:induction false} NameLeTransitive(a: string, b: string, c: string)
    requires NameLe(a, b) && NameLe(b, c)
    ensures NameLe(a, c)
  {
    if a != [] && a[0] == b[0] && b[0] == c[0] {
      NameLeTransitive(a[1..], b[1..], c[1..]);
    }
  }

  /** Names ordered both ways are equal: `compareTo` returns 0 only on equal strings. */
  lemma {:induction false} NameLeAntisymmetric(a: string, b: string)
    requires NameLe(a, b) && NameLe(b, a)
    ensures a == b
  {
    if a != [] {
      NameLeAntisymmetric(a[1..], b[1..]);
      assert a == [a[0]] + a[1..] && b == [b[0]] + b[1..];
    }
  }

  /** The types are in ascending order of name. */
  predicate SortedByName(s: seq<TypeDescription>) {
    forall i, j :: 0 <= i < j < |s| ==> NameLe(s[i].name, s[j].name)
  }

  /** One insertion: `t` goes after every type whose name is not greater, before the first one that is. */
  function Insert(t: TypeDescription, sorted: seq<TypeDescription>): (r: seq<TypeDescription>)
    ensures multiset(r) == multiset(sorted) + multiset{t}
  {
    if sorted == [] then [t]
    else if NameLe(sorted[0].name, t.name) then
      assert sorted == [sorted[0]] + sorted[1..];
      [sorted[0]] + Insert(t, sorted[1..])
    else [t] + sorted
  }

  /** `types.sort(...)` on names: the list sort is stable, so types with equal names keep their order. */
  function SortByName(types: seq<TypeDescription>): (r: seq<TypeDescription>)
    ensures multiset(r) == multiset(types)
  {
    if types == [] then []
    else
      var n := |types| - 1;
      assert types == types[..n] + [types[n]];
      Insert(types[n], SortByName(types[..n]))
  }

  /** The tail of a sorted list is sorted. */
  lemma SortedTail(s: seq<TypeDescription>)
    requires s != [] && SortedByName(s)
    ensures SortedByName(s[1..])
  {
    var tail := s[1..];
    forall i, j | 0 <= i < j < |tail| ensures NameLe(tail[i].name, tail[j].name) {
      assert tail[i] == s[i + 1] && tail[j] == s[j + 1];
    }
  }

  /** A type not greater than every element of a sorted list can be put in front of it. */
  lemma ConsSorted(h: TypeDescription, s: seq<TypeDescription>)
    requires SortedByName(s)
    requires forall x :: x in s ==> NameLe(h.name, x.name)
    ensures SortedByName([h] + s)
  {
    var r := [h] + s;
    forall i, j | 0 <= i < j < |r| ensures NameLe(r[i].name, r[j].name) {
      if i == 0 {
        assert r[j] == s[j - 1];
      } else {
        assert r[i] == s[i - 1] && r[j] == s[j - 1];
      }
    }
  }

  /** What an insertion holds: the inserted type and the elements of the list. */
  lemma InsertMembers(t: TypeDescription, s: seq<TypeDescription>, x: TypeDescription)
    requires x in Insert(t, s)
    ensures x == t || x in s
  {
    assert x in multiset(Insert(t, s));
  }

  /** Inserting into a sorted list keeps it sorted. */
  lemma {:induction false} InsertSorted(t: TypeDescription, s: seq<TypeDescription>)
    requires SortedByName(s)
    ensures SortedByName(Insert(t, s))
  {
    if s == [] {
    } else if NameLe(s[0].name, t.name) {
      var tail := s[1..];
      SortedTail(s);
      InsertSorted(t, tail);
      var rest := Insert(t, tail);
      forall x | x in rest ensures NameLe(s[0].name, x.name) {
        InsertMembers(t, tail, x);
        if x != t {
          var k :| 0 <= k < |tail| && tail[k] == x;
          assert s[k + 1] == x;
        }
      }
      ConsSorted(s[0], rest);
    } else {
      NameLeTotal(s[0].name, t.name);
      forall x | x in s ensures NameLe(t.name, x.name) {
        var k :| 0 <= k < |s| && s[k] == x;
        if k > 0 {
          NameLeTransitive(t.name, s[0].name, x.name);
        }
      }
      ConsSorted(t, s);
    }
  }

  /** Types are processed in ascending order of name, and every type exactly once. */
  lemma {:induction false} SortByNameSorted(types: seq<TypeDescription>)
    ensures SortedByName(SortByName(types))
    ensures multiset(SortByName(types)) == multiset(types)
  {
    if types != [] {
      SortByNameSorted(types[..|types| - 1]);
      InsertSorted(types[|types| - 1], SortByName(types[..|types| - 1]));
    }
  }

  // ---------------------------------------------------------------------------------------------------------
  // The type loop of one JAR

  /** The error handler: a message not yet known is added to the known ones and logged; a known one is dropped. */
  function ReportError(log: Log, e: string): Log {
    if e in log.knownErrors then log else Log(log.knownErrors + {e}, log.lines + [Info(e)])
  }

  /** The error handler called for each of `errors` in turn. */
  function ReportAll(log: Log, errors: seq<string>): (r: Log)
    ensures forall e :: e in r.knownErrors <==> e in log.knownErrors || e in errors
    ensures forall n :: Error(n) in r.lines <==> Error(n) in log.lines
  {
    if errors == [] then log
    else
      var n := |errors| - 1;
      var prev := ReportAll(log, errors[..n]);
      assert forall e :: e in errors <==> e in errors[..n] || e == errors[n] by {
        assert errors == errors[..n] + [errors[n]];
      }
      ReportError(prev, errors[n])
  }

  /** The empty run the loop starts from. */
  const Start: JarRun := JarRun(false, Log({}, []), [])

  /**
   * One turn of the type loop: a type that cannot be written adds an ERROR line; otherwise its method errors go
   * to the handler, its flag is or-ed into the JAR's, and its entry is added when it is annotated.
   */
  function TypeStep(run: JarRun, t: TypeDescription, p: Provider): JarRun {
    var w := WriteType(t, p);
    if w.Failure? then JarRun(run.annotated, Log(run.log.knownErrors, run.log.lines + [Error(t.name)]), run.entries)
    else
      JarRun(run.annotated || w.value.annotated, ReportAll(run.log, w.value.errors),
             if w.value.annotated then run.entries + [Entry(EntryName(t.name), w.value.text)] else run.entries)
  }

  /** The type loop over `types` in the order given. */
  function ProcessTypes(types: seq<TypeDescription>, p: Provider): JarRun {
    if types == [] then Start
    else TypeStep(ProcessTypes(types[..|types| - 1], p), types[|types| - 1], p)
  }

  /** What `EclipseAnnotationsTask` writes to the target file of a JAR holding `types`: the archive if annotated, else no bytes. */
  function JarContent(types: seq<TypeDescription>): Content {
    var run := ProcessTypes(SortByName(types), Jsr305);
    if run.annotated then Archive(run.entries) else Empty
  }

  // ---------------------------------------------------------------------------------------------------------
  // Properties of the type loop

  /** Some element of `s` satisfies `P`. */
  ghost predicate Some<T>(s: seq<T>, P: T -> bool) {
    exists i :: 0 <= i < |s| && P(s[i])
  }

  lemma SomeStep<T>(s: seq<T>, P: T -> bool)
    requires s != []
    ensures Some(s, P) <==> Some(s[..|s| - 1], P) || P(s[|s| - 1])
  {
    var n := |s| - 1;
    if Some(s, P) && !P(s[n]) {
      var i :| 0 <= i < |s| && P(s[i]);
      assert s[..n][i] == s[i];
    }
    if Some(s[..n], P) {
      var i :| 0 <= i < n && P(s[..n][i]);
    }
  }

  /** A type is written and annotated. */
  function WrittenAnnotated(p: Provider): TypeDescription -> bool {
    t => WriteType(t, p).Ok? && WriteType(t, p).value.annotated
  }

  /** A type is written and reports the method error `e`. */
  function Reports(p: Provider, e: string): TypeDescription -> bool {
    t => WriteType(t, p).Ok? && e in WriteType(t, p).value.errors
  }

  /** A type named `name` cannot be written. */
  function FailsNamed(p: Provider, name: string): TypeDescription -> bool {
    t => WriteType(t, p).Failure? && t.name == name
  }

  /**
   * The JAR's result is the OR of the results of `write`, a failing type counting as false, and the archive has
   * an entry exactly when the JAR is annotated.
   */
  lemma {:induction false} ProcessAnnotatedIff(types: seq<TypeDescription>, p: Provider)
    ensures ProcessTypes(types, p).annotated <==> Some(types, WrittenAnnotated(p))
    ensures ProcessTypes(types, p).annotated <==> ProcessTypes(types, p).entries != []
  {
    if types != [] {
      ProcessAnnotatedIff(types[..|types| - 1], p);
      SomeStep(types, WrittenAnnotated(p));
    }
  }

  /** A message is known exactly when some written type reported it. */
  lemma {:induction false} KnownErrorsIff(types: seq<TypeDescription>, p: Provider, e: string)
    ensures e in ProcessTypes(types, p).log.knownErrors <==> Some(types, Reports(p, e))
  {
    if types != [] {
      KnownErrorsIff(types[..|types| - 1], p, e);
      SomeStep(types, Reports(p, e));
    }
  }

  /** A type that cannot be written is logged and the loop goes on: an ERROR line names exactly the failing
      types. */
  lemma {:induction false} FailuresLoggedIff(types: seq<TypeDescription>, p: Provider, name: string)
    ensures Error(name) in ProcessTypes(types, p).log.lines <==> Some(types, FailsNamed(p, name))
  {
    if types != [] {
      var n := |types| - 1;
      FailuresLoggedIff(types[..n], p, name);
      SomeStep(types, FailsNamed(p, name));
      var prev := ProcessTypes(types[..n], p);
      if WriteType(types[n], p).Failure? {
        assert forall x :: x in prev.log.lines + [Error(types[n].name)] <==> x in prev.log.lines || x == Error(types[n].name);
      }
    }
  }

  /** No message is logged twice, and the known messages are exactly the ones logged. */
  ghost predicate LoggedOnce(log: Log) {
    (forall i, j :: 0 <= i < j < |log.lines| && log.lines[i].Info? && log.lines[j].Info? ==>
       log.lines[i].message != log.lines[j].message) &&
    (forall e :: e in log.knownErrors <==> Info(e) in log.lines)
  }

  lemma {:induction false} ReportAllLoggedOnce(log: Log, errors: seq<string>)
    requires LoggedOnce(log)
    ensures LoggedOnce(ReportAll(log, errors))
  {
    if errors != [] {
      var n := |errors| - 1;
      ReportAllLoggedOnce(log, errors[..n]);
      var prev := ReportAll(log, errors[..n]);
      var e := errors[n];
      if e !in prev.knownErrors {
        var lines := prev.lines + [Info(e)];
        forall i | 0 <= i < |prev.lines| && lines[i].Info? ensures lines[i].message != e {
          assert lines[i] == prev.lines[i] == Info(lines[i].message);
        }
        assert forall x :: x in lines <==> x in prev.lines || x == Info(e);
      }
    }
  }

  /** Each distinct method error message is logged at most once per JAR. */
  lemma {:induction false} ProcessLoggedOnce(types: seq<TypeDescription>, p: Provider)
    ensures LoggedOnce(ProcessTypes(types, p).log)
  {
    if types != [] {
      var n := |types| - 1;
      ProcessLoggedOnce(types[..n], p);
      var prev := ProcessTypes(types[..n], p);
      if WriteType(types[n], p).Failure? {
        var lines := prev.log.lines + [Error(types[n].name)];
        assert forall e :: Info(e) in lines <==> Info(e) in prev.log.lines;
        assert forall i :: 0 <= i < |prev.log.lines| ==> lines[i] == prev.log.lines[i];
      } else {
        ReportAllLoggedOnce(prev.log, WriteType(types[n], p).value.errors);
      }
    }
  }

  // ---------------------------------------------------------------------------------------------------------
  // Removed inputs

  /** `inputs.removed` as written: each removed input file itself is deleted, not its target. */
  function DeleteRemovedInputs(files: map<File, Content>, removed: seq<File>): (r: map<File, Content>)
    ensures forall f :: f in r <==> f in files && f !in removed
  {
    if removed == [] then files
    else
      var n := |removed| - 1;
      assert forall f :: f in removed <==> f in removed[..n] || f == removed[n] by {
        assert removed == removed[..n] + [removed[n]];
      }
      DeleteRemovedInputs(files, removed[..n]) - {removed[n]}
  }

  /** `inputs.removed` as evidently intended: the target file of each removed input is deleted. */
  function DeleteRemovedTargets(files: map<File, Content>, destinationDir: string, removed: seq<File>)
    : (r: map<File, Content>)
    ensures forall f :: f in r <==> f in files && forall j :: j in removed ==> TargetFile(destinationDir, j) != f
    ensures forall f :: f in r ==> r[f] == files[f]
  {
    if removed == [] then files
    else
      var n := |removed| - 1;
      assert forall j :: j in removed <==> j in removed[..n] || j == removed[n] by {
        assert removed == removed[..n] + [removed[n]];
      }
      DeleteRemovedTargets(files, destinationDir, removed[..n]) - {TargetFile(destinationDir, removed[n])}
  }

  /** The discrepancy: after an input is removed, the code as written leaves its stale target in place, while
      deleting the target removes it. */
  lemma RemovedInputLeavesTarget(files: map<File, Content>, destinationDir: string, jar: File)
    requires TargetFile(destinationDir, jar) in files && TargetFile(destinationDir, jar) != jar
    ensures TargetFile(destinationDir, jar) in DeleteRemovedInputs(files, [jar])
    ensures TargetFile(destinationDir, jar) !in DeleteRemovedTargets(files, destinationDir, [jar])
  {
  }

  /** The target of "libs/guava.jar" in "build" is "build/guava-annotations.zip". */
  lemma GuavaTarget()
    ensures TargetFile("build", File("libs", "guava.jar")) == File("build", "guava-annotations.zip")
  {
    var jar := File("libs", "guava" + "." + "jar");
    TargetOfJar("build", "libs", "guava", "jar");
    assert jar == File("libs", "guava.jar");
    assert "guava" + "-annotations.zip" == "guava-annotations.zip";
  }

  /** A concrete case: "libs/guava.jar" removed with its target "build/guava-annotations.zip" present. */
  lemma RemovedGuava(files: map<File, Content>)
    requires File("build", "guava-annotations.zip") in files
    ensures File("build", "guava-annotations.zip") in DeleteRemovedInputs(files, [File("libs", "guava.jar")])
    ensures File("build", "guava-annotations.zip") !in DeleteRemovedTargets(files, "build", [File("libs", "guava.jar")])
  {
    GuavaTarget();
    RemovedInputLeavesTarget(files, "build", File("libs", "guava.jar"));
  }

  /** The files after the out-of-date inputs have been processed in turn. */
  function CreateAll(files: map<File, Content>, destinationDir: string, outOfDate: seq<File>,
                     reader: File -> seq<TypeDescription>): (r: map<File, Content>)
    ensures forall j :: j in outOfDate ==> TargetFile(destinationDir, j) in r
    ensures forall f :: f in files ==> f in r
  {
    if outOfDate == [] then files
    else
      var n := |outOfDate| - 1;
      assert forall j :: j in outOfDate <==> j in outOfDate[..n] || j == outOfDate[n] by {
        assert outOfDate == outOfDate[..n] + [outOfDate[n]];
      }
      CreateAll(files, destinationDir, outOfDate[..n], reader)[TargetFile(destinationDir, outOfDate[n]) :=
                                                                 JarContent(reader(outOfDate[n]))]
  }

  // ---------------------------------------------------------------------------------------------------------
  // Implementation

  class EclipseAnnotationsTask {
    /** The JAR files to process. */
    var jars: seq<File>
    /** The directory the annotation archives go to. */
    var destinationDir: string
    /** The file system as far as `EclipseAnnotationsTask` writes it. */
    var files: map<File, Content>

    constructor(jars: seq<File>, destinationDir: string, files: map<File, Content>)
      ensures this.jars == jars && this.destinationDir == destinationDir && this.files == files
    {
      this.jars := jars;
      this.destinationDir := destinationDir;
      this.files := files;
    }

    /**
     * `createAnnotationJar(jarFile, annotationJarFile)`: the types the reader found, sorted by name, each
     * written to the archive in turn; a failing type is logged and skipped.
     */
    method WriteAnnotations(types: seq<TypeDescription>) returns (run: JarRun)
      ensures run == ProcessTypes(SortByName(types), Jsr305)
    {
      var writer := new AnnotationsJarWriter(Jsr305);
      var knownErrors: set<string> := {};
      var lines: seq<LogLine> := [];
      var annotated := false;
      var sorted := SortByName(types);
      for i := 0 to |sorted|
        invariant writer.Valid() && writer.nullability == Jsr305
        invariant JarRun(annotated, Log(knownErrors, lines), writer.entries) == ProcessTypes(sorted[..i], Jsr305)
      {
        assert ProcessTypes(sorted[..i + 1], Jsr305) == TypeStep(ProcessTypes(sorted[..i], Jsr305), sorted[i], Jsr305) by {
          assert sorted[..i + 1][..i] == sorted[..i];
        }
        annotated, knownErrors, lines := ProcessType(writer, sorted[i], annotated, knownErrors, lines);
      }
      assert sorted[..|sorted|] == sorted;
      run := JarRun(annotated, Log(knownErrors, lines), writer.entries);
    }

    /** One turn of the type loop: the type is written, and its errors or its failure are logged. */
    static method ProcessType(writer: AnnotationsJarWriter, t: TypeDescription, annotated: bool,
                              knownErrors: set<string>, lines: seq<LogLine>)
      returns (annotated': bool, knownErrors': set<string>, lines': seq<LogLine>)
      requires writer.Valid()
      modifies writer
      ensures writer.Valid()
      ensures JarRun(annotated', Log(knownErrors', lines'), writer.entries) ==
              TypeStep(JarRun(annotated, Log(knownErrors, lines), old(writer.entries)), t, writer.nullability)
    {
      annotated', knownErrors', lines' := annotated, knownErrors, lines;
      var r, errors := writer.Write(t);
      if r.Ok? {
        knownErrors', lines' := HandleErrors(knownErrors, lines, errors);
        annotated' := annotated || r.value;
      } else {
        lines' := lines + [Error(t.name)];
      }
    }

    /** The error handler of the type loop, called for each reported error in turn. */
    static method HandleErrors(knownErrors: set<string>, lines: seq<LogLine>, errors: seq<string>)
      returns (knownErrors': set<string>, lines': seq<LogLine>)
      ensures Log(knownErrors', lines') == ReportAll(Log(knownErrors, lines), errors)
    {
      knownErrors', lines' := knownErrors, lines;
      for j := 0 to |errors|
        invariant Log(knownErrors', lines') == ReportAll(Log(knownErrors, lines), errors[..j])
      {
        assert errors[..j + 1][..j] == errors[..j];
        if errors[j] !in knownErrors' {
          knownErrors' := knownErrors' + {errors[j]};
          lines' := lines' + [Info(errors[j])];
        }
      }
      assert errors[..|errors|] == errors;
    }

    /** `createAnnotationJar(jarFile)`: the archive becomes the target file if annotated; otherwise the target is
        an empty file. */
    method CreateAnnotationJar(jar: File, types: seq<TypeDescription>) returns (annotated: bool)
      modifies this
      ensures annotated == ProcessTypes(SortByName(types), Jsr305).annotated
      ensures files == old(files)[TargetFile(destinationDir, jar) := JarContent(types)]
      ensures jars == old(jars) && destinationDir == old(destinationDir)
    {
      var target := TargetFile(destinationDir, jar);
      var run := WriteAnnotations(types);
      annotated := run.annotated;
      if annotated {
        files := files[target := Archive(run.entries)];
      } else {
        files := files[target := Empty];
      }
    }

    /**
     * `createAnnotationJars`: a full build first deletes every declared output; then every out-of-date input is
     * processed, and the target of every removed input is deleted.
     */
    method CreateAnnotationJars(incremental: bool, outOfDate: seq<File>, removed: seq<File>,
                                reader: File -> seq<TypeDescription>)
      modifies this
      ensures var start := if incremental then old(files) else old(files) - AnnotationJars(destinationDir, jars);
              files == DeleteRemovedTargets(CreateAll(start, destinationDir, outOfDate, reader), destinationDir, removed)
      ensures jars == old(jars) && destinationDir == old(destinationDir)
    {
      if !incremental {
        files := files - AnnotationJars(destinationDir, jars);
      }
      CreateOutOfDate(outOfDate, reader);
      DeleteTargets(removed);
    }

    /** The out-of-date inputs, each processed in turn. */
    method CreateOutOfDate(outOfDate: seq<File>, reader: File -> seq<TypeDescription>)
      modifies this
      ensures files == CreateAll(old(files), destinationDir, outOfDate, reader)
      ensures jars == old(jars) && destinationDir == old(destinationDir)
    {
      for i := 0 to |outOfDate|
        invariant jars == old(jars) && destinationDir == old(destinationDir)
        invariant files == CreateAll(old(files), destinationDir, outOfDate[..i], reader)
      {
        assert outOfDate[..i + 1][..i] == outOfDate[..i];
        var _ := CreateAnnotationJar(outOfDate[i], reader(outOfDate[i]));
      }
      assert outOfDate[..|outOfDate|] == outOfDate;
    }

    /** The removed inputs as `createAnnotationJars` handles them as written: each removed input file itself is
        deleted, and its target stays. */
    method DeleteRemovedFiles(removed: seq<File>)
      modifies this
      ensures files == DeleteRemovedInputs(old(files), removed)
      ensures jars == old(jars) && destinationDir == old(destinationDir)
    {
      for i := 0 to |removed|
        invariant jars == old(jars) && destinationDir == old(destinationDir)
        invariant files == DeleteRemovedInputs(old(files), removed[..i])
      {
        assert removed[..i + 1][..i] == removed[..i];
        files := files - {removed[i]};
      }
      assert removed[..|removed|] == removed;
    }

    /** The removed inputs as evidently intended: the target of each is deleted. */
    method DeleteTargets(removed: seq<File>)
      modifies this
      ensures files == DeleteRemovedTargets(old(files), destinationDir, removed)
      ensures jars == old(jars) && destinationDir == old(destinationDir)
    {
      for i := 0 to |removed|
        invariant jars == old(jars) && destinationDir == old(destinationDir)
        invariant files == DeleteRemovedTargets(old(files), destinationDir, removed[..i])
      {
        assert removed[..i + 1][..i] == removed[..i];
        files := files - {TargetFile(destinationDir, removed[i])};
      }
      assert removed[..|removed|] == removed;
    }
  }
}
