/**
 * `AnnotationsConfigPlugin`: a project named "<id>-annotations" annotates the project <id>, in the version its own
 * version starts with. The two patterns are characterised directly on strings:
 *   ID_PATTERN      `^(.+)-annotations$`, case-insensitive (ASCII only), '.' not matching line terminators;
 *   VERSION_PATTERN `^([^-]+)(?:-.+)?$`, where `[^-]` matches any character but '-', line terminators included.
 */
module AnnotationsConfig {
  import opened Wrappers
  import opened Strings
  import ProjectConfig

  /** The suffix ID_PATTERN looks for. */
  const AnnotationsSuffix := "-annotations"

  /** `ID_PATTERN.matcher(name)`: group 1 when the whole name matches, else `None`. */
  function IdMatch(name: string): (r: Option<string>)
    ensures r.Some? ==> r.value != [] && r.value <= name && HasNoLineTerminator(r.value)
    ensures r.Some? ==> EqualsIgnoreCaseAscii(name[|r.value|..], AnnotationsSuffix)
  {
    var n := |name| - |AnnotationsSuffix|;
    if n > 0 && EqualsIgnoreCaseAscii(name[n..], AnnotationsSuffix) && HasNoLineTerminator(name[..n])
    then Some(name[..n])
    else None
  }

  /** Every name of that shape matches, with its prefix as the id. */
  lemma IdMatchOf(prefix: string, suffix: string)
    requires prefix != [] && HasNoLineTerminator(prefix) && EqualsIgnoreCaseAscii(suffix, AnnotationsSuffix)
    ensures IdMatch(prefix + suffix) == Some(prefix)
  {
    var name := prefix + suffix;
    assert name[|prefix|..] == suffix && name[..|prefix|] == prefix;
  }

  /** `.+` is greedy: only the last "-annotations" goes. */
  lemma IdMatchGreedy()
    ensures IdMatch("x-annotations-annotations") == Some("x-annotations")
    ensures IdMatch("Guava-Annotations") == Some("Guava")
    ensures IdMatch("-annotations") == None
  {
    assert "x-annotations-annotations" == "x-annotations" + AnnotationsSuffix;
    IdMatchOf("x-annotations", AnnotationsSuffix);
    assert "Guava-Annotations" == "Guava" + "-Annotations";
    IdMatchOf("Guava", "-Annotations");
  }

  /** `VERSION_PATTERN.matcher(version)`: group 1 when the whole version matches, else `None`. */
  function VersionMatch(version: string): (r: Option<string>)
    ensures r.Some? ==> r.value != [] && r.value <= version && forall i :: 0 <= i < |r.value| ==> r.value[i] != '-'
    ensures r.Some? && r.value != version ==>
      |version| > |r.value| + 1 && version[|r.value|] == '-' && HasNoLineTerminator(version[|r.value| + 1..])
  {
    var k := IndexOf(version, '-');
    if k == 0 then None
    else if k == |version| then Some(version)
    else if k + 1 < |version| && HasNoLineTerminator(version[k + 1..]) then Some(version[..k])
    else None
  }

  /** A version without '-' matches whole, and one with a release part matches up to its first '-'. */
  lemma VersionMatchOf(release: string, qualifier: string)
    requires release != [] && forall i :: 0 <= i < |release| ==> release[i] != '-'
    requires HasNoLineTerminator(qualifier)
    ensures VersionMatch(release) == Some(release)
    ensures qualifier != [] ==> VersionMatch(release + "-" + qualifier) == Some(release)
  {
    var v := release + "-" + qualifier;
    assert v[|release|] == '-';
    assert v[..|release|] == release && v[|release| + 1..] == qualifier;
  }

  /** An empty version, one starting with '-' and one with nothing after its first '-' do not match. */
  lemma VersionMismatch(release: string)
    requires forall i :: 0 <= i < |release| ==> release[i] != '-'
    ensures VersionMatch("") == None
    ensures VersionMatch("-" + release) == None
    ensures VersionMatch(release + "-") == None
  {
    assert ("-" + release)[0] == '-';
    assert (release + "-")[|release|] == '-';
  }

  /** "1.0-SNAPSHOT" gives "1.0". */
  lemma SnapshotVersion()
    ensures VersionMatch("1.0-SNAPSHOT") == Some("1.0")
  {
    assert "1.0-SNAPSHOT" == "1.0" + "-" + "SNAPSHOT";
    VersionMatchOf("1.0", "SNAPSHOT");
  }

  /** `AnnotatedProject`: the coordinates of the annotated project. */
  class AnnotatedProject {
    var id: Option<string>
    var version: Option<string>
    var name: Option<string>
    var url: Option<string>

    constructor()
      ensures id.None? && version.None? && name.None? && url.None?
    {
      id, version, name, url := None, None, None, None;
    }
  }

  /** `Strings.isNullOrEmpty` negated. */
  predicate Filled(s: Option<string>) {
    s.Some? && s.value != []
  }

  /** `initializeAnnotationsConfig`: the id and the version are set from the project's name and version when
      these match, and left as they were otherwise. */
  method InitializeAnnotationsConfig(annotatedProject: AnnotatedProject, projectName: string, projectVersion: string)
    modifies annotatedProject
    ensures annotatedProject.id == if IdMatch(projectName).Some? then IdMatch(projectName) else old(annotatedProject.id)
    ensures annotatedProject.version ==
            if VersionMatch(projectVersion).Some? then VersionMatch(projectVersion) else old(annotatedProject.version)
    ensures annotatedProject.name == old(annotatedProject.name) && annotatedProject.url == old(annotatedProject.url)
  {
    var matcher := IdMatch(projectName);
    if matcher.Some? {
      annotatedProject.id := Some(matcher.value);
    }
    matcher := VersionMatch(projectVersion);
    if matcher.Some? {
      annotatedProject.version := Some(matcher.value);
    }
  }

  /** `validateAnnotationsConfig`: the message of the first of id, version, name and url that is null or empty,
      or `None` when all four are set. */
  method ValidateAnnotationsConfig(annotatedProject: AnnotatedProject) returns (error: Option<string>)
    ensures error.None? <==>
      Filled(annotatedProject.id) && Filled(annotatedProject.version) &&
      Filled(annotatedProject.name) && Filled(annotatedProject.url)
    ensures !Filled(annotatedProject.id) ==> error == Some("Please set annotatedProject.id")
    ensures Filled(annotatedProject.id) && !Filled(annotatedProject.version) ==>
      error == Some("Please set annotatedProject.version")
    ensures Filled(annotatedProject.id) && Filled(annotatedProject.version) && !Filled(annotatedProject.name) ==>
      error == Some("Please set annotatedProject.name")
    ensures (Filled(annotatedProject.id) && Filled(annotatedProject.version) && Filled(annotatedProject.name) &&
             !Filled(annotatedProject.url)) ==>
      error == Some("Please set annotationsConfig.url")
  {
    if !Filled(annotatedProject.id) {
      return Some("Please set annotatedProject.id");
    }
    if !Filled(annotatedProject.version) {
      return Some("Please set annotatedProject.version");
    }
    if !Filled(annotatedProject.name) {
      return Some("Please set annotatedProject.name");
    }
    if !Filled(annotatedProject.url) {
      return Some("Please set annotationsConfig.url");
    }
    return None;
  }

  /** `initializeProjectConfig`: external annotation files are excluded from the license header check. */
  method InitializeProjectConfig(license: ProjectConfig.License)
    modifies license
    ensures license.State() == ProjectConfig.Excluded(old(license.State()), "*.eea")
  {
    license.Exclude("*.eea");
  }
}
