/**
 * The license of a project configuration and the rules of `ProjectConfigPlugin` that touch it: the excludes are
 * reset when the configuration is initialized, and missing license URLs are derived from the license id when it
 * is finalized. A null field is `None`.
 */
module ProjectConfig {
  import opened Wrappers
  import opened Strings

  /** The values of the license fields. */
  datatype LicenseState = LicenseState(
    id: Option<string>,
    url: Option<string>,
    sourceUrl: Option<string>,
    excludes: Option<seq<string>>)

  /** `License`: a managed object whose fields are set through setters. */
  class License {
    var id: Option<string>
    var url: Option<string>
    var sourceUrl: Option<string>
    var excludes: Option<seq<string>>

    constructor()
      ensures State() == LicenseState(None, None, None, None)
    {
      id, url, sourceUrl, excludes := None, None, None, None;
    }

    function State(): LicenseState
      reads this
    {
      LicenseState(id, url, sourceUrl, excludes)
    }

    /** `exclude`: a new list holding the old excludes (none when null) followed by `exclude` is installed. */
    method Exclude(exclude: string)
      modifies this
      ensures State() == Excluded(old(State()), exclude)
    {
      var list := if excludes.None? then [] else excludes.value;
      list := list + [exclude];
      excludes := Some(list);
    }
  }

  /** The license after `exclude(e)`. */
  function Excluded(s: LicenseState, e: string): (r: LicenseState)
    ensures r.id == s.id && r.url == s.url && r.sourceUrl == s.sourceUrl
    ensures r.excludes.Some? && |r.excludes.value| == (if s.excludes.None? then 0 else |s.excludes.value|) + 1
    ensures s.excludes.Some? ==> r.excludes.value[..|s.excludes.value|] == s.excludes.value
    ensures r.excludes.value[|r.excludes.value| - 1] == e
  {
    s.(excludes := Some((if s.excludes.None? then [] else s.excludes.value) + [e]))
  }

  /** Excluding the same pattern twice keeps both copies. */
  lemma ExcludeKeepsDuplicates(s: LicenseState, e: string)
    ensures Excluded(Excluded(s, e), e).excludes.value ==
            (if s.excludes.None? then [] else s.excludes.value) + [e, e]
  {
    var before := if s.excludes.None? then [] else s.excludes.value;
    assert before + [e] + [e] == before + [e, e];
  }

  /** The license URL derived from an id: the Open Source Initiative page, spaces written as '-'. */
  function LicenseUrl(id: string): (r: string)
    ensures |r| == |LicenseUrlPrefix| + |id| && r[..|LicenseUrlPrefix|] == LicenseUrlPrefix
    ensures forall i :: 0 <= i < |id| ==> r[|LicenseUrlPrefix| + i] == (if id[i] == ' ' then '-' else id[i])
    ensures forall i :: |LicenseUrlPrefix| <= i < |r| ==> r[i] != ' '
  {
    LicenseUrlPrefix + ReplaceChar(id, ' ', '-')
  }

  const LicenseUrlPrefix := "https://opensource.org/licenses/"

  /** The license text URL derived from an id: the choosealicense.com file named by the id in ASCII lower case,
      spaces written as '-'. */
  function LicenseSourceUrl(id: string): (r: string)
    ensures |r| == |SourceUrlPrefix| + |id| + 4 && r[..|SourceUrlPrefix|] == SourceUrlPrefix
    ensures forall i :: 0 <= i < |id| ==>
      r[|SourceUrlPrefix| + i] == (if id[i] == ' ' then '-' else ToLowerAscii(id[i]))
    ensures forall c :: c in r[|SourceUrlPrefix|..|r| - 4] ==> c != ' ' && !IsAsciiUpper(c)
    ensures r[|r| - 4..] == ".txt"
  {
    var file := ReplaceChar(LowerAscii(id), ' ', '-');
    assert (SourceUrlPrefix + file + ".txt")[|SourceUrlPrefix|..|SourceUrlPrefix| + |file|] == file;
    SourceUrlPrefix + file + ".txt"
  }

  const SourceUrlPrefix := "https://raw.githubusercontent.com/github/choosealicense.com/gh-pages/_licenses/"

  /** The license after `finalizeProjectConfig`. */
  function Finalized(s: LicenseState): (r: LicenseState)
    ensures s.id.None? ==> r == s
    ensures r.id == s.id && r.excludes == s.excludes
    ensures s.url.Some? ==> r.url == s.url
    ensures s.sourceUrl.Some? ==> r.sourceUrl == s.sourceUrl
    ensures s.id.Some? && s.url.None? ==> r.url == Some(LicenseUrl(s.id.value))
    ensures s.id.Some? && s.sourceUrl.None? ==> r.sourceUrl == Some(LicenseSourceUrl(s.id.value))
  {
    if s.id.None? then s
    else
      var withUrl := if s.url.None? then s.(url := Some(LicenseUrl(s.id.value))) else s;
      if withUrl.sourceUrl.None? then withUrl.(sourceUrl := Some(LicenseSourceUrl(s.id.value))) else withUrl
  }

  /** Finalizing twice is finalizing once. */
  lemma FinalizeIdempotent(s: LicenseState)
    ensures Finalized(Finalized(s)) == Finalized(s)
  {
  }

  /** After finalizing a license with an id, both URLs are set. */
  lemma FinalizedHasUrls(s: LicenseState)
    requires s.id.Some?
    ensures Finalized(s).url.Some? && Finalized(s).sourceUrl.Some?
  {
  }

  /** The MIT license gets its OSI page and the choosealicense file "mit.txt". */
  lemma FinalizeMit()
    ensures Finalized(LicenseState(Some("MIT"), None, None, None)) ==
            LicenseState(Some("MIT"), Some("https://opensource.org/licenses/MIT"),
                         Some(SourceUrlPrefix + "mit.txt"), None)
  {
    assert ReplaceChar("MIT", ' ', '-') == "MIT";
    assert LowerAscii("MIT") == "mit";
    assert ReplaceChar("mit", ' ', '-') == "mit";
    assert SourceUrlPrefix + "mit" + ".txt" == SourceUrlPrefix + "mit.txt";
    assert LicenseUrl("MIT") == "https://opensource.org/licenses/MIT";
    assert LicenseSourceUrl("MIT") == SourceUrlPrefix + "mit.txt";
  }

  /** `PluginRules.initializeProjectConfig`, as far as the license goes: the excludes start out empty. */
  method InitializeProjectConfig(license: License)
    modifies license
    ensures license.State() == old(license.State()).(excludes := Some([]))
  {
    license.excludes := Some([]);
  }

  /** `PluginRules.finalizeProjectConfig`: a license with an id gets the URLs it does not have yet. */
  method FinalizeProjectConfig(license: License)
    modifies license
    ensures license.State() == Finalized(old(license.State()))
  {
    var licenseId := license.id;
    if licenseId.Some? {
      if license.url.None? {
        license.url := Some(LicenseUrl(licenseId.value));
      }
      if license.sourceUrl.None? {
        license.sourceUrl := Some(LicenseSourceUrl(licenseId.value));
      }
    }
  }
}
