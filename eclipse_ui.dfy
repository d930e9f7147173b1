/**
 * `EclipseUiPrefs`: the JDT UI preferences file. Storing puts every configured preference into the target
 * properties, then the code templates under their own key; nothing is ever removed from the target.
 */
module EclipseUi {
  import opened Wrappers

  /** The key Eclipse reads the custom code templates from. */
  const TemplatesKey := "org.eclipse.jdt.ui.text.custom_code_templates"

  /** `getDefaultResourceName`. */
  const DefaultResourceName := "org.eclipse.jdt.ui.prefs"

  /** `java.util.Properties`, as the map its `put` updates. */
  class Properties {
    var entries: map<string, string>

    constructor(entries: map<string, string>)
      ensures this.entries == entries
    {
      this.entries := entries;
    }
  }

  /** The target properties after `store`: the preferences win over what was there, and the templates win over
      both on their key. */
  function Stored(entries: map<string, string>, preferences: Option<map<string, string>>, codeTemplates: Option<string>)
    : (r: map<string, string>)
    ensures forall k :: k in r <==>
      k in entries || (preferences.Some? && k in preferences.value) || (codeTemplates.Some? && k == TemplatesKey)
    ensures codeTemplates.Some? ==> r[TemplatesKey] == codeTemplates.value
    ensures forall k :: k in r && !(codeTemplates.Some? && k == TemplatesKey) ==>
      r[k] == if preferences.Some? && k in preferences.value then preferences.value[k] else entries[k]
  {
    var merged := if preferences.Some? then entries + preferences.value else entries;
    if codeTemplates.Some? then merged[TemplatesKey := codeTemplates.value] else merged
  }

  /** Storing the same preferences twice is storing them once. */
  lemma StoreIdempotent(entries: map<string, string>, preferences: Option<map<string, string>>,
                        codeTemplates: Option<string>)
    ensures Stored(Stored(entries, preferences, codeTemplates), preferences, codeTemplates) ==
            Stored(entries, preferences, codeTemplates)
  {
    var once := Stored(entries, preferences, codeTemplates);
    var twice := Stored(once, preferences, codeTemplates);
    assert forall k :: k in twice <==> k in once;
    assert forall k :: k in twice ==> twice[k] == once[k];
  }

  class EclipseUiPrefs {
    /** The code templates to set; null sets none. */
    var codeTemplates: Option<string>
    /** The preferences to set; null sets none. */
    var preferences: Option<map<string, string>>

    /** A new object has no code templates and an empty preference map. */
    constructor()
      ensures codeTemplates == None && preferences == Some(map[])
    {
      codeTemplates := None;
      preferences := Some(map[]);
    }

    /** `store`: every preference is put into `properties`, then the code templates if set. */
    method Store(properties: Properties)
      modifies properties
      ensures properties.entries == Stored(old(properties.entries), preferences, codeTemplates)
    {
      var prefs := preferences;
      if prefs.Some? {
        var remaining := prefs.value.Keys;
        while remaining != {}
          invariant remaining <= prefs.value.Keys
          invariant forall k :: k in properties.entries <==>
            k in old(properties.entries) || (k in prefs.value && k !in remaining)
          invariant forall k :: k in properties.entries ==>
            properties.entries[k] == if k in prefs.value && k !in remaining then prefs.value[k] else old(properties.entries)[k]
          decreases remaining
        {
          var k :| k in remaining;
          properties.entries := properties.entries[k := prefs.value[k]];
          remaining := remaining - {k};
        }
      }
      if codeTemplates.Some? {
        properties.entries := properties.entries[TemplatesKey := codeTemplates.value];
      }
      ghost var expected := Stored(old(properties.entries), preferences, codeTemplates);
      assert forall k :: k in properties.entries <==> k in expected;
    }

    /** `load`: nothing is read back. */
    method Load(properties: Properties)
      ensures codeTemplates == old(codeTemplates) && preferences == old(preferences)
      ensures properties.entries == old(properties.entries)
    {
    }

    /** `setCodeTemplates`. */
    method SetCodeTemplates(codeTemplates: Option<string>)
      modifies this
      ensures this.codeTemplates == codeTemplates && preferences == old(preferences)
    {
      this.codeTemplates := codeTemplates;
    }

    /** `setPreferences`: null, or a copy of the map; a map here is a value, so later changes to the caller's map
        cannot reach it. */
    method SetPreferences(preferences: Option<map<string, string>>)
      modifies this
      ensures this.preferences == preferences && codeTemplates == old(codeTemplates)
    {
      this.preferences := if preferences.None? then None else Some(preferences.value);
    }
  }
}
