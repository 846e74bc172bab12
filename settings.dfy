/**
 * The plugin's settings (includes/admin.php, `get_settings` and
 * `admin_page_save`): a dictionary with a fixed set of eight keys, read
 * from the `sitewide_search_settings` site option and merged over
 * defaults. Both are static in the source, so they are module-level
 * methods here; the site option is their input, and what
 * `update_site_option` would store is their result.
 */
module Settings {
  import opened PhpValue

  const ArchiveKey := "archive_blog_id"
  const PostTypesKey := "post_types"
  const TaxonomiesKey := "taxonomies"

  /** The flags `admin_page_save` coerces to booleans, in the order it visits them. */
  const EnableKeys: seq<string> := ["enable_search", "enable_archive", "enable_categories", "enable_tags", "enable_author"]

  /** The keys of the defaults, in the order `get_settings` visits them. */
  const DefaultKeys: seq<string> := [ArchiveKey, PostTypesKey, TaxonomiesKey] + EnableKeys

  /** The field `admin_page_save` looks for before it saves anything. */
  const SaveField := "sitewide-search-save"

  function Defaults(): (d: map<string, Value>)
    ensures d.Keys == set k | k in DefaultKeys
  {
    map[
      ArchiveKey := Int(0),
      PostTypesKey := List([Str("post")]),
      TaxonomiesKey := List([Str("post_tag"), Str("category")]),
      "enable_search" := Bool(false),
      "enable_archive" := Bool(false),
      "enable_categories" := Bool(false),
      "enable_tags" := Bool(false),
      "enable_author" := Bool(false)]
  }

  /** The value of the `sitewide_search_settings` site option. */
  datatype StoredSettings =
    | Unset                             // never saved: `get_site_option` gives `array()`
    | NotAnArray(v: Value)              // something that is not an array
    | Stored(m: map<string, Value>)     // an associative array

  /** `$settings[$key]`: a missing key reads as null. */
  function Setting(settings: map<string, Value>, key: string): Value {
    if key in settings then settings[key] else Null
  }

  /** What `get_settings` returns for a stored option. */
  function Resolve(stored: StoredSettings): map<string, Value> {
    map k | k in Defaults() :: if stored.Stored? && k in stored.m then stored.m[k] else Defaults()[k]
  }

  /** What `admin_page_save` stores, given the current settings and the posted fields. */
  function Saved(settings: map<string, Value>, posted: map<string, Value>): map<string, Value> {
    map k | k in settings ::
      if k in EnableKeys then Bool(k in posted && Truthy(posted[k]))
      else if k in posted then posted[k]
      else settings[k]
  }

  /** `in_array($type, $settings['post_types'])`, strict. */
  predicate ConfiguredType(settings: map<string, Value>, postType: string) {
    match Setting(settings, PostTypesKey)
    case List(items) => Str(postType) in items
    case _ => false
  }

  /** A post the mirror and the bulk populate accept: published, of a configured type. */
  predicate Eligible(settings: map<string, Value>, postType: string, postStatus: string) {
    postStatus == "publish" && ConfiguredType(settings, postType)
  }

  /**
   * `get_settings`: the defaults, each replaced by the stored value under
   * the same key when the stored option is an array that has that key.
   */
  method GetSettings(stored: StoredSettings) returns (settings: map<string, Value>)
    ensures settings.Keys == set k | k in DefaultKeys
    ensures forall k :: k in settings && stored.Stored? && k in stored.m ==> settings[k] == stored.m[k]
    ensures forall k :: k in settings && !(stored.Stored? && k in stored.m) ==> settings[k] == Defaults()[k]
    ensures settings == Resolve(stored)
  {
    settings := Defaults();
    if stored.Stored? {
      settings := Overlay(settings, stored.m, DefaultKeys);
    }
    ResolveIsUnique(stored, settings);
  }

  /** A map with the keys of the defaults and `Resolve`'s value under each key is `Resolve`. */
  lemma ResolveIsUnique(stored: StoredSettings, settings: map<string, Value>)
    requires settings.Keys == Defaults().Keys
    requires forall k :: k in settings ==> settings[k] == if stored.Stored? && k in stored.m then stored.m[k] else Defaults()[k]
    ensures settings == Resolve(stored)
  {
    var r := Resolve(stored);
    assert settings.Keys == r.Keys;
    forall k | k in settings
      ensures settings[k] == r[k]
    {
    }
  }

  /**
   * The loop both `get_settings` and `admin_page_save` run over the keys
   * of an array: each key that `over` has takes `over`'s value.
   */
  method Overlay(base: map<string, Value>, over: map<string, Value>, keys: seq<string>) returns (merged: map<string, Value>)
    requires base.Keys == set k | k in keys
    ensures merged.Keys == base.Keys
    ensures forall k :: k in merged ==> merged[k] == if k in over then over[k] else base[k]
  {
    merged := base;
    for i := 0 to |keys|
      invariant merged.Keys == base.Keys
      invariant forall k :: k in merged ==> merged[k] == if k in keys[..i] && k in over then over[k] else base[k]
    {
      var key := keys[i];
      assert keys[..i + 1] == keys[..i] + [key];
      if key in over {
        merged := merged[key := over[key]];
      }
    }
    assert keys[..|keys|] == keys;
  }

  /**
   * `admin_page_save`: when the form was posted, every settings key present
   * in the posted data takes the posted value, then each `enable_*` flag
   * becomes `!empty(value)` when posted and false otherwise. The result is
   * the new value of the site option (unchanged when nothing was posted).
   */
  method AdminPageSave(stored: StoredSettings, posted: map<string, Value>) returns (result: StoredSettings)
    ensures SaveField !in posted ==> result == stored
    ensures SaveField in posted ==> result == Stored(Saved(Resolve(stored), posted))
  {
    if SaveField !in posted {
      return stored;
    }
    var settings := GetSettings(stored);
    var merged := Overlay(settings, posted, DefaultKeys);
    EnableKeysAreDefaults();
    var coerced := CoerceFlags(merged, posted, EnableKeys);
    MergedAndCoercedIsSaved(settings, posted, merged, coerced);
    result := Stored(coerced);
  }

  /** The two loops of `admin_page_save` together compute `Saved`. */
  lemma MergedAndCoercedIsSaved(settings: map<string, Value>, posted: map<string, Value>,
                                merged: map<string, Value>, coerced: map<string, Value>)
    requires merged.Keys == settings.Keys
    requires forall k :: k in merged ==> merged[k] == if k in posted then posted[k] else settings[k]
    requires coerced.Keys == merged.Keys
    requires forall k :: k in coerced && k in EnableKeys ==> coerced[k] == Bool(k in posted && Truthy(posted[k]))
    requires forall k :: k in coerced && k !in EnableKeys ==> coerced[k] == merged[k]
    ensures coerced == Saved(settings, posted)
  {
    var saved := Saved(settings, posted);
    assert coerced.Keys == saved.Keys;
    forall k | k in coerced
      ensures coerced[k] == saved[k]
    {
    }
  }

  /** The second loop of `admin_page_save`: each listed flag becomes a boolean. */
  method CoerceFlags(merged: map<string, Value>, posted: map<string, Value>, flags: seq<string>) returns (settings: map<string, Value>)
    requires forall k :: k in flags ==> k in merged
    requires forall k :: k in merged && k in posted ==> merged[k] == posted[k]
    ensures settings.Keys == merged.Keys
    ensures forall k :: k in settings && k in flags ==> settings[k] == Bool(k in posted && Truthy(posted[k]))
    ensures forall k :: k in settings && k !in flags ==> settings[k] == merged[k]
  {
    settings := merged;
    for i := 0 to |flags|
      invariant settings.Keys == merged.Keys
      invariant forall k :: k in settings && k in flags[..i] ==> settings[k] == Bool(k in posted && Truthy(posted[k]))
      invariant forall k :: k in settings && k !in flags[..i] ==> settings[k] == merged[k]
    {
      var flag := flags[i];
      assert flags[..i + 1] == flags[..i] + [flag];
      if flag !in posted {
        settings := settings[flag := Bool(false)];
      } else {
        settings := settings[flag := Bool(Truthy(settings[flag]))];
      }
    }
    assert flags[..|flags|] == flags;
  }

  lemma EnableKeysAreDefaults()
    ensures forall k :: k in EnableKeys ==> k in Defaults()
  {
  }

  /** With nothing usable stored, the settings are exactly the defaults. */
  lemma ResolveWithoutArray(stored: StoredSettings)
    requires !stored.Stored?
    ensures Resolve(stored) == Defaults()
    ensures Setting(Resolve(stored), ArchiveKey) == Int(0)
    ensures Setting(Resolve(stored), PostTypesKey) == List([Str("post")])
    ensures Setting(Resolve(stored), TaxonomiesKey) == List([Str("post_tag"), Str("category")])
    ensures forall k :: k in EnableKeys ==> Setting(Resolve(stored), k) == Bool(false)
  {
  }

  /** Unknown stored keys are dropped; known ones replace the defaults. */
  lemma ResolveKeys(stored: StoredSettings, key: string)
    ensures key in Resolve(stored) <==> key in DefaultKeys
    ensures stored.Stored? && key in stored.m && key in DefaultKeys ==> Setting(Resolve(stored), key) == stored.m[key]
  {
  }

  /** The flags `admin_page_save` stores are booleans: false unless posted with a non-empty value. */
  lemma SavedFlagsAreBooleans(stored: StoredSettings, posted: map<string, Value>, flag: string)
    requires flag in EnableKeys
    ensures Setting(Saved(Resolve(stored), posted), flag) == Bool(flag in posted && Truthy(posted[flag]))
  {
    assert flag in Defaults();
  }

  /** Reading back what `admin_page_save` stored gives exactly what it stored. */
  lemma SaveThenResolve(stored: StoredSettings, posted: map<string, Value>)
    ensures Resolve(Stored(Saved(Resolve(stored), posted))) == Saved(Resolve(stored), posted)
  {
    var saved := Saved(Resolve(stored), posted);
    assert saved.Keys == Defaults().Keys;
    assert Resolve(Stored(saved)).Keys == saved.Keys;
    forall k | k in saved
      ensures Resolve(Stored(saved))[k] == saved[k]
    {
    }
  }

  /** With the defaults, ordinary posts are mirrored and nothing else is. */
  lemma DefaultsMirrorPostsOnly(stored: StoredSettings, postType: string)
    requires !stored.Stored?
    ensures ConfiguredType(Resolve(stored), postType) <==> postType == "post"
  {
    ResolveWithoutArray(stored);
  }
}
