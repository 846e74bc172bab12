/**
 * The `Sitewide_Search` object (includes/sitewide-search.php): its settings,
 * its cached copy count with the `-1` sentinel, `save_post` performing the
 * mirror upsert step by step on the network, and the static `get_template`.
 * WordPress's own calls are inputs: `get_permalink` is `permalinkOf`, and
 * `locate_template` and `file_exists` are `locate` and `existing`.
 */
module Search {
  import opened Optional
  import opened PhpValue
  import opened Store
  import opened Settings
  import opened Mirror

  /** What the count query gives: the number of copy-typed rows, or null when the archive has no table. */
  function CountQuery(w: World, blog: int): Value {
    if blog in w.blogs then Str(IntToString(Count(w.blogs[blog].posts, IsMirrorCopy()))) else Null
  }

  /** Once the query has answered, the cached value is never below zero, so it is not asked again. */
  lemma QueriedCountIsFinal(w: World, blog: int)
    ensures !LooseBelowZero(CountQuery(w, blog))
    ensures blog in w.blogs ==> ToInt(CountQuery(w, blog)) == Count(w.blogs[blog].posts, IsMirrorCopy())
  {
    if blog in w.blogs {
      IntToStringRoundTrip(Count(w.blogs[blog].posts, IsMirrorCopy()));
    }
  }

  /** The two template names tried, most specific first. */
  function TemplateNames(slug: string, name: string): seq<string> {
    [slug + "-" + name + ".php", slug + ".php"]
  }

  function TemplatePath(templateDir: string, name: string): string {
    templateDir + "/" + name
  }

  /**
   * `get_template`: the theme's located file when `locate_template` finds
   * one; otherwise the first of the two names that exists in the plugin's
   * template directory; otherwise nothing. The result is the one file
   * handed to `load_template`.
   */
  method GetTemplate(slug: string, name: string, locate: seq<string> -> string, templateDir: string, existing: set<string>)
    returns (loaded: Option<string>)
    ensures var names := TemplateNames(slug, name);
      var located := locate(names);
      var specific := TemplatePath(templateDir, names[0]);
      var generic := TemplatePath(templateDir, names[1]);
      && (Truthy(Str(located)) ==> loaded == Some(located))
      && (!Truthy(Str(located)) && specific in existing ==> loaded == Some(specific))
      && (!Truthy(Str(located)) && specific !in existing && generic in existing ==> loaded == Some(generic))
      && (!Truthy(Str(located)) && specific !in existing && generic !in existing ==> loaded == None)
  {
    var names := TemplateNames(slug, name);
    var located := locate(names);
    if Truthy(Str(located)) {
      return Some(located);
    }
    for i := 0 to |names|
      invariant forall j :: 0 <= j < i ==> TemplatePath(templateDir, names[j]) !in existing
    {
      var path := TemplatePath(templateDir, names[i]);
      if path in existing {
        return Some(path);
      }
    }
    return None;
  }

  class SitewideSearch {
    /** The database handle the global `$wpdb` stands for. */
    const net: Network
    const settings: map<string, Value>
    /** `get_permalink`, for a post id on a blog. */
    const permalinkOf: (int, int) -> string
    /** The cached copy count; `Int(-1)` until queried. */
    var postCount: Value

    /** The constructor reads the settings once; the count is not yet known. */
    constructor (net: Network, stored: StoredSettings, permalinkOf: (int, int) -> string)
      ensures this.net == net && this.permalinkOf == permalinkOf
      ensures settings == Resolve(stored)
      ensures postCount == Int(-1) && LooseBelowZero(postCount)
    {
      var s := GetSettings(stored);
      this.net := net;
      this.permalinkOf := permalinkOf;
      settings := s;
      postCount := Int(-1);
    }

    /**
     * `get_post_count`: while the cache is below zero and an archive is
     * set, the active blog is switched to the archive (and left there) and
     * the cache takes the count query's answer; otherwise nothing changes.
     */
    method GetPostCount() returns (count: Value)
      modifies this`postCount, net`active
      ensures count == postCount
      ensures LooseBelowZero(old(postCount)) && Truthy(Setting(settings, ArchiveKey)) ==>
        && net.State() == old(net.State()).(active := ArchiveId(settings))
        && postCount == CountQuery(old(net.State()), ArchiveId(settings))
      ensures !(LooseBelowZero(old(postCount)) && Truthy(Setting(settings, ArchiveKey))) ==>
        net.State() == old(net.State()) && postCount == old(postCount)
    {
      if LooseBelowZero(postCount) && Truthy(Setting(settings, ArchiveKey)) {
        net.SwitchTo(ArchiveId(settings));
        postCount := CountQuery(net.State(), net.active);
      }
      count := postCount;
    }

    /**
     * `save_post` for an explicit post of the current blog: when the
     * archive is reachable and the post is eligible (the corrected gate
     * `Mirrors`), the copy is stamped,
     * the active blog switched to the archive, the copy updated in place or
     * inserted, its two meta rows written, and the active blog switched
     * back. The whole effect is `SaveEffect`.
     */
    method SavePost(post: Post)
      requires net.Valid()
      modifies net
      ensures net.Valid()
      ensures net.State() == SaveEffect(old(net.State()), settings, post, permalinkOf)
    {
      var current := net.active;
      var archive := Setting(settings, ArchiveKey);
      if !archive.List? && !LooseEqualsInt(archive, current)
        && ToInt(archive) in net.blogs && net.blogs[ToInt(archive)].address != ""
      {
        if Eligible(settings, post.postType, post.postStatus) {
          var permalink := permalinkOf(current, post.id);
          var copy := MirrorCopy(post, current);
          net.SwitchTo(ToInt(archive));
          WriteCopy(copy, permalink, post.postType);
          net.SwitchTo(current);
        }
      }
    }

    /**
     * The archive half of `save_post`, on the active blog: look the copy up
     * by guid, update that row in place or insert a new one, then write
     * the permalink and original type meta under its key.
     */
    method WriteCopy(copy: Post, permalink: string, originType: string)
      requires net.Valid() && net.active in net.blogs
      modifies net
      ensures net.Valid()
      ensures net.State() == old(net.State()).(blogs := old(net.blogs)[old(net.active) := Upsert(old(net.blogs[net.active]), copy, permalink, originType)])
    {
      ghost var b := net.blogs[net.active];
      var id := WriteRow(copy);
      ghost var row := net.blogs[net.active];
      net.UpdatePostMeta(id, "permalink", permalink);
      net.UpdatePostMeta(id, "post_type", originType);
      assert net.blogs[net.active] == row.(meta := CopyMeta(b.meta, id, permalink, originType));
    }

    /**
     * The row half of the upsert: the copy overwrites the row that has its
     * guid, keeping that row's key, or is inserted under a fresh key; the
     * meta is left for the caller. The key is `UpsertKey`'s.
     */
    method WriteRow(copy: Post) returns (id: int)
      requires net.Valid() && net.active in net.blogs
      modifies net
      ensures net.Valid() && net.active in net.blogs
      ensures var b := old(net.blogs[net.active]);
        && id == UpsertKey(b, copy.guid)
        && net.State() == old(net.State()).(blogs := old(net.blogs)[old(net.active) := UpsertRow(b, copy)])
    {
      ghost var a := net.active;
      ghost var b := net.blogs[a];
      var found := net.FindByGuid(copy.guid);
      if found.Some? {
        id := found.value;
        ghost var i := GuidRow(b.posts, copy.guid).value;
        RowWithIdUnique(b.posts, i);
        net.UpdatePost(copy.(id := id));
        assert net.blogs == old(net.blogs)[a := b.(posts := b.posts[i := copy.(id := id)])];
      } else {
        id := net.InsertPost(copy);
        assert net.blogs == old(net.blogs)[a := b.(posts := b.posts + [copy.(id := id)], nextId := id + 1)];
      }
    }
  }

  /**
   * The type test of `save_post` as written: it looks the configured types
   * up under `post_type`, a key the settings never have.
   */
  predicate TypeGateAsWritten(settings: map<string, Value>, postType: string) {
    match Setting(settings, "post_type")
    case List(items) => Str(postType) in items
    case _ => false
  }

  /** The gate of `save_post` as written. */
  predicate MirrorsAsWritten(w: World, settings: map<string, Value>, post: Post) {
    ArchiveReachable(w, settings) && TypeGateAsWritten(settings, post.postType) && post.postStatus == "publish"
  }

  /** As written, `save_post` mirrors no post whatever the stored settings are. */
  lemma TypeGateAsWrittenNeverPasses(stored: StoredSettings, w: World, post: Post)
    ensures !MirrorsAsWritten(w, Resolve(stored), post)
  {
    assert "post_type" !in DefaultKeys;
  }

  /**
   * A network with an origin blog 1 and an archive blog 2, the archive set
   * to 2 and the defaults otherwise: a published `post` on blog 1 is
   * mirrored by the corrected gate and rejected by the gate as written.
   */
  lemma TypeGateCounterexample()
    ensures var origin := Blog("Origin", true, "http://origin/", [], map[], 1);
      var archive := Blog("Archive", true, "http://archive/", [], map[], 1);
      var w := World([1, 2], map[1 := origin, 2 := archive], 1);
      var settings := Resolve(Stored(map[ArchiveKey := Int(2)]));
      var post := Post(7, "Hello", "Body", "post", "publish", "http://origin/?p=7", "open", "open");
      Mirrors(w, settings, post) && !MirrorsAsWritten(w, settings, post)
  {
    var settings := Resolve(Stored(map[ArchiveKey := Int(2)]));
    assert Setting(settings, ArchiveKey) == Int(2);
    assert Setting(settings, PostTypesKey) == List([Str("post")]);
    TypeGateAsWrittenNeverPasses(Stored(map[ArchiveKey := Int(2)]),
      World([1, 2], map[1 := Blog("Origin", true, "http://origin/", [], map[], 1), 2 := Blog("Archive", true, "http://archive/", [], map[], 1)], 1),
      Post(7, "Hello", "Body", "post", "publish", "http://origin/?p=7", "open", "open"));
  }

  /** Where `save_post` gets its post object from. */
  datatype PostObject =
    | Given(post: Post)                        // the object the caller passed
    | FromRequest(fields: map<string, Value>)  // `(object) $_POST` or `(object) $_GET`
    | NoObject                                 // neither: `$post` stays null

  /** `save_post`'s choice of post object: the argument, else request data that has a `post_title`. */
  function PostObjectOf(given: Option<Post>, postData: map<string, Value>, getData: map<string, Value>): PostObject {
    if given.Some? then Given(given.value)
    else if "post_title" in postData then FromRequest(postData)
    else if "post_title" in getData then FromRequest(getData)
    else NoObject
  }

  /** `property_exists` of both `post_type` and `post_status`, the test before the type gate. */
  predicate HasTypeAndStatus(obj: PostObject) {
    match obj
    case Given(_) => true
    case FromRequest(fields) => "post_type" in fields && "post_status" in fields
    case NoObject => false
  }

  /**
   * The bulk populate calls `save_post` with a post id only, from a request
   * whose data has no `post_title`: there is no post object, so nothing is
   * ever copied on that path.
   */
  lemma BulkSaveHasNoObject(postData: map<string, Value>, getData: map<string, Value>)
    requires "post_title" !in postData && "post_title" !in getData
    ensures PostObjectOf(None, postData, getData) == NoObject
    ensures !HasTypeAndStatus(PostObjectOf(None, postData, getData))
  {
  }
}
