/**
 * `Sitewide_Search_Admin` (includes/admin.php): the static registries of
 * post types and taxonomies offered on the settings page, and the
 * `populate_archive` request handler performed step by step on the
 * network. `get_settings` and `admin_page_save` are in module Settings.
 */
module Admin {
  import opened Optional
  import opened PhpValue
  import opened Store
  import opened Settings
  import opened Mirror
  import opened Search
  import opened PopulateSpec

  /** The post types listed after a sequence of `registered_post_type` actions (name, displayName). */
  function RegisterTypes(types: map<string, string>, events: seq<(string, string)>): map<string, string>
    decreases |events|
  {
    if events == [] then types
    else
      var name := events[0].0;
      RegisterTypes(if name != MirrorType then types[name := events[0].1] else types, events[1..])
  }

  /** The taxonomies listed after a sequence of `registered_taxonomy` actions (name, displayName). */
  function RegisterTaxonomies(taxonomies: map<string, string>, events: seq<(string, string)>): map<string, string>
    decreases |events|
  {
    if events == [] then taxonomies
    else RegisterTaxonomies(taxonomies[events[0].0 := events[0].1], events[1..])
  }

  /** Every registered post type is listed except the mirror type, which never is. */
  lemma {:induction false} RegisteredTypeNames(types: map<string, string>, events: seq<(string, string)>, name: string)
    requires MirrorType !in types
    decreases |events|
    ensures MirrorType !in RegisterTypes(types, events)
    ensures name in RegisterTypes(types, events) <==>
      name in types || (name != MirrorType && exists i :: 0 <= i < |events| && events[i].0 == name)
  {
    if events != [] {
      var next := if events[0].0 != MirrorType then types[events[0].0 := events[0].1] else types;
      RegisteredTypeNames(next, events[1..], name);
      if name != MirrorType && exists i :: 0 <= i < |events| && events[i].0 == name {
        var i :| 0 <= i < |events| && events[i].0 == name;
        if i > 0 {
          assert events[1..][i - 1].0 == name;
        }
      }
      if exists i :: 0 <= i < |events[1..]| && events[1..][i].0 == name {
        var i :| 0 <= i < |events[1..]| && events[1..][i].0 == name;
        assert events[i + 1].0 == name;
      }
    }
  }

  /** Every registered taxonomy is listed, under the label it was last registered with. */
  lemma {:induction false} RegisteredTaxonomyNames(taxonomies: map<string, string>, events: seq<(string, string)>, name: string)
    decreases |events|
    ensures name in RegisterTaxonomies(taxonomies, events) <==>
      name in taxonomies || exists i :: 0 <= i < |events| && events[i].0 == name
    ensures (forall i :: 0 <= i < |events| ==> events[i].0 != name) && name in taxonomies ==>
      RegisterTaxonomies(taxonomies, events)[name] == taxonomies[name]
    ensures forall i :: 0 <= i < |events| && events[i].0 == name && (forall j :: i < j < |events| ==> events[j].0 != name) ==>
      RegisterTaxonomies(taxonomies, events)[name] == events[i].1
  {
    if events != [] {
      RegisteredTaxonomyNames(taxonomies[events[0].0 := events[0].1], events[1..], name);
      if exists i :: 0 <= i < |events| && events[i].0 == name {
        var i :| 0 <= i < |events| && events[i].0 == name;
        if i > 0 {
          assert events[1..][i - 1].0 == name;
        }
      }
      if exists i :: 0 <= i < |events[1..]| && events[1..][i].0 == name {
        var i :| 0 <= i < |events[1..]| && events[1..][i].0 == name;
        assert events[i + 1].0 == name;
      }
      if forall i :: 0 <= i < |events| ==> events[i].0 != name {
        assert events[0].0 != name;
        forall i | 0 <= i < |events[1..]|
          ensures events[1..][i].0 != name
        {
          assert events[1..][i] == events[i + 1];
        }
      }
      forall i | 0 <= i < |events| && events[i].0 == name && (forall j :: i < j < |events| ==> events[j].0 != name)
        ensures RegisterTaxonomies(taxonomies, events)[name] == events[i].1
      {
        forall j | i <= j < |events[1..]|
          ensures events[1..][j].0 != name
        {
          assert events[1..][j] == events[j + 1];
        }
        if i > 0 {
          assert events[1..][i - 1] == events[i];
        }
      }
    }
  }

  /** The static arrays `$post_types` and `$taxonomies`, by name, holding each one's label. */
  class Registry {
    var postTypes: map<string, string>
    var taxonomies: map<string, string>

    constructor ()
      ensures postTypes == map[] && taxonomies == map[]
    {
      postTypes := map[];
      taxonomies := map[];
    }

    /** `add_post_type`: lists the type under its name unless it is the mirror type. */
    method AddPostType(name: string, displayName: string)
      modifies this`postTypes
      ensures postTypes == RegisterTypes(old(postTypes), [(name, displayName)])
    {
      if name != MirrorType {
        postTypes := postTypes[name := displayName];
      }
    }

    /** `add_taxonomy`: lists every taxonomy under its name. */
    method AddTaxonomy(name: string, postType: string, displayName: string)
      modifies this`taxonomies
      ensures taxonomies == RegisterTaxonomies(old(taxonomies), [(name, displayName)])
    {
      taxonomies := taxonomies[name := displayName];
    }
  }

  /** The first loop of `populate_archive`: each checkpoint key posted is cast to an integer. */
  method ParseStep(request: map<string, Value>) returns (step: Step)
    ensures step == ParsedStep(request)
  {
    var fields: map<string, int> := map k | k in StepKeys :: 0;
    for i := 0 to |StepKeys|
      invariant fields.Keys == set k | k in StepKeys
      invariant forall k :: k in fields ==> fields[k] == if k in StepKeys[..i] then Field(request, k) else 0
    {
      var key := StepKeys[i];
      assert StepKeys[..i + 1] == StepKeys[..i] + [key];
      if key in request {
        fields := fields[key := ToInt(request[key])];
      }
    }
    assert StepKeys[..|StepKeys|] == StepKeys;
    step := Step(fields["blog"], fields["blog_count"], fields["post"], fields["post_count"]);
  }

  /**
   * `populate_archive`: read the settings and the checkpoint, resolve the
   * blog, and for a public blog switch to it (without switching back),
   * count its eligible posts when no count came in, save each post of the
   * batch through the global object's `save_post`, and answer the next
   * checkpoint. Its effect and answer are `Populate`'s. The bulk save is
   * the corrected one: each full row is passed, where the source passes
   * only the post id and so saves nothing (`BulkPathFindsNoPost`).
   */
  method PopulateArchive(stored: StoredSettings, request: map<string, Value>, search: SitewideSearch) returns (response: Response)
    requires search.net.Valid()
    modifies search.net
    ensures search.net.Valid()
    ensures (search.net.State(), response)
      == Populate(old(search.net.State()), Resolve(stored), search.settings, request, search.permalinkOf)
  {
    var net := search.net;
    var settings := GetSettings(stored);
    if !Truthy(Setting(settings, ArchiveKey)) {
      return Disabled(Step(0, 0, 0, 0));
    }
    var step := ParseStep(request);
    var b: int;
    if step.blog == 0 {
      b := FirstBlog(net.ids);
    } else {
      b := if step.blog in net.ids then step.blog else 0;
    }
    if b == 0 {
      return NotFound(step.(blog := 0), NoBlogsFound);
    }
    step := step.(blog := b);
    if step.blogCount == 0 {
      step := step.(blogCount := |net.ids|);
    }
    response := VisitBlogStep(settings, search, step);
  }

  /**
   * The rest of `populate_archive` once the blog exists. Its effect and
   * answer are `PopulateSpec.VisitBlog`'s.
   */
  method VisitBlogStep(settings: map<string, Value>, search: SitewideSearch, s: Step) returns (response: Response)
    requires search.net.Valid() && s.blog in search.net.blogs
    modifies search.net
    ensures search.net.Valid()
    ensures (search.net.State(), response)
      == PopulateSpec.VisitBlog(old(search.net.State()), settings, search.settings, s, search.permalinkOf)
  {
    var net := search.net;
    var blog := net.blogs[s.blog];
    if blog.isPublic {
      response := CopyFromBlogStep(settings, search, s);
    } else {
      var next := NextBlogAfter(net.ids, s.blog);
      response := Progress(Step(next, s.blogCount - 1, 0, s.postCount), 0, blog.name,
                           NotPublic(blog.name, s.blogCount - 1), if next != 0 then Ok else Done);
    }
  }

  /**
   * A public blog: switch to it (and stay), count its eligible posts when
   * no count came in, save the batch, and answer the next checkpoint.
   * Its effect and answer are `PopulateSpec.CopyFromBlog`'s.
   */
  method CopyFromBlogStep(settings: map<string, Value>, search: SitewideSearch, s: Step) returns (response: Response)
    requires search.net.Valid() && s.blog in search.net.blogs
    modifies search.net
    ensures search.net.Valid()
    ensures (search.net.State(), response)
      == PopulateSpec.CopyFromBlog(old(search.net.State()), settings, search.settings, s, search.permalinkOf)
  {
    var net := search.net;
    var blog := net.blogs[s.blog];
    response := CopyAnswerStep(net.ids, blog, settings, s);
    net.SwitchTo(s.blog);
    var posts := Batch(blog.posts, s.post, settings);
    if |posts| > 0 {
      SaveBatch(search, posts);
    }
  }

  /**
   * The answer for a public blog, built field by field as the source does:
   * the count is taken when none came in, the checkpoint moves to the last
   * key copied, and when nothing was copied it moves to the next blog.
   */
  method CopyAnswerStep(ids: seq<int>, blog: Blog, settings: map<string, Value>, s: Step) returns (response: Response)
    requires BlogIdsAscending(ids) && (forall k :: k in ids ==> 0 < k) && s.blog in ids
    ensures response == PopulateSpec.CopyAnswer(ids, blog, settings, s)
  {
    var step := s;
    var postDone := 0;
    var message: Message;
    if step.postCount == 0 {
      step := step.(postCount := Count(blog.posts, EligibleRow(settings)));
    }
    var posts := Batch(blog.posts, step.post, settings);
    if |posts| > 0 {
      postDone := |posts|;
      step := step.(post := posts[|posts| - 1].id);
    }
    if postDone != 0 {
      message := Copied(blog.name, postDone, step.postCount);
      step := step.(postCount := step.postCount - postDone);
    } else {
      message := BlogFinished(blog.name, step.blogCount - 1);
      step := step.(postCount := 0);
    }
    if postDone == 0 {
      step := step.(post := 0, blogCount := step.blogCount - 1, blog := NextBlogAfter(ids, step.blog));
    }
    response := Progress(step, postDone, blog.name, message, if step.blog != 0 then Ok else Done);
  }

  /**
   * The loop over the fetched posts: `save_post` for each, in order, given
   * the full row. The source passes only the id (`BulkPathFindsNoPost`).
   */
  method SaveBatch(search: SitewideSearch, posts: seq<Post>)
    requires search.net.Valid()
    modifies search.net
    ensures search.net.Valid()
    ensures search.net.State() == SaveAll(old(search.net.State()), search.settings, posts, search.permalinkOf)
  {
    var net := search.net;
    ghost var start := net.State();
    for i := 0 to |posts|
      invariant net.Valid()
      invariant net.State() == SaveAll(start, search.settings, posts[..i], search.permalinkOf)
    {
      assert posts[..i + 1][..i] == posts[..i];
      search.SavePost(posts[i]);
    }
    assert posts[..|posts|] == posts;
  }

  /**
   * As written, every `save_post($post->ID)` of the bulk populate runs
   * with no post object: none is passed, and the request the admin script
   * sends back carries no `post_title`.
   */
  lemma BulkPathFindsNoPost(r: Response, getData: map<string, Value>)
    requires r.Progress? && "post_title" !in getData
    ensures PostObjectOf(None, EchoRequest(r), getData) == NoObject
    ensures !HasTypeAndStatus(PostObjectOf(None, EchoRequest(r), getData))
  {
    EchoRoundTrip(r);
    BulkSaveHasNoObject(EchoRequest(r), getData);
  }
}
