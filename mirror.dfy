/**
 * What `save_post` (includes/sitewide-search.php) does to the network,
 * stated as functions: the composite identity stamped on an archive copy,
 * the copy itself, the find-or-insert upsert into the archive's post
 * table, and the whole effect of one call including its eligibility gate.
 * The class method that performs these steps one by one is proved against
 * `SaveEffect`.
 */
module Mirror {
  import opened Optional
  import opened PhpValue
  import opened Store
  import opened Settings

  /** The post type every archive copy is given. */
  const MirrorType := "sitewide-search"

  /** `sprintf('%d,%d', blog, post)`: the guid that names an archive copy's origin. */
  function EncodeGuid(blog: int, post: int): string {
    IntToString(blog) + "," + IntToString(post)
  }

  /** The index of the first comma in `s`. */
  function CommaAt(s: string): (r: Option<nat>)
    ensures r.Some? ==> r.value < |s| && s[r.value] == ',' && forall k :: 0 <= k < r.value ==> s[k] != ','
    ensures r.None? ==> forall k :: 0 <= k < |s| ==> s[k] != ','
  {
    if s == [] then None
    else if s[0] == ',' then Some(0)
    else match CommaAt(s[1..])
      case Some(i) => Some(i + 1)
      case None => None
  }

  /** Reads a guid back as (blog, post): the numbers before and after its first comma. */
  function DecodeGuid(s: string): Option<(int, int)> {
    match CommaAt(s)
    case Some(i) => Some((StrToInt(s[..i]), StrToInt(s[i + 1..])))
    case None => None
  }

  lemma {:induction false} GuidRoundTrip(blog: int, post: int)
    ensures DecodeGuid(EncodeGuid(blog, post)) == Some((blog, post))
  {
    var a, b := IntToString(blog), IntToString(post);
    var s := EncodeGuid(blog, post);
    assert s[|a|] == ',';
    assert forall k :: 0 <= k < |a| ==> s[k] == a[k] && s[k] != ',';
    assert CommaAt(s) == Some(|a|);
    assert s[..|a|] == a;
    assert s[|a| + 1..] == b;
    IntToStringRoundTrip(blog);
    IntToStringRoundTrip(post);
  }

  /** Two copies share a guid exactly when they come from the same post of the same blog. */
  lemma GuidIdentity(blog1: int, post1: int, blog2: int, post2: int)
    ensures EncodeGuid(blog1, post1) == EncodeGuid(blog2, post2) <==> blog1 == blog2 && post1 == post2
  {
    if EncodeGuid(blog1, post1) == EncodeGuid(blog2, post2) {
      GuidRoundTrip(blog1, post1);
      GuidRoundTrip(blog2, post2);
    }
  }

  /**
   * The copy `save_post` writes for a post of blog `blog`: the post with
   * its guid replaced by the composite identity, its type forced to the
   * mirror type, and ping and comment status closed.
   */
  function MirrorCopy(post: Post, blog: int): (c: Post)
    ensures c.guid == EncodeGuid(blog, post.id)
    ensures c.postType == MirrorType && c.pingStatus == "closed" && c.commentStatus == "closed"
    ensures c.(guid := post.guid, postType := post.postType, pingStatus := post.pingStatus,
               commentStatus := post.commentStatus) == post
  {
    post.(guid := EncodeGuid(blog, post.id), postType := MirrorType, pingStatus := "closed", commentStatus := "closed")
  }

  /** The two meta rows written for a copy: its origin permalink and its origin type. */
  function CopyMeta(meta: map<int, map<string, string>>, id: int, permalink: string, originType: string): (m: map<int, map<string, string>>)
    ensures m.Keys == meta.Keys + {id}
    ensures "permalink" in m[id] && "post_type" in m[id]
    ensures m[id]["permalink"] == permalink && m[id]["post_type"] == originType
    ensures forall k :: k in m[id] && k != "permalink" && k != "post_type" ==> id in meta && k in meta[id] && m[id][k] == meta[id][k]
    ensures forall other :: other in meta && other != id ==> m[other] == meta[other]
  {
    SetMeta(SetMeta(meta, id, "permalink", permalink), id, "post_type", originType)
  }

  /** The key the copy is stored under: the found row's key, else the next auto-increment key. */
  function UpsertKey(blog: Blog, g: string): (id: int)
    requires WellFormedBlog(blog)
    ensures 0 < id <= blog.nextId
    ensures id == blog.nextId <==> GuidRow(blog.posts, g).None?
    ensures GuidRow(blog.posts, g).Some? ==> id == blog.posts[GuidRow(blog.posts, g).value].id
  {
    match GuidRow(blog.posts, g)
    case Some(i) => blog.posts[i].id
    case None => blog.nextId
  }

  /**
   * The row half of find-before-insert: when a row of the archive already
   * carries the copy's guid, the first such row is overwritten in place
   * and keeps its key; otherwise the copy is appended under a fresh key.
   */
  function UpsertRow(blog: Blog, copy: Post): (r: Blog)
    requires WellFormedBlog(blog)
    ensures WellFormedBlog(r)
    ensures r.name == blog.name && r.isPublic == blog.isPublic && r.address == blog.address && r.meta == blog.meta
  {
    var id := UpsertKey(blog, copy.guid);
    match GuidRow(blog.posts, copy.guid)
    case Some(i) =>
      var posts := blog.posts[i := copy.(id := id)];
      assert forall j :: 0 <= j < |posts| ==> posts[j].id == blog.posts[j].id;
      blog.(posts := posts)
    case None =>
      blog.(posts := blog.posts + [copy.(id := id)], nextId := id + 1)
  }

  /** Find-before-insert, then the row's meta receives the permalink and the origin type. */
  function Upsert(blog: Blog, copy: Post, permalink: string, originType: string): (r: Blog)
    requires WellFormedBlog(blog)
    ensures WellFormedBlog(r)
    ensures r.name == blog.name && r.isPublic == blog.isPublic && r.address == blog.address
  {
    UpsertRow(blog, copy).(meta := CopyMeta(blog.meta, UpsertKey(blog, copy.guid), permalink, originType))
  }

  /** The number of rows of a post table that satisfy `f`. */
  function Count(posts: seq<Post>, f: Post -> bool): nat {
    if posts == [] then 0 else (if f(posts[0]) then 1 else 0) + Count(posts[1..], f)
  }

  function GuidIs(g: string): Post -> bool {
    (p: Post) => p.guid == g
  }

  /** The number of rows of a post table that carry guid `g`. */
  function Copies(posts: seq<Post>, g: string): nat {
    Count(posts, GuidIs(g))
  }

  lemma {:induction false} CountNone(posts: seq<Post>, f: Post -> bool)
    requires forall j :: 0 <= j < |posts| ==> !f(posts[j])
    ensures Count(posts, f) == 0
  {
    if posts != [] {
      CountNone(posts[1..], f);
    }
  }

  lemma {:induction false} CountFound(posts: seq<Post>, i: nat, f: Post -> bool)
    requires i < |posts| && f(posts[i])
    ensures Count(posts, f) >= 1
  {
    if i > 0 {
      CountFound(posts[1..], i - 1, f);
    }
  }

  lemma {:induction false} CountAppend(posts: seq<Post>, row: Post, f: Post -> bool)
    ensures Count(posts + [row], f) == Count(posts, f) + (if f(row) then 1 else 0)
  {
    if posts != [] {
      assert (posts + [row])[1..] == posts[1..] + [row];
      CountAppend(posts[1..], row, f);
    }
  }

  lemma {:induction false} CountReplace(posts: seq<Post>, i: nat, row: Post, f: Post -> bool)
    requires i < |posts|
    ensures Count(posts[i := row], f) + (if f(posts[i]) then 1 else 0)
         == Count(posts, f) + (if f(row) then 1 else 0)
  {
    if i > 0 {
      assert posts[i := row][1..] == posts[1..][i - 1 := row];
      CountReplace(posts[1..], i - 1, row, f);
    }
  }

  /**
   * The upsert leaves exactly one row with the copy's guid when there was
   * at most one before, and never changes how many rows carry any other
   * guid: repeated saves of one post keep at most one copy of it.
   */
  lemma UpsertCopies(blog: Blog, copy: Post, permalink: string, originType: string, g: string)
    requires WellFormedBlog(blog)
    ensures var r := Upsert(blog, copy, permalink, originType);
      && (g == copy.guid ==> Copies(r.posts, g) == if Copies(blog.posts, g) == 0 then 1 else Copies(blog.posts, g))
      && (g != copy.guid ==> Copies(r.posts, g) == Copies(blog.posts, g))
  {
    match GuidRow(blog.posts, copy.guid)
    case Some(i) =>
      CountFound(blog.posts, i, GuidIs(copy.guid));
      CountReplace(blog.posts, i, copy.(id := blog.posts[i].id), GuidIs(g));
    case None =>
      CountNone(blog.posts, GuidIs(copy.guid));
      CountAppend(blog.posts, copy.(id := blog.nextId), GuidIs(g));
  }

  /**
   * After the upsert the first row carrying the copy's guid holds the copy
   * under `UpsertKey`, and that key's meta holds the permalink and origin
   * type; a row that already carried the guid keeps its place, and
   * otherwise the copy sits at the end.
   */
  lemma UpsertStoresCopy(blog: Blog, copy: Post, permalink: string, originType: string)
    requires WellFormedBlog(blog)
    ensures var r := Upsert(blog, copy, permalink, originType);
      var j := GuidRow(r.posts, copy.guid);
      var id := UpsertKey(blog, copy.guid);
      && j.Some?
      && r.posts[j.value] == copy.(id := id)
      && id in r.meta && "permalink" in r.meta[id] && "post_type" in r.meta[id]
      && r.meta[id]["permalink"] == permalink
      && r.meta[id]["post_type"] == originType
      && (GuidRow(blog.posts, copy.guid).Some? ==> j == GuidRow(blog.posts, copy.guid))
      && (GuidRow(blog.posts, copy.guid).None? ==> j.value == |blog.posts|)
  {
    var r := Upsert(blog, copy, permalink, originType);
    match GuidRow(blog.posts, copy.guid)
    case Some(i) =>
      assert r.posts[i].guid == copy.guid;
      assert forall k :: 0 <= k < i ==> r.posts[k] == blog.posts[k];
      assert GuidRow(r.posts, copy.guid) == Some(i);
    case None =>
      assert r.posts[|blog.posts|].guid == copy.guid;
      assert forall k :: 0 <= k < |blog.posts| ==> r.posts[k] == blog.posts[k];
      assert GuidRow(r.posts, copy.guid) == Some(|blog.posts|);
  }

  /** Rows with another guid, and the meta of every other key, are untouched. */
  lemma UpsertKeepsOthers(blog: Blog, copy: Post, permalink: string, originType: string)
    requires WellFormedBlog(blog)
    ensures var r := Upsert(blog, copy, permalink, originType);
      && |blog.posts| <= |r.posts| <= |blog.posts| + 1
      && (forall i :: 0 <= i < |blog.posts| && blog.posts[i].guid != copy.guid ==> r.posts[i] == blog.posts[i])
      && (forall id :: id in blog.meta && id != UpsertKey(blog, copy.guid) ==> id in r.meta && r.meta[id] == blog.meta[id])
  {
  }

  lemma CopyMetaIdempotent(meta: map<int, map<string, string>>, id: int, permalink: string, originType: string)
    ensures var m := CopyMeta(meta, id, permalink, originType);
      CopyMeta(m, id, permalink, originType) == m
  {
    var m := CopyMeta(meta, id, permalink, originType);
    var m2 := CopyMeta(m, id, permalink, originType);
    assert m2[id] == m[id];
  }

  /** Saving the same copy twice is the same as saving it once. */
  lemma UpsertIdempotent(blog: Blog, copy: Post, permalink: string, originType: string)
    requires WellFormedBlog(blog)
    ensures var r := Upsert(blog, copy, permalink, originType);
      Upsert(r, copy, permalink, originType) == r
  {
    var r := Upsert(blog, copy, permalink, originType);
    UpsertStoresCopy(blog, copy, permalink, originType);
    var j := GuidRow(r.posts, copy.guid).value;
    var id := UpsertKey(blog, copy.guid);
    assert UpsertKey(r, copy.guid) == id;
    assert r.posts[j := copy.(id := id)] == r.posts;
    CopyMetaIdempotent(blog.meta, id, permalink, originType);
  }

  /** The rows `get_post_count` counts: those of the mirror type. */
  function IsMirrorCopy(): Post -> bool {
    (p: Post) => p.postType == MirrorType
  }

  /**
   * The archive holds one more copy-typed row after an upsert that
   * inserted, and as many as before after one that overwrote a copy.
   */
  lemma UpsertMirrorCount(blog: Blog, copy: Post, permalink: string, originType: string)
    requires WellFormedBlog(blog) && copy.postType == MirrorType
    ensures var r := Upsert(blog, copy, permalink, originType);
      var found := GuidRow(blog.posts, copy.guid);
      Count(r.posts, IsMirrorCopy()) == Count(blog.posts, IsMirrorCopy())
        + (if found.Some? && blog.posts[found.value].postType == MirrorType then 0 else 1)
  {
    match GuidRow(blog.posts, copy.guid)
    case Some(i) =>
      CountReplace(blog.posts, i, copy.(id := blog.posts[i].id), IsMirrorCopy());
    case None =>
      CountAppend(blog.posts, copy.(id := blog.nextId), IsMirrorCopy());
  }

  /** The blog `$wpdb->set_blog_id` selects for the archive setting. */
  function ArchiveId(settings: map<string, Value>): int {
    ToInt(Setting(settings, ArchiveKey))
  }

  /**
   * The first test of `save_post`: the archive setting differs (loosely)
   * from the current blog, and the archive blog has an address. An array
   * there is never taken for a blog.
   */
  predicate ArchiveReachable(w: World, settings: map<string, Value>) {
    var v := Setting(settings, ArchiveKey);
    && !v.List?
    && !LooseEqualsInt(v, w.active)
    && ArchiveId(settings) in w.blogs
    && w.blogs[ArchiveId(settings)].address != ""
  }

  /**
   * The corrected gate: `save_post` writes a copy of `post` exactly when
   * this holds, the types being read under `post_types`. The gate as
   * written reads `post_type` and never passes (`Search.MirrorsAsWritten`).
   */
  predicate Mirrors(w: World, settings: map<string, Value>, post: Post) {
    ArchiveReachable(w, settings) && Eligible(settings, post.postType, post.postStatus)
  }

  /** A mirrored post's copy never lands in the post's own blog. */
  lemma ArchiveIsElsewhere(w: World, settings: map<string, Value>)
    requires ArchiveReachable(w, settings)
    ensures ArchiveId(settings) != w.active
  {
    LooseUnequalCast(Setting(settings, ArchiveKey), w.active);
  }

  /**
   * The effect of one `save_post` call for `post` on the current blog,
   * behind the corrected gate `Mirrors`:
   * when it mirrors, the archive receives the upserted copy with the post's
   * permalink and original type; the active blog ends where it started.
   */
  function SaveEffect(w: World, settings: map<string, Value>, post: Post, permalinkOf: (int, int) -> string): (r: World)
    requires WellFormed(w)
    ensures WellFormed(r)
    ensures r.ids == w.ids && r.active == w.active && r.blogs.Keys == w.blogs.Keys
    ensures !Mirrors(w, settings, post) ==> r == w
    ensures forall k :: k in w.blogs && k != ArchiveId(settings) ==> r.blogs[k] == w.blogs[k]
    ensures w.active in w.blogs ==> r.blogs[w.active] == w.blogs[w.active]
    ensures ArchiveReachable(r, settings) <==> ArchiveReachable(w, settings)
  {
    if Mirrors(w, settings, post) then
      ArchiveIsElsewhere(w, settings);
      var a := ArchiveId(settings);
      var blogs := w.blogs[a := Upsert(w.blogs[a], MirrorCopy(post, w.active), permalinkOf(w.active, post.id), post.postType)];
      assert forall k :: k in blogs <==> k in w.blogs;
      w.(blogs := blogs)
    else
      w
  }

  /**
   * After a mirrored save the archive's first row with the post's guid is
   * the post's copy, and its meta holds the permalink and the original type.
   */
  lemma SaveStoresCopy(w: World, settings: map<string, Value>, post: Post, permalinkOf: (int, int) -> string)
    requires WellFormed(w) && Mirrors(w, settings, post)
    ensures var r := SaveEffect(w, settings, post, permalinkOf);
      var archive := r.blogs[ArchiveId(settings)];
      var j := GuidRow(archive.posts, EncodeGuid(w.active, post.id));
      && j.Some?
      && archive.posts[j.value] == MirrorCopy(post, w.active).(id := archive.posts[j.value].id)
      && archive.posts[j.value].id in archive.meta
      && "permalink" in archive.meta[archive.posts[j.value].id] && "post_type" in archive.meta[archive.posts[j.value].id]
      && archive.meta[archive.posts[j.value].id]["permalink"] == permalinkOf(w.active, post.id)
      && archive.meta[archive.posts[j.value].id]["post_type"] == post.postType
  {
    var a := ArchiveId(settings);
    UpsertStoresCopy(w.blogs[a], MirrorCopy(post, w.active), permalinkOf(w.active, post.id), post.postType);
  }

  /** Saving a post twice leaves the network as saving it once. */
  lemma SaveIdempotent(w: World, settings: map<string, Value>, post: Post, permalinkOf: (int, int) -> string)
    requires WellFormed(w)
    ensures var r := SaveEffect(w, settings, post, permalinkOf);
      SaveEffect(r, settings, post, permalinkOf) == r
  {
    var r := SaveEffect(w, settings, post, permalinkOf);
    if Mirrors(w, settings, post) {
      var a := ArchiveId(settings);
      assert Mirrors(r, settings, post);
      UpsertIdempotent(w.blogs[a], MirrorCopy(post, w.active), permalinkOf(w.active, post.id), post.postType);
    }
  }

  /**
   * At most one copy per origin: a save leaves exactly one archive row for
   * the saved post when there was at most one, and never changes how many
   * rows carry any other guid.
   */
  lemma SaveKeepsOneCopy(w: World, settings: map<string, Value>, post: Post, permalinkOf: (int, int) -> string, g: string)
    requires WellFormed(w) && Mirrors(w, settings, post)
    ensures var a := ArchiveId(settings);
      var before := Copies(w.blogs[a].posts, g);
      var after := Copies(SaveEffect(w, settings, post, permalinkOf).blogs[a].posts, g);
      && (g == EncodeGuid(w.active, post.id) ==> after == if before == 0 then 1 else before)
      && (g != EncodeGuid(w.active, post.id) ==> after == before)
  {
    var a := ArchiveId(settings);
    UpsertCopies(w.blogs[a], MirrorCopy(post, w.active), permalinkOf(w.active, post.id), post.postType, g);
  }
}
