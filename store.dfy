/**
 * An abstract multisite network: the blogs table, one post table and one
 * post-meta table per blog, and the blog id the database handle is
 * currently pointed at (`$wpdb->blogid`). SQL text and `$wpdb` plumbing
 * become functions and methods on this in-memory store.
 */
module Store {
  import opened Optional

  /**
   * A row of a blog's post table. `title` and `body` stand for the
   * columns a copy takes from its post (author, content, excerpt, slug,
   * parent, ordering). Dates are not modelled: `wp_update_post` resets
   * `post_modified` on every overwrite.
   */
  datatype Post = Post(
    id: int,
    title: string,
    body: string,
    postType: string,
    postStatus: string,
    guid: string,
    pingStatus: string,
    commentStatus: string)

  /**
   * A blog: its `blogname` and `public` options, its address (empty when
   * `get_blogaddress_by_id` gives nothing), its post table in primary-key
   * order, its post meta by post id, and the next auto-increment id.
   */
  datatype Blog = Blog(
    name: string,
    isPublic: bool,
    address: string,
    posts: seq<Post>,
    meta: map<int, map<string, string>>,
    nextId: int)

  /** The blogs table in ascending id order, the blogs by id, and the active blog. */
  datatype World = World(ids: seq<int>, blogs: map<int, Blog>, active: int)

  predicate IdsAscending(posts: seq<Post>) {
    forall i, j :: 0 <= i < j < |posts| ==> posts[i].id < posts[j].id
  }

  /** Primary keys are positive, ascending, and below the auto-increment counter. */
  predicate WellFormedBlog(b: Blog) {
    && 0 < b.nextId
    && IdsAscending(b.posts)
    && forall i :: 0 <= i < |b.posts| ==> 0 < b.posts[i].id < b.nextId
  }

  predicate BlogIdsAscending(ids: seq<int>) {
    forall i, j :: 0 <= i < j < |ids| ==> ids[i] < ids[j]
  }

  ghost predicate WellFormed(w: World) {
    && BlogIdsAscending(w.ids)
    && (forall k :: k in w.ids ==> 0 < k)
    && (forall k :: k in w.blogs <==> k in w.ids)
    && (forall k :: k in w.blogs ==> WellFormedBlog(w.blogs[k]))
  }

  /** The index of the first row whose guid is `g` (`get_row(..., OBJECT, 0)`). */
  function GuidRow(posts: seq<Post>, g: string): (r: Option<nat>)
    ensures r.Some? ==> r.value < |posts| && posts[r.value].guid == g
    ensures r.Some? ==> forall j :: 0 <= j < r.value ==> posts[j].guid != g
    ensures r.None? ==> forall j :: 0 <= j < |posts| ==> posts[j].guid != g
  {
    if posts == [] then None
    else if posts[0].guid == g then Some(0)
    else match GuidRow(posts[1..], g)
      case Some(i) => Some(i + 1)
      case None => None
  }

  /** The index of the row whose primary key is `id`. */
  function RowWithId(posts: seq<Post>, id: int): (r: Option<nat>)
    ensures r.Some? ==> r.value < |posts| && posts[r.value].id == id
    ensures r.None? ==> forall j :: 0 <= j < |posts| ==> posts[j].id != id
  {
    if posts == [] then None
    else if posts[0].id == id then Some(0)
    else match RowWithId(posts[1..], id)
      case Some(i) => Some(i + 1)
      case None => None
  }

  /** Primary keys are unique, so the row found by key is the row that has it. */
  lemma RowWithIdUnique(posts: seq<Post>, i: nat)
    requires IdsAscending(posts) && i < |posts|
    ensures RowWithId(posts, posts[i].id) == Some(i)
  {
  }

  /** Replacing one blog by a well-formed one keeps the network well formed. */
  lemma ReplaceBlogWellFormed(w: World, k: int, b: Blog)
    requires WellFormed(w) && k in w.blogs && WellFormedBlog(b)
    ensures WellFormed(w.(blogs := w.blogs[k := b]))
  {
  }

  /** Overwriting a row with one that has the same key keeps the blog well formed. */
  lemma ReplaceRowWellFormed(b: Blog, i: nat, row: Post)
    requires WellFormedBlog(b) && i < |b.posts| && b.posts[i].id == row.id
    ensures WellFormedBlog(b.(posts := b.posts[i := row]))
  {
    var posts := b.posts[i := row];
    assert forall j :: 0 <= j < |posts| ==> posts[j].id == b.posts[j].id;
  }

  /** `SELECT blog_id ... ORDER BY blog_id ASC LIMIT 0,1`; 0 stands for no row. */
  function FirstBlog(ids: seq<int>): (r: int)
    requires BlogIdsAscending(ids) && forall k :: k in ids ==> 0 < k
    ensures r == 0 <==> ids == []
    ensures r != 0 ==> r in ids && forall k :: k in ids ==> r <= k
  {
    if ids == [] then 0
    else
      assert ids[0] in ids;
      assert forall i :: 0 <= i < |ids| ==> ids[0] <= ids[i];
      ids[0]
  }

  /** `SELECT blog_id ... WHERE blog_id > after ORDER BY blog_id ASC LIMIT 0,1`; 0 stands for no row. */
  function NextBlogAfter(ids: seq<int>, after: int): (r: int)
    requires BlogIdsAscending(ids) && forall k :: k in ids ==> 0 < k
    ensures r == 0 <==> forall k :: k in ids ==> k <= after
    ensures r != 0 ==> r in ids && r > after && forall k :: k in ids && k > after ==> r <= k
  {
    if ids == [] then 0
    else
      assert ids[0] in ids;
      assert forall k :: k in ids ==> k == ids[0] || k in ids[1..];
      assert forall k :: k in ids[1..] ==> k in ids;
      if ids[0] > after then
        assert forall i :: 0 <= i < |ids| ==> ids[0] <= ids[i];
        ids[0]
      else
        NextBlogAfter(ids[1..], after)
  }

  /** `update_post_meta(id, key, value)`: one value per key. */
  function SetMeta(meta: map<int, map<string, string>>, id: int, key: string, value: string): map<int, map<string, string>> {
    meta[id := (if id in meta then meta[id] else map[])[key := value]]
  }

  /** The database handle: the blogs, and the blog its table names point at. */
  class Network {
    const ids: seq<int>
    var blogs: map<int, Blog>
    var active: int

    function State(): World
      reads this
    {
      World(ids, blogs, active)
    }

    ghost predicate Valid()
      reads this
    {
      WellFormed(State())
    }

    constructor (ids: seq<int>, blogs: map<int, Blog>, active: int)
      requires WellFormed(World(ids, blogs, active))
      ensures Valid() && State() == World(ids, blogs, active)
    {
      this.ids := ids;
      this.blogs := blogs;
      this.active := active;
    }

    /** `$wpdb->set_blog_id(id)`. */
    method SwitchTo(id: int)
      modifies this`active
      ensures State() == old(State()).(active := id)
    {
      active := id;
    }

    /** `SELECT ID FROM posts WHERE guid = g` on the active blog; none when it has no table. */
    function FindByGuid(g: string): (id: Option<int>)
      reads this
      ensures id.Some? ==> active in blogs && GuidRow(blogs[active].posts, g).Some?
      ensures id.Some? ==> id.value == blogs[active].posts[GuidRow(blogs[active].posts, g).value].id
      ensures id.None? ==> active !in blogs || GuidRow(blogs[active].posts, g).None?
    {
      if active !in blogs then None
      else match GuidRow(blogs[active].posts, g)
        case Some(i) => Some(blogs[active].posts[i].id)
        case None => None
    }

    /** `wp_update_post(row)`: the active blog's row with key `row.id` becomes `row`. */
    method UpdatePost(row: Post)
      requires Valid() && active in blogs && RowWithId(blogs[active].posts, row.id).Some?
      modifies this`blogs
      ensures Valid()
      ensures var b := old(blogs[active]);
        blogs == old(blogs)[active := b.(posts := b.posts[RowWithId(b.posts, row.id).value := row])]
    {
      var b := blogs[active];
      var i := RowWithId(b.posts, row.id).value;
      var b' := b.(posts := b.posts[i := row]);
      ReplaceRowWellFormed(b, i, row);
      ReplaceBlogWellFormed(State(), active, b');
      blogs := blogs[active := b'];
    }

    /** `wp_insert_post(row)`: the row is appended under the next auto-increment key. */
    method InsertPost(row: Post) returns (id: int)
      requires Valid() && active in blogs
      modifies this`blogs
      ensures Valid()
      ensures var b := old(blogs[active]);
        id == b.nextId && blogs == old(blogs)[active := b.(posts := b.posts + [row.(id := id)], nextId := id + 1)]
    {
      var b := blogs[active];
      id := b.nextId;
      var b' := b.(posts := b.posts + [row.(id := id)], nextId := id + 1);
      blogs := blogs[active := b'];
    }

    /** `update_post_meta(id, key, value)` on the active blog. */
    method UpdatePostMeta(id: int, key: string, value: string)
      requires Valid() && active in blogs
      modifies this`blogs
      ensures Valid()
      ensures var b := old(blogs[active]); blogs == old(blogs)[active := b.(meta := SetMeta(b.meta, id, key, value))]
    {
      var b := blogs[active];
      blogs := blogs[active := b.(meta := SetMeta(b.meta, id, key, value))];
    }
  }
}
