/**
 * `populate_archive` (includes/admin.php) as a step function: one request
 * carries the checkpoint `(blog, blog_count, post, post_count)`, copies at
 * most one chunk of one blog's posts into the archive, and answers the
 * checkpoint for the next request together with a status. The method
 * `Admin.PopulateArchive` performs the same steps imperatively and is
 * proved against `Populate`.
 */
module PopulateSpec {
  import opened PhpValue
  import opened Store
  import opened Settings
  import opened Mirror

  /** Posts copied per request; the `chunk` form field is not read. */
  const Chunk := 100

  /** The checkpoint `$step` carries between requests. */
  datatype Step = Step(blog: int, blogCount: int, post: int, postCount: int)

  /** The request keys read into the checkpoint, in the order they are read. */
  const StepKeys: seq<string> := ["blog", "blog_count", "post", "post_count"]

  datatype Status = Ok | Done

  /** The translated messages, by their arguments. */
  datatype Message =
    | Copied(blogName: string, done: int, total: int)
    | BlogFinished(blogName: string, left: int)
    | NotPublic(blogName: string, left: int)
    | NoBlogsFound

  /** The JSON answer. */
  datatype Response =
    | Disabled(step: Step)                    // no archive blog set: the bare checkpoint
    | NotFound(step: Step, message: Message)  // the requested blog is gone: status done
    | Progress(step: Step, postDone: int, blogName: string, message: Message, status: Status)

  /** `(int) $_POST[$key]`, or 0 when the key was not posted. */
  function Field(request: map<string, Value>, key: string): int {
    if key in request then ToInt(request[key]) else 0
  }

  function ParsedStep(request: map<string, Value>): Step {
    Step(Field(request, "blog"), Field(request, "blog_count"), Field(request, "post"), Field(request, "post_count"))
  }

  /** The blog a request works on: the first blog for 0, else the requested one if it exists; 0 for none. */
  function ResolveBlog(w: World, requested: int): (b: int)
    requires WellFormed(w)
    ensures b != 0 ==> b in w.ids && b in w.blogs
    ensures requested == 0 ==> b == FirstBlog(w.ids)
    ensures requested != 0 ==> (b == if requested in w.ids then requested else 0)
  {
    if requested == 0 then FirstBlog(w.ids)
    else if requested in w.ids then requested
    else 0
  }

  /** The rows the post query matches: published, of a configured type. */
  function EligibleRow(settings: map<string, Value>): Post -> bool {
    (p: Post) => Eligible(settings, p.postType, p.postStatus)
  }

  /** The eligible rows with a key above `after`, in table order. */
  function Selected(posts: seq<Post>, after: int, settings: map<string, Value>): (r: seq<Post>)
    ensures |r| <= |posts|
    ensures forall p :: p in r ==> p in posts && p.id > after && Eligible(settings, p.postType, p.postStatus)
    ensures forall p :: p in posts && p.id > after && Eligible(settings, p.postType, p.postStatus) ==> p in r
  {
    if posts == [] then []
    else
      var rest := Selected(posts[1..], after, settings);
      assert forall p :: p in posts ==> p == posts[0] || p in posts[1..];
      if posts[0].id > after && Eligible(settings, posts[0].postType, posts[0].postStatus) then [posts[0]] + rest
      else rest
  }

  /** The rows of `s` whose key is above `after`. */
  function Above(s: seq<Post>, after: int): seq<Post> {
    if s == [] then [] else (if s[0].id > after then [s[0]] else []) + Above(s[1..], after)
  }

  /** `... LIMIT 0, 100`: the first chunk of the selected rows. */
  function Batch(posts: seq<Post>, after: int, settings: map<string, Value>): seq<Post> {
    var sel := Selected(posts, after, settings);
    if |sel| <= Chunk then sel else sel[..Chunk]
  }

  /** The copies saved for a batch, one corrected `save_post` after another, each given the full row. */
  function SaveAll(w: World, settings: map<string, Value>, batch: seq<Post>, permalinkOf: (int, int) -> string): (r: World)
    requires WellFormed(w)
    ensures WellFormed(r)
    ensures r.ids == w.ids && r.active == w.active && r.blogs.Keys == w.blogs.Keys
    ensures forall k :: k in w.blogs && k != ArchiveId(settings) ==> r.blogs[k] == w.blogs[k]
    ensures w.active in w.blogs ==> r.blogs[w.active] == w.blogs[w.active]
    ensures ArchiveReachable(r, settings) <==> ArchiveReachable(w, settings)
  {
    if batch == [] then w
    else SaveEffect(SaveAll(w, settings, batch[..|batch| - 1], permalinkOf), settings, batch[|batch| - 1], permalinkOf)
  }

  function StatusOf(next: int): Status {
    if next != 0 then Ok else Done
  }

  /**
   * One request: the new network and the answer. `settings` are the
   * settings `populate_archive` reads; `mirrorSettings` those of the object
   * whose `save_post` copies each post.
   */
  function Populate(w: World, settings: map<string, Value>, mirrorSettings: map<string, Value>,
                    request: map<string, Value>, permalinkOf: (int, int) -> string): (World, Response)
    requires WellFormed(w)
  {
    if !Truthy(Setting(settings, ArchiveKey)) then (w, Disabled(Step(0, 0, 0, 0)))
    else
      var s := ParsedStep(request);
      var b := ResolveBlog(w, s.blog);
      if b == 0 then (w, NotFound(s.(blog := 0), NoBlogsFound))
      else VisitBlog(w, settings, mirrorSettings, Resumed(w, s), permalinkOf)
  }

  /** The checkpoint on its resolved blog, with the blog count taken when none came in. */
  function Resumed(w: World, s: Step): (r: Step)
    requires WellFormed(w) && ResolveBlog(w, s.blog) != 0
    ensures r.blog == ResolveBlog(w, s.blog) && r.blog in w.blogs
    ensures r.post == s.post && r.postCount == s.postCount
    ensures r.blogCount == if s.blogCount == 0 then |w.ids| else s.blogCount
  {
    s.(blog := ResolveBlog(w, s.blog), blogCount := if s.blogCount == 0 then |w.ids| else s.blogCount)
  }

  /** A request on an existing blog: copy from it if it is public, else move on to the next blog. */
  function VisitBlog(w: World, settings: map<string, Value>, mirrorSettings: map<string, Value>,
                     s: Step, permalinkOf: (int, int) -> string): (World, Response)
    requires WellFormed(w) && s.blog in w.blogs
  {
    var blog := w.blogs[s.blog];
    if blog.isPublic then CopyFromBlog(w, settings, mirrorSettings, s, permalinkOf)
    else
      var next := NextBlogAfter(w.ids, s.blog);
      (w, Progress(Step(next, s.blogCount - 1, 0, s.postCount), 0, blog.name, NotPublic(blog.name, s.blogCount - 1), StatusOf(next)))
  }

  /**
   * A public blog: the active blog becomes it, the batch is saved, and the
   * checkpoint moves past the batch, or to the next blog when the batch
   * was empty.
   */
  function CopyFromBlog(w: World, settings: map<string, Value>, mirrorSettings: map<string, Value>,
                        s: Step, permalinkOf: (int, int) -> string): (World, Response)
    requires WellFormed(w) && s.blog in w.blogs
  {
    var batch := Batch(w.blogs[s.blog].posts, s.post, settings);
    (SaveAll(w.(active := s.blog), mirrorSettings, batch, permalinkOf), CopyAnswer(w.ids, w.blogs[s.blog], settings, s))
  }

  /** The answer for a public blog. */
  function CopyAnswer(ids: seq<int>, blog: Blog, settings: map<string, Value>, s: Step): Response
    requires BlogIdsAscending(ids) && forall k :: k in ids ==> 0 < k
  {
    var total := if s.postCount == 0 then Count(blog.posts, EligibleRow(settings)) else s.postCount;
    var batch := Batch(blog.posts, s.post, settings);
    if |batch| != 0 then
      Progress(s.(post := batch[|batch| - 1].id, postCount := total - |batch|), |batch|, blog.name,
               Copied(blog.name, |batch|, total), Ok)
    else
      var next := NextBlogAfter(ids, s.blog);
      Progress(Step(next, s.blogCount - 1, 0, 0), 0, blog.name, BlogFinished(blog.name, s.blogCount - 1), StatusOf(next))
  }

  /** Without an archive blog nothing is read or copied, and the bare checkpoint comes back. */
  lemma PopulateDisabled(w: World, settings: map<string, Value>, mirrorSettings: map<string, Value>,
                         request: map<string, Value>, permalinkOf: (int, int) -> string)
    requires WellFormed(w) && !Truthy(Setting(settings, ArchiveKey))
    ensures Populate(w, settings, mirrorSettings, request, permalinkOf) == (w, Disabled(Step(0, 0, 0, 0)))
  {
  }

  /** A requested blog that does not exist ends the run: status done, nothing copied. */
  lemma PopulateNotFound(w: World, settings: map<string, Value>, mirrorSettings: map<string, Value>,
                         request: map<string, Value>, permalinkOf: (int, int) -> string)
    requires WellFormed(w) && Truthy(Setting(settings, ArchiveKey))
    requires ParsedStep(request).blog != 0 && ParsedStep(request).blog !in w.ids
    ensures var (w', r) := Populate(w, settings, mirrorSettings, request, permalinkOf);
      w' == w && r == NotFound(ParsedStep(request).(blog := 0), NoBlogsFound)
  {
  }

  /** In key order, the first row's key is below every later row's. */
  lemma HeadBelowTail(posts: seq<Post>)
    requires IdsAscending(posts) && posts != []
    ensures forall p :: p in posts[1..] ==> posts[0].id < p.id
  {
    forall p | p in posts[1..]
      ensures posts[0].id < p.id
    {
      var k :| 0 <= k < |posts[1..]| && posts[1..][k] == p;
      assert posts[k + 1] == p;
    }
  }

  /** A row below every row of an ascending sequence can head it. */
  lemma ConsAscending(p: Post, rest: seq<Post>)
    requires IdsAscending(rest) && forall q :: q in rest ==> p.id < q.id
    ensures IdsAscending([p] + rest)
  {
    var sel := [p] + rest;
    forall i, j | 0 <= i < j < |sel|
      ensures sel[i].id < sel[j].id
    {
      assert sel[j] == rest[j - 1];
      assert rest[j - 1] in rest;
      if i > 0 {
        assert sel[i] == rest[i - 1];
      }
    }
  }

  lemma {:induction false} SelectedAscending(posts: seq<Post>, after: int, settings: map<string, Value>)
    requires IdsAscending(posts)
    ensures IdsAscending(Selected(posts, after, settings))
  {
    if posts != [] {
      assert IdsAscending(posts[1..]);
      SelectedAscending(posts[1..], after, settings);
      var rest := Selected(posts[1..], after, settings);
      var p := posts[0];
      if p.id > after && Eligible(settings, p.postType, p.postStatus) {
        HeadBelowTail(posts);
        ConsAscending(p, rest);
      }
    }
  }

  /** Raising the lower bound keeps exactly the selected rows above the new bound. */
  lemma {:induction false} SelectedNarrow(posts: seq<Post>, after: int, after': int, settings: map<string, Value>)
    requires after <= after'
    ensures Selected(posts, after', settings) == Above(Selected(posts, after, settings), after')
  {
    if posts != [] {
      SelectedNarrow(posts[1..], after, after', settings);
      var rest := Selected(posts[1..], after, settings);
      var p := posts[0];
      if p.id > after && Eligible(settings, p.postType, p.postStatus) {
        var sel := [p] + rest;
        assert sel[0] == p && sel[1..] == rest;
        assert Above(sel, after') == (if p.id > after' then [p] else []) + Above(rest, after');
      }
    }
  }

  lemma {:induction false} AboveAll(s: seq<Post>, after: int)
    requires forall i :: 0 <= i < |s| ==> s[i].id > after
    ensures Above(s, after) == s
  {
    if s != [] {
      AboveAll(s[1..], after);
    }
  }

  /** In key order, the rows above the k-th row's key are the rows after it. */
  lemma {:induction false} AboveKth(s: seq<Post>, k: nat)
    requires IdsAscending(s) && 0 < k <= |s|
    ensures Above(s, s[k - 1].id) == s[k..]
  {
    if k == 1 {
      AboveAll(s[1..], s[0].id);
    } else {
      AboveKth(s[1..], k - 1);
    }
  }

  /**
   * The batch: at most a chunk, in ascending key order, every row published,
   * of a configured type and above the checkpoint; it is the start of the
   * selected rows and takes all of them when they fit in a chunk.
   */
  lemma BatchBounds(posts: seq<Post>, after: int, settings: map<string, Value>)
    requires IdsAscending(posts)
    ensures var batch := Batch(posts, after, settings);
      var sel := Selected(posts, after, settings);
      && |batch| <= Chunk
      && |batch| == (if |sel| <= Chunk then |sel| else Chunk)
      && batch == sel[..|batch|]
      && IdsAscending(batch)
      && forall i :: 0 <= i < |batch| ==>
           batch[i] in posts && batch[i].id > after && Eligible(settings, batch[i].postType, batch[i].postStatus)
  {
    var sel := Selected(posts, after, settings);
    var batch := Batch(posts, after, settings);
    SelectedAscending(posts, after, settings);
    assert batch == sel[..|batch|];
    BatchRows(posts, after, settings);
    PrefixAscending(sel, |batch|);
  }

  lemma BatchRows(posts: seq<Post>, after: int, settings: map<string, Value>)
    ensures var batch := Batch(posts, after, settings);
      forall i :: 0 <= i < |batch| ==>
        batch[i] in posts && batch[i].id > after && Eligible(settings, batch[i].postType, batch[i].postStatus)
  {
    var sel := Selected(posts, after, settings);
    var batch := Batch(posts, after, settings);
    forall i | 0 <= i < |batch|
      ensures batch[i] in posts && batch[i].id > after && Eligible(settings, batch[i].postType, batch[i].postStatus)
    {
      assert batch[i] == sel[i];
      assert sel[i] in sel;
    }
  }

  lemma PrefixAscending(s: seq<Post>, n: nat)
    requires IdsAscending(s) && n <= |s|
    ensures IdsAscending(s[..n])
  {
    forall i, j | 0 <= i < j < n
      ensures s[..n][i].id < s[..n][j].id
    {
      assert s[..n][i] == s[i] && s[..n][j] == s[j];
    }
  }

  /**
   * Resuming from the last key of a batch selects exactly the rows the
   * batch left: nothing is copied twice and nothing is skipped.
   */
  lemma BatchResumes(posts: seq<Post>, after: int, settings: map<string, Value>)
    requires IdsAscending(posts) && Batch(posts, after, settings) != []
    ensures var batch := Batch(posts, after, settings);
      Selected(posts, batch[|batch| - 1].id, settings) == Selected(posts, after, settings)[|batch|..]
  {
    var batch := Batch(posts, after, settings);
    var sel := Selected(posts, after, settings);
    BatchBounds(posts, after, settings);
    SelectedAscending(posts, after, settings);
    assert batch[|batch| - 1] == sel[|batch| - 1];
    SelectedNarrow(posts, after, batch[|batch| - 1].id, settings);
    AboveKth(sel, |batch|);
  }

  /** On a public blog, a request is the copy step from the resumed checkpoint. */
  lemma PopulateOnPublic(w: World, settings: map<string, Value>, mirrorSettings: map<string, Value>,
                         request: map<string, Value>, permalinkOf: (int, int) -> string)
    requires WellFormed(w) && Truthy(Setting(settings, ArchiveKey))
    requires var b := ResolveBlog(w, ParsedStep(request).blog); b != 0 && w.blogs[b].isPublic
    ensures Populate(w, settings, mirrorSettings, request, permalinkOf)
      == CopyFromBlog(w, settings, mirrorSettings, Resumed(w, ParsedStep(request)), permalinkOf)
  {
  }

  /**
   * The answer for a batch with rows: the checkpoint moves to the batch's
   * last key on the same blog, the count left drops by the number copied,
   * and the status is ok.
   */
  lemma CopyAnswerBatch(ids: seq<int>, blog: Blog, settings: map<string, Value>, s: Step)
    requires BlogIdsAscending(ids) && (forall k :: k in ids ==> 0 < k) && IdsAscending(blog.posts)
    requires Batch(blog.posts, s.post, settings) != []
    ensures var batch := Batch(blog.posts, s.post, settings);
      var total := if s.postCount == 0 then Count(blog.posts, EligibleRow(settings)) else s.postCount;
      var r := CopyAnswer(ids, blog, settings, s);
      && r.Progress? && r.status == Ok
      && 0 < r.postDone == |batch| <= Chunk
      && r.step.blog == s.blog && r.step.post == batch[|batch| - 1].id > s.post
      && r.step.postCount == total - r.postDone
  {
    BatchBounds(blog.posts, s.post, settings);
  }

  /**
   * A public blog with rows left: the checkpoint moves to the batch's last
   * key on the same blog, the count left drops by the number copied, and
   * the status is ok.
   */
  lemma PopulateBatch(w: World, settings: map<string, Value>, mirrorSettings: map<string, Value>,
                      request: map<string, Value>, permalinkOf: (int, int) -> string)
    requires WellFormed(w) && Truthy(Setting(settings, ArchiveKey))
    requires var b := ResolveBlog(w, ParsedStep(request).blog);
      b != 0 && w.blogs[b].isPublic && Batch(w.blogs[b].posts, ParsedStep(request).post, settings) != []
    ensures var s := ParsedStep(request);
      var b := ResolveBlog(w, s.blog);
      var batch := Batch(w.blogs[b].posts, s.post, settings);
      var total := if s.postCount == 0 then Count(w.blogs[b].posts, EligibleRow(settings)) else s.postCount;
      var r := Populate(w, settings, mirrorSettings, request, permalinkOf).1;
      && r.Progress? && r.status == Ok
      && 0 < r.postDone == |batch| <= Chunk
      && r.step.blog == b && r.step.post == batch[|batch| - 1].id > s.post
      && r.step.postCount == total - r.postDone
  {
    var s' := Resumed(w, ParsedStep(request));
    PopulateOnPublic(w, settings, mirrorSettings, request, permalinkOf);
    CopyAnswerBatch(w.ids, w.blogs[s'.blog], settings, s');
  }

  /**
   * A public blog with rows left: the batch is saved with the blog active,
   * the blog itself is left as it was, and resuming from the new checkpoint
   * selects exactly the rows this batch did not take.
   */
  lemma PopulateBatchSaves(w: World, settings: map<string, Value>, mirrorSettings: map<string, Value>,
                           request: map<string, Value>, permalinkOf: (int, int) -> string)
    requires WellFormed(w) && Truthy(Setting(settings, ArchiveKey))
    requires var b := ResolveBlog(w, ParsedStep(request).blog);
      b != 0 && w.blogs[b].isPublic && Batch(w.blogs[b].posts, ParsedStep(request).post, settings) != []
    ensures var s := ParsedStep(request);
      var b := ResolveBlog(w, s.blog);
      var batch := Batch(w.blogs[b].posts, s.post, settings);
      var (w', r) := Populate(w, settings, mirrorSettings, request, permalinkOf);
      && w' == SaveAll(w.(active := b), mirrorSettings, batch, permalinkOf)
      && w'.blogs[b] == w.blogs[b]
      && r.Progress?
      && Selected(w'.blogs[b].posts, r.step.post, settings) == Selected(w.blogs[b].posts, s.post, settings)[|batch|..]
  {
    var s := ParsedStep(request);
    var s' := Resumed(w, s);
    var b := s'.blog;
    PopulateOnPublic(w, settings, mirrorSettings, request, permalinkOf);
    CopyAnswerBatch(w.ids, w.blogs[b], settings, s');
    BatchResumes(w.blogs[b].posts, s.post, settings);
  }

  /**
   * With the archive reachable from the blog being copied, every batch row
   * the mirror accepts has a copy in the archive when the request is done.
   */
  lemma PopulateCopiesBatch(w: World, settings: map<string, Value>, mirrorSettings: map<string, Value>,
                            request: map<string, Value>, permalinkOf: (int, int) -> string, i: nat)
    requires WellFormed(w) && Truthy(Setting(settings, ArchiveKey))
    requires var b := ResolveBlog(w, ParsedStep(request).blog);
      && b != 0 && w.blogs[b].isPublic
      && ArchiveReachable(w.(active := b), mirrorSettings)
      && i < |Batch(w.blogs[b].posts, ParsedStep(request).post, settings)|
    requires var b := ResolveBlog(w, ParsedStep(request).blog);
      var p := Batch(w.blogs[b].posts, ParsedStep(request).post, settings)[i];
      Eligible(mirrorSettings, p.postType, p.postStatus)
    ensures var b := ResolveBlog(w, ParsedStep(request).blog);
      var p := Batch(w.blogs[b].posts, ParsedStep(request).post, settings)[i];
      var w' := Populate(w, settings, mirrorSettings, request, permalinkOf).0;
      Copies(w'.blogs[ArchiveId(mirrorSettings)].posts, EncodeGuid(b, p.id)) >= 1
  {
    var s := ParsedStep(request);
    var b := ResolveBlog(w, s.blog);
    var batch := Batch(w.blogs[b].posts, s.post, settings);
    PopulateBatchSaves(w, settings, mirrorSettings, request, permalinkOf);
    SaveAllCopied(w.(active := b), mirrorSettings, batch, permalinkOf, i);
  }

  /**
   * A blog that is not public, or whose rows are all done, is finished:
   * nothing is copied, the checkpoint moves to the smallest blog id above
   * it with post 0 and one blog fewer left, and the status is ok exactly
   * when there is such a blog.
   */
  lemma PopulateAdvance(w: World, settings: map<string, Value>, mirrorSettings: map<string, Value>,
                        request: map<string, Value>, permalinkOf: (int, int) -> string)
    requires WellFormed(w) && Truthy(Setting(settings, ArchiveKey))
    requires var b := ResolveBlog(w, ParsedStep(request).blog);
      b != 0 && (!w.blogs[b].isPublic || Batch(w.blogs[b].posts, ParsedStep(request).post, settings) == [])
    ensures var s := ParsedStep(request);
      var b := ResolveBlog(w, s.blog);
      var blogCount := if s.blogCount == 0 then |w.ids| else s.blogCount;
      var (w', r) := Populate(w, settings, mirrorSettings, request, permalinkOf);
      && r.Progress? && r.postDone == 0
      && w'.blogs == w.blogs
      && (w.blogs[b].isPublic ==> w'.active == b)
      && r.step.post == 0 && r.step.blogCount == blogCount - 1
      && (r.step.blog == 0 <==> forall k :: k in w.ids ==> k <= b)
      && (r.step.blog != 0 ==> r.step.blog in w.ids && r.step.blog > b && forall k :: k in w.ids && k > b ==> r.step.blog <= k)
      && (r.status == Ok <==> r.step.blog != 0)
  {
  }

  /**
   * The copies a batch leaves: when the archive is reachable from the blog
   * being copied, every eligible row of the batch has a copy in the
   * archive afterwards.
   */
  lemma {:induction false} SaveAllCopied(w: World, settings: map<string, Value>, batch: seq<Post>,
                                         permalinkOf: (int, int) -> string, i: nat)
    requires WellFormed(w) && ArchiveReachable(w, settings)
    requires i < |batch| && Eligible(settings, batch[i].postType, batch[i].postStatus)
    ensures Copies(SaveAll(w, settings, batch, permalinkOf).blogs[ArchiveId(settings)].posts, EncodeGuid(w.active, batch[i].id)) >= 1
    decreases |batch|
  {
    var a := ArchiveId(settings);
    var prefix := batch[..|batch| - 1];
    var mid := SaveAll(w, settings, prefix, permalinkOf);
    var last := batch[|batch| - 1];
    var g := EncodeGuid(w.active, batch[i].id);
    if Mirrors(mid, settings, last) {
      SaveKeepsOneCopy(mid, settings, last, permalinkOf, g);
    }
    if i < |batch| - 1 {
      assert prefix[i] == batch[i];
      SaveAllCopied(w, settings, prefix, permalinkOf, i);
    }
  }

  /** A batch never leaves two archive rows with one guid where there was at most one. */
  lemma {:induction false} SaveAllOneCopy(w: World, settings: map<string, Value>, batch: seq<Post>,
                                          permalinkOf: (int, int) -> string, g: string)
    requires WellFormed(w) && ArchiveReachable(w, settings)
    requires Copies(w.blogs[ArchiveId(settings)].posts, g) <= 1
    ensures Copies(SaveAll(w, settings, batch, permalinkOf).blogs[ArchiveId(settings)].posts, g) <= 1
    decreases |batch|
  {
    if batch != [] {
      var mid := SaveAll(w, settings, batch[..|batch| - 1], permalinkOf);
      SaveAllOneCopy(w, settings, batch[..|batch| - 1], permalinkOf, g);
      if Mirrors(mid, settings, batch[|batch| - 1]) {
        SaveKeepsOneCopy(mid, settings, batch[|batch| - 1], permalinkOf, g);
      }
    }
  }

  /** The number of blog ids at or above `b`. */
  function BlogsFrom(ids: seq<int>, b: int): nat {
    if ids == [] then 0 else (if ids[0] >= b then 1 else 0) + BlogsFrom(ids[1..], b)
  }

  lemma {:induction false} BlogsFromShrinks(ids: seq<int>, b: int, b': int)
    requires b in ids && b < b'
    ensures BlogsFrom(ids, b') < BlogsFrom(ids, b)
  {
    if ids[0] != b {
      BlogsFromShrinks(ids[1..], b, b');
    } else {
      BlogsFromMono(ids[1..], b, b');
    }
  }

  lemma {:induction false} BlogsFromMono(ids: seq<int>, b: int, b': int)
    requires b <= b'
    ensures BlogsFrom(ids, b') <= BlogsFrom(ids, b)
  {
    if ids != [] {
      BlogsFromMono(ids[1..], b, b');
    }
  }

  /** The rows a checkpoint has yet to copy on its blog. */
  function PostsLeft(w: World, settings: map<string, Value>, s: Step): nat
    requires WellFormed(w)
  {
    var b := ResolveBlog(w, s.blog);
    if b == 0 then 0 else |Selected(w.blogs[b].posts, s.post, settings)|
  }

  /** The blogs a checkpoint has yet to visit, its own included. */
  function BlogsLeft(w: World, s: Step): nat
    requires WellFormed(w)
  {
    var b := ResolveBlog(w, s.blog);
    if b == 0 then 0 else BlogsFrom(w.ids, b)
  }

  /**
   * Every answer with status ok moves the checkpoint forward: either to a
   * later blog, or on the same blog past at least one row still to copy.
   */
  lemma PopulateProgress(w: World, settings: map<string, Value>, mirrorSettings: map<string, Value>,
                         request: map<string, Value>, permalinkOf: (int, int) -> string)
    requires WellFormed(w)
    requires var (_, r) := Populate(w, settings, mirrorSettings, request, permalinkOf); r.Progress? && r.status == Ok
    ensures var (w', r) := Populate(w, settings, mirrorSettings, request, permalinkOf);
      var s := ParsedStep(request);
      WellFormed(w') &&
      (BlogsLeft(w', r.step) < BlogsLeft(w, s)
       || (BlogsLeft(w', r.step) == BlogsLeft(w, s) && PostsLeft(w', settings, r.step) < PostsLeft(w, settings, s)))
  {
    var s := ParsedStep(request);
    var b := ResolveBlog(w, s.blog);
    var (w', r) := Populate(w, settings, mirrorSettings, request, permalinkOf);
    if w.blogs[b].isPublic && Batch(w.blogs[b].posts, s.post, settings) != [] {
      PopulateBatch(w, settings, mirrorSettings, request, permalinkOf);
      PopulateBatchSaves(w, settings, mirrorSettings, request, permalinkOf);
      assert ResolveBlog(w', r.step.blog) == b;
      BatchBounds(w.blogs[b].posts, s.post, settings);
    } else {
      PopulateAdvance(w, settings, mirrorSettings, request, permalinkOf);
      assert ResolveBlog(w', r.step.blog) == r.step.blog;
      BlogsFromShrinks(w.ids, b, r.step.blog);
    }
  }

  /** The request the admin script sends back: the whole answer, each number as decimal text. */
  function EchoRequest(r: Response): map<string, Value>
    requires r.Progress?
  {
    map[
      "blog" := Str(IntToString(r.step.blog)),
      "blog_count" := Str(IntToString(r.step.blogCount)),
      "post" := Str(IntToString(r.step.post)),
      "post_count" := Str(IntToString(r.step.postCount)),
      "post_done" := Str(IntToString(r.postDone)),
      "blog_name" := Str(r.blogName),
      "status" := Str(if r.status == Ok then "ok" else "done"),
      "action" := Str("populate_archive")]
  }

  /** A field posted as the decimal text of `n` reads back as `n`. */
  lemma FieldOfDecimal(request: map<string, Value>, key: string, n: int)
    requires key in request && request[key] == Str(IntToString(n))
    ensures Field(request, key) == n
  {
    IntToStringRoundTrip(n);
  }

  /** The next request reads back exactly the checkpoint the answer carried. */
  lemma EchoRoundTrip(r: Response)
    requires r.Progress?
    ensures ParsedStep(EchoRequest(r)) == r.step
    ensures "post_title" !in EchoRequest(r)
  {
    EchoBlogFields(r);
    EchoPostFields(r);
  }

  lemma EchoBlogFields(r: Response)
    requires r.Progress?
    ensures Field(EchoRequest(r), "blog") == r.step.blog
    ensures Field(EchoRequest(r), "blog_count") == r.step.blogCount
  {
    var m := EchoRequest(r);
    FieldOfDecimal(m, "blog", r.step.blog);
    FieldOfDecimal(m, "blog_count", r.step.blogCount);
  }

  lemma EchoPostFields(r: Response)
    requires r.Progress?
    ensures Field(EchoRequest(r), "post") == r.step.post
    ensures Field(EchoRequest(r), "post_count") == r.step.postCount
  {
    var m := EchoRequest(r);
    FieldOfDecimal(m, "post", r.step.post);
    FieldOfDecimal(m, "post_count", r.step.postCount);
  }

  /** The first request is the serialized form: nonce, action and the ignored `chunk` field. */
  function FormRequest(nonce: string, chunk: Value): map<string, Value> {
    map["security" := Str(nonce), "action" := Str("populate_archive"), "chunk" := chunk]
  }

  /** The first request starts from an all-zero checkpoint, so from the smallest blog id. */
  lemma FormRequestStartsAtFirstBlog(w: World, nonce: string, chunk: Value)
    requires WellFormed(w)
    ensures ParsedStep(FormRequest(nonce, chunk)) == Step(0, 0, 0, 0)
    ensures ResolveBlog(w, ParsedStep(FormRequest(nonce, chunk)).blog) == FirstBlog(w.ids)
  {
    var m := FormRequest(nonce, chunk);
    assert "blog" !in m && "blog_count" !in m && "post" !in m && "post_count" !in m;
  }

  /**
   * The admin script's loop: send the answer back while its status is ok.
   * It always ends, with an answer whose status is not ok.
   */
  function RunToEnd(w: World, settings: map<string, Value>, mirrorSettings: map<string, Value>,
                    request: map<string, Value>, permalinkOf: (int, int) -> string): (end: (World, Response))
    requires WellFormed(w)
    ensures WellFormed(end.0)
    ensures !(end.1.Progress? && end.1.status == Ok)
    decreases BlogsLeft(w, ParsedStep(request)), PostsLeft(w, settings, ParsedStep(request))
  {
    var (w', r) := Populate(w, settings, mirrorSettings, request, permalinkOf);
    if r.Progress? && r.status == Ok then
      PopulateProgress(w, settings, mirrorSettings, request, permalinkOf);
      EchoRoundTrip(r);
      RunToEnd(w', settings, mirrorSettings, EchoRequest(r), permalinkOf)
    else
      (w', r)
  }
}
