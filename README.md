# Sitewide Search — a verified model of the archive mirror and the bulk populate

Sitewide Search is a WordPress multisite plugin that keeps a copy of every
published post of the network in one *archive blog*, so that search and
archive pages can be served from a single post table. This project models its
core in Dafny and proves what that core promises:

- **the settings** (`Sitewide_Search_Admin::get_settings` and
  `admin_page_save`): eight known keys read from a site option and merged
  over defaults, and the settings form's merge and flag coercion;
- **the mirror upsert** (`Sitewide_Search::save_post`): the eligibility
  gate (corrected: see "## Findings", row 1), the composite guid `"<blog>,<post>"`, the forced type and closed
  statuses, the find-before-insert into the archive's post table, the two
  meta rows, and the switch to the archive blog and back;
- **the cached copy count** (`get_post_count`) with its `-1` sentinel, and
  the template lookup order of `get_template`;
- **the registries** of post types and taxonomies offered on the settings
  page (`add_post_type`, `add_taxonomy`);
- **the bulk populate** (`populate_archive`): a checkpointed batch
  controller that handles at most 100 posts of one blog per request and
  answers the checkpoint for the next request.

The source as written mirrors nothing. Its `save_post` looks the types up
under a key the settings never have, and `populate_archive` passes
`save_post` only a post id. The model states both defects as written and
proves them ("## Findings"). The mirror and the bulk save are then modelled
as corrected, and the properties proved about them are properties of the
corrected code.

The network is an in-memory value: `Store.World` holds the blog ids, each
blog's post table, meta and auto-increment counter, and the *active blog*
that `$wpdb->set_blog_id` selects. `Store.Network` is the database handle
as a class whose methods change that state in place.

Each imperative operation is a method proved against a function:

- `Search.SitewideSearch.SavePost` is proved against `Mirror.SaveEffect` (with the corrected gate).
- `Admin.PopulateArchive` is proved against `PopulateSpec.Populate` (with the corrected bulk save).
- `Settings.GetSettings` and `Settings.AdminPageSave` are proved against
  `Settings.Resolve` and `Settings.Saved`.

The properties of the source are then lemmas about those functions.

PHP's loose typing is written out in module `PhpValue`:

- truthiness (`if ($v)`, `!empty($v)`);
- PHP 5's `(int)` cast of a string (leading blanks, sign, leading digits);
- loose `==` and `<` against an integer;
- `sprintf('%d', …)`.

Files (one module each): `php_value.dfy` (modules `Optional`, `PhpValue`),
`store.dfy` (`Store`), `settings.dfy` (`Settings`), `mirror.dfy` (`Mirror`),
`sitewide_search.dfy` (`Search`), `populate_spec.dfy` (`PopulateSpec`),
`admin.dfy` (`Admin`).

WordPress calls the core cannot see are inputs:

- `get_permalink` is the function `permalinkOf`.
- `locate_template` is `locate`, and `file_exists` is membership in `existing`.
- `get_site_option` is the `StoredSettings` argument, and what
  `update_site_option` stores is the result.
- The request arrays `$_POST` and `$_GET` are maps of `Value`s.

## Model

`save_post` writes exactly two meta rows, `permalink` and `post_type`,
and calls no hook of its own. Taxonomies and other metadata are not copied.

| member | source | states |
|---|---|---|
| PhpValue.Truthy | includes/admin.php:169 | what `!empty` and `if ($v)` accept: `true`, a non-zero integer, a string other than `""` and `"0"`, a non-empty array; never null |
| PhpValue.StrToInt | includes/admin.php:295 | PHP 5's `(int)` of a string: leading blanks skipped, an optional sign, then the leading decimal digits; no digits give 0 |
| PhpValue.ToInt | includes/admin.php:295 | PHP's `(int)`: null 0, booleans 0 or 1, integers themselves, strings by `StrToInt`, arrays 0 when empty and 1 otherwise |
| PhpValue.LooseEqualsInt | includes/sitewide-search.php:131 | PHP 5's `$v == $n`: null and booleans compare as booleans, strings by their leading number, arrays never equal |
| PhpValue.LooseBelowZero | includes/sitewide-search.php:99 | PHP 5's `$v < 0`: only a negative integer or a string whose leading number is negative |
| PhpValue.IntToStringRoundTrip | includes/admin.php:293-296 | casting the `%d` text of any integer back with `(int)` gives that integer, so a number survives the trip through the request |
| Store.GuidRow | includes/sitewide-search.php:154-159 | the row found is the first whose guid equals the key exactly; none is found only when no row has it |
| Store.FirstBlog | includes/admin.php:307-310 | 0 exactly when there are no blogs, otherwise an existing id no greater than any other |
| Store.NextBlogAfter | includes/admin.php:384-388 | 0 exactly when no blog id exceeds the given one, otherwise the smallest existing id above it |
| Store.Network.SwitchTo | includes/sitewide-search.php:151 | only the active blog changes, to the given id |
| Store.Network.FindByGuid | includes/sitewide-search.php:153-160 | the key of the active blog's first row with the guid, or none when there is no such row or no such table |
| Store.Network.UpdatePost | includes/sitewide-search.php:162-164 | the row with the same key is replaced on the active blog, nothing else changes, and the network stays well formed |
| Store.Network.InsertPost | includes/sitewide-search.php:165-169 | the row is appended under the auto-increment key, which is returned and advanced; nothing else changes |
| Store.Network.UpdatePostMeta | includes/sitewide-search.php:172-173 | the meta value under the key is set for that post on the active blog, and nothing else changes |
| Settings.Resolve | includes/admin.php:62-84 | `get_settings` as a value: the eight default keys, each taking the stored value when the option is an array with that key |
| Settings.Saved | includes/admin.php:157-171 | what a save stores: the current keys only, each `enable_*` flag the boolean "posted and non-empty", every other key the posted value when posted, else the current one |
| Settings.Defaults | includes/admin.php:64-73 | the defaults have exactly the eight settings keys |
| Settings.GetSettings | includes/admin.php:62-84 | exactly the eight default keys; a stored value replaces a default only when the option is an array with that key; otherwise the default stays |
| Settings.Overlay | includes/admin.php:76-80 | the loop over the keys keeps the key set, and each key takes the other array's value exactly when that array has it |
| Settings.AdminPageSave | includes/admin.php:152-174 | without the save field the option is unchanged; with it the stored settings are the current ones with posted keys overwritten and every `enable_*` flag coerced |
| Settings.MergedAndCoercedIsSaved | includes/admin.php:157-171 | the merge loop followed by the flag loop yields exactly `Saved` |
| Settings.CoerceFlags | includes/admin.php:163-171 | each listed flag becomes false when not posted and `!empty` of its value otherwise; every other key keeps its merged value |
| Settings.ResolveWithoutArray | includes/admin.php:63-75 | with nothing stored, or a non-array, the result is the defaults: archive 0, types `['post']`, taxonomies `['post_tag','category']`, all flags false |
| Settings.ResolveKeys | includes/admin.php:75-81 | a key is in the result exactly when it is a default key; a stored value under a default key is taken as is |
| Settings.SavedFlagsAreBooleans | includes/admin.php:163-171 | after a save every `enable_*` flag is the boolean "posted and non-empty" |
| Settings.SaveThenResolve | includes/admin.php:173 | reading back the option a save stored gives exactly what was stored |
| Settings.DefaultsMirrorPostsOnly | includes/admin.php:66 | under the defaults a type is configured exactly when it is `post` |
| Mirror.EncodeGuid | includes/sitewide-search.php:144 | `sprintf('%d,%d', blog, post)`: the two decimal numbers joined by a comma |
| Mirror.GuidRoundTrip | includes/sitewide-search.php:144 | the numbers before and after the first comma of the stamped guid are the blog id and the post id |
| Mirror.GuidIdentity | includes/sitewide-search.php:144 | two guids are equal exactly when blog and post are both equal |
| Mirror.MirrorCopy | includes/sitewide-search.php:143-148 | the copy's guid is the composite identity, its type is `sitewide-search`, ping and comment status are closed, and every other field is the post's |
| Mirror.CopyMeta | includes/sitewide-search.php:172-173 | the key's meta gains `permalink` and `post_type` with the given values, and all other meta is kept |
| Mirror.UpsertKey | includes/sitewide-search.php:162-169 | the key is positive; it is the fresh auto-increment key exactly when no row carries the guid, and otherwise the key of the first row that does |
| Mirror.UpsertRow | includes/sitewide-search.php:162-170 | the table stays well formed, and blog name, visibility, address and meta are unchanged |
| Mirror.UpsertCopies | includes/sitewide-search.php:153-170 | after the upsert the copy's guid is on exactly one row where it was on at most one, and the count for every other guid is unchanged |
| Mirror.UpsertStoresCopy | includes/sitewide-search.php:153-173 | the first row with the guid holds the copy under the upsert key; an existing row keeps its place, else the copy is last; the key's meta holds permalink and origin type |
| Mirror.UpsertKeepsOthers | includes/sitewide-search.php:162-173 | at most one row is added, rows with other guids are untouched, and other keys' meta is untouched |
| Mirror.CopyMetaIdempotent | includes/sitewide-search.php:172-173 | writing the two meta rows a second time changes nothing |
| Mirror.UpsertIdempotent | includes/sitewide-search.php:153-173 | upserting the same copy twice equals upserting it once |
| Mirror.Upsert | includes/sitewide-search.php:153-173 | the copy overwrites the first row with its guid under that row's key, or is appended under the auto-increment key, and the two meta rows are written under that key |
| Mirror.UpsertMirrorCount | includes/sitewide-search.php:162-170 | the number of copy-typed rows grows by one on insert or when overwriting a non-copy row, and is unchanged when overwriting a copy |
| Mirror.ArchiveReachable | includes/sitewide-search.php:131 | the archive setting is not an array, differs loosely from the current blog, and names a blog with an address |
| Mirror.Mirrors | includes/sitewide-search.php:131-142 | the gate as corrected (Findings row 1): archive reachable, post published and of a type listed under `post_types` |
| Mirror.ArchiveIsElsewhere | includes/sitewide-search.php:131 | when the gate's blog test passes, the archive blog is not the current blog |
| Mirror.SaveEffect | includes/sitewide-search.php:127-179 | with the corrected gate: well-formedness, ids and active blog are kept; a post that fails the gate changes nothing; only the archive blog can change, never the current one |
| Mirror.SaveStoresCopy | includes/sitewide-search.php:143-173 | after a mirrored save the archive's first row with the post's guid is the post's copy, and its meta holds the permalink and the original type |
| Mirror.SaveIdempotent | includes/sitewide-search.php:127-179 | saving a post twice leaves the network as saving it once |
| Mirror.SaveKeepsOneCopy | includes/sitewide-search.php:153-170 | at most one copy per (blog, post): a save leaves exactly one row for the saved post where there was at most one, and other guids' counts unchanged |
| Search.CountQuery | includes/sitewide-search.php:103-106 | the count query's answer: the decimal text of the number of copy-typed rows of the blog, or null when the blog has no table |
| Search.QueriedCountIsFinal | includes/sitewide-search.php:99-106 | the queried value is never below zero, so it is not queried again; on an existing archive it casts to the number of copy-typed rows |
| Search.GetTemplate | includes/sitewide-search.php:29-47 | the theme's located file when there is one; else `<slug>-<name>.php` from the plugin directory if it exists, else `<slug>.php` if it exists, else nothing |
| Search.SitewideSearch.constructor | includes/sitewide-search.php:57-64 | the settings are `get_settings`' result and the cached count starts at the sentinel -1 |
| Search.SitewideSearch.GetPostCount | includes/sitewide-search.php:98-110 | below zero with an archive set: the active blog becomes the archive (not restored) and the cache takes the query's answer; otherwise nothing changes and the cache is returned |
| Search.SitewideSearch.SavePost | includes/sitewide-search.php:127-179 | with the corrected gate, the network afterwards is `SaveEffect` of the network before, and stays well formed |
| Search.SitewideSearch.WriteCopy | includes/sitewide-search.php:153-173 | on the active blog, the table becomes the full upsert of the copy with its two meta rows, and nothing else changes |
| Search.SitewideSearch.WriteRow | includes/sitewide-search.php:153-170 | the row half of the upsert is applied and the key it used is returned |
| Search.TypeGateAsWritten | includes/sitewide-search.php:140 | the type test as written: membership in the list under `post_type`, false when there is no list there |
| Search.MirrorsAsWritten | includes/sitewide-search.php:131-142 | the whole gate as written: archive reachable, the type test as written, post published |
| Search.PostObjectOf | includes/sitewide-search.php:132-136 | the argument when one is given, else `$_POST` if it has `post_title`, else `$_GET` if it has one, else no object |
| Search.HasTypeAndStatus | includes/sitewide-search.php:138 | a given post has both properties; request data has them when it has both keys; no object has neither |
| Search.TypeGateAsWrittenNeverPasses | includes/sitewide-search.php:139-142 | with the settings `get_settings` produces, the gate as written rejects every post |
| Search.TypeGateCounterexample | includes/sitewide-search.php:140 | a published `post` on blog 1 with archive 2 and default types passes the corrected gate and fails the gate as written |
| Search.BulkSaveHasNoObject | includes/sitewide-search.php:132-138 | with no post argument and no `post_title` in either request array there is no post object, so the property test fails |
| PopulateSpec.ParsedStep | includes/admin.php:293-303 | the incoming checkpoint: each of `blog`, `blog_count`, `post`, `post_count` cast with `(int)`, 0 when absent |
| PopulateSpec.Batch | includes/admin.php:348-354 | the first 100 of the matched rows, or all of them when fewer |
| PopulateSpec.Populate | includes/admin.php:278-410 | one request, with the bulk save corrected (Findings row 2): disabled answer without an archive, "No blogs found" for a missing blog, else the visit of the resolved blog from the resumed checkpoint |
| PopulateSpec.VisitBlog | includes/admin.php:333-396 | a public blog is copied from; a non-public one is skipped to the next blog id with `post` 0 and one blog fewer, and the network unchanged |
| PopulateSpec.CopyFromBlog | includes/admin.php:334-374 | the blog becomes active, each batch row is saved as a full row (corrected, Findings row 2), and the answer is `CopyAnswer` |
| PopulateSpec.CopyAnswer | includes/admin.php:337-396 | with a batch: `post` the last key, `post_count` the total less the batch, status ok; without: next blog id, one blog fewer, `post` and `post_count` 0, ok exactly when there is a next blog |
| PopulateSpec.ResolveBlog | includes/admin.php:305-318 | checkpoint blog 0 means the smallest blog id; any other id is kept when it exists and becomes 0 when it does not |
| PopulateSpec.Selected | includes/admin.php:348-354 | the rows the query matches are exactly the table's published rows of a configured type with a key above the checkpoint |
| PopulateSpec.Resumed | includes/admin.php:320-331 | the checkpoint is moved onto the resolved blog, and the blog count is taken when none came in |
| PopulateSpec.SaveAll | includes/admin.php:356-364 | saving the batch's full rows (corrected, Findings row 2) keeps the network well formed, keeps ids and active blog, and changes no blog other than the archive |
| PopulateSpec.PopulateDisabled | includes/admin.php:283-291 | without an archive blog the answer is the all-zero checkpoint and the network is unchanged |
| PopulateSpec.PopulateNotFound | includes/admin.php:400-404 | a requested blog that no longer exists leaves the network unchanged and answers "No blogs found" with blog 0 and status done |
| PopulateSpec.SelectedAscending | includes/admin.php:349 | the matched rows come in ascending key order |
| PopulateSpec.SelectedNarrow | includes/admin.php:349 | raising the lower key bound keeps exactly the matched rows above the new bound |
| PopulateSpec.BatchBounds | includes/admin.php:348-354 | at most 100 rows, the start of the matched rows, all of them when they fit, ascending, each published, configured and above the checkpoint |
| PopulateSpec.BatchResumes | includes/admin.php:356-363 | resuming from the batch's last key selects exactly the rows the batch left: none copied twice, none skipped |
| PopulateSpec.PopulateOnPublic | includes/admin.php:333-335 | on an existing public blog a request is the copy step from the resumed checkpoint |
| PopulateSpec.CopyAnswerBatch | includes/admin.php:356-369 | with rows to copy the answer keeps the blog, moves `post` to the batch's last key, lowers `post_count` by the number copied, and says ok |
| PopulateSpec.PopulateBatch | includes/admin.php:356-369 | a request on a public blog with rows left copies 1 to 100 rows, `post` becomes the last key copied (above the incoming one), `post_count` drops by `post_done`, status ok |
| PopulateSpec.PopulateBatchSaves | includes/admin.php:335-363 | the network afterwards is the batch saved with the blog active, the blog itself is unchanged, and the next request selects exactly the remaining rows |
| PopulateSpec.PopulateCopiesBatch | includes/admin.php:360-361 | with the archive reachable, every batch row the mirror accepts has a copy in the archive after the request |
| PopulateSpec.PopulateAdvance | includes/admin.php:375-396 | a non-public blog or an empty batch copies nothing: `post` 0, one blog fewer, `blog` the smallest id above the current one, status ok exactly when there is one |
| PopulateSpec.SaveAllCopied | includes/admin.php:360-361 | every eligible row of a saved batch has a copy in the archive afterwards |
| PopulateSpec.SaveAllOneCopy | includes/admin.php:360-361 | saving a batch never leaves two archive rows with one guid where there was at most one |
| PopulateSpec.PopulateProgress | includes/admin.php:379-396 | every ok answer moves the checkpoint strictly forward: to a later blog, or on the same blog past at least one row still to copy |
| PopulateSpec.FieldOfDecimal | includes/admin.php:294-296 | a posted field holding the decimal text of n casts to n |
| PopulateSpec.EchoRoundTrip | includes/admin.php:293-303 | the request built from an answer parses back to exactly the answer's checkpoint and carries no `post_title` |
| PopulateSpec.FormRequestStartsAtFirstBlog | includes/admin.php:283-310 | the first request (nonce, action, chunk) parses to the all-zero checkpoint and starts at the smallest blog id |
| PopulateSpec.RunToEnd | includes/admin.php:391-396 | sending each ok answer back always ends, with an answer whose status is not ok |
| Admin.RegisteredTypeNames | includes/admin.php:92-96 | after any registrations a type is listed exactly when it was listed before or registered, unless it is `sitewide-search`, which never is |
| Admin.RegisteredTaxonomyNames | includes/admin.php:105-107 | a taxonomy is listed exactly when it was listed before or registered; its label is that of its last registration, or the old one when it was not registered |
| Admin.Registry.AddPostType | includes/admin.php:92-96 | the type map is one registration step applied to the old map |
| Admin.Registry.AddTaxonomy | includes/admin.php:105-107 | the taxonomy map is one registration step applied to the old map |
| Admin.ParseStep | includes/admin.php:293-303 | the loop over the checkpoint keys yields `ParsedStep`: each posted key cast with `(int)`, 0 when absent |
| Admin.PopulateArchive | includes/admin.php:278-410 | with the corrected bulk save (Findings row 2), the network afterwards and the answer are exactly `Populate`'s, and the network stays well formed |
| Admin.VisitBlogStep | includes/admin.php:333-396 | on an existing blog, network and answer are `PopulateSpec.VisitBlog`'s |
| Admin.CopyFromBlogStep | includes/admin.php:334-374 | on a public blog, network and answer are `PopulateSpec.CopyFromBlog`'s |
| Admin.CopyAnswerStep | includes/admin.php:337-396 | the answer built field by field equals `PopulateSpec.CopyAnswer` |
| Admin.SaveBatch | includes/admin.php:360-363 | the loop over the fetched rows, each passed as a full row (corrected, Findings row 2), leaves the network as `SaveAll` of them, in order |
| Admin.BulkPathFindsNoPost | includes/admin.php:361 | every `save_post($post->ID)` of the bulk populate runs with no post object, so the property test fails |

## Left out

- WordPress wiring is not modelled: `__setup`, `add_actions_and_filters`, `register_post_type`, menus, scripts, notices, and the HTML of the settings form.
- The empty hooks `save_taxonomy`, `delete_post` and `delete_all_posts_by_blog` are not modelled: they have no behaviour. `delete_all_posts` does not exist in the class.
- `get_blogs` (SQL building and JSON output for the blog list) is not part of this model.
- SQL text, `$wpdb->prepare`, `json_encode`, `exit`, nonces (`check_ajax_referer`, `check_admin_referer`, `wp_create_nonce`) and redirects are left out. Queries are functions on the in-memory network, and the answer is a datatype.
- The translated message strings are opaque: a `Message` records only its arguments.
- `get_blogaddress_by_id` is modelled as "the blog exists and its address is non-empty". `get_blog_option(…, 'public')` is the blog's `isPublic` flag. `get_blog_option(…, 'blogname')` is its name.
- `get_permalink`, `locate_template` and `file_exists` are inputs (`permalinkOf`, `locate`, `existing`). `load_template` is the returned file.
- Search.SitewideSearch.SavePost: takes the post record by value. The source rewrites the caller's object in place (`guid`, `post_type`, `ping_status`, `comment_status` at lines 144-148, `ID` at line 163, unset at line 166), so the caller sees the archive copy afterwards; that aliasing is not modelled.
- Search.SitewideSearch.SavePost: The objects cast from `$_POST`/`$_GET` (lines 132-136) are modelled only as far as `PostObjectOf` and `HasTypeAndStatus`; copying such a loosely typed object is not modelled.
- `wp_update_post`/`wp_insert_post` are modelled as a plain row overwrite and an append under the auto-increment key. Their hooks, sanitising and revisions are left out.
- Mirror.SaveIdempotent: holds for the plain overwrite modelled here. `wp_update_post` also resets `post_modified`, so a second save changes that timestamp; dates are not part of `Store.Post`.
- Store.Network.InsertPost: never fails. `wp_insert_post` can return 0, after which the two `update_post_meta` calls write nothing; that path is not modelled.
- Mirror.SaveKeepsOneCopy: holds for saves one after another. The lookup at lines 153-160 and the insert at lines 165-169 are not atomic, so two concurrent saves of one post can both insert; concurrency is not modelled.
- PopulateSpec.SaveAllOneCopy: holds for the sequential saves of one request, for the same reason as `Mirror.SaveKeepsOneCopy`.
- Settings.ConfiguredType: membership is strict. PHP's `in_array` without its third argument compares loosely (for example `"1"` equals `"01"`).
- Mirror.ArchiveReachable: an array stored as `archive_blog_id` is taken as never reachable. PHP 5 would compare it and cast it to 0 or 1.
- Casts of floats, integer overflow and hexadecimal or exponent strings are not modelled. `StrToInt` reads an optional sign and decimal digits.
- Mirror.CopyMeta: one value per meta key, as `update_post_meta` keeps it. Multi-valued meta is not modelled.
- PopulateSpec.PopulateNotFound: the answer's `blog` is 0 where the JSON carries the `null` that `get_var` returns.
- PopulateSpec.Populate: the `is_numeric` fallback of the step loop (lines 300-302) cannot fire after an `(int)` cast, so it is left out.
- PopulateSpec.EchoRequest: it omits the `message` and `security` fields of the answer. They play no part in the next request's checkpoint.
- PopulateSpec.RunToEnd: proves that the admin script's loop ends. It does not state a bound on the number of requests.
- The `chunk` field of the first request is accepted and ignored (`FormRequest`). The batch size is the constant 100.
- Blog switches that the source does not undo are modelled as written, and stated in the contracts. They are `populate_archive`'s switch at line 335 and `get_post_count`'s at lines 101-102.
- Mirror.Mirrors: models the corrected gate, which reads `post_types`. The gate as written reads `post_type` (line 140) and passes nothing; that is `Search.MirrorsAsWritten`, Findings row 1.
- Mirror.SaveEffect: is the effect of `save_post` with the corrected gate (Findings row 1). As written, the effect is always no change.
- Search.SitewideSearch.SavePost: performs the steps of `save_post` behind the corrected gate (Findings row 1), not the gate as written.
- Admin.SaveBatch: passes each fetched row to `SavePost`. The source passes only `$post->ID` (line 361), so as written nothing is saved; that is `Admin.BulkPathFindsNoPost`, Findings row 2.
- PopulateSpec.SaveAll: folds the corrected `save_post` over full rows (Findings rows 1 and 2). As written it leaves the network unchanged.
- PopulateSpec.CopyFromBlog: saves the batch as corrected (Findings row 2). As written, only the switch to the blog changes the network.
- PopulateSpec.Populate: its network effect is that of the corrected bulk save (Findings row 2). Its answer, the checkpoint and the messages, is as written.
- Admin.PopulateArchive: is proved equal to `PopulateSpec.Populate`, so it also models the corrected bulk save (Findings row 2).

## Findings

| source | as written | input that shows it | evidently intended | confidence | as-written member | corrected member |
|---|---|---|---|---|---|---|
| includes/sitewide-search.php:140 | the type gate reads `$this->settings['post_type']`, a key `get_settings` never returns, so `in_array` gets null and no post is ever mirrored | blogs 1 and 2, `archive_blog_id` 2, default types `['post']`, a published `post` saved on blog 1 | look the type up in `$this->settings['post_types']` | not executed | Search.TypeGateCounterexample | Mirror.SaveStoresCopy |
| includes/admin.php:361 | `save_post($post->ID)` passes no post object, and the populate request has no `post_title`, so `save_post` has no object and copies nothing | any populate request on a public blog with an eligible post, for instance the first request of the admin script | fetch each full row (the query selects only `ID`, line 349), for instance with `get_post`, and pass it, so each batch row is mirrored | not executed | Admin.BulkPathFindsNoPost | PopulateSpec.PopulateCopiesBatch |
