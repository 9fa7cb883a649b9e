# blogverse post workflow in Dafny

This project models the post workflow of the blogverse REST API (a Laravel
application) together with its JSON envelope builders and the comment
handlers. It covers:

- the `Post` model's slug generator (`createSlug`);
- tag find-or-create (`addTags`);
- the `store`, `updatePost` and `show` handlers;
- the soft delete behind `PostController::destroy`;
- the `Response` model and `BaseController` envelopes (`sendResponse`, `sendError`);
- the `Comment` model's `store` and `updateComment`.

The database is an in-memory store:

- `Posts.Blog` is a class with a `posts` table and a `tags` table, both `seq` fields. A row's id is its position.
- Rows are never removed. SoftDeletes only sets a `deleted` flag, and every slug lookup sees only live rows.
- `Comments.Board` holds the `comments` table.
- Where the source takes the first matching row, the model takes the lowest id.

Modules:

- `Text`: PHP's `trim` blank test and integer printing.
- `Requests`: request input as a map of values, and `$request->filled`.
- `Validation`: the subset of Laravel's validator the rule strings use.
  - Rules run in the order written.
  - A failed `required` stops its field.
  - `sometimes` skips an absent field.
  - Any other rule is skipped for an absent field or a blank string.
  - Each rule is characterised by its own lemma.
- `JsonEnvelope`, `Response`, `BaseController`: the envelope record and its two builders. The controller's copy is proved equal to the model's.
- `Slugs`: the suffix search of `createSlug` as a specification function.
  - It has a termination argument: a finite slug set holds only finitely many candidates, because `NatToString` is injective.
  - It is proved to give the least free `base-k`.
- `TagResolver`: the `firstOrCreate` fold as a specification function, with its id, reuse, creation, idempotence and duplicate-freedom lemmas.
- `Posts`:
  - the slug decision of `store` and `updatePost` as functions (`StoreSlug`, `UpdateSlug`);
  - mass assignment restricted to `$fillable`;
  - the `Blog` class, whose methods run the loops and the table updates and are proved against those functions.
- `Comments`: the comment rules, the forced `pending` status, and a mass assignment that writes only the fillable columns.

Three framework helpers are fields of `Framework.Helpers`: `Str::slug`, the `email` rule's address check and `is_numeric`. Each is a plain deterministic function, and nothing else is assumed about it.

In these places the model follows the code as written, which may surprise a reader:

- `createSlug` calls `firstOrFail` on the bare base slug (app/Models/Post.php:79). A title whose slug no live post has therefore does not get the bare slug: the lookup throws, and `store`/`updatePost` end in an uncaught not-found exception (`Thrown(ModelNotFound)`). The suffix search runs only when the base slug is taken. Consequently the first post, stored from a valid request without a filled slug, ends in that exception (`Posts.FirstPostNeedsExplicitSlug`, `Posts.FirstStoreThrows`).
- `updatePost` compares the raw input slug with the stored one. A different slug is normalised and checked against every live post, the post being updated included (`Posts.OwnSlugCountsAsTaken`). The check does not exclude the post itself.
- When a blank string reaches the handler as `slug` and the title is unchanged, the slug is neither filled nor replaced, so `updatePost` writes the blank string as the slug (`Posts.BlankSlugKept`, `Posts.UpdateSlug`, `Posts.EmptySlugWritten`). This is the one path on which uniqueness of live slugs is not preserved: `Posts.BlankSlugBreaksUnique` gives two live posts and a valid request on which it breaks. It exists only when a blank string reaches the handler. The application's global middleware, if installed, turns an empty string into null, and `sometimes|string` then rejects it.
- `user_id` is fillable, so `updatePost` writes whatever `user_id` the request carries, as far as the database accepts it.

## Model

| member | source | states |
|---|---|---|
| Text.NatToString | app/Models/Post.php:85 | the decimal rendering used in "$slug-$inc" is non-empty, all digits, one digit exactly below ten |
| Text.IntToString | app/Models/Post.php:126 | the string form of a number compared by the `in:` rule is non-empty and made of digits and a sign |
| Text.NatToStringInjective | app/Models/Post.php:85 | distinct suffix numbers print differently |
| Response.SendResponse | app/Models/Response.php:16-25 | code 200, status "ok", the given message, the result under data |
| Response.SendError | app/Models/Response.php:35-47 | status "error" with the message; code 404 when none is given, else the given code; data present iff the list is non-empty, and then equal to it |
| Response.ErrorListRoundTrip | app/Models/Response.php:42-44 | the message list can be read back from any error envelope, an absent data key meaning the empty list |
| Response.SuccessIsNotError | app/Models/Response.php:16-47 | no success envelope equals an error envelope |
| BaseController.SendResponse | app/Http/Controllers/API/BaseController.php:16-25 | code 200, status "ok", the given data and message |
| BaseController.SendError | app/Http/Controllers/API/BaseController.php:35-47 | status "error" and the message; default code 404, a given code passed through; data iff the list is non-empty |
| BaseController.AgreesWithResponse | app/Http/Controllers/API/BaseController.php:16-47 | the controller's builders give exactly the Response model's envelopes |
| Requests.Filled | app/Models/Post.php:133 | `$request->filled`: the key is present and holds neither null nor a blank string |
| Validation.Applies | app/Models/Post.php:121-127 | a non-implicit rule runs only on a present, non-blank value; `sometimes` skips an absent field; `required` always runs otherwise |
| Validation.Passes | app/Models/Post.php:122-126 | null passes only an `in:` list containing the empty string; a list passes only `required` and `array`; `email` passes only strings |
| Validation.FieldErrors | app/Models/Post.php:121-129 | at most one error per rule, each naming the field and a rule of it that ran and failed |
| Validation.Validate | app/Models/Post.php:121-129 | every error names a field of the rules array (see ValidateEmpty, ValidateCons) |
| Validation.AllMessages | app/Models/Post.php:130 | one message per failed rule, in order, naming field and rule |
| Validation.ValidateEmpty | app/Models/Post.php:121-129 | validation fails iff some field of the rules array has an error |
| Validation.ValidateCons | app/Models/Post.php:121-129 | a rules array passes iff its first field and the rest pass |
| Validation.RequiredString | app/Models/Post.php:122 | `required + string` passes iff the key holds a non-blank string |
| Validation.OptionalString | app/Models/Post.php:123 | `sometimes + string` passes iff the key is absent or holds a string |
| Validation.RequiredArray | app/Models/Post.php:125 | `required + array` passes iff the key holds a non-empty list |
| Validation.RequiredIn | app/Models/Post.php:126 | `required + in:…` passes iff the key holds one of the options as a string |
| Validation.RequiredEmail | app/Models/Comment.php:38 | `required + email` passes iff the key holds a non-blank string the email check accepts |
| Validation.RequiredNumeric | app/Models/Comment.php:41 | `required + numeric` passes iff the key holds a number or a non-blank numeric string |
| Validation.OptionalNumeric | app/Models/Comment.php:40 | `sometimes + numeric` passes iff the key is absent or holds a number, a numeric string or a blank string |
| Slugs.Candidate | app/Models/Post.php:85 | "$slug-$inc": the base, a hyphen, then decimal digits only |
| Slugs.CandidateInjective | app/Models/Post.php:85 | distinct suffixes give distinct candidates "$slug-$inc" |
| Slugs.CandidateNotBefore | app/Models/Post.php:84-92 | a candidate with a later suffix is not among the earlier candidates |
| Slugs.CandidatesSize | app/Models/Post.php:84-92 | suffixes lo..hi-1 give hi-lo distinct candidates |
| Slugs.CandidatesWithin | app/Models/Post.php:84-92 | candidates all found taken lie inside the taken set |
| Slugs.CandidatesBounded | app/Models/Post.php:84-92 | the search can find at most as many taken candidates as there are slugs, so the loop ends |
| Slugs.FirstFree | app/Models/Post.php:83-92 | the first suffix from k whose candidate is free: at least k, free, and every earlier suffix from 2 taken |
| Slugs.GeneratedSlug | app/Models/Post.php:76-95 | fails (firstOrFail) iff the base slug is free; a result never collides with a live slug |
| Slugs.GeneratedSlugIsLeastFree | app/Models/Post.php:83-94 | with the base taken, the result is base-k iff base-k is free and base-2..base-(k-1) are all taken |
| Slugs.TakenBaseGetsSuffixTwo | app/Models/Post.php:83-89 | a taken base whose "-2" candidate is free gives base-2 |
| TagResolver.FirstTag | app/Models/Post.php:65 | the lowest id of a tag row equal to the sought one; none iff there is no such row |
| TagResolver.FirstTagStable | app/Models/Post.php:65 | appending rows never changes which row a successful lookup finds |
| TagResolver.FindOrCreate | app/Models/Post.php:65-68 | an existing row is reused with the table unchanged; a missing one is appended; the id is the row's first occurrence |
| TagResolver.Resolve | app/Models/Post.php:63-71 | the foreach yields one id per name and only appends to the tag table (see ResolveIds for what each id is) |
| TagResolver.ResolveStep | app/Models/Post.php:64-71 | resolving a suffix of the names is resolving its first name, then the rest on the updated table |
| TagResolver.ResolveAdvance | app/Models/Post.php:63-71 | the ids collected so far followed by the rest's ids equal the whole run's ids |
| TagResolver.ResolveIds | app/Models/Post.php:61-73 | one id per name in input order; rows only appended; id i is the first row with name i and its derived slug |
| TagResolver.ResolveCreated | app/Models/Post.php:64-68 | every new row was absent before, comes from an input name, carries the derived slug and is created once |
| TagResolver.SameNameSameId | app/Models/Post.php:61-73 | repeated names get the same id |
| TagResolver.ExistingTagReused | app/Models/Post.php:65-68 | a name whose row exists gets that row's first id |
| TagResolver.ResolveCreatesNothing | app/Models/Post.php:64-68 | when every name's row exists, the table is unchanged |
| TagResolver.ResolveIdempotent | app/Models/Post.php:64-68 | a second run on the same names creates no tag and returns the same ids |
| TagResolver.ResolveKeepsDistinct | app/Models/Post.php:64-68 | a duplicate-free tag table stays duplicate-free |
| Posts.PostRulesExact | app/Models/Post.php:121-127 | the post rules array passes iff title and content are non-blank strings, slug is a string if present, tags a non-empty list, status publish or draft |
| Posts.FillPost | app/Models/Post.php:17-23 | a present fillable key sets its column to the given value (text columns take strings) and an absent one leaves it unchanged; the deleted flag and the tags are never touched |
| Posts.UpdatedRow | app/Models/Post.php:228 | after validation, `update` writes the input's title, content and status, the settled slug, and the input's `user_id` when given |
| Posts.FillReadsOnlyFillable | app/Models/Post.php:17-23 | keys outside `$fillable` have no effect on the row |
| Posts.LiveSlugs | app/Models/Post.php:15 | the slugs the SoftDeletes scope sees: every live row's slug, and only slugs some live row has |
| Posts.TagIds | app/Models/Post.php:146 | the set `attach`/`sync` leave attached holds exactly the listed ids, at most one per entry |
| Posts.FirstLive | app/Models/Post.php:137 | the lowest id of a live post with the slug; none iff no live post has it (SoftDeletes scope) |
| Posts.StoreSlug | app/Models/Post.php:133-141 | rejected as taken iff a filled slug normalises to a live slug; not-found iff no slug and the title's slug is free; otherwise the normalised or generated slug, never a live one |
| Posts.UpdateSlug | app/Models/Post.php:212-226 | no slug and same title keeps the slug; no slug and a new title regenerates; a filled slug equal to the stored one is kept; another is normalised and rejected iff any live post has it; a present blank slug with the same title is written as given; the result is the old slug or unused except on that blank-slug path |
| Posts.EmptySlugWritten | app/Models/Post.php:200-228 | a request with the unchanged title, an empty slug and valid content, tags and status passes validation, and its slug decision is the empty string, which `update` then writes |
| Posts.BlankSlugBreaksUnique | app/Models/Post.php:200-228 | with live posts slugged "" and "x", a valid update of the second keeping its title with an empty slug is given "", and the table it leaves has two live posts with the same slug |
| Posts.OwnSlugCountsAsTaken | app/Models/Post.php:220-222 | a new slug that normalises to the post's own current slug is rejected |
| Posts.FirstPostNeedsExplicitSlug | app/Models/Post.php:78-81 | on an empty table, the slug decision of `store` without a filled slug is the `firstOrFail` failure |
| Posts.FirstStoreThrows | app/Models/Post.php:118-141 | storing into a fresh blog from a valid request without a filled slug ends in the uncaught not-found exception |
| Posts.AppendKeepsUnique | app/Models/Post.php:145 | adding a row with an unused slug keeps live slugs unique and adds exactly its slug |
| Posts.ReplaceKeepsUnique | app/Models/Post.php:228 | rewriting a live row with its own or an unused slug keeps live slugs unique |
| Posts.DeleteFreesSlug | app/Http/Controllers/API/PostController.php:73-78 | soft-deleting a live row keeps live slugs unique and frees its slug |
| Posts.Blog.CreateSlug | app/Models/Post.php:76-95 | the while loop returns exactly GeneratedSlug of the normalised title over the live slugs |
| Posts.Blog.AddTags | app/Models/Post.php:61-74 | the foreach yields exactly Resolve over the tag table: the new table and an id per name whose row is that name's tag; posts unchanged |
| Posts.Blog.SettleSlug | app/Models/Post.php:133-141 | store's slug branch returns exactly StoreSlug over the live slugs |
| Posts.Blog.CreateAndAttach | app/Models/Post.php:145-146 | the row is appended with exactly the resolved tag ids attached, and the tag table is the resolved one |
| Posts.Blog.Store | app/Models/Post.php:118-149 | 422 with the messages for invalid input, 422 "Slug already exists." for a taken slug, the not-found exception for a free base, each writing nothing; otherwise one new post with the settled slug, the requester as owner and exactly the resolved tags; live slugs stay unique |
| Posts.Blog.SettleUpdateSlug | app/Models/Post.php:212-226 | updatePost's slug branches return exactly UpdateSlug for the bound post |
| Posts.Blog.UpdateAndSync | app/Models/Post.php:228-229 | the row is mass-assigned and its tag set replaced by exactly the resolved ids |
| Posts.Blog.UpdatePost | app/Models/Post.php:197-232 | 404 with the messages for invalid input; 422 for a taken slug; the not-found exception; otherwise the one row rewritten with the settled slug, the input fields and exactly the resolved tags; uniqueness kept off the blank-slug path |
| Posts.Blog.Show | app/Models/Post.php:157-166 | 200 iff a live post has the slug, then that post with the lowest id, whose tag ids name tag rows; otherwise the default 404 "Post not found." |
| Posts.Blog.Destroy | app/Http/Controllers/API/PostController.php:73-78 | the row is flagged deleted, nothing else changes; with unique live slugs its slug is freed and uniqueness kept |
| Comments.StoreRulesExact | app/Models/Comment.php:36-42 | the store rules pass iff name and comment are non-blank strings, email is accepted, post_id is numeric and reply_to, when present, numeric or blank |
| Comments.UpdateRulesExact | app/Models/Comment.php:68-75 | the update rules pass iff the store rules do and status is pending or publish |
| Comments.Fill | app/Models/Comment.php:15 | mass assignment writes exactly the fillable keys given and keeps the other columns |
| Comments.FillIgnoresOthers | app/Models/Comment.php:15 | a key outside `$fillable` has no effect |
| Comments.Board.Store | app/Models/Comment.php:33-56 | 422 for invalid input, 422 "Failed to add comment." with the exception's message on a failing create, nothing written either way; otherwise one new row whose status is pending and whose other fillable columns are the input's |
| Comments.Board.UpdateComment | app/Models/Comment.php:65-83 | 422 and no change for invalid input; otherwise only that row changes, its fillable columns taking the input's values and its status being pending or publish |

## Left out

- `Str::slug`, the email address check and `is_numeric` are framework code that is not modelled. Each is an uninterpreted deterministic function, so properties such as idempotent normalisation are not stated.
- PHP's loose `==`/`!=` between strings, which compares numeric strings as numbers, is not modelled: title and slug comparisons are exact.
- The database's collation and string comparison are exact equality here.
- Request values are strings, integers, lists of strings or null. Booleans, floats and nested arrays are left out.
- Validation messages are the keys `field.rule`. The framework's language files are not part of this model.
- Query order: an unordered `first()` is taken to return the lowest id.
- Timestamps and the `fresh('tags')` reload: the reply carries the row as written.
- The `comments` eager-load of `show` (app/Models/Post.php:159) is left out: `PostView` carries the post row and its tag ids, not its comments, because the comments table is a separate `Comments.Board`.
- Pivot-row duplication when `attach` receives a repeated id is left out, because the tag association is a set.
- `getAllPosts` and `search` are pagination and an SQL `LIKE` query. The tag, user, registration and comment-listing endpoints, the middleware and the routes are framework plumbing and are left out.
- The global request middleware (trimming strings, turning empty strings into null) is not part of this model. Input is the request before that middleware, as if it were absent. With the middleware, the blank `slug` of `updatePost` and the blank `reply_to` that `Validation.OptionalNumeric` accepts would arrive as null, and `string`/`numeric` would reject them.
- Route model binding is a precondition: `UpdatePost` and `Destroy` take the id of a live post, and `UpdateComment` an existing comment id.
- The authenticated user is a parameter of `Store`. The exception `Comment::create` may raise is a parameter of `Comments.Board.Store`.
- Concurrency, transactions and database unique constraints are left out, because each request runs alone.
- A write the database refuses is modelled only for `Comment::create`, the one write the source catches (app/Models/Comment.php:50-55). `$comment->update` (app/Models/Comment.php:81), `Post::create` (app/Models/Post.php:145), `$post->update` (app/Models/Post.php:228), tag creation by `firstOrCreate`, and `attach`/`sync` are taken to succeed. In the program such a failure escapes as an uncaught exception, so the success envelopes of `Comments.Board.UpdateComment`, `Posts.Blog.Store` and `Posts.Blog.UpdatePost` hold only when the database accepts every write.
- `CommentController::show` and `destroy` are one-line lookups and deletions and are left out.
